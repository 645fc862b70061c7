/**
 Base64 and base64url, sections 4 and 5 of RFC 4648, in the three forms the program meets: Node's
 encoder, Node's lenient decoder, and the strict decoder behind the `base64 -d` command.
 */
module Base64 {
  import opened Common
  import opened Utf8

  newtype sextet = n: int | 0 <= n < 64

  /** Three bytes become four sextets; one or two left over are padded with zero bits. */
  function Pack(bs: seq<byte>): seq<sextet> {
    if bs == [] then []
    else
      var a := bs[0] as int;
      if |bs| == 1 then [(a / 4) as sextet, (a % 4 * 16) as sextet]
      else
        var b := bs[1] as int;
        if |bs| == 2 then [(a / 4) as sextet, (a % 4 * 16 + b / 16) as sextet, (b % 16 * 4) as sextet]
        else
          var c := bs[2] as int;
          [(a / 4) as sextet, (a % 4 * 16 + b / 16) as sextet, (b % 16 * 4 + c / 64) as sextet, (c % 64) as sextet]
          + Pack(bs[3..])
  }

  /** The inverse on whole bytes: a single sextet left over, and the spare low bits, are dropped. */
  function Unpack(xs: seq<sextet>): seq<byte> {
    if |xs| < 2 then []
    else
      var first := (xs[0] as int * 4 + xs[1] as int / 16) as byte;
      if |xs| == 2 then [first]
      else
        var second := (xs[1] as int % 16 * 16 + xs[2] as int / 4) as byte;
        if |xs| == 3 then [first, second]
        else [first, second, (xs[2] as int % 4 * 64 + xs[3] as int) as byte] + Unpack(xs[4..])
  }

  lemma {:induction false} UnpackPack(bs: seq<byte>)
    ensures Unpack(Pack(bs)) == bs
  {
    if |bs| >= 3 {
      UnpackPack(bs[3..]);
      assert Pack(bs)[4..] == Pack(bs[3..]);
    }
  }

  function Char(url: bool, x: sextet): char {
    var n := x as int;
    if n < 26 then ('A' as int + n) as char
    else if n < 52 then ('a' as int + n - 26) as char
    else if n < 62 then ('0' as int + n - 52) as char
    else if n == 62 then if url then '-' else '+'
    else if url then '_' else '/'
  }

  /** The value of a digit of either alphabet. */
  function Digit(c: char): Option<sextet> {
    var n := c as int;
    if 'A' <= c <= 'Z' then Some((n - 'A' as int) as sextet)
    else if 'a' <= c <= 'z' then Some((n - 'a' as int + 26) as sextet)
    else if '0' <= c <= '9' then Some((n - '0' as int + 52) as sextet)
    else if c == '+' || c == '-' then Some(62)
    else if c == '/' || c == '_' then Some(63)
    else None
  }

  function Chars(url: bool, xs: seq<sextet>): (text: string)
    ensures |text| == |xs| && forall i :: 0 <= i < |xs| ==> text[i] == Char(url, xs[i])
  {
    if xs == [] then "" else [Char(url, xs[0])] + Chars(url, xs[1..])
  }

  function Padding(n: nat): string {
    if n % 3 == 1 then "==" else if n % 3 == 2 then "=" else ""
  }

  /** `buffer.toString("base64")`. */
  function Encode(bs: seq<byte>): string {
    Chars(false, Pack(bs)) + Padding(|bs|)
  }

  /** `buffer.toString("base64url")`: the other alphabet, and no padding. */
  function EncodeUrl(bs: seq<byte>): string {
    Chars(true, Pack(bs))
  }

  /** The digits Node's decoder sees: it stops at the first `=` and skips whatever is not a digit. */
  function Digits(text: string): seq<sextet> {
    if text == [] || text[0] == '=' then []
    else if Digit(text[0]).Some? then [Digit(text[0]).value] + Digits(text[1..])
    else Digits(text[1..])
  }

  /** `Buffer.from(text, "base64")`, which reads either alphabet. */
  function Decode(text: string): seq<byte> {
    Unpack(Digits(text))
  }

  lemma CharDigit(url: bool, x: sextet)
    ensures Digit(Char(url, x)) == Some(x) && Char(url, x) != '='
    ensures Standard(Char(false, x)) == Some(x)
  {
  }

  lemma DigitsStep(c: char, rest: string)
    requires c != '=' && Digit(c).Some?
    ensures Digits([c] + rest) == [Digit(c).value] + Digits(rest)
  {
    assert ([c] + rest)[1..] == rest;
  }

  lemma HeadTail(xs: seq<sextet>, rest: seq<sextet>)
    requires xs != []
    ensures [xs[0]] + (xs[1..] + rest) == xs + rest
  {
  }

  lemma CharsStep(url: bool, xs: seq<sextet>, rest: string)
    requires xs != []
    ensures Chars(url, xs) + rest == [Char(url, xs[0])] + (Chars(url, xs[1..]) + rest)
  {
  }

  lemma {:induction false} DigitsOfChars(url: bool, xs: seq<sextet>, rest: string)
    ensures Digits(Chars(url, xs) + rest) == xs + Digits(rest)
    decreases |xs|
  {
    if xs == [] {
      assert Chars(url, xs) + rest == rest && xs + Digits(rest) == Digits(rest);
    } else {
      hide *;
      CharsStep(url, xs, rest);
      CharDigit(url, xs[0]);
      DigitsStep(Char(url, xs[0]), Chars(url, xs[1..]) + rest);
      DigitsOfChars(url, xs[1..], rest);
      HeadTail(xs, Digits(rest));
    }
  }

  /** Node reads back every byte string from its padded encoding and from its base64url encoding. */
  lemma DecodeEncode(bs: seq<byte>)
    ensures Decode(Encode(bs)) == bs && Decode(EncodeUrl(bs)) == bs
  {
    var xs := Pack(bs);
    DigitsOfChars(false, xs, Padding(|bs|));
    DigitsOfChars(true, xs, "");
    assert Chars(true, xs) + "" == Chars(true, xs);
    assert xs + [] == xs;
    UnpackPack(bs);
  }

  /** The runtime's decoder passes over what is no digit of either alphabet, and stops at the first `=`. */
  lemma {:induction false} DecodeSkips(text: string, c: char, rest: string)
    requires Digit(c).None?
    ensures c != '=' ==> Decode(text + [c] + rest) == Decode(text + rest)
    ensures c == '=' ==> Decode(text + [c] + rest) == Decode(text)
    ensures c != '=' ==> Digits(text + [c] + rest) == Digits(text + rest)
    ensures c == '=' ==> Digits(text + [c] + rest) == Digits(text)
    decreases |text|
  {
    var whole := text + [c] + rest;
    if text == "" {
      assert whole[1..] == rest && text + rest == rest;
    } else {
      assert whole[1..] == text[1..] + [c] + rest && (text + rest)[1..] == text[1..] + rest;
      DecodeSkips(text[1..], c, rest);
    }
  }

  /** The strict decoder: groups of four digits of the standard alphabet, `=` only to fill the last group. */
  function DecodeStrict(text: string): Option<seq<byte>> {
    if text == [] then Some([])
    else if |text| < 4 || Standard(text[0]).None? || Standard(text[1]).None? then None
    else
      var a, b := Standard(text[0]).value, Standard(text[1]).value;
      if text[2..] == "==" then Some(Unpack([a, b]))
      else if Standard(text[2]).None? then None
      else if text[3..] == "=" then Some(Unpack([a, b, Standard(text[2]).value]))
      else if Standard(text[3]).None? then None
      else
        var rest := DecodeStrict(text[4..]);
        if rest.None? then None
        else Some(Unpack([a, b, Standard(text[2]).value, Standard(text[3]).value]) + rest.value)
  }

  function Standard(c: char): Option<sextet> {
    if c == '-' || c == '_' then None else Digit(c)
  }

  /** The command line decoder reads back every encoding. */
  lemma {:induction false} StrictDecodeEncode(bs: seq<byte>)
    ensures DecodeStrict(Encode(bs)) == Some(bs)
    decreases |bs|
  {
    if 0 < |bs| < 3 {
      LastGroup(bs);
    } else if 3 <= |bs| {
      FullGroup(bs);
      StrictDecodeEncode(bs[3..]);
      assert bs == bs[..3] + bs[3..];
    }
  }

  lemma LastGroup(bs: seq<byte>)
    requires 0 < |bs| < 3
    ensures DecodeStrict(Encode(bs)) == Some(bs)
  {
    var xs, text := Pack(bs), Encode(bs);
    hide Digit, Char, Standard;
    forall i | 0 <= i < |xs| ensures Standard(text[i]) == Some(xs[i]) && text[i] != '=' {
      CharDigit(false, xs[i]);
    }
    assert text[|xs|..] == Padding(|bs|);
    UnpackPack(bs);
    if |bs| == 1 {
      assert [xs[0], xs[1]] == xs;
    } else {
      assert [xs[0], xs[1], xs[2]] == xs;
      assert text[2] == Char(false, xs[2]);
    }
  }

  lemma FullGroup(bs: seq<byte>)
    requires 3 <= |bs|
    ensures var rest := DecodeStrict(Encode(bs[3..]));
            DecodeStrict(Encode(bs)) == if rest.None? then None else Some(bs[..3] + rest.value)
  {
    var xs, text := Pack(bs), Encode(bs);
    assert xs == Pack(bs[..3]) + Pack(bs[3..]);
    hide Digit, Char, Standard, Unpack, Pack;
    UnpackPack(bs[..3]);
    forall i | 0 <= i < 4 ensures Standard(text[i]) == Some(xs[i]) && text[i] != '=' {
      CharDigit(false, xs[i]);
    }
    assert [xs[0], xs[1], xs[2], xs[3]] == Pack(bs[..3]);
    EncodeTail(bs);
    hide Padding, Encode, Chars;
    assert text[2..][0] == text[2] && text[3..][0] == text[3];
  }

  lemma EncodeTail(bs: seq<byte>)
    requires 3 <= |bs|
    ensures 4 <= |Encode(bs)| && Encode(bs)[4..] == Encode(bs[3..])
  {
    var xs := Pack(bs);
    assert xs[4..] == Pack(bs[3..]);
    hide Pack, Char;
    assert Chars(false, xs)[4..] == Chars(false, xs[4..]);
    assert |bs| % 3 == |bs[3..]| % 3;
    assert Encode(bs)[4..] == Chars(false, xs)[4..] + Padding(|bs|);
  }

  /** The characters of an encoding: no white space, no quote, nothing a shell or a trim would touch. */
  predicate IsBase64Char(c: char) {
    'A' <= c <= 'Z' || 'a' <= c <= 'z' || '0' <= c <= '9' || c == '+' || c == '/' || c == '='
  }

  lemma EncodeAlphabet(bs: seq<byte>)
    ensures forall c :: c in Encode(bs) ==> IsBase64Char(c)
  {
    forall c | c in Encode(bs) ensures IsBase64Char(c) {
      if c in Chars(false, Pack(bs)) {
      } else {
        assert c in Padding(|bs|);
      }
    }
  }

  lemma {:induction false} PackLength(bs: seq<byte>)
    ensures |Pack(bs)| + |Padding(|bs|)| == (|bs| + 2) / 3 * 4
  {
    if |bs| >= 3 {
      PackStep(bs);
      PackLength(bs[3..]);
      hide Pack;
      ThreeMore(|bs|);
    }
  }

  lemma PackStep(bs: seq<byte>)
    requires |bs| >= 3
    ensures |Pack(bs)| == 4 + |Pack(bs[3..])|
  {
  }

  lemma ThreeMore(n: nat)
    requires n >= 3
    ensures (n + 2) / 3 * 4 == (n - 3 + 2) / 3 * 4 + 4 && Padding(n) == Padding(n - 3)
  {
    assert (n + 2) / 3 == (n - 1) / 3 + 1 && n % 3 == (n - 3) % 3;
  }

  lemma EncodeLength(bs: seq<byte>)
    ensures |Encode(bs)| == (|bs| + 2) / 3 * 4
  {
    PackLength(bs);
    hide Pack, Chars, Padding;
  }

  /** Distinct byte strings have distinct encodings even when their padding is cut off. */
  lemma PackInjective(a: seq<byte>, b: seq<byte>)
    requires Pack(a) == Pack(b)
    ensures a == b
  {
    UnpackPack(a);
    UnpackPack(b);
  }

  // ---------------------------------------------- the tables of RFC 4648

  const CAPITALS: string := "ABCDEFGHIJKLM" + "NOPQRSTUVWXYZ"
  const SMALLS: string := "abcdefghijklm" + "nopqrstuvwxyz"
  const NUMERALS: string := "0123456789"
  const STANDARD: string := CAPITALS + SMALLS + NUMERALS + "+/"
  const URL_SAFE: string := CAPITALS + SMALLS + NUMERALS + "-_"

  /** `c` is the digit for `x` in an alphabet. */
  predicate IsDigit(alphabet: string, x: int, c: char) {
    0 <= x < 64 && |alphabet| == 64 && c == alphabet[x]
  }

  /**
   `text` is the encoding of `bs` that section 4 of RFC 4648 describes: of every three bytes the 24-bit number
   they are is written with four digits, and a shorter last group is one with zero bits, then padded if at all.
   */
  ghost predicate Encodes(alphabet: string, padded: bool, bs: seq<byte>, text: string) {
    if bs == [] then text == ""
    else if |bs| == 1 then
      exists x0, x1 :: |text| == (if padded then 4 else 2)
        && IsDigit(alphabet, x0, text[0]) && IsDigit(alphabet, x1, text[1]) && text[2..] == (if padded then "==" else "")
        && x0 * 64 + x1 == bs[0] as int * 16
    else if |bs| == 2 then
      exists x0, x1, x2 :: |text| == (if padded then 4 else 3)
        && IsDigit(alphabet, x0, text[0]) && IsDigit(alphabet, x1, text[1]) && IsDigit(alphabet, x2, text[2])
        && text[3..] == (if padded then "=" else "")
        && (x0 * 64 + x1) * 64 + x2 == (bs[0] as int * 256 + bs[1] as int) * 4
    else
      |text| >= 4 && Encodes(alphabet, padded, bs[3..], text[4..])
      && exists x0, x1, x2, x3 ::
        IsDigit(alphabet, x0, text[0]) && IsDigit(alphabet, x1, text[1]) && IsDigit(alphabet, x2, text[2]) && IsDigit(alphabet, x3, text[3])
        && ((x0 * 64 + x1) * 64 + x2) * 64 + x3 == (bs[0] as int * 256 + bs[1] as int) * 256 + bs[2] as int
  }

  function Alphabet(url: bool): string {
    if url then URL_SAFE else STANDARD
  }

  lemma LetterAt(n: nat)
    requires n < 26
    ensures CAPITALS[n] as int == 'A' as int + n && SMALLS[n] as int == 'a' as int + n
  {
    if n < 13 {
      assert n == 0 || n == 1 || n == 2 || n == 3 || n == 4 || n == 5 || n == 6 || n == 7 || n == 8 || n == 9 || n == 10 || n == 11 || n == 12;
    } else {
      assert n == 13 || n == 14 || n == 15 || n == 16 || n == 17 || n == 18 || n == 19 || n == 20 || n == 21 || n == 22 || n == 23 || n == 24 || n == 25;
    }
  }

  lemma NumeralAt(n: nat)
    requires n < 10
    ensures NUMERALS[n] as int == '0' as int + n
  {
    assert n == 0 || n == 1 || n == 2 || n == 3 || n == 4 || n == 5 || n == 6 || n == 7 || n == 8 || n == 9;
  }

  /** `c` is the digit for `x` in the alphabet with these parts. */
  lemma DigitOfParts(a: string, b: string, c: string, d: string, url: bool, x: sextet)
    requires |a| == |b| == 26 && |c| == 10 && |d| == 2
    requires x < 26 ==> a[x as int] as int == 'A' as int + x as int
    requires 26 <= x < 52 ==> b[x as int - 26] as int == 'a' as int + x as int - 26
    requires 52 <= x < 62 ==> c[x as int - 52] as int == '0' as int + x as int - 52
    requires d[0] == (if url then '-' else '+') && d[1] == (if url then '_' else '/')
    ensures IsDigit(a + b + c + d, x as int, Char(url, x))
  {
  }

  lemma CharIsDigit(url: bool, x: sextet)
    ensures IsDigit(Alphabet(url), x as int, Char(url, x))
  {
    var n := x as int;
    if n < 26 {
      LetterAt(n);
    } else if n < 52 {
      LetterAt(n - 26);
    } else if n < 62 {
      NumeralAt(n - 52);
    }
    hide IsDigit, Char;
    DigitOfParts(CAPITALS, SMALLS, NUMERALS, if url then "-_" else "+/", url, x);
  }

  /** The digits of an encoding, one for each packed sextet. */
  lemma DigitsAt(url: bool, bs: seq<byte>, padding: string)
    ensures var text := Chars(url, Pack(bs)) + padding;
            && |text| == |Pack(bs)| + |padding|
            && forall i :: 0 <= i < |Pack(bs)| ==> IsDigit(Alphabet(url), Pack(bs)[i] as int, text[i])
  {
    hide Pack;
    var xs := Pack(bs);
    forall i | 0 <= i < |xs| ensures IsDigit(Alphabet(url), xs[i] as int, (Chars(url, xs) + padding)[i]) {
      CharIsDigit(url, xs[i]);
    }
  }

  lemma GroupOfThree(a: int, b: int, c: int)
    requires 0 <= a < 256 && 0 <= b < 256 && 0 <= c < 256
    ensures ((a / 4 * 64 + (a % 4 * 16 + b / 16)) * 64 + (b % 16 * 4 + c / 64)) * 64 + c % 64 == (a * 256 + b) * 256 + c
    ensures (a / 4 * 64 + (a % 4 * 16 + b / 16)) * 64 + b % 16 * 4 == (a * 256 + b) * 4
    ensures a / 4 * 64 + a % 4 * 16 == a * 16
  {
  }

  lemma {:induction false} CharsEncode(url: bool, padded: bool, bs: seq<byte>)
    ensures Encodes(Alphabet(url), padded, bs, Chars(url, Pack(bs)) + (if padded then Padding(|bs|) else ""))
  {
    var padding := if padded then Padding(|bs|) else "";
    DigitsAt(url, bs, padding);
    if |bs| >= 3 {
      CharsEncode(url, padded, bs[3..]);
      FullGroupEncodes(url, padded, bs);
    } else if bs != [] {
      ShortGroupEncodes(url, padded, bs);
    }
  }

  lemma ShortGroupEncodes(url: bool, padded: bool, bs: seq<byte>)
    requires 1 <= |bs| <= 2
    ensures Encodes(Alphabet(url), padded, bs, Chars(url, Pack(bs)) + (if padded then Padding(|bs|) else ""))
  {
    var xs := Pack(bs);
    DigitsAt(url, bs, if padded then Padding(|bs|) else "");
    GroupOfThree(bs[0] as int, if |bs| == 2 then bs[1] as int else 0, 0);
    hide Chars, IsDigit, Alphabet;
    var text := Chars(url, xs) + (if padded then Padding(|bs|) else "");
    assert text[|xs|..] == if padded then Padding(|bs|) else "";
    assert IsDigit(Alphabet(url), xs[0] as int, text[0]) && IsDigit(Alphabet(url), xs[1] as int, text[1]);
    assert |bs| == 2 ==> IsDigit(Alphabet(url), xs[2] as int, text[2]);
  }

  lemma FullGroupEncodes(url: bool, padded: bool, bs: seq<byte>)
    requires |bs| >= 3
    requires Encodes(Alphabet(url), padded, bs[3..], Chars(url, Pack(bs[3..])) + (if padded then Padding(|bs[3..]|) else ""))
    ensures Encodes(Alphabet(url), padded, bs, Chars(url, Pack(bs)) + (if padded then Padding(|bs|) else ""))
  {
    var xs := Pack(bs);
    DigitsAt(url, bs, if padded then Padding(|bs|) else "");
    GroupOfThree(bs[0] as int, bs[1] as int, bs[2] as int);
    PackRest(url, bs);
    var text := Chars(url, xs) + (if padded then Padding(|bs|) else "");
    assert text[4..] == Chars(url, xs)[4..] + (if padded then Padding(|bs|) else "");
    hide Chars, IsDigit, Alphabet, Padding;
    assert IsDigit(Alphabet(url), xs[0] as int, text[0]) && IsDigit(Alphabet(url), xs[1] as int, text[1]);
    assert IsDigit(Alphabet(url), xs[2] as int, text[2]) && IsDigit(Alphabet(url), xs[3] as int, text[3]);
  }

  lemma PackRest(url: bool, bs: seq<byte>)
    requires |bs| >= 3
    ensures |Pack(bs)| >= 4 && Pack(bs)[4..] == Pack(bs[3..]) && Chars(url, Pack(bs))[4..] == Chars(url, Pack(bs[3..]))
    ensures Padding(|bs|) == Padding(|bs[3..]|)
  {
    assert |Chars(url, Pack(bs))[4..]| == |Chars(url, Pack(bs[3..]))|;
  }

  /** Both encoders write what the standard says. */
  lemma EncodersFollowTheTables(bs: seq<byte>)
    ensures Encodes(STANDARD, true, bs, Encode(bs)) && Encodes(URL_SAFE, false, bs, EncodeUrl(bs))
  {
    CharsEncode(false, true, bs);
    CharsEncode(true, false, bs);
    assert Chars(true, Pack(bs)) + "" == Chars(true, Pack(bs));
  }
}
