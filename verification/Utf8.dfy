/**
 UTF-8 as `Buffer.from(text, "utf8")` and `buffer.toString("utf8")` use it. Text is a sequence of
 Unicode scalar values; decoding puts one U+FFFD in place of each maximal ill-formed part, so it is total.
 The well-formed sequences are those of sections 3 and 4 of RFC 3629.
 */
module Utf8 {

  newtype byte = n: int | 0 <= n < 256

  const REPLACEMENT: char := '\U{FFFD}'

  function EncodeScalar(c: char): (bs: seq<byte>)
    ensures 1 <= |bs| <= 4
  {
    var n := c as int;
    if n < 0x80 then [n as byte]
    else if n < 0x800 then [(0xC0 + n / 64) as byte, (0x80 + n % 64) as byte]
    else if n < 0x1_0000 then [(0xE0 + n / 4096) as byte, (0x80 + n / 64 % 64) as byte, (0x80 + n % 64) as byte]
    else [(0xF0 + n / 262144) as byte, (0x80 + n / 4096 % 64) as byte, (0x80 + n / 64 % 64) as byte, (0x80 + n % 64) as byte]
  }

  /** `bs` is the encoding of `c` in the table of section 3 of RFC 3629, its bits read as a number. */
  predicate InTable(c: char, bs: seq<byte>) {
    var n := c as int;
    var tail := (i: nat) requires i < |bs| => bs[i] as int - 0x80;
    (forall i :: 1 <= i < |bs| ==> 0x80 <= bs[i] < 0xC0)
    && (if n <= 0x7F then |bs| == 1 && bs[0] as int == n
        else if n <= 0x7FF then |bs| == 2 && 0xC0 <= bs[0] < 0xE0 && n == (bs[0] as int - 0xC0) * 64 + tail(1)
        else if n <= 0xFFFF then
          |bs| == 3 && 0xE0 <= bs[0] < 0xF0 && n == ((bs[0] as int - 0xE0) * 64 + tail(1)) * 64 + tail(2)
        else
          |bs| == 4 && 0xF0 <= bs[0] < 0xF8
          && n == (((bs[0] as int - 0xF0) * 64 + tail(1)) * 64 + tail(2)) * 64 + tail(3))
  }

  lemma ScalarInTable(c: char)
    ensures InTable(c, EncodeScalar(c))
  {
    Digits64(c as int);
  }

  function Encode(text: string): seq<byte> {
    if text == [] then [] else EncodeScalar(text[0]) + Encode(text[1..])
  }

  predicate IsTail(b: byte) {
    0x80 <= b < 0xC0
  }

  /** Whether `second` may follow the lead byte of a three or four byte sequence. */
  predicate SecondFits(lead: byte, second: byte) {
    IsTail(second)
    && (lead == 0xE0 ==> 0xA0 <= second)
    && (lead == 0xED ==> second < 0xA0)
    && (lead == 0xF0 ==> 0x90 <= second)
    && (lead == 0xF4 ==> second < 0x90)
  }

  /** The length of the well-formed sequence at the front, or 0 when there is none. */
  function ValidLength(bs: seq<byte>): (n: nat)
    ensures n <= 4 && n <= |bs|
  {
    if bs == [] then 0
    else if bs[0] < 0x80 then 1
    else if 0xC2 <= bs[0] < 0xE0 && 2 <= |bs| && IsTail(bs[1]) then 2
    else if 0xE0 <= bs[0] < 0xF0 && 3 <= |bs| && SecondFits(bs[0], bs[1]) && IsTail(bs[2]) then 3
    else if 0xF0 <= bs[0] < 0xF5 && 4 <= |bs| && SecondFits(bs[0], bs[1]) && IsTail(bs[2]) && IsTail(bs[3]) then 4
    else 0
  }

  /** How many bytes one U+FFFD stands for: the longest beginning of some well-formed sequence. */
  function IllFormedLength(bs: seq<byte>): (n: nat)
    requires bs != [] && ValidLength(bs) == 0
    ensures 1 <= n <= |bs|
  {
    if 0xE0 <= bs[0] < 0xF5 && 2 <= |bs| && SecondFits(bs[0], bs[1]) then
      if 0xF0 <= bs[0] && 3 <= |bs| && IsTail(bs[2]) then 3 else 2
    else 1
  }

  function DecodeScalar(bs: seq<byte>): char
    requires ValidLength(bs) == |bs| != 0
  {
    var b := (i: nat) requires i < |bs| => bs[i] as int;
    if |bs| == 1 then b(0) as char
    else if |bs| == 2 then ((b(0) - 0xC0) * 64 + b(1) - 0x80) as char
    else if |bs| == 3 then ((b(0) - 0xE0) * 4096 + (b(1) - 0x80) * 64 + b(2) - 0x80) as char
    else ((b(0) - 0xF0) * 262144 + (b(1) - 0x80) * 4096 + (b(2) - 0x80) * 64 + b(3) - 0x80) as char
  }

  function Decode(bs: seq<byte>): string {
    var n := ValidLength(bs);
    if bs == [] then ""
    else if n != 0 then [DecodeScalar(bs[..n])] + Decode(bs[n..])
    else [REPLACEMENT] + Decode(bs[IllFormedLength(bs)..])
  }

  /** `bs` is the beginning of some well-formed sequence that goes on after it. */
  ghost predicate BeginsSequence(bs: seq<byte>) {
    exists tail :: tail != [] && ValidLength(bs + tail) == |bs| + |tail|
  }

  /** One U+FFFD stands for a byte that begins nothing, or for the longest beginning of a well-formed sequence. */
  lemma IllFormedIsMaximal(bs: seq<byte>)
    requires bs != [] && ValidLength(bs) == 0
    ensures var n := IllFormedLength(bs);
            && (n == 1 || BeginsSequence(bs[..n]))
            && forall m :: n < m <= |bs| ==> !BeginsSequence(bs[..m])
  {
    var n := IllFormedLength(bs);
    if n > 1 {
      var tail: seq<byte> := if bs[0] >= 0xF0 && n == 2 then [0x80, 0x80] else [0x80];
      assert ValidLength(bs[..n] + tail) == n + |tail|;
    }
    forall m, tail | n < m <= |bs| && tail != [] ensures ValidLength(bs[..m] + tail) != m + |tail| {
      var all := bs[..m] + tail;
      assert forall i :: 0 <= i < m ==> all[i] == bs[i];
    }
  }

  /** Base 64 digits of a scalar value, and the value they stand for. */
  lemma DivMod64(hi: int, lo: int)
    requires 0 <= hi && 0 <= lo < 64
    ensures (hi * 64 + lo) / 64 == hi && (hi * 64 + lo) % 64 == lo
  {
  }

  lemma Digits64(n: int)
    requires 0 <= n < 0x20_0000
    ensures n == n / 64 * 64 + n % 64 && n / 64 == n / 4096 * 64 + n / 64 % 64
    ensures n / 4096 == n / 262144 * 64 + n / 4096 % 64
    ensures 0 <= n % 64 < 64 && 0 <= n / 64 % 64 < 64 && 0 <= n / 4096 % 64 < 64
    ensures 0 <= n / 262144 <= 7
  {
    assert n / 64 / 64 == n / 4096;
    assert n / 4096 / 64 == n / 262144;
  }

  lemma ScalarRoundTrip(c: char, rest: seq<byte>)
    ensures var bs := EncodeScalar(c);
            ValidLength(bs + rest) == |bs| == ValidLength(bs) && DecodeScalar(bs) == c
  {
    var n := c as int;
    Digits64(n);
    var bs := EncodeScalar(c);
    assert forall i :: 0 <= i < |bs| ==> (bs + rest)[i] == bs[i];
    if n < 0x80 {
    } else if n < 0x800 {
      assert 2 <= n / 64 < 32;
    } else if n < 0x1_0000 {
      ThreeByteLead(n);
    } else {
      FourByteLead(n);
    }
  }

  lemma ThreeByteLead(n: int)
    requires 0x800 <= n < 0x1_0000 && !(0xD800 <= n < 0xE000)
    ensures 0 <= n / 4096 < 16
    ensures n / 4096 == 0 ==> 32 <= n / 64 % 64
    ensures n / 4096 == 13 ==> n / 64 % 64 < 32
  {
    Digits64(n);
  }

  lemma FourByteLead(n: int)
    requires 0x1_0000 <= n < 0x11_0000
    ensures 0 <= n / 262144 < 5
    ensures n / 262144 == 0 ==> 16 <= n / 4096 % 64
    ensures n / 262144 == 4 ==> n / 4096 % 64 < 16
  {
    Digits64(n);
  }

  /** Encoding loses nothing. */
  lemma {:induction false} DecodeEncode(text: string)
    ensures Decode(Encode(text)) == text
  {
    if text != [] {
      var front, rest := EncodeScalar(text[0]), Encode(text[1..]);
      ScalarRoundTrip(text[0], rest);
      assert (front + rest)[..|front|] == front && (front + rest)[|front|..] == rest;
      DecodeEncode(text[1..]);
    }
  }

  lemma SequenceRoundTrip(bs: seq<byte>)
    requires ValidLength(bs) == |bs| != 0
    ensures EncodeScalar(DecodeScalar(bs)) == bs
  {
    if |bs| == 2 {
      TwoBytes(bs);
    } else if |bs| == 3 {
      ThreeBytes(bs);
    } else if |bs| == 4 {
      FourBytes(bs);
    }
  }

  lemma TwoBytes(bs: seq<byte>)
    requires ValidLength(bs) == |bs| == 2
    ensures EncodeScalar(DecodeScalar(bs)) == bs
  {
    DivMod64(bs[0] as int - 0xC0, bs[1] as int - 0x80);
  }

  lemma ThreeBytes(bs: seq<byte>)
    requires ValidLength(bs) == |bs| == 3
    ensures EncodeScalar(DecodeScalar(bs)) == bs
  {
    var n := DecodeScalar(bs) as int;
    Digits64(n);
    var hi := (bs[0] as int - 0xE0) * 64 + bs[1] as int - 0x80;
    assert n == hi * 64 + (bs[2] as int - 0x80);
    DivMod64(hi, bs[2] as int - 0x80);
    DivMod64(bs[0] as int - 0xE0, bs[1] as int - 0x80);
    assert n / 64 == hi;
  }

  lemma FourBytes(bs: seq<byte>)
    requires ValidLength(bs) == |bs| == 4
    ensures EncodeScalar(DecodeScalar(bs)) == bs
  {
    var n := DecodeScalar(bs) as int;
    Digits64(n);
    var top := (bs[0] as int - 0xF0) * 64 + bs[1] as int - 0x80;
    var hi := top * 64 + bs[2] as int - 0x80;
    assert n == hi * 64 + (bs[3] as int - 0x80);
    DivMod64(hi, bs[3] as int - 0x80);
    DivMod64(top, bs[2] as int - 0x80);
    DivMod64(bs[0] as int - 0xF0, bs[1] as int - 0x80);
  }

  /** Bytes that decode without a replacement character are exactly the encoding of what they decode to. */
  lemma {:induction false} EncodeDecode(bs: seq<byte>)
    requires REPLACEMENT !in Decode(bs)
    ensures Encode(Decode(bs)) == bs
    decreases |bs|
  {
    if bs != [] {
      var n := ValidLength(bs);
      assert Decode(bs)[0] != REPLACEMENT;
      assert bs[..n] + bs[n..] == bs;
      ValidPrefix(bs);
      SequenceRoundTrip(bs[..n]);
      var head, tail := DecodeScalar(bs[..n]), Decode(bs[n..]);
      assert Decode(bs) == [head] + tail && ([head] + tail)[1..] == tail;
      forall c | c in tail ensures c != REPLACEMENT { assert c in [head] + tail; }
      EncodeDecode(bs[n..]);
    }
  }

  lemma ValidPrefix(bs: seq<byte>)
    requires ValidLength(bs) != 0
    ensures ValidLength(bs[..ValidLength(bs)]) == ValidLength(bs)
  {
  }

  /** A decoding free of U+FFFD is the mark of bytes that encode some text free of U+FFFD, and only of those. */
  lemma CleanDecoding(bs: seq<byte>)
    ensures REPLACEMENT !in Decode(bs) <==> exists text :: REPLACEMENT !in text && Encode(text) == bs
  {
    if REPLACEMENT !in Decode(bs) {
      EncodeDecode(bs);
    }
    forall text | Encode(text) == bs ensures Decode(bs) == text {
      DecodeEncode(text);
    }
  }
}
