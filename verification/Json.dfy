/**
 JSON text as `JSON.stringify` prints it and `JSON.parse` reads it back (sections 2 to 7 of RFC 8259),
 for values whose numbers are integers. Strings are sequences of UTF-16 code units, as they are in the
 program, so unpaired surrogates are covered: `JSON.stringify` escapes them.
 */
module Json {
  import opened Common

  newtype CodeUnit = n: int | 0 <= n < 0x1_0000

  type JsString = seq<CodeUnit>

  datatype Value =
    | Null
    | Bool(b: bool)
    | Num(n: int)
    | Str(s: JsString)
    | Arr(items: seq<Value>)
    | Obj(fields: seq<Field>)

  datatype Field = Field(key: JsString, value: Value)

  datatype Parsed<+T> = Parsed(value: T, rest: string)

  // --------------------------------------------------------------- strings

  predicate IsHigh(u: CodeUnit) { 0xD800 <= u < 0xDC00 }
  predicate IsLow(u: CodeUnit) { 0xDC00 <= u < 0xE000 }

  function HexDigit(n: int): char
    requires 0 <= n < 16
  {
    if n < 10 then ('0' as int + n) as char else ('a' as int + n - 10) as char
  }

  function HexValue(c: char): Option<int> {
    if '0' <= c <= '9' then Some(c as int - '0' as int)
    else if 'a' <= c <= 'f' then Some(c as int - 'a' as int + 10)
    else if 'A' <= c <= 'F' then Some(c as int - 'A' as int + 10)
    else None
  }

  function UnicodeEscape(u: CodeUnit): string {
    var n := u as int;
    ['\\', 'u', HexDigit(n / 4096), HexDigit(n / 256 % 16), HexDigit(n / 16 % 16), HexDigit(n % 16)]
  }

  /** One code unit that is not half of a pair. */
  function PrintUnit(u: CodeUnit): string {
    if u == 34 then "\\\""
    else if u == 92 then "\\\\"
    else if u == 8 then "\\b"
    else if u == 9 then "\\t"
    else if u == 10 then "\\n"
    else if u == 12 then "\\f"
    else if u == 13 then "\\r"
    else if u < 32 || IsHigh(u) || IsLow(u) then UnicodeEscape(u)
    else [u as char]
  }

  function JoinPair(high: CodeUnit, low: CodeUnit): char
    requires IsHigh(high) && IsLow(low)
  {
    (0x1_0000 + (high as int - 0xD800) * 0x400 + low as int - 0xDC00) as char
  }

  /** The code units of one scalar value. */
  function Units(c: char): JsString {
    var n := c as int;
    if n < 0x1_0000 then [n as CodeUnit]
    else [(0xD800 + (n - 0x1_0000) / 0x400) as CodeUnit, (0xDC00 + (n - 0x1_0000) % 0x400) as CodeUnit]
  }

  predicate StartsWithPair(s: JsString) {
    |s| >= 2 && IsHigh(s[0]) && IsLow(s[1])
  }

  function PrintBody(s: JsString): string {
    if s == [] then ""
    else if StartsWithPair(s) then [JoinPair(s[0], s[1])] + PrintBody(s[2..])
    else PrintUnit(s[0]) + PrintBody(s[1..])
  }

  function PrintString(s: JsString): string {
    "\"" + PrintBody(s) + "\""
  }

  /** The unit that a one-letter escape stands for. */
  function LetterEscape(c: char): Option<CodeUnit> {
    if c == '\"' then Some(34) else if c == '\\' then Some(92) else if c == '/' then Some(47)
    else if c == 'b' then Some(8) else if c == 't' then Some(9) else if c == 'n' then Some(10)
    else if c == 'f' then Some(12) else if c == 'r' then Some(13) else None
  }

  /** One character or escape at the front of a string's body. */
  function ParseUnit(t: string): (r: Option<Parsed<JsString>>)
    ensures r.Some? ==> |r.value.rest| < |t|
  {
    if t == "" || t[0] as int < 32 || t[0] == '\"' then None
    else if t[0] != '\\' then Some(Parsed(Units(t[0]), t[1..]))
    else if |t| >= 2 && LetterEscape(t[1]).Some? then Some(Parsed([LetterEscape(t[1]).value], t[2..]))
    else if |t| >= 6 && t[1] == 'u' && HexValue(t[2]).Some? && HexValue(t[3]).Some? && HexValue(t[4]).Some? && HexValue(t[5]).Some? then
      var n := HexValue(t[2]).value * 4096 + HexValue(t[3]).value * 256 + HexValue(t[4]).value * 16 + HexValue(t[5]).value;
      if 0 <= n < 0x1_0000 then Some(Parsed([n as CodeUnit], t[6..])) else None
    else None
  }

  /** Up to the closing quote. */
  function ParseBody(t: string): (r: Option<Parsed<JsString>>)
    ensures r.Some? ==> |r.value.rest| < |t|
    decreases |t|
  {
    if t != "" && t[0] == '\"' then Some(Parsed([], t[1..]))
    else
      var unit := ParseUnit(t);
      if unit.None? then None
      else
        var body := ParseBody(unit.value.rest);
        if body.None? then None else Some(Parsed(unit.value.value + body.value.value, body.value.rest))
  }

  lemma HexRoundTrip(n: int)
    requires 0 <= n < 16
    ensures HexValue(HexDigit(n)) == Some(n)
  {
  }

  lemma FourHexDigits(n: int)
    requires 0 <= n < 0x1_0000
    ensures n == n / 4096 * 4096 + n / 256 % 16 * 256 + n / 16 % 16 * 16 + n % 16
    ensures 0 <= n / 4096 < 16
  {
    assert n == n / 16 * 16 + n % 16;
    assert n / 16 == n / 256 * 16 + n / 16 % 16 by { assert n / 16 / 16 == n / 256; }
    assert n / 256 == n / 4096 * 16 + n / 256 % 16 by { assert n / 256 / 16 == n / 4096; }
  }

  lemma UnicodeEscapeRoundTrip(u: CodeUnit, rest: string)
    ensures ParseUnit(UnicodeEscape(u) + rest) == Some(Parsed([u], rest))
  {
    var n := u as int;
    var t := UnicodeEscape(u) + rest;
    FourHexDigits(n);
    HexRoundTrip(n / 4096);
    HexRoundTrip(n / 256 % 16);
    HexRoundTrip(n / 16 % 16);
    HexRoundTrip(n % 16);
    assert t[6..] == rest;
    assert LetterEscape(t[1]).None?;
  }

  lemma UnitRoundTrip(u: CodeUnit, rest: string)
    ensures ParseUnit(PrintUnit(u) + rest) == Some(Parsed([u], rest))
  {
    if u == 34 || u == 92 || u == 8 || u == 9 || u == 10 || u == 12 || u == 13 {
      ShortEscapeRoundTrip(u, rest);
    } else if u < 32 || IsHigh(u) || IsLow(u) {
      UnicodeEscapeRoundTrip(u, rest);
    } else {
      PlainUnitRoundTrip(u, rest);
    }
    hide ParseUnit, UnicodeEscape;
  }

  lemma ShortEscapeRoundTrip(u: CodeUnit, rest: string)
    requires u == 34 || u == 92 || u == 8 || u == 9 || u == 10 || u == 12 || u == 13
    ensures ParseUnit(PrintUnit(u) + rest) == Some(Parsed([u], rest))
  {
    var t := PrintUnit(u) + rest;
    assert t[2..] == rest;
    hide UnicodeEscape;
  }

  lemma PlainUnitRoundTrip(u: CodeUnit, rest: string)
    requires u >= 32 && u != 34 && u != 92 && !IsHigh(u) && !IsLow(u)
    ensures ParseUnit(PrintUnit(u) + rest) == Some(Parsed([u], rest))
  {
    var t := PrintUnit(u) + rest;
    assert t[1..] == rest;
    hide UnicodeEscape;
  }

  lemma PairRoundTrip(high: CodeUnit, low: CodeUnit)
    requires IsHigh(high) && IsLow(low)
    ensures Units(JoinPair(high, low)) == [high, low]
  {
    var a, b := high as int - 0xD800, low as int - 0xDC00;
    assert (a * 0x400 + b) / 0x400 == a && (a * 0x400 + b) % 0x400 == b;
  }

  /** The first printed piece of a string never looks like the closing quote. */
  lemma PrintUnitStart(u: CodeUnit)
    ensures PrintUnit(u) != "" && PrintUnit(u)[0] != '\"'
  {
  }

  lemma BodyStep(piece: string, units: JsString, tail: string)
    requires piece != "" && piece[0] != '\"'
    requires ParseUnit(piece + tail) == Some(Parsed(units, tail))
    ensures var body := ParseBody(tail);
            ParseBody(piece + tail) == if body.None? then None else Some(Parsed(units + body.value.value, body.value.rest))
  {
    hide ParseUnit;
    assert (piece + tail)[0] == piece[0];
  }

  lemma PairStep(high: CodeUnit, low: CodeUnit, tail: string)
    requires IsHigh(high) && IsLow(low)
    ensures ParseUnit([JoinPair(high, low)] + tail) == Some(Parsed([high, low], tail))
    ensures JoinPair(high, low) != '\"'
  {
    PairRoundTrip(high, low);
    assert ([JoinPair(high, low)] + tail)[1..] == tail;
  }

  lemma Regroup(first: string, middle: string, last: string, rest: string)
    ensures first + middle + last + rest == first + (middle + last + rest)
  {
  }

  lemma HeadTail<T>(head: seq<T>, tail: seq<T>, whole: seq<T>)
    requires |head| <= |whole| && head == whole[..|head|] && tail == whole[|head|..]
    ensures head + tail == whole
  {
  }

  /** Printing a string body and reading up to the closing quote gives back every code unit. */
  lemma {:induction false} BodyRoundTrip(s: JsString, rest: string)
    ensures ParseBody(PrintBody(s) + "\"" + rest) == Some(Parsed(s, rest))
    decreases |s|
  {
    if s == [] {
      var t := PrintBody(s) + "\"" + rest;
      assert t[1..] == rest;
    } else if StartsWithPair(s) {
      BodyRoundTrip(s[2..], rest);
      PairStep(s[0], s[1], PrintBody(s[2..]) + "\"" + rest);
      hide ParseUnit, ParseBody, JoinPair;
      BodyStep([JoinPair(s[0], s[1])], [s[0], s[1]], PrintBody(s[2..]) + "\"" + rest);
      Regroup([JoinPair(s[0], s[1])], PrintBody(s[2..]), "\"", rest);
      HeadTail([s[0], s[1]], s[2..], s);
    } else {
      BodyRoundTrip(s[1..], rest);
      UnitRoundTrip(s[0], PrintBody(s[1..]) + "\"" + rest);
      PrintUnitStart(s[0]);
      hide ParseUnit, ParseBody, PrintUnit;
      BodyStep(PrintUnit(s[0]), [s[0]], PrintBody(s[1..]) + "\"" + rest);
      Regroup(PrintUnit(s[0]), PrintBody(s[1..]), "\"", rest);
      HeadTail([s[0]], s[1..], s);
    }
  }

  // --------------------------------------------------------------- numbers

  predicate IsDigit(c: char) { '0' <= c <= '9' }

  function PrintNat(n: nat): (t: string)
    ensures t != "" && IsDigit(t[0]) && (n != 0 ==> t[0] != '0')
  {
    if n < 10 then [('0' as int + n) as char] else PrintNat(n / 10) + [('0' as int + n % 10) as char]
  }

  function PrintInt(n: int): string {
    if n < 0 then "-" + PrintNat(-n) else PrintNat(n)
  }

  function ParseDigits(t: string, acc: nat): (r: Parsed<nat>)
    ensures |r.rest| <= |t|
  {
    if t != "" && IsDigit(t[0]) then ParseDigits(t[1..], acc * 10 + (t[0] as int - '0' as int)) else Parsed(acc, t)
  }

  /** What may follow an integer: no further digit, no fraction and no exponent. */
  predicate EndsNumber(rest: string) {
    rest == "" || (!IsDigit(rest[0]) && rest[0] != '.' && rest[0] != 'e' && rest[0] != 'E')
  }

  /** A decimal integer without superfluous leading zeros. */
  function ParseNat(t: string): (r: Option<Parsed<nat>>)
    ensures r.Some? ==> |r.value.rest| < |t|
  {
    if t == "" || !IsDigit(t[0]) then None
    else
      var digits := if t[0] == '0' then Parsed(0, t[1..]) else ParseDigits(t[1..], t[0] as int - '0' as int);
      if EndsNumber(digits.rest) then Some(digits) else None
  }

  function ParseNumber(t: string): (r: Option<Parsed<int>>)
    ensures r.Some? ==> |r.value.rest| < |t|
  {
    var negative := t != "" && t[0] == '-';
    var n := ParseNat(if negative then t[1..] else t);
    if n.None? then None
    else
      var value: int := n.value.value;
      Some(Parsed(if negative then -value else value, n.value.rest))
  }

  /** `acc` with the decimal digits of `n` appended. */
  function Append(acc: nat, n: nat): nat {
    if n < 10 then acc * 10 + n else Append(acc, n / 10) * 10 + n % 10
  }

  lemma {:induction false} AppendToZero(n: nat)
    ensures Append(0, n) == n
  {
    if n >= 10 { AppendToZero(n / 10); }
  }

  lemma OneDigit(digit: int, rest: string, acc: nat)
    requires 0 <= digit < 10
    ensures ParseDigits([('0' as int + digit) as char] + rest, acc) == ParseDigits(rest, acc * 10 + digit)
  {
    var t := [('0' as int + digit) as char] + rest;
    assert t[1..] == rest;
  }

  /** Digits are read onto an accumulator whatever follows them. */
  lemma {:induction false} DigitsThen(n: nat, rest: string, acc: nat)
    ensures ParseDigits(PrintNat(n) + rest, acc) == ParseDigits(rest, Append(acc, n))
    decreases n
  {
    if n < 10 {
      OneDigit(n, rest, acc);
    } else {
      var last := [('0' as int + n % 10) as char];
      DigitsThen(n / 10, last + rest, acc);
      OneDigit(n % 10, rest, Append(acc, n / 10));
      hide ParseDigits;
      assert PrintNat(n) + rest == PrintNat(n / 10) + (last + rest);
    }
  }

  lemma NatRoundTrip(n: nat, rest: string)
    requires EndsNumber(rest)
    ensures ParseNat(PrintNat(n) + rest) == Some(Parsed(n, rest))
  {
    var t := PrintNat(n) + rest;
    if n == 0 {
      assert t == "0" + rest && t[1..] == rest;
    } else {
      DigitsThen(n, rest, 0);
      AppendToZero(n);
      assert t[0] == PrintNat(n)[0];
      assert ParseDigits(t, 0) == ParseDigits(t[1..], t[0] as int - '0' as int);
      assert ParseDigits(rest, n) == Parsed(n, rest);
    }
  }

  // ---------------------------------------------------------------- values

  function Print(v: Value): string
    decreases v, 0
  {
    match v
    case Null => "null"
    case Bool(b) => if b then "true" else "false"
    case Num(n) => PrintInt(n)
    case Str(s) => PrintString(s)
    case Arr(items) => if items == [] then "[]" else "[" + PrintItems(items) + "]"
    case Obj(fields) => if fields == [] then "{}" else "{" + PrintFields(fields) + "}"
  }

  function PrintItems(items: seq<Value>): string
    requires items != []
    decreases items, 1
  {
    if |items| == 1 then Print(items[0]) else Print(items[0]) + "," + PrintItems(items[1..])
  }

  function PrintField(f: Field): string
    decreases f, 0
  {
    PrintString(f.key) + ":" + Print(f.value)
  }

  function PrintFields(fields: seq<Field>): string
    requires fields != []
    decreases fields, 1
  {
    if |fields| == 1 then PrintField(fields[0]) else PrintField(fields[0]) + "," + PrintFields(fields[1..])
  }

  predicate Begins(t: string, word: string) {
    |word| <= |t| && t[..|word|] == word
  }

  function ParseValue(t: string): (r: Option<Parsed<Value>>)
    ensures r.Some? ==> |r.value.rest| < |t|
    decreases |t|, 1
  {
    if t == "" then None
    else if t[0] == 'n' then if Begins(t, "null") then Some(Parsed(Null, t[4..])) else None
    else if t[0] == 't' then if Begins(t, "true") then Some(Parsed(Bool(true), t[4..])) else None
    else if t[0] == 'f' then if Begins(t, "false") then Some(Parsed(Bool(false), t[5..])) else None
    else if t[0] == '\"' then
      var s := ParseBody(t[1..]);
      if s.None? then None else Some(Parsed(Str(s.value.value), s.value.rest))
    else if t[0] == '[' then
      if |t| > 1 && t[1] == ']' then Some(Parsed(Arr([]), t[2..]))
      else
        var items := ParseItems(t[1..]);
        if items.None? then None else Some(Parsed(Arr(items.value.value), items.value.rest))
    else if t[0] == '{' then
      if |t| > 1 && t[1] == '}' then Some(Parsed(Obj([]), t[2..]))
      else
        var fields := ParseFields(t[1..]);
        if fields.None? then None else Some(Parsed(Obj(fields.value.value), fields.value.rest))
    else
      var n := ParseNumber(t);
      if n.None? then None else Some(Parsed(Num(n.value.value), n.value.rest))
  }

  function ParseItems(t: string): (r: Option<Parsed<seq<Value>>>)
    ensures r.Some? ==> |r.value.rest| < |t|
    decreases |t|, 2
  {
    var first := ParseValue(t);
    if first.None? then None
    else if Begins(first.value.rest, "]") then Some(Parsed([first.value.value], first.value.rest[1..]))
    else if Begins(first.value.rest, ",") then
      var more := ParseItems(first.value.rest[1..]);
      if more.None? then None else Some(Parsed([first.value.value] + more.value.value, more.value.rest))
    else None
  }

  function ParseField(t: string): (r: Option<Parsed<Field>>)
    ensures r.Some? ==> |r.value.rest| < |t|
    decreases |t|, 2
  {
    if !Begins(t, "\"") then None
    else
      var key := ParseBody(t[1..]);
      if key.None? || !Begins(key.value.rest, ":") then None
      else
        var value := ParseValue(key.value.rest[1..]);
        if value.None? then None else Some(Parsed(Field(key.value.value, value.value.value), value.value.rest))
  }

  function ParseFields(t: string): (r: Option<Parsed<seq<Field>>>)
    ensures r.Some? ==> |r.value.rest| < |t|
    decreases |t|, 3
  {
    var first := ParseField(t);
    if first.None? then None
    else if Begins(first.value.rest, "}") then Some(Parsed([first.value.value], first.value.rest[1..]))
    else if Begins(first.value.rest, ",") then
      var more := ParseFields(first.value.rest[1..]);
      if more.None? then None else Some(Parsed([first.value.value] + more.value.value, more.value.rest))
    else None
  }

  /** `JSON.parse`: one value and nothing after it. */
  function Parse(t: string): Option<Value> {
    var r := ParseValue(t);
    if r.Some? && r.value.rest == "" then Some(r.value.value) else None
  }

  // -------------------------------------------------------------- round trip

  lemma StringRoundTrip(s: JsString, rest: string)
    ensures ParseBody((PrintString(s) + rest)[1..]) == Some(Parsed(s, rest))
    ensures (PrintString(s) + rest)[0] == '\"'
  {
    BodyRoundTrip(s, rest);
    hide ParseBody, PrintBody;
    assert (PrintString(s) + rest)[1..] == PrintBody(s) + "\"" + rest;
  }

  lemma IntRoundTrip(n: int, rest: string)
    requires EndsNumber(rest)
    ensures ParseNumber(PrintInt(n) + rest) == Some(Parsed(n, rest))
    ensures IsDigit(PrintInt(n)[0]) || PrintInt(n)[0] == '-'
  {
    hide ParseNat, PrintNat;
    var t := PrintInt(n) + rest;
    if n < 0 {
      NatRoundTrip(-n, rest);
      assert t[0] == '-' && t[1..] == PrintNat(-n) + rest;
    } else {
      NatRoundTrip(n, rest);
      assert t[0] == PrintNat(n)[0];
    }
  }

  lemma ScalarRoundTrip(v: Value, rest: string)
    requires (v.Num? ==> EndsNumber(rest)) && (v.Null? || v.Bool? || v.Num? || v.Str?)
    ensures ParseValue(Print(v) + rest) == Some(Parsed(v, rest))
  {
    var t := Print(v) + rest;
    match v
    case Null => assert t[4..] == rest && t[..4] == "null" && t[0] == 'n';
    case Bool(b) =>
      if b { assert t[4..] == rest && t[..4] == "true" && t[0] == 't'; }
      else { assert t[5..] == rest && t[..5] == "false" && t[0] == 'f'; }
    case Num(n) => IntRoundTrip(n, rest); assert t[0] == PrintInt(n)[0];
    case Str(s) => StringRoundTrip(s, rest);
  }

  /** Printing any value and parsing the text gives the value back and leaves what follows untouched. */
  lemma {:induction false} ValueRoundTrip(v: Value, rest: string)
    requires v.Num? ==> EndsNumber(rest)
    ensures ParseValue(Print(v) + rest) == Some(Parsed(v, rest))
    decreases v, 0
  {
    match v
    case Arr(items) =>
      if items == [] {
        EmptyRoundTrip(rest);
      } else {
        ItemsRoundTrip(items, rest);
        ItemsStart(items);
        ArrayShape(PrintItems(items), rest);
        hide ParseItems, PrintItems, ParseValue;
        Regroup("[", PrintItems(items), "]", rest);
      }
    case Obj(fields) =>
      if fields == [] {
        EmptyRoundTrip(rest);
      } else {
        FieldsRoundTrip(fields, rest);
        FieldsStart(fields);
        ObjectShape(PrintFields(fields), rest);
        hide ParseFields, PrintFields, ParseValue;
        Regroup("{", PrintFields(fields), "}", rest);
      }
    case _ => ScalarRoundTrip(v, rest);
  }

  lemma EmptyRoundTrip(rest: string)
    ensures ParseValue("[]" + rest) == Some(Parsed(Arr([]), rest))
    ensures ParseValue("{}" + rest) == Some(Parsed(Obj([]), rest))
  {
    assert ("[]" + rest)[2..] == rest && ("{}" + rest)[2..] == rest;
  }

  lemma ArrayShape(body: string, rest: string)
    requires body != "" && body[0] != ']'
    ensures var t := "[" + (body + "]" + rest);
            var items := ParseItems(body + "]" + rest);
            ParseValue(t) == if items.None? then None else Some(Parsed(Arr(items.value.value), items.value.rest))
  {
    hide ParseItems;
    var t := "[" + (body + "]" + rest);
    assert t[0] == '[' && t[1] == body[0] && t[1..] == body + "]" + rest;
  }

  lemma ObjectShape(body: string, rest: string)
    requires body != "" && body[0] != '}'
    ensures var t := "{" + (body + "}" + rest);
            var fields := ParseFields(body + "}" + rest);
            ParseValue(t) == if fields.None? then None else Some(Parsed(Obj(fields.value.value), fields.value.rest))
  {
    hide ParseFields;
    var t := "{" + (body + "}" + rest);
    assert t[0] == '{' && t[1] == body[0] && t[1..] == body + "}" + rest;
  }

  lemma PrintStart(v: Value)
    ensures Print(v) != "" && Print(v)[0] != ']' && Print(v)[0] != '}'
  {
  }

  lemma ItemsStart(items: seq<Value>)
    requires items != []
    ensures PrintItems(items) != "" && PrintItems(items)[0] != ']'
  {
    PrintStart(items[0]);
  }

  lemma FieldsStart(fields: seq<Field>)
    requires fields != []
    ensures PrintFields(fields) != "" && PrintFields(fields)[0] != '}'
  {
  }

  lemma LastItem(first: Value, text: string, rest: string)
    requires ParseValue(text + ("]" + rest)) == Some(Parsed(first, "]" + rest))
    ensures ParseItems(text + "]" + rest) == Some(Parsed([first], rest))
  {
    hide ParseValue;
    assert text + "]" + rest == text + ("]" + rest);
    assert ("]" + rest)[1..] == rest && Begins("]" + rest, "]");
  }

  lemma MoreItems(first: Value, text: string, more: seq<Value>, moreText: string, rest: string)
    requires ParseValue(text + ("," + moreText)) == Some(Parsed(first, "," + moreText))
    requires ParseItems(moreText) == Some(Parsed(more, rest))
    ensures ParseItems(text + ("," + moreText)) == Some(Parsed([first] + more, rest))
  {
    hide ParseValue;
    var tail := "," + moreText;
    assert tail[1..] == moreText && Begins(tail, ",") && !Begins(tail, "]");
  }

  lemma {:induction false} ItemsRoundTrip(items: seq<Value>, rest: string)
    requires items != []
    ensures ParseItems(PrintItems(items) + "]" + rest) == Some(Parsed(items, rest))
    decreases items, 1
  {
    hide ParseValue, Print, ParseItems;
    if |items| == 1 {
      ValueRoundTrip(items[0], "]" + rest);
      LastItem(items[0], Print(items[0]), rest);
      assert [items[0]] == items;
    } else {
      var more := PrintItems(items[1..]) + "]" + rest;
      ValueRoundTrip(items[0], "," + more);
      ItemsRoundTrip(items[1..], rest);
      MoreItems(items[0], Print(items[0]), items[1..], more, rest);
      HeadTail([items[0]], items[1..], items);
      CommaText(Print(items[0]), PrintItems(items[1..]), "]", rest);
    }
  }

  lemma CommaText(first: string, more: string, close: string, rest: string)
    ensures first + "," + more + close + rest == first + ("," + (more + close + rest))
  {
  }

  lemma ColonText(key: string, value: string, rest: string)
    ensures key + ":" + value + rest == key + (":" + (value + rest))
  {
  }

  lemma FieldShape(f: Field, text: string, valueText: string, rest: string)
    requires text != "" && text[0] == '\"'
    requires ParseBody(text[1..]) == Some(Parsed(f.key, ":" + valueText))
    requires ParseValue(valueText) == Some(Parsed(f.value, rest))
    ensures ParseField(text) == Some(Parsed(f, rest))
  {
    hide ParseValue, ParseBody;
    assert Begins(text, "\"") && Begins(":" + valueText, ":");
    assert (":" + valueText)[1..] == valueText;
  }

  lemma {:induction false} FieldRoundTrip(f: Field, rest: string)
    requires EndsNumber(rest)
    ensures ParseField(PrintField(f) + rest) == Some(Parsed(f, rest))
    decreases f, 1
  {
    hide ParseValue, Print, ParseBody, PrintString, ParseField;
    var value := Print(f.value) + rest;
    StringRoundTrip(f.key, ":" + value);
    ValueRoundTrip(f.value, rest);
    FieldShape(f, PrintString(f.key) + (":" + value), value, rest);
    ColonText(PrintString(f.key), Print(f.value), rest);
  }

  lemma LastField(first: Field, text: string, rest: string)
    requires ParseField(text + ("}" + rest)) == Some(Parsed(first, "}" + rest))
    ensures ParseFields(text + "}" + rest) == Some(Parsed([first], rest))
  {
    hide ParseField;
    assert text + "}" + rest == text + ("}" + rest);
    assert ("}" + rest)[1..] == rest && Begins("}" + rest, "}");
  }

  lemma MoreFields(first: Field, text: string, more: seq<Field>, moreText: string, rest: string)
    requires ParseField(text + ("," + moreText)) == Some(Parsed(first, "," + moreText))
    requires ParseFields(moreText) == Some(Parsed(more, rest))
    ensures ParseFields(text + ("," + moreText)) == Some(Parsed([first] + more, rest))
  {
    hide ParseField;
    var tail := "," + moreText;
    assert tail[1..] == moreText && Begins(tail, ",") && !Begins(tail, "}");
  }

  lemma {:induction false} FieldsRoundTrip(fields: seq<Field>, rest: string)
    requires fields != []
    ensures ParseFields(PrintFields(fields) + "}" + rest) == Some(Parsed(fields, rest))
    decreases fields, 2
  {
    hide ParseField, PrintField, ParseFields;
    if |fields| == 1 {
      FieldRoundTrip(fields[0], "}" + rest);
      LastField(fields[0], PrintField(fields[0]), rest);
      assert [fields[0]] == fields;
    } else {
      var more := PrintFields(fields[1..]) + "}" + rest;
      FieldRoundTrip(fields[0], "," + more);
      FieldsRoundTrip(fields[1..], rest);
      MoreFields(fields[0], PrintField(fields[0]), fields[1..], more, rest);
      HeadTail([fields[0]], fields[1..], fields);
      CommaText(PrintField(fields[0]), PrintFields(fields[1..]), "}", rest);
    }
  }

  /** `JSON.parse(JSON.stringify(v))` is `v`, unpaired surrogates and all. */
  lemma ParsePrint(v: Value)
    ensures Parse(Print(v)) == Some(v)
  {
    ValueRoundTrip(v, "");
    assert Print(v) + "" == Print(v);
  }

  /** White space aside, nothing may follow a value: a longer text is no text of that value or of any other. */
  lemma NothingMayFollow(v: Value, rest: string)
    requires !v.Num? && rest != "" && rest[0] != ' ' && rest[0] != '\t' && rest[0] != '\n' && rest[0] != '\r'
    ensures Parse(Print(v) + rest) == None
  {
    ValueRoundTrip(v, rest);
  }
}
