/** The API catalog: schema walk, endpoint lookup and argument validation. */
module Catalog {
  import opened Common
  import opened JsValues
  import opened Regex
  import PathTemplate
  import Text

  // ------------------------------------------------------------ arguments

  /** Operations of the language runtime that the model does not look into. */
  datatype Runtime = Runtime(
    stringify: JsValue -> string,
    toText: JsValue -> string,
    parseFloat: string -> JsNumber,
    toLower: string -> string)

  datatype Property = Property(schemaType: Option<string>, optional: bool, format: Option<string>)

  function ToText(rt: Runtime, v: JsValue): string {
    if v.Str? then v.s else rt.toText(v)
  }

  function Trunc(n: JsNumber): JsNumber {
    if !n.Finite? then n
    else if n.value >= 0.0 then Finite(n.value.Floor as real)
    else Finite(-((-n.value).Floor as real))
  }

  function LeadingInt(text: string, acc: Option<int>): Option<int> {
    if text != "" && '0' <= text[0] <= '9' then
      LeadingInt(text[1..], Some((if acc.Some? then acc.value else 0) * 10 + text[0] as int - '0' as int))
    else acc
  }

  /** `Number.parseInt(text, 10)`: leading white space, a sign, digits; NaN when there is no digit. */
  function ParseInt(text: string): JsNumber {
    var t := Text.TrimStart(text);
    var negative := t != "" && t[0] == '-';
    var digits := LeadingInt(if t != "" && (t[0] == '-' || t[0] == '+') then t[1..] else t, None);
    if digits.None? then NaN
    else Finite((if negative then -digits.value else digits.value) as real)
  }

  /** `coerceValue`. */
  function Coerce(rt: Runtime, p: Property, v: JsValue): JsValue {
    if v.Undefined? || v.Null? then v
    else if p.format == Some("pve-command-batch") && v.Arr? then Str(rt.stringify(v))
    else if p.schemaType == Some("integer") then
      if v.Num? then Num(Trunc(v.n)) else Num(ParseInt(ToText(rt, v)))
    else if p.schemaType == Some("number") then
      if v.Num? then v else Num(rt.parseFloat(ToText(rt, v)))
    else if p.schemaType == Some("boolean") then
      if v.Bool? then v
      else if v.Num? then Bool(v.n != Finite(0.0))
      else Bool(rt.toLower(ToText(rt, v)) in ["1", "true", "yes", "on"])
    else if p.schemaType == Some("string") then
      if v.Arr? || v.Obj? then Str(rt.stringify(v)) else Str(ToText(rt, v))
    else v
  }

  predicate IsIntegral(n: JsNumber) {
    n.Finite? ==> n.value == n.value.Floor as real
  }

  /** The primitive type a described value is to have. */
  predicate HasType(p: Property, v: JsValue) {
    v.Undefined? || v.Null? ||
    (if p.schemaType == Some("integer") then v.Num? && IsIntegral(v.n)
     else if p.schemaType == Some("number") then v.Num?
     else if p.schemaType == Some("boolean") then v.Bool?
     else if p.schemaType == Some("string") then v.Str?
     else true)
  }

  /** A list of commands for a parameter that is not typed as text. */
  predicate BatchClash(p: Property, v: JsValue) {
    p.format == Some("pve-command-batch") && v.Arr?
    && (p.schemaType == Some("integer") || p.schemaType == Some("number") || p.schemaType == Some("boolean"))
  }

  lemma ParseIntIsIntegral(text: string)
    ensures IsIntegral(ParseInt(text))
  {
  }

  lemma FloorOfInt(x: real, m: int)
    requires x == m as real
    ensures x.Floor == m
  {
  }

  lemma TruncIsIntegral(n: JsNumber)
    ensures IsIntegral(Trunc(n)) && (IsIntegral(n) ==> Trunc(n) == n)
  {
    if n.Finite? && n.value < 0.0 {
      var m := (-n.value).Floor;
      FloorOfInt(-(m as real), -m);
      if IsIntegral(n) {
        FloorOfInt(-n.value, -n.value.Floor);
      }
    } else if n.Finite? {
      FloorOfInt(n.value.Floor as real, n.value.Floor);
    }
  }

  /**
   Coercion gives the schema's type, and coercing again changes nothing, for every value but one kind: a
   list of commands for a parameter typed as a number or flag becomes JSON text, which the second coercion
   then takes for a number or flag.
   */
  lemma CoerceTypes(rt: Runtime, p: Property, v: JsValue)
    ensures HasType(p, Coerce(rt, p, v)) <==> !BatchClash(p, v)
    ensures Coerce(rt, p, Coerce(rt, p, v)) == Coerce(rt, p, v) <==> !BatchClash(p, v)
  {
    if v.Num? { TruncIsIntegral(v.n); }
    ParseIntIsIntegral(ToText(rt, v));
    TruncIsIntegral(ParseInt(ToText(rt, v)));
  }

  // ------------------------------------------- what coercion computes

  predicate Digits(s: string) {
    s != "" && forall i :: 0 <= i < |s| ==> '0' <= s[i] <= '9'
  }

  /** The number a text of digits stands for in decimal notation. */
  function DecimalValue(digits: string): nat
    requires forall i :: 0 <= i < |digits| ==> '0' <= digits[i] <= '9'
  {
    if digits == "" then 0
    else DecimalValue(digits[..|digits| - 1]) * 10 + (digits[|digits| - 1] as int - '0' as int)
  }

  /** The decimal text of a number. */
  function Decimal(n: nat): string {
    if n < 10 then [('0' as int + n) as char] else Decimal(n / 10) + [('0' as int + n % 10) as char]
  }

  lemma {:induction false} DecimalRoundTrip(n: nat)
    ensures Digits(Decimal(n)) && DecimalValue(Decimal(n)) == n
  {
    if n < 10 {
      assert Decimal(n)[..0] == "";
    } else {
      DecimalRoundTrip(n / 10);
      assert Decimal(n)[..|Decimal(n)| - 1] == Decimal(n / 10);
    }
  }

  predicate StartsWithDigit(text: string) {
    text != "" && '0' <= text[0] <= '9'
  }

  predicate IsSign(sign: string) {
    sign == "" || sign == "+" || sign == "-"
  }

  /** The digits at the front of a text, read after others that stood for `acc`. */
  lemma {:induction false} LeadingIntReads(read: string, digits: string, rest: string, acc: Option<int>)
    requires (forall i :: 0 <= i < |read| ==> '0' <= read[i] <= '9') && (forall i :: 0 <= i < |digits| ==> '0' <= digits[i] <= '9')
    requires !StartsWithDigit(rest) && acc == if read == "" then None else Some(DecimalValue(read))
    ensures read + digits == "" ==> LeadingInt(digits + rest, acc) == None
    ensures read + digits != "" ==> LeadingInt(digits + rest, acc) == Some(DecimalValue(read + digits))
    decreases |digits|
  {
    if digits == "" {
      assert digits + rest == rest && read + digits == read;
    } else {
      var longer := read + [digits[0]];
      assert longer[..|read|] == read;
      assert (digits + rest)[1..] == digits[1..] + rest && longer + digits[1..] == read + digits;
      LeadingIntReads(longer, digits[1..], rest, Some(DecimalValue(longer)));
    }
  }

  function Signed(sign: string, digits: string): int
    requires forall i :: 0 <= i < |digits| ==> '0' <= digits[i] <= '9'
  {
    if sign == "-" then -(DecimalValue(digits) as int) else DecimalValue(digits)
  }

  /** `parseInt` reads digits behind white space and one sign, whatever follows them, and nothing else. */
  lemma ParseIntReads(blank: string, sign: string, digits: string, rest: string)
    requires Text.Blank(blank) && IsSign(sign) && Digits(digits) && !StartsWithDigit(rest)
    ensures ParseInt(blank + sign + digits + rest)
            == Finite(Signed(sign, digits) as real)
  {
    var tail := digits + rest;
    assert tail[0] == digits[0];
    DigitIsBare(digits[0]);
    FrontOf(blank, sign, tail);
    DigitsAreRead(digits, rest);
    FourParts(blank, sign, digits, rest);
    hide Text.TrimStart, LeadingInt, DecimalValue, Text.Blank;
  }

  lemma DigitsAreRead(digits: string, rest: string)
    requires Digits(digits) && !StartsWithDigit(rest)
    ensures LeadingInt(digits + rest, None) == Some(DecimalValue(digits))
  {
    LeadingIntReads("", digits, rest, None);
    assert "" + digits == digits;
  }

  lemma FourParts(blank: string, sign: string, digits: string, rest: string)
    ensures blank + sign + digits + rest == blank + (sign + (digits + rest))
  {
  }

  lemma DigitIsBare(c: char)
    requires '0' <= c <= '9'
    ensures !Text.IsSpace(c) && !Text.IsSpace('+') && !Text.IsSpace('-') && c != '-' && c != '+'
  {
  }

  /** What `parseInt` is left with behind white space, and behind a sign. */
  lemma FrontOf(blank: string, sign: string, tail: string)
    requires Text.Blank(blank) && IsSign(sign)
    requires tail != "" && !Text.IsSpace(tail[0]) && tail[0] != '+' && tail[0] != '-'
    ensures Text.TrimStart(blank + (sign + tail)) == sign + tail
    ensures sign != "" ==> (sign + tail)[1..] == tail
    ensures sign == "" ==> sign + tail == tail
  {
    Text.TrimStartBlank(blank, sign + tail);
    assert !Text.IsSpace('+') && !Text.IsSpace('-');
  }

  /** Text in which no digit stands behind white space and at most one sign is not a number. */
  lemma ParseIntRefuses(blank: string, sign: string, rest: string)
    requires Text.Blank(blank) && IsSign(sign) && !StartsWithDigit(rest)
    requires sign == "" && rest != "" ==> !Text.IsSpace(rest[0]) && rest[0] != '+' && rest[0] != '-'
    ensures ParseInt(blank + sign + rest) == NaN
  {
    assert blank + sign + rest == blank + (sign + rest);
    Text.TrimStartBlank(blank, sign + rest);
    assert !Text.IsSpace('+') && !Text.IsSpace('-');
    assert Text.TrimStart(sign + rest) == sign + rest;
    LeadingIntReads("", "", rest, None);
    assert "" + rest == rest;
    assert sign != "" ==> (sign + rest)[1..] == rest;
  }

  /** `t` is the integer next to `x` towards zero. */
  predicate Towards(x: real, t: real) {
    t == t.Floor as real && (if x >= 0.0 then 0.0 <= t <= x < t + 1.0 else t - 1.0 < x <= t <= 0.0)
  }

  lemma TruncMeaning(n: JsNumber)
    ensures if n.Finite? then Trunc(n).Finite? && Towards(n.value, Trunc(n).value) else Trunc(n) == n
  {
    TruncIsIntegral(n);
  }

  predicate IsFlagWord(text: string) {
    text == "1" || text == "true" || text == "yes" || text == "on"
  }

  /** The decimal text of `n`, behind white space and a sign, with anything but a digit behind it. */
  ghost predicate SpellsInteger(text: string, n: int) {
    exists blank, sign, digits, rest :: IntegerParts(text, n, blank, sign, digits, rest)
  }

  ghost predicate IntegerParts(text: string, n: int, blank: string, sign: string, digits: string, rest: string) {
    && text == blank + sign + digits + rest && Text.Blank(blank) && IsSign(sign) && Digits(digits) && !StartsWithDigit(rest)
    && n == Signed(sign, digits)
  }

  lemma SpelledIntegerIsRead(text: string, n: int)
    requires SpellsInteger(text, n)
    ensures ParseInt(text) == Finite(n as real)
  {
    var blank, sign, digits, rest :| IntegerParts(text, n, blank, sign, digits, rest);
    ParseIntReads(blank, sign, digits, rest);
  }

  lemma DecimalSpells(blank: string, n: int, rest: string)
    requires Text.Blank(blank) && !StartsWithDigit(rest)
    ensures SpellsInteger(blank + (if n < 0 then "-" + Decimal(-n) else Decimal(n)) + rest, n)
  {
    var digits := Decimal(if n < 0 then -n else n);
    DecimalRoundTrip(if n < 0 then -n else n);
    var sign := if n < 0 then "-" else "";
    var text := blank + (if n < 0 then "-" + Decimal(-n) else Decimal(n)) + rest;
    assert text == blank + sign + digits + rest;
    assert IntegerParts(text, n, blank, sign, digits, rest);
  }

  /** A text that spells no integer starts, behind white space and at most one sign, with something else than a digit. */
  lemma NoInteger(text: string) returns (blank: string, sign: string, rest: string)
    requires forall n :: !SpellsInteger(text, n)
    ensures text == blank + sign + rest && Text.Blank(blank) && IsSign(sign) && !StartsWithDigit(rest)
    ensures sign == "" && rest != "" ==> !Text.IsSpace(rest[0]) && rest[0] != '+' && rest[0] != '-'
  {
    var tail: string;
    blank, tail := SplitBlank(text);
    if tail != "" && (tail[0] == '+' || tail[0] == '-') {
      sign, rest := [tail[0]], tail[1..];
    } else {
      sign, rest := "", tail;
    }
    assert text == blank + sign + rest;
    if StartsWithDigit(rest) {
      var digits, after := SplitDigits(rest);
      var n := Signed(sign, digits);
      assert text == blank + sign + digits + after;
      assert IntegerParts(text, n, blank, sign, digits, after);
      assert SpellsInteger(text, n);
      assert false;
    }
  }

  lemma {:induction false} SplitBlank(text: string) returns (blank: string, tail: string)
    ensures text == blank + tail && Text.Blank(blank) && (tail != "" ==> !Text.IsSpace(tail[0]))
  {
    if text != "" && Text.IsSpace(text[0]) {
      blank, tail := SplitBlank(text[1..]);
      blank := [text[0]] + blank;
    } else {
      blank, tail := "", text;
    }
  }

  lemma {:induction false} SplitDigits(text: string) returns (digits: string, rest: string)
    ensures text == digits + rest && !StartsWithDigit(rest) && (forall i :: 0 <= i < |digits| ==> '0' <= digits[i] <= '9')
    ensures StartsWithDigit(text) ==> digits != ""
  {
    if StartsWithDigit(text) {
      digits, rest := SplitDigits(text[1..]);
      digits := [text[0]] + digits;
    } else {
      digits, rest := "", text;
    }
  }

  /** What a value that is neither missing nor null becomes for a parameter of this type and format. */
  ghost predicate Becomes(rt: Runtime, p: Property, v: JsValue, out: JsValue) {
    if p.format == Some("pve-command-batch") && v.Arr? then out == Str(rt.stringify(v))
    else if p.schemaType == Some("integer") then
      && out.Num?
      && (v.Num? && v.n.Finite? ==> out.n.Finite? && Towards(v.n.value, out.n.value))
      && (v.Num? && !v.n.Finite? ==> out == v)
      && (!v.Num? ==>
            && (forall n :: SpellsInteger(ToText(rt, v), n) ==> out.n == Finite(n as real))
            && ((forall n :: !SpellsInteger(ToText(rt, v), n)) ==> out.n == NaN))
    else if p.schemaType == Some("number") then out == if v.Num? then v else Num(rt.parseFloat(ToText(rt, v)))
    else if p.schemaType == Some("boolean") then
      match v
      case Bool(_) => out == v
      case Num(n) => out == Bool(!(n.Finite? && n.value == 0.0))
      case _ => out == Bool(IsFlagWord(rt.toLower(ToText(rt, v))))
    else if p.schemaType == Some("string") then
      match v
      case Str(_) => out == v
      case Arr(_) => out == Str(rt.stringify(v))
      case Obj(_) => out == Str(rt.stringify(v))
      case _ => out == Str(rt.toText(v))
    else out == v
  }

  lemma CoerceMeaning(rt: Runtime, p: Property, v: JsValue)
    requires !v.Undefined? && !v.Null?
    ensures Becomes(rt, p, v, Coerce(rt, p, v))
  {
    if p.schemaType == Some("integer") {
      if v.Num? {
        TruncMeaning(v.n);
      } else {
        IntegerMeaning(ToText(rt, v));
      }
      hide ParseInt, Trunc, Towards, SpellsInteger;
    }
  }

  lemma IntegerMeaning(text: string)
    ensures forall n :: SpellsInteger(text, n) ==> ParseInt(text) == Finite(n as real)
    ensures (forall n :: !SpellsInteger(text, n)) ==> ParseInt(text) == NaN
  {
    forall n | SpellsInteger(text, n) ensures ParseInt(text) == Finite(n as real) {
      SpelledIntegerIsRead(text, n);
    }
    if forall n :: !SpellsInteger(text, n) {
      var blank, sign, rest := NoInteger(text);
      ParseIntRefuses(blank, sign, rest);
    }
  }

  // --------------------------------------------------- indexed parameters

  const MARK: string := "[n]"

  /** The expression for a schema name that contains `[n]`. */
  function IndexedText(schemaName: string): string {
    "^" + ReplaceFirst(Escape(schemaName, true), "\\[n\\]", "\\d+") + "$"
  }

  predicate IndexedMatches(schemaName: string, actual: string) {
    var items := Parse(IndexedText(schemaName));
    items.Some? && Test(items.value, actual, PathTemplate.Same)
  }

  lemma {:induction false} EscapeAll(a: string, b: string)
    ensures Escape(a + b, true) == Escape(a, true) + Escape(b, true)
  {
    if a == "" {
      assert a + b == b;
    } else {
      assert (a + b)[1..] == a[1..] + b;
      EscapeAll(a[1..], b);
    }
  }

  /** An escaped text never begins with a bare bracket, and begins with `n` only if the text does. */
  lemma EscapeStart(s: string)
    requires s != ""
    ensures Escape(s, true) == EscapeChar(s[0], true) + Escape(s[1..], true)
    ensures Escape(s, true)[0] != '[' && (Escape(s, true)[0] == 'n' ==> s[0] == 'n')
  {
  }

  /** Where the escaped marker occurs in an escaped name, the marker occurs in the name. */
  lemma {:induction false} EscapedMark(s: string, j: nat) returns (i: nat)
    requires OccursAt(Escape(s, true), "\\[n\\]", j)
    ensures i <= |s| && j == |Escape(s[..i], true)| && OccursAt(s, MARK, i)
  {
    assert s != "";
    var e := Escape(s, true);
    var head, tail := EscapeChar(s[0], true), Escape(s[1..], true);
    EscapeStart(s);
    if j >= |head| {
      assert e[j..j + 5] == tail[j - |head|..j - |head| + 5];
      var k := EscapedMark(s[1..], j - |head|);
      i := k + 1;
      assert s[..i] == [s[0]] + s[1..][..k];
      EscapeAll([s[0]], s[1..][..k]);
      assert Escape([s[0]], true) == head + "";
      assert s[i..i + 3] == s[1..][k..k + 3];
    } else {
      MarkAtFront(s, j);
      i := 0;
    }
  }

  lemma MarkChars(e: string, j: nat)
    requires OccursAt(e, "\\[n\\]", j)
    ensures |e| >= j + 5 && e[j] == '\\' && e[j + 1] == '[' && e[j + 2] == 'n' && e[j + 3] == '\\' && e[j + 4] == ']'
  {
    assert e[j..j + 5][0] == e[j] && e[j..j + 5][1] == e[j + 1] && e[j..j + 5][2] == e[j + 2];
    assert e[j..j + 5][3] == e[j + 3] && e[j..j + 5][4] == e[j + 4];
  }

  /** A backslash in escaped text stands for the character behind it. */
  lemma PeelEscaped(s: string)
    requires s != "" && Escape(s, true)[0] == '\\'
    ensures |Escape(s, true)| >= 2 && Escape(s, true)[1] == s[0] && Escape(s, true)[2..] == Escape(s[1..], true)
  {
    EscapeStart(s);
  }

  /** A character that needs no escape stands for itself. */
  lemma PeelPlain(s: string)
    requires s != "" && Escape(s, true)[0] == 'n'
    ensures s[0] == 'n' && Escape(s, true)[1..] == Escape(s[1..], true)
  {
    EscapeStart(s);
  }

  lemma MarkAtFront(s: string, j: nat)
    requires s != "" && j < |EscapeChar(s[0], true)| && OccursAt(Escape(s, true), "\\[n\\]", j)
    ensures j == 0 && OccursAt(s, MARK, 0)
  {
    var e := Escape(s, true);
    MarkChars(e, j);
    EscapeStart(s);
    if j == 1 {
      BackslashAtFront(s);
    }
    MarkSpelled(s);
  }

  lemma BackslashAtFront(s: string)
    requires s != "" && |EscapeChar(s[0], true)| == 2
    ensures |Escape(s, true)| >= 3 ==> Escape(s, true)[2] != '['
  {
    EscapeStart(s);
    if s[1..] != "" {
      EscapeStart(s[1..]);
    }
  }

  lemma MarkSpelled(s: string)
    requires OccursAt(Escape(s, true), "\\[n\\]", 0)
    ensures OccursAt(s, MARK, 0)
  {
    var e := Escape(s, true);
    MarkChars(e, 0);
    assert s != "";
    PeelEscaped(s);
    var t := s[1..];
    var et := Escape(t, true);
    assert et[0] == e[2] && et[1] == e[3] && et[2] == e[4];
    assert t != "";
    hide Escape, EscapeChar;
    PeelPlain(t);
    var u := t[1..];
    MarkEnds(u);
    assert s[..3] == [s[0], t[0], u[0]];
  }

  lemma MarkEnds(u: string)
    requires |Escape(u, true)| >= 2 && Escape(u, true)[0] == '\\' && Escape(u, true)[1] == ']'
    ensures u != "" && u[0] == ']'
  {
    assert u != "";
    PeelEscaped(u);
  }

  /** The marker that is replaced is the first one of the name itself. */
  lemma ReplaceMark(name: string, at: nat)
    requires IndexOf(name, MARK) == Some(at)
    ensures ReplaceFirst(Escape(name, true), "\\[n\\]", "\\d+")
            == Escape(name[..at], true) + "\\d+" + Escape(name[at + 3..], true)
  {
    var needle := "\\[n\\]";
    var before, after := Escape(name[..at], true), Escape(name[at + 3..], true);
    assert name == name[..at] + (MARK + name[at + 3..]);
    EscapeAll(name[..at], MARK + name[at + 3..]);
    EscapeAll(MARK, name[at + 3..]);
    EscapedMarkText();
    var hay := Escape(name, true);
    assert hay == before + needle + after;
    assert hay[|before|..|before| + |needle|] == needle;
    assert OccursAt(hay, needle, |before|);
    forall j: nat | j < |before| ensures !OccursAt(hay, needle, j) {
      if OccursAt(hay, needle, j) {
        var i := EscapedMark(name, j);
        EscapeMonotone(name, i, at);
        assert false;
      }
    }
    assert IndexOf(hay, needle) == Some(|before|);
    assert hay[..|before|] == before && hay[|before| + |needle|..] == after;
  }

  lemma EscapedMarkText()
    ensures Escape(MARK, true) == "\\[n\\]"
  {
    assert MARK[1..] == "n]" && MARK[1..][1..] == "]" && MARK[1..][1..][1..] == "";
  }

  lemma EscapeMonotone(s: string, i: nat, j: nat)
    requires i <= |s| && j <= |s| && |Escape(s[..i], true)| < |Escape(s[..j], true)|
    ensures i < j
  {
    if j <= i {
      assert s[..i] == s[..j] + s[j..i];
      EscapeAll(s[..j], s[j..i]);
    }
  }

  const INDEX: Item := Item(Digit, Plus, false, false)

  lemma IndexedParses(name: string, at: nat)
    requires IndexOf(name, MARK) == Some(at)
    ensures Parse(IndexedText(name)) == Some(Literals(name[..at]) + ([INDEX] + Literals(name[at + 3..])))
  {
    var suffix := Escape(name[at + 3..], true) + "$";
    IndexedTextIs(name, at);
    IndexedItemsParse(name[..at], name[at + 3..]);
    assert ("^" + (Escape(name[..at], true) + ("\\d+" + suffix)))[1..] == Escape(name[..at], true) + ("\\d+" + suffix);
  }

  lemma IndexedTextIs(name: string, at: nat)
    requires IndexOf(name, MARK) == Some(at)
    ensures IndexedText(name) == "^" + (Escape(name[..at], true) + ("\\d+" + (Escape(name[at + 3..], true) + "$")))
  {
    ReplaceMark(name, at);
    hide Escape, ReplaceFirst, IndexOf;
    FiveParts(Escape(name[..at], true), "\\d+", Escape(name[at + 3..], true));
  }

  lemma FiveParts(a: string, b: string, c: string)
    ensures "^" + (a + b + c) + "$" == "^" + (a + (b + (c + "$")))
  {
  }

  lemma IndexedItemsParse(before: string, after: string)
    ensures ParseItems(Escape(before, true) + ("\\d+" + (Escape(after, true) + "$")))
            == Some(Literals(before) + ([INDEX] + Literals(after)))
  {
    var suffix := Escape(after, true) + "$";
    ParseLiterals(after, true, "$");
    IndexParses(suffix);
    ParseLiterals(before, true, "\\d+" + suffix);
    assert ParseItems("$") == Some([]);
    hide ParseItems, Escape;
    assert Literals(after) + [] == Literals(after);
  }

  lemma IndexParses(rest: string)
    requires NoQuantifierAhead(rest)
    ensures ParseItems("\\d+" + rest) == Prepend([INDEX], ParseItems(rest))
  {
    var t := "\\d+" + rest;
    assert t[2..] == "+" + rest && ("+" + rest)[1..] == rest;
    assert ParseAtom(t) == Some(Parsed(Digit, "+" + rest));
    assert |t| >= 3 && t[..3][0] == '\\';
  }

  /**
   A schema name with a marker resolves an argument name if and only if that is the text before the first
   `[n]`, one or more digits, and the text after it.
   */
  lemma IndexedMeaning(name: string, at: nat, actual: string)
    requires IndexOf(name, MARK) == Some(at)
    ensures IndexedMatches(name, actual)
            <==> exists digits :: Digits(digits) && actual == name[..at] + digits + name[at + 3..]
  {
    IndexedParses(name, at);
    var prefix, suffix := name[..at], name[at + 3..];
    var items := [INDEX] + Literals(suffix);
    ExecLiterals(prefix, items, actual, PathTemplate.Same);
    LiteralPrefix(prefix, actual);
    hide Exec, Escape, Literals, Parse, ReplaceFirst, IndexOf;
    if Begins(actual, prefix) {
      IndexTail(suffix, actual[|prefix|..]);
    }
    forall digits ensures actual == prefix + digits + suffix
                          <==> Begins(actual, prefix) && actual[|prefix|..] == digits + suffix
    {
      SplitPrefix(prefix, digits, suffix, actual);
    }
  }

  lemma LiteralPrefix(prefix: string, s: string)
    ensures Begins(s, prefix)
            <==> |prefix| <= |s| && forall i :: 0 <= i < |prefix| ==> PathTemplate.Same(prefix[i]) == PathTemplate.Same(s[i])
  {
  }

  lemma SplitPrefix(prefix: string, digits: string, suffix: string, actual: string)
    ensures actual == prefix + digits + suffix <==> Begins(actual, prefix) && actual[|prefix|..] == digits + suffix
  {
    assert prefix + digits + suffix == prefix + (digits + suffix);
    if Begins(actual, prefix) {
      assert actual == prefix + actual[|prefix|..];
    }
  }

  lemma IndexTail(suffix: string, rest: string)
    ensures Test([INDEX] + Literals(suffix), rest, PathTemplate.Same)
            <==> exists digits :: Digits(digits) && rest == digits + suffix
  {
    var items := [INDEX] + Literals(suffix);
    assert items[1..] == Literals(suffix);
    TestUnfold(items, rest, PathTemplate.Same);
    forall n: nat
      ensures Takes(items, rest, PathTemplate.Same, n) <==> n <= |rest| && Digits(rest[..n]) && rest[n..] == suffix
    {
      TakesIndex(suffix, rest, n);
    }
    if digits :| Digits(digits) && rest == digits + suffix {
      assert rest[..|digits|] == digits && rest[|digits|..] == suffix;
      assert Takes(items, rest, PathTemplate.Same, |digits|);
    }
    if n: nat :| Takes(items, rest, PathTemplate.Same, n) {
      assert rest == rest[..n] + rest[n..];
    }
  }

  lemma TakesIndex(suffix: string, rest: string, n: nat)
    ensures Takes([INDEX] + Literals(suffix), rest, PathTemplate.Same, n)
            <==> n <= |rest| && Digits(rest[..n]) && rest[n..] == suffix
  {
    var items := [INDEX] + Literals(suffix);
    assert items[1..] == Literals(suffix) && items[0] == INDEX;
    if n <= |rest| {
      assert Literals(suffix) + [] == Literals(suffix);
      ExecLiterals(suffix, [], rest[n..], PathTemplate.Same);
      if n <= Span(Digit, rest, PathTemplate.Same) {
        forall i | 0 <= i < n ensures '0' <= rest[..n][i] <= '9' {
          SpanAccepts(Digit, rest, PathTemplate.Same, i);
        }
      } else if Digits(rest[..n]) {
        assert forall i :: 0 <= i < n ==> rest[i] == rest[..n][i];
        SpanCovers(Digit, rest, PathTemplate.Same, n);
      }
    }
  }

  // --------------------------------------------------------- resolution

  type Properties = seq<(string, Property)>

  function Lookup(props: Properties, name: string): Option<Property> {
    if props == [] then None else if props[0].0 == name then Some(props[0].1) else Lookup(props[1..], name)
  }

  function FirstIndexed(props: Properties, name: string): Option<Property> {
    if props == [] then None
    else if IndexOf(props[0].0, MARK).Some? && IndexedMatches(props[0].0, name) then Some(props[0].1)
    else FirstIndexed(props[1..], name)
  }

  /** An exact name wins; otherwise the first marked name, in schema order, whose expression matches. */
  function Resolve(props: Properties, name: string): Option<Property> {
    var exact := Lookup(props, name);
    if exact.Some? then exact else FirstIndexed(props, name)
  }

  predicate HasProperty(props: Properties, name: string) {
    exists i :: 0 <= i < |props| && props[i].0 == name
  }

  /** The name contains `[n]`, and `actual` is the name with digits in place of the first one. */
  ghost predicate MarkedFor(schemaName: string, actual: string) {
    IndexOf(schemaName, MARK).Some? && exists digits :: FillsMark(schemaName, IndexOf(schemaName, MARK).value, digits, actual)
  }

  predicate FillsMark(schemaName: string, at: nat, digits: string, actual: string) {
    at + 3 <= |schemaName| && Digits(digits) && actual == schemaName[..at] + digits + schemaName[at + 3..]
  }

  /** The property a name resolves to: the one of that very name, else the first whose marked name it fills, else none. */
  ghost predicate Resolves(props: Properties, name: string, r: Option<Property>) {
    && (forall i :: 0 <= i < |props| && props[i].0 == name && (forall j :: 0 <= j < i ==> props[j].0 != name) ==> r == Some(props[i].1))
    && (!HasProperty(props, name) ==>
          && (forall i :: 0 <= i < |props| && MarkedFor(props[i].0, name) && (forall j :: 0 <= j < i ==> !MarkedFor(props[j].0, name))
                ==> r == Some(props[i].1))
          && ((forall i :: 0 <= i < |props| ==> !MarkedFor(props[i].0, name)) ==> r == None))
  }

  lemma {:induction false} LookupMeaning(props: Properties, name: string)
    ensures Lookup(props, name).Some? <==> HasProperty(props, name)
    ensures forall i :: 0 <= i < |props| && props[i].0 == name && (forall j :: 0 <= j < i ==> props[j].0 != name)
              ==> Lookup(props, name) == Some(props[i].1)
  {
    LookupNone(props, name);
    if props != [] {
      LookupMeaning(props[1..], name);
      forall i | 0 < i < |props| && props[i].0 == name && (forall j :: 0 <= j < i ==> props[j].0 != name)
        ensures Lookup(props, name) == Some(props[i].1)
      {
        assert forall j :: 0 <= j < i - 1 ==> props[1..][j] == props[j + 1];
        assert props[1..][i - 1] == props[i];
      }
    }
  }

  lemma MarkedForMeaning(schemaName: string, actual: string)
    ensures IndexOf(schemaName, MARK).Some? && IndexedMatches(schemaName, actual) <==> MarkedFor(schemaName, actual)
  {
    if IndexOf(schemaName, MARK).Some? {
      var at := IndexOf(schemaName, MARK).value;
      IndexedMeaning(schemaName, at, actual);
      hide IndexedMatches, IndexOf;
      forall digits ensures FillsMark(schemaName, at, digits, actual)
                            <==> Digits(digits) && actual == schemaName[..at] + digits + schemaName[at + 3..]
      {
      }
      if IndexedMatches(schemaName, actual) {
        var digits :| Digits(digits) && actual == schemaName[..at] + digits + schemaName[at + 3..];
        assert FillsMark(schemaName, at, digits, actual);
      }
    }
  }

  lemma {:induction false} FirstIndexedMeaning(props: Properties, name: string)
    ensures forall i :: 0 <= i < |props| && MarkedFor(props[i].0, name) && (forall j :: 0 <= j < i ==> !MarkedFor(props[j].0, name))
              ==> FirstIndexed(props, name) == Some(props[i].1)
    ensures (forall i :: 0 <= i < |props| ==> !MarkedFor(props[i].0, name)) ==> FirstIndexed(props, name) == None
  {
    if props != [] {
      MarkedForMeaning(props[0].0, name);
      hide IndexedMatches, IndexOf, MarkedFor;
      FirstIndexedMeaning(props[1..], name);
      forall i | 0 < i < |props| && MarkedFor(props[i].0, name) && (forall j :: 0 <= j < i ==> !MarkedFor(props[j].0, name))
        ensures FirstIndexed(props, name) == Some(props[i].1)
      {
        assert forall j :: 0 <= j < i - 1 ==> props[1..][j] == props[j + 1];
        assert props[1..][i - 1] == props[i];
      }
    }
  }

  lemma ResolveMeaning(props: Properties, name: string)
    ensures Resolves(props, name, Resolve(props, name))
  {
    LookupMeaning(props, name);
    FirstIndexedMeaning(props, name);
    hide Lookup, FirstIndexed, MarkedFor;
  }

  method ResolveSchemaProperty(actualName: string, props: Properties) returns (r: Option<Property>)
    ensures r == Resolve(props, actualName)
    ensures Resolves(props, actualName, r)
  {
    ResolveMeaning(props, actualName);
    hide Resolves;
    r := Lookup(props, actualName);
    if r.Some? {
      return;
    }
    var i := 0;
    while i < |props|
      invariant 0 <= i <= |props|
      invariant FirstIndexed(props, actualName) == FirstIndexed(props[i..], actualName)
    {
      if IndexOf(props[i].0, MARK).Some? && IndexedMatches(props[i].0, actualName) {
        return Some(props[i].1);
      }
      i := i + 1;
    }
    assert props[i..] == [];
    r := None;
  }

  // --------------------------------------------------------- validation

  datatype MethodInfo = MethodInfo(properties: Properties, closed: bool)

  datatype Descriptor = Descriptor(
    httpMethod: string, templatePath: string, regex: seq<Item>, pathParams: seq<string>, info: MethodInfo)

  datatype ArgError = UnknownParameter(name: string) | MissingParameter(name: string)

  type Args = map<string, JsValue>

  function FirstUnknown(d: Descriptor, keys: seq<string>): Option<string> {
    if keys == [] then None
    else if Resolve(d.info.properties, keys[0]).None? then Some(keys[0])
    else FirstUnknown(d, keys[1..])
  }

  function ValueOf(args: Args, name: string): JsValue {
    if name in args then args[name] else Undefined
  }

  function FirstMissing(d: Descriptor, props: Properties, args: Args): Option<string> {
    if props == [] then None
    else if props[0].0 !in d.pathParams && ValueOf(args, props[0].0).Undefined? && !props[0].1.optional then Some(props[0].0)
    else FirstMissing(d, props[1..], args)
  }

  /** What becomes of one argument. */
  function Coerced(rt: Runtime, d: Descriptor, name: string, v: JsValue): JsValue {
    if name in d.pathParams || v.Undefined? then v
    else
      var property := Resolve(d.info.properties, name);
      if property.None? then v else Coerce(rt, property.value, v)
  }

  /** The outcome for the arguments alone; `keys` lists them in insertion order. */
  function Validated(rt: Runtime, d: Descriptor, keys: seq<string>, args: Args): Result<Args, ArgError> {
    if d.info.closed && FirstUnknown(d, keys).Some? then Err(UnknownParameter(FirstUnknown(d, keys).value))
    else if FirstMissing(d, d.info.properties, args).Some? then
      Err(MissingParameter(FirstMissing(d, d.info.properties, args).value))
    else Ok(map k | k in args :: Coerced(rt, d, k, args[k]))
  }

  ghost predicate DistinctNames(props: Properties) {
    forall i, j :: 0 <= i < j < |props| ==> props[i].0 != props[j].0
  }

  ghost predicate KeysOf(keys: seq<string>, args: Args) {
    (forall k :: k in keys <==> k in args) && forall i, j :: 0 <= i < j < |keys| ==> keys[i] != keys[j]
  }

  /** The arguments once the first `n` described parameters have been coerced. */
  function Described(rt: Runtime, d: Descriptor, n: nat, args: Args): Args
    requires n <= |d.info.properties|
  {
    map k | k in args ::
      if k !in d.pathParams && !args[k].Undefined? && Lookup(d.info.properties[..n], k).Some?
      then Coerce(rt, Lookup(d.info.properties[..n], k).value, args[k]) else args[k]
  }

  lemma {:induction false} LookupPrefix(props: Properties, n: nat, name: string)
    requires n < |props| && DistinctNames(props)
    ensures Lookup(props[..n + 1], name) == if name == props[n].0 then Some(props[n].1) else Lookup(props[..n], name)
  {
    if n == 0 {
      assert props[..1] == [props[0]] && props[..0] == [];
    } else {
      assert props[..n + 1][1..] == props[1..][..n] && props[..n][1..] == props[1..][..n - 1];
      assert props[..n + 1][0] == props[0] && props[..n][0] == props[0];
      LookupPrefix(props[1..], n - 1, name);
    }
  }

  lemma {:induction false} LookupNone(props: Properties, name: string)
    ensures Lookup(props, name).Some? <==> exists i :: 0 <= i < |props| && props[i].0 == name
  {
    if props != [] {
      LookupNone(props[1..], name);
      if i :| 0 <= i < |props| && props[i].0 == name {
        assert i > 0 ==> props[1..][i - 1].0 == name;
      }
    }
  }

  /** The arguments once the first `n` keys of the second loop have been dealt with as well. */
  function Indexed(rt: Runtime, d: Descriptor, keys: seq<string>, n: nat, args: Args): Args
    requires n <= |keys|
  {
    var described := Described(rt, d, |d.info.properties|, args);
    map k | k in args :: if k in keys[..n] then Coerced(rt, d, k, args[k]) else described[k]
  }

  /** `validate`, from the matched descriptor on. */
  method Validate(rt: Runtime, d: Descriptor, keys: seq<string>, inputArgs: Args) returns (r: Result<Args, ArgError>)
    requires KeysOf(keys, inputArgs) && DistinctNames(d.info.properties)
    ensures r == Validated(rt, d, keys, inputArgs)
  {
    if d.info.closed {
      var unknown := CheckKnown(d, keys);
      if unknown.Some? {
        return Err(UnknownParameter(unknown.value));
      }
    }
    var missing, described := CoerceDescribed(rt, d, inputArgs);
    if missing.Some? {
      return Err(MissingParameter(missing.value));
    }
    var args := CoerceIndexed(rt, d, keys, inputArgs, described);
    AllIndexed(rt, d, keys, inputArgs);
    r := Ok(args);
  }

  /** The loop over the argument names that rejects what a closed schema does not describe. */
  method CheckKnown(d: Descriptor, keys: seq<string>) returns (unknown: Option<string>)
    ensures unknown == FirstUnknown(d, keys)
  {
    hide Resolves;
    var i := 0;
    while i < |keys|
      invariant 0 <= i <= |keys|
      invariant FirstUnknown(d, keys) == FirstUnknown(d, keys[i..])
    {
      var known := ResolveSchemaProperty(keys[i], d.info.properties);
      if known.None? {
        return Some(keys[i]);
      }
      i := i + 1;
    }
    assert keys[i..] == [];
    unknown := None;
  }

  /** The loop over the schema's parameters, overwriting the arguments that it describes by name. */
  method CoerceDescribed(rt: Runtime, d: Descriptor, inputArgs: Args) returns (missing: Option<string>, args: Args)
    requires DistinctNames(d.info.properties)
    ensures missing == FirstMissing(d, d.info.properties, inputArgs)
    ensures missing.None? ==> args == Described(rt, d, |d.info.properties|, inputArgs)
  {
    args := inputArgs;
    var props := d.info.properties;
    var i := 0;
    assert props[..0] == [];
    assert Described(rt, d, 0, inputArgs) == args;
    while i < |props|
      invariant 0 <= i <= |props|
      invariant FirstMissing(d, props, inputArgs) == FirstMissing(d, props[i..], inputArgs)
      invariant args == Described(rt, d, i, inputArgs)
    {
      var (name, property) := props[i];
      DescribedStep(rt, d, i, inputArgs);
      hide Described, Coerce;
      if name !in d.pathParams {
        var value := ValueOf(args, name);
        if value.Undefined? {
          if !property.optional {
            return Some(name), args;
          }
        } else {
          args := args[name := Coerce(rt, property, value)];
        }
      }
      i := i + 1;
    }
    assert props[i..] == [];
    missing := None;
  }

  /** The loop over a snapshot of the entries, overwriting the arguments that only a marked name describes. */
  method CoerceIndexed(rt: Runtime, d: Descriptor, keys: seq<string>, inputArgs: Args, described: Args) returns (args: Args)
    requires KeysOf(keys, inputArgs) && described == Described(rt, d, |d.info.properties|, inputArgs)
    ensures args == Indexed(rt, d, keys, |keys|, inputArgs)
  {
    hide Resolves;
    args := described;
    var i := 0;
    assert keys[..0] == [];
    assert args == Indexed(rt, d, keys, 0, inputArgs);
    while i < |keys|
      invariant 0 <= i <= |keys|
      invariant args == Indexed(rt, d, keys, i, inputArgs)
    {
      var actualName, value := keys[i], described[keys[i]];
      IndexedStep(rt, d, keys, i, inputArgs);
      hide Indexed, Coerce, Resolve;
      if !(actualName in d.pathParams || value.Undefined? || Lookup(d.info.properties, actualName).Some?) {
        var resolved := ResolveSchemaProperty(actualName, d.info.properties);
        if resolved.Some? {
          args := args[actualName := Coerce(rt, resolved.value, value)];
        }
      }
      i := i + 1;
    }
  }

  lemma AllIndexed(rt: Runtime, d: Descriptor, keys: seq<string>, args: Args)
    requires KeysOf(keys, args)
    ensures Indexed(rt, d, keys, |keys|, args) == map k | k in args :: Coerced(rt, d, k, args[k])
  {
    hide Coerced, Described;
    assert keys[..|keys|] == keys;
  }

  lemma DescribedStep(rt: Runtime, d: Descriptor, i: nat, args: Args)
    requires i < |d.info.properties| && DistinctNames(d.info.properties)
    ensures var (name, property) := d.info.properties[i];
            var before := Described(rt, d, i, args);
            && ValueOf(before, name) == ValueOf(args, name)
            && Described(rt, d, i + 1, args)
               == if name !in d.pathParams && !ValueOf(args, name).Undefined?
                  then before[name := Coerce(rt, property, ValueOf(args, name))] else before
  {
    var props := d.info.properties;
    forall k ensures Lookup(props[..i + 1], k) == if k == props[i].0 then Some(props[i].1) else Lookup(props[..i], k) {
      LookupPrefix(props, i, k);
    }
    LookupNone(props[..i], props[i].0);
    assert Lookup(props[..i], props[i].0).None?;
    hide Coerce, Lookup;
  }

  lemma IndexedStep(rt: Runtime, d: Descriptor, keys: seq<string>, i: nat, args: Args)
    requires i < |keys| && KeysOf(keys, args)
    ensures var name := keys[i];
            var entry := Described(rt, d, |d.info.properties|, args)[name];
            var before := Indexed(rt, d, keys, i, args);
            var skip := name in d.pathParams || entry.Undefined? || Lookup(d.info.properties, name).Some?;
            var resolved := Resolve(d.info.properties, name);
            Indexed(rt, d, keys, i + 1, args)
            == if skip || resolved.None? then before else before[name := Coerce(rt, resolved.value, entry)]
  {
    assert d.info.properties[..|d.info.properties|] == d.info.properties;
    assert keys[..i + 1] == keys[..i] + [keys[i]];
    CoerceUndefined(rt, d, keys[i], args[keys[i]]);
    hide Coerce, Lookup, FirstIndexed;
  }

  lemma CoerceUndefined(rt: Runtime, d: Descriptor, k: string, v: JsValue)
    ensures Coerced(rt, d, k, v).Undefined? <==> v.Undefined?
    ensures forall p :: Coerce(rt, p, v).Undefined? <==> v.Undefined?
  {
  }

  // ---------------------------------------------------------- the promises

  lemma {:induction false} FirstMissingMeaning(d: Descriptor, props: Properties, args: Args)
    ensures FirstMissing(d, props, args).None?
            <==> forall i :: 0 <= i < |props| && IsRequired(d, props[i]) ==> !ValueOf(args, props[i].0).Undefined?
  {
    if props != [] {
      FirstMissingMeaning(d, props[1..], args);
      assert forall i :: 0 <= i < |props| - 1 ==> props[1..][i] == props[i + 1];
      assert forall i :: 0 < i < |props| ==> props[i] == props[1..][i - 1];
    }
  }

  lemma {:induction false} FirstUnknownMeaning(d: Descriptor, keys: seq<string>)
    ensures FirstUnknown(d, keys).None? <==> forall k :: k in keys ==> Resolve(d.info.properties, k).Some?
  {
    if keys != [] {
      FirstUnknownMeaning(d, keys[1..]);
      assert forall k :: k in keys <==> k == keys[0] || k in keys[1..];
    }
  }

  predicate AllDescribed(d: Descriptor, args: Args) {
    forall k :: k in args ==> Resolve(d.info.properties, k).Some?
  }

  /** Every required parameter that the path does not supply has a value. */
  predicate NothingMissing(d: Descriptor, args: Args) {
    forall i :: 0 <= i < |d.info.properties| && IsRequired(d, d.info.properties[i]) ==>
      HasValue(args, d.info.properties[i].0)
  }

  predicate HasValue(args: Args, name: string) {
    name in args && args[name] != Undefined
  }

  predicate IsRequired(d: Descriptor, entry: (string, Property)) {
    entry.0 !in d.pathParams && !entry.1.optional
  }

  /** Validation succeeds exactly when nothing is missing and, for a closed schema, nothing is unknown. */
  lemma ValidatedWhen(rt: Runtime, d: Descriptor, keys: seq<string>, args: Args)
    requires KeysOf(keys, args)
    ensures Validated(rt, d, keys, args).Ok? <==> (d.info.closed ==> AllDescribed(d, args)) && NothingMissing(d, args)
  {
    FirstUnknownMeaning(d, keys);
    FirstMissingMeaning(d, d.info.properties, args);
  }

  /** Of the keys of a closed schema the first one that nothing describes is named; then the first missing parameter. */
  lemma ValidatedErrors(rt: Runtime, d: Descriptor, keys: seq<string>, args: Args)
    requires KeysOf(keys, args) && Validated(rt, d, keys, args).Err?
    ensures match Validated(rt, d, keys, args).error
            case UnknownParameter(name) =>
              d.info.closed && exists i :: 0 <= i < |keys| && keys[i] == name && IsFirstUnknown(d, keys, i)
            case MissingParameter(name) =>
              && (d.info.closed ==> AllDescribed(d, args))
              && exists i :: 0 <= i < |d.info.properties| && d.info.properties[i].0 == name && IsFirstMissing(d, d.info.properties, args, i)
  {
    FirstUnknownMeaning(d, keys);
    if d.info.closed && FirstUnknown(d, keys).Some? {
      var i := FirstUnknownIs(d, keys);
    } else {
      var i := FirstMissingIs(d, d.info.properties, args);
    }
  }

  predicate IsFirstUnknown(d: Descriptor, keys: seq<string>, i: nat) {
    i < |keys| && Resolve(d.info.properties, keys[i]).None? && forall j :: 0 <= j < i ==> Resolve(d.info.properties, keys[j]).Some?
  }

  predicate IsFirstMissing(d: Descriptor, props: Properties, args: Args, i: nat) {
    && i < |props| && IsRequired(d, props[i]) && !HasValue(args, props[i].0)
    && forall j :: 0 <= j < i ==> IsRequired(d, props[j]) ==> HasValue(args, props[j].0)
  }

  lemma {:induction false} FirstUnknownIs(d: Descriptor, keys: seq<string>) returns (i: nat)
    requires FirstUnknown(d, keys).Some?
    ensures i < |keys| && keys[i] == FirstUnknown(d, keys).value && IsFirstUnknown(d, keys, i)
  {
    hide Resolve;
    if Resolve(d.info.properties, keys[0]).None? {
      i := 0;
    } else {
      i := FirstUnknownIs(d, keys[1..]);
      i := i + 1;
      assert forall j :: 0 < j < i ==> keys[j] == keys[1..][j - 1];
    }
  }

  lemma {:induction false} FirstMissingIs(d: Descriptor, props: Properties, args: Args) returns (i: nat)
    requires FirstMissing(d, props, args).Some?
    ensures i < |props| && props[i].0 == FirstMissing(d, props, args).value && IsFirstMissing(d, props, args, i)
  {
    if IsRequired(d, props[0]) && ValueOf(args, props[0].0).Undefined? {
      i := 0;
    } else {
      i := FirstMissingIs(d, props[1..], args);
      i := i + 1;
      assert forall j :: 0 < j < i ==> props[j] == props[1..][j - 1];
    }
  }

  /** A described argument with a value that the path does not supply. */
  predicate IsCoerced(d: Descriptor, k: string, v: JsValue) {
    k !in d.pathParams && !v.Undefined? && !v.Null? && Resolve(d.info.properties, k).Some?
  }

  /**
   A successful validation returns exactly the keys it was given, leaves path parameters, undefined and
   undescribed values alone, keeps null, and makes of every other value what its parameter asks for, which has
   its schema's type unless it is a list of commands for a parameter typed as something else.
   */
  lemma ValidatedKeeps(rt: Runtime, d: Descriptor, keys: seq<string>, args: Args, k: string)
    requires Validated(rt, d, keys, args).Ok?
    ensures var out := Validated(rt, d, keys, args).value;
            && out.Keys == args.Keys
            && (k in args && !IsCoerced(d, k, args[k]) ==> out[k] == args[k])
            && (k in args && IsCoerced(d, k, args[k]) ==> Becomes(rt, Resolve(d.info.properties, k).value, args[k], out[k]))
            && (k in args && IsCoerced(d, k, args[k]) ==>
                  (HasType(Resolve(d.info.properties, k).value, out[k])
                   <==> !BatchClash(Resolve(d.info.properties, k).value, args[k])))
  {
    var p := Resolve(d.info.properties, k);
    if k in args && p.Some? {
      CoerceTypes(rt, p.value, args[k]);
      if IsCoerced(d, k, args[k]) {
        CoerceMeaning(rt, p.value, args[k]);
      }
    }
    hide Coerce, Resolve, Becomes;
  }

  /** A flag given as text comes out true exactly for the four words, in any case. */
  lemma FlagsAreRead(rt: Runtime, d: Descriptor, keys: seq<string>, args: Args, k: string, text: string)
    requires Validated(rt, d, keys, args).Ok? && k in args && IsCoerced(d, k, args[k]) && args[k] == Str(text)
    requires Resolve(d.info.properties, k).value.schemaType == Some("boolean")
    ensures var out := Validated(rt, d, keys, args).value[k];
            if rt.toLower(text) == "1" || rt.toLower(text) == "true" || rt.toLower(text) == "yes" || rt.toLower(text) == "on"
            then out == Bool(true) else out == Bool(false)
  {
    ValidatedKeeps(rt, d, keys, args, k);
    hide Validated, Resolve, IsCoerced;
  }

  /** An integer given as its decimal text, behind white space and with anything but a digit behind it, comes out as that integer. */
  lemma IntegersAreRead(rt: Runtime, d: Descriptor, keys: seq<string>, args: Args, k: string, blank: string, n: int, rest: string)
    requires Validated(rt, d, keys, args).Ok? && k in args && IsCoerced(d, k, args[k])
    requires Resolve(d.info.properties, k).value.schemaType == Some("integer")
    requires Text.Blank(blank) && !StartsWithDigit(rest)
    requires args[k] == Str(blank + (if n < 0 then "-" + Decimal(-n) else Decimal(n)) + rest)
    ensures Validated(rt, d, keys, args).value[k] == Num(Finite(n as real))
  {
    ValidatedKeeps(rt, d, keys, args, k);
    DecimalSpells(blank, n, rest);
    hide Validated, Resolve, IsCoerced, SpellsInteger, Decimal;
  }

  /** Some argument is a list of commands for a parameter typed as a number or flag. */
  predicate Clashes(d: Descriptor, args: Args) {
    exists k :: k in args && k !in d.pathParams && Resolve(d.info.properties, k).Some?
                && BatchClash(Resolve(d.info.properties, k).value, args[k])
  }

  /** Validating a validated result again succeeds, and changes nothing unless there was such an argument. */
  lemma ValidateTwice(rt: Runtime, d: Descriptor, keys: seq<string>, args: Args)
    requires KeysOf(keys, args) && Validated(rt, d, keys, args).Ok?
    ensures var out := Validated(rt, d, keys, args).value;
            Validated(rt, d, keys, out).Ok? && (Validated(rt, d, keys, out).value == out <==> !Clashes(d, args))
  {
    var out := Validated(rt, d, keys, args).value;
    forall k | k in args
      ensures Coerced(rt, d, k, out[k]) == out[k]
              <==> !(k !in d.pathParams && Resolve(d.info.properties, k).Some?
                     && BatchClash(Resolve(d.info.properties, k).value, args[k]))
      ensures out[k].Undefined? <==> args[k].Undefined?
    {
      CoerceUndefined(rt, d, k, args[k]);
      if k !in d.pathParams && Resolve(d.info.properties, k).Some? {
        CoerceTypes(rt, Resolve(d.info.properties, k).value, args[k]);
      }
    }
    hide Coerce, Resolve, BatchClash;
    ValidatedWhen(rt, d, keys, args);
    ValidatedWhen(rt, d, keys, out);
    var again := Validated(rt, d, keys, out).value;
    assert again.Keys == out.Keys;
    if Clashes(d, args) {
      var k :| k in args && k !in d.pathParams && Resolve(d.info.properties, k).Some?
               && BatchClash(Resolve(d.info.properties, k).value, args[k]);
      assert again[k] != out[k];
    } else {
      forall k | k in out ensures again[k] == out[k] {
      }
    }
  }

  // ------------------------------------------------------ walk and lookup

  datatype RawNode = RawNode(path: string, info: seq<(string, MethodInfo)>, children: seq<RawNode>)

  /** One node's own entries, in the order of its methods; `None` when its template does not compile. */
  function OwnEntries(path: string, info: seq<(string, MethodInfo)>): Option<seq<Descriptor>> {
    if path == "" || info == [] then Some([])
    else
      var regex := Parse(PathTemplate.RegexText(path));
      var rest := OwnEntries(path, info[1..]);
      if regex.None? || rest.None? then None
      else Some([Descriptor(info[0].0, path, regex.value, PathTemplate.ParamNames(path), info[0].1)] + rest.value)
  }

  /** All entries of a forest: a node before its children, children before the next node. */
  function Flatten(nodes: seq<RawNode>): Option<seq<Descriptor>>
    decreases nodes
  {
    if nodes == [] then Some([])
    else
      var own := OwnEntries(nodes[0].path, nodes[0].info);
      var below := Flatten(nodes[0].children);
      var rest := Flatten(nodes[1..]);
      if own.None? || below.None? || rest.None? then None else Some(own.value + (below.value + rest.value))
  }

  datatype Match = Match(descriptor: Descriptor, pathParams: map<string, string>, args: Args)

  /** `Object.fromEntries`: of repeated names the last one counts. */
  function FromEntries(names: seq<string>, values: seq<string>): map<string, string> {
    if names == [] || values == [] then map[]
    else map[names[0] := values[0]] + FromEntries(names[1..], values[1..])
  }

  predicate LastNamed(names: seq<string>, i: int, name: string) {
    0 <= i < |names| && names[i] == name && forall j :: i < j < |names| ==> names[j] != name
  }

  /** Exactly the names become keys, each with the value that stands where the name stands last. */
  lemma {:induction false} FromEntriesMeaning(names: seq<string>, values: seq<string>, name: string)
    requires |names| == |values|
    ensures name in FromEntries(names, values) <==> name in names
    ensures forall i :: LastNamed(names, i, name) ==> name in FromEntries(names, values) && FromEntries(names, values)[name] == values[i]
  {
    if names != [] {
      FromEntriesMeaning(names[1..], values[1..], name);
      assert names == [names[0]] + names[1..];
      forall i | LastNamed(names, i, name) ensures name in FromEntries(names, values) && FromEntries(names, values)[name] == values[i] {
        if i > 0 {
          assert LastNamed(names[1..], i - 1, name);
        } else {
          assert forall j :: 0 <= j < |names[1..]| ==> names[1..][j] == names[j + 1];
        }
      }
    }
  }

  function Unset(d: Descriptor): Args {
    map i: int | 0 <= i < |d.info.properties| && d.info.properties[i].0 !in d.pathParams :: d.info.properties[i].0 := Undefined
  }

  predicate Answers(d: Descriptor, httpMethod: string, path: string) {
    d.httpMethod == httpMethod && Test(d.regex, path, PathTemplate.Same)
  }

  function MatchOf(d: Descriptor, path: string): Match
    requires Test(d.regex, path, PathTemplate.Same)
  {
    Match(d, FromEntries(d.pathParams, Exec(d.regex, path, PathTemplate.Same).value), Unset(d))
  }

  /** The entry's method is the call's in capitals, and its expression accepts the path. */
  predicate AnswersCall(d: Descriptor, httpMethod: string, path: string) {
    Text.UpperSpelling(httpMethod, d.httpMethod) && Test(d.regex, path, PathTemplate.Same)
  }

  /** Small and capital letters make no difference in a call. */
  lemma CaseDoesNotMatter(d: Descriptor, httpMethod: string, upper: string, path: string)
    requires Text.UpperSpelling(httpMethod, upper)
    ensures AnswersCall(d, httpMethod, path) <==> AnswersCall(d, upper, path)
    ensures AnswersCall(d, upper, path) <==> Answers(d, upper, path)
  {
    if d.httpMethod == upper {
      assert forall i :: 0 <= i < |upper| ==> Text.Capital(httpMethod[i], upper[i]);
    } else if |d.httpMethod| == |upper| {
      var i :| 0 <= i < |upper| && d.httpMethod[i] != upper[i];
      assert Text.Capital(httpMethod[i], upper[i]);
      assert !Text.Capital(httpMethod[i], d.httpMethod[i]) && !Text.Capital(upper[i], d.httpMethod[i]);
    }
    hide Test;
  }

  /** The match's arguments hold every described parameter that the path does not supply, without a value. */
  predicate PreSeeded(m: Match) {
    && (forall n :: n in m.args ==> m.args[n] == Undefined)
    && (forall n :: n in m.args ==> n !in m.descriptor.pathParams && HasProperty(m.descriptor.info.properties, n))
    && (forall i :: 0 <= i < |m.descriptor.info.properties| && m.descriptor.info.properties[i].0 !in m.descriptor.pathParams
          ==> m.descriptor.info.properties[i].0 in m.args)
  }

  lemma MatchIsPreSeeded(d: Descriptor, path: string)
    requires Test(d.regex, path, PathTemplate.Same)
    ensures PreSeeded(MatchOf(d, path))
  {
    hide Exec, FromEntries;
  }

  class ApiCatalog {
    var descriptors: seq<Descriptor>

    constructor ()
      ensures descriptors == []
    {
      descriptors := [];
    }

    /** The recursive walk pushes entries depth first; `ok` is false when building an expression threw. */
    method Walk(nodes: seq<RawNode>) returns (ok: bool)
      modifies this
      ensures ok <==> Flatten(nodes).Some?
      ensures ok ==> descriptors == old(descriptors) + Flatten(nodes).value
      ensures GoodTree(nodes) ==> ok
      decreases nodes
    {
      hide OwnEntries;
      if GoodTree(nodes) {
        FlattenGood(nodes);
      }
      hide GoodTree;
      if nodes == [] {
        return true;
      }
      ok := PushEntries(nodes[0].path, nodes[0].info);
      if ok {
        ok := Walk(nodes[0].children);
      }
      if ok {
        ok := Walk(nodes[1..]);
      }
      if ok {
        ThreeParts(old(descriptors), OwnEntries(nodes[0].path, nodes[0].info).value,
                   Flatten(nodes[0].children).value, Flatten(nodes[1..]).value);
      }
    }

    /** The inner loop over a node's methods. */
    method PushEntries(path: string, info: seq<(string, MethodInfo)>) returns (ok: bool)
      modifies this
      ensures ok <==> OwnEntries(path, info).Some?
      ensures ok ==> descriptors == old(descriptors) + OwnEntries(path, info).value
    {
      hide Parse, PathTemplate.RegexText, PathTemplate.ParamNames;
      if path == "" {
        return true;
      }
      var i := 0;
      while i < |info|
        invariant 0 <= i <= |info|
        invariant OwnEntries(path, info[i..]).Some? <==> OwnEntries(path, info).Some?
        invariant OwnEntries(path, info).Some? ==>
                    descriptors + OwnEntries(path, info[i..]).value == old(descriptors) + OwnEntries(path, info).value
      {
        var regex := Parse(PathTemplate.RegexText(path));
        assert info[i..][0] == info[i] && info[i..][1..] == info[i + 1..];
        if regex.None? {
          return false;
        }
        ghost var rest := OwnEntries(path, info[i + 1..]);
        var entry := Descriptor(info[i].0, path, regex.value, PathTemplate.ParamNames(path), info[i].1);
        PushOne(descriptors, entry, if rest.Some? then rest.value else []);
        descriptors := descriptors + [entry];
        i := i + 1;
      }
      assert info[i..] == [];
      return true;
    }

    static lemma PushOne(before: seq<Descriptor>, entry: Descriptor, rest: seq<Descriptor>)
      ensures before + [entry] + rest == before + ([entry] + rest)
    {
    }

    static lemma ThreeParts(a: seq<Descriptor>, b: seq<Descriptor>, c: seq<Descriptor>, d: seq<Descriptor>)
      ensures a + b + c + d == a + (b + (c + d))
    {
    }

    /** The first entry, in walk order, with the method, spelled in capitals, and an expression that accepts the path. */
    method Find(httpMethod: string, actualPath: string) returns (r: Option<Match>)
      ensures r.None? ==> forall i :: 0 <= i < |descriptors| ==> !AnswersCall(descriptors[i], httpMethod, actualPath)
      ensures r.Some? ==>
                exists i :: 0 <= i < |descriptors| && AnswersCall(descriptors[i], httpMethod, actualPath)
                            && (forall j :: 0 <= j < i ==> !AnswersCall(descriptors[j], httpMethod, actualPath))
                            && r.value == MatchOf(descriptors[i], actualPath)
      ensures r.Some? ==> PreSeeded(r.value)
      ensures forall nodes :: GoodTree(nodes) && Flatten(nodes) == Some(descriptors) && r.Some? ==> RebuildsPath(r.value, actualPath)
    {
      hide GoodTree, RebuildsPath, Exec, FromEntries, Unset, Text.ToUpper;
      var normalizedMethod := Text.ToUpper(httpMethod);
      forall d: Descriptor ensures AnswersCall(d, httpMethod, actualPath) <==> Answers(d, normalizedMethod, actualPath) {
        Text.UpperMeaning(httpMethod, d.httpMethod);
      }
      hide Text.UpperSpelling, AnswersCall;
      var i := 0;
      while i < |descriptors|
        invariant 0 <= i <= |descriptors|
        invariant forall j :: 0 <= j < i ==> !Answers(descriptors[j], normalizedMethod, actualPath)
      {
        if descriptors[i].httpMethod == normalizedMethod && Exec(descriptors[i].regex, actualPath, PathTemplate.Same).Some? {
          forall nodes | GoodTree(nodes) && Flatten(nodes) == Some(descriptors)
            ensures RebuildsPath(MatchOf(descriptors[i], actualPath), actualPath)
          {
            TreeMatchesRebuildPath(nodes, i, normalizedMethod, actualPath);
          }
          MatchIsPreSeeded(descriptors[i], actualPath);
          hide PreSeeded;
          return Some(MatchOf(descriptors[i], actualPath));
        }
        i := i + 1;
      }
      return None;
    }
  }

  /** The template with each placeholder replaced by the value filed under its name. */
  function SubstituteByName(pieces: seq<PathTemplate.Piece>, params: map<string, string>): string {
    if pieces == [] then ""
    else if pieces[0].Literal? then pieces[0].text + SubstituteByName(pieces[1..], params)
    else (if pieces[0].name in params then params[pieces[0].name] else "") + SubstituteByName(pieces[1..], params)
  }

  predicate Distinct(names: seq<string>) {
    forall i, j :: 0 <= i < j < |names| ==> names[i] != names[j]
  }

  lemma {:induction false} FromEntriesKeys(names: seq<string>, values: seq<string>)
    ensures forall n :: n in FromEntries(names, values) ==> n in names
  {
    if names != [] && values != [] { FromEntriesKeys(names[1..], values[1..]); }
  }

  lemma {:induction false} ByNameIsByPosition(pieces: seq<PathTemplate.Piece>, values: seq<string>, params: map<string, string>)
    requires |values| == |PathTemplate.Names(pieces)| && Distinct(PathTemplate.Names(pieces))
    requires forall n :: n in PathTemplate.Names(pieces) ==>
               n in params && n in FromEntries(PathTemplate.Names(pieces), values)
               && params[n] == FromEntries(PathTemplate.Names(pieces), values)[n]
    ensures SubstituteByName(pieces, params) == PathTemplate.Substitute(pieces, values)
  {
    var names := PathTemplate.Names(pieces);
    if pieces != [] {
      if pieces[0].Literal? {
        assert names == PathTemplate.Names(pieces[1..]);
        ByNameIsByPosition(pieces[1..], values, params);
      } else {
        var rest := PathTemplate.Names(pieces[1..]);
        assert names == [pieces[0].name] + rest && names[1..] == rest;
        FromEntriesKeys(rest, values[1..]);
        forall i | 0 <= i < |rest| ensures rest[i] != pieces[0].name {
          assert names[0] != names[i + 1];
        }
        forall n | n in rest
          ensures n in params && n in FromEntries(rest, values[1..]) && params[n] == FromEntries(rest, values[1..])[n]
        {
          assert n in names;
        }
        forall i, j | 0 <= i < j < |rest| ensures rest[i] != rest[j] {
          assert names[i + 1] != names[j + 1];
        }
        ByNameIsByPosition(pieces[1..], values[1..], params);
        assert pieces[0].name in names;
      }
    }
  }

  lemma {:induction false} AllNamesFiled(names: seq<string>, values: seq<string>)
    requires |names| == |values|
    ensures FromEntries(names, values).Keys == set n | n in names
  {
    if names != [] {
      AllNamesFiled(names[1..], values[1..]);
      assert forall n :: n in names <==> n == names[0] || n in names[1..];
    }
  }

  /** Every value that is filed is one of those given. */
  lemma {:induction false} FromEntriesValues(names: seq<string>, values: seq<string>, n: string)
    requires n in FromEntries(names, values)
    ensures FromEntries(names, values)[n] in values
  {
    if n in FromEntries(names[1..], values[1..]) {
      FromEntriesValues(names[1..], values[1..], n);
      assert forall v :: v in values[1..] ==> v in values;
    }
  }

  /** The match's parameters are non-empty slash-free values for the template's names, and rebuild the path. */
  ghost predicate Rebuilds(pieces: seq<PathTemplate.Piece>, m: Match, path: string) {
    && PathTemplate.TemplateText(pieces) == m.descriptor.templatePath
    && SubstituteByName(pieces, m.pathParams) == path
    && m.pathParams.Keys == (set n | n in PathTemplate.Names(pieces))
    && forall n :: n in m.pathParams ==> PathTemplate.Segment(m.pathParams[n])
  }

  /**
   For an entry built from a template's text, the path parameters of a match substituted back into the
   template by name rebuild the path that was looked up, and each of them is a non-empty segment.
   */
  lemma FoundParamsRebuildPath(pieces: seq<PathTemplate.Piece>, d: Descriptor, path: string)
    requires PathTemplate.WellFormed(pieces) && Distinct(PathTemplate.Names(pieces))
    requires d.templatePath == PathTemplate.TemplateText(pieces) && IsBuilt(d)
    requires Answers(d, d.httpMethod, path)
    ensures Rebuilds(pieces, MatchOf(d, path), path)
  {
    PathTemplate.TemplateParses(pieces);
    PathTemplate.CapturesRebuild(pieces, path);
    var names, values := PathTemplate.Names(pieces), Exec(d.regex, path, PathTemplate.Same).value;
    AllNamesFiled(names, values);
    ByNameIsByPosition(pieces, values, MatchOf(d, path).pathParams);
    forall n | n in FromEntries(names, values) ensures PathTemplate.Segment(FromEntries(names, values)[n]) {
      FromEntriesValues(names, values, n);
    }
  }

  // ------------------------------------------------- from tree to match

  /** What the walk stores for a template. */
  predicate IsBuilt(d: Descriptor) {
    d.pathParams == PathTemplate.ParamNames(d.templatePath) && Parse(PathTemplate.RegexText(d.templatePath)) == Some(d.regex)
  }

  /** A template of ordinary literals and distinct names of ordinary characters. */
  ghost predicate GoodTemplate(path: string) {
    exists pieces :: GoodPieces(pieces) && path == PathTemplate.TemplateText(pieces)
  }

  ghost predicate GoodPieces(pieces: seq<PathTemplate.Piece>) {
    PathTemplate.WellFormed(pieces) && Distinct(PathTemplate.Names(pieces))
  }

  ghost predicate GoodTree(nodes: seq<RawNode>)
    decreases nodes
  {
    nodes == [] || (GoodTemplate(nodes[0].path) && GoodTree(nodes[0].children) && GoodTree(nodes[1..]))
  }

  /** `node` is somewhere in the forest. */
  ghost predicate InForest(nodes: seq<RawNode>, node: RawNode)
    decreases nodes
  {
    nodes != [] && (node == nodes[0] || InForest(nodes[0].children, node) || InForest(nodes[1..], node))
  }

  /** What the walk stores for one of a node's methods. */
  ghost predicate EntryOf(node: RawNode, d: Descriptor) {
    node.path != "" && (d.httpMethod, d.info) in node.info && d.templatePath == node.path && IsBuilt(d)
  }

  lemma {:induction false} OwnEntriesAre(path: string, info: seq<(string, MethodInfo)>, d: Descriptor)
    requires OwnEntries(path, info).Some?
    ensures d in OwnEntries(path, info).value
            <==> path != "" && (d.httpMethod, d.info) in info && d.templatePath == path && IsBuilt(d)
    decreases |info|
  {
    hide Parse, PathTemplate.RegexText, PathTemplate.ParamNames;
    if path != "" && info != [] {
      OwnEntriesAre(path, info[1..], d);
      assert forall x :: x in info <==> x == info[0] || x in info[1..];
    }
  }

  /** The walk stores an entry for every method of every node with a path, anywhere in the forest, and nothing else. */
  lemma {:induction false} EntriesAreTheMethods(nodes: seq<RawNode>, d: Descriptor)
    requires Flatten(nodes).Some?
    ensures d in Flatten(nodes).value <==> exists node :: InForest(nodes, node) && EntryOf(node, d)
    decreases nodes
  {
    hide OwnEntries, IsBuilt;
    if nodes != [] {
      OwnEntriesAre(nodes[0].path, nodes[0].info, d);
      EntriesAreTheMethods(nodes[0].children, d);
      EntriesAreTheMethods(nodes[1..], d);
      var own, below, rest := OwnEntries(nodes[0].path, nodes[0].info).value, Flatten(nodes[0].children).value, Flatten(nodes[1..]).value;
      assert d in Flatten(nodes).value <==> d in own || d in below || d in rest;
      assert d in own <==> EntryOf(nodes[0], d);
      hide EntryOf;
      assert forall node :: InForest(nodes, node) <==> node == nodes[0] || InForest(nodes[0].children, node) || InForest(nodes[1..], node);
    }
  }

  lemma {:induction false} FlattenAppend(a: seq<RawNode>, b: seq<RawNode>)
    requires Flatten(a + b).Some?
    ensures Flatten(a).Some? && Flatten(b).Some? && Flatten(a + b).value == Flatten(a).value + Flatten(b).value
  {
    hide OwnEntries;
    if a == [] {
      assert a + b == b;
      assert Flatten(a).value + Flatten(b).value == Flatten(b).value;
    } else {
      assert (a + b)[1..] == a[1..] + b && (a + b)[0] == a[0];
      FlattenAppend(a[1..], b);
      Regrouped(OwnEntries(a[0].path, a[0].info).value, Flatten(a[0].children).value, Flatten(a[1..]).value, Flatten(b).value);
    }
  }

  lemma Regrouped(own: seq<Descriptor>, below: seq<Descriptor>, rest: seq<Descriptor>, more: seq<Descriptor>)
    ensures own + (below + (rest + more)) == own + (below + rest) + more
  {
  }

  /**
   The order in which calls are matched: the entries of a node stand behind those of everything below the
   nodes before it, in the order of its methods, then come those of its own children, then the nodes after it.
   */
  lemma WalkIsPreOrder(nodes: seq<RawNode>, i: nat)
    requires Flatten(nodes).Some? && i < |nodes|
    ensures var before, own, below, after := Flatten(nodes[..i]), OwnEntries(nodes[i].path, nodes[i].info), Flatten(nodes[i].children), Flatten(nodes[i + 1..]);
            && before.Some? && own.Some? && below.Some? && after.Some?
            && Flatten(nodes).value == before.value + own.value + below.value + after.value
    ensures var own := OwnEntries(nodes[i].path, nodes[i].info).value;
            && (nodes[i].path != "" ==> |own| == |nodes[i].info|)
            && forall m :: 0 <= m < |own| ==> (own[m].httpMethod, own[m].info) == nodes[i].info[m] && own[m].templatePath == nodes[i].path
  {
    assert nodes == nodes[..i] + nodes[i..];
    FlattenAppend(nodes[..i], nodes[i..]);
    FlattenFirst(nodes, i);
    OwnInOrder(nodes[i].path, nodes[i].info);
    hide Flatten, OwnEntries;
    InFourParts(Flatten(nodes[..i]).value, OwnEntries(nodes[i].path, nodes[i].info).value, Flatten(nodes[i].children).value,
                Flatten(nodes[i + 1..]).value);
  }

  lemma FlattenFirst(nodes: seq<RawNode>, i: nat)
    requires i < |nodes| && Flatten(nodes[i..]).Some?
    ensures var own, below, after := OwnEntries(nodes[i].path, nodes[i].info), Flatten(nodes[i].children), Flatten(nodes[i + 1..]);
            own.Some? && below.Some? && after.Some? && Flatten(nodes[i..]).value == own.value + (below.value + after.value)
  {
    hide OwnEntries;
    assert nodes[i..][0] == nodes[i] && nodes[i..][1..] == nodes[i + 1..];
  }

  lemma InFourParts(before: seq<Descriptor>, own: seq<Descriptor>, below: seq<Descriptor>, after: seq<Descriptor>)
    ensures before + (own + (below + after)) == before + own + below + after
  {
  }

  lemma {:induction false} OwnInOrder(path: string, info: seq<(string, MethodInfo)>)
    requires OwnEntries(path, info).Some?
    ensures var own := OwnEntries(path, info).value;
            && |own| == (if path == "" then 0 else |info|)
            && forall m :: 0 <= m < |own| ==> (own[m].httpMethod, own[m].info) == info[m] && own[m].templatePath == path
    decreases |info|
  {
    hide Parse, PathTemplate.RegexText, PathTemplate.ParamNames;
    if path != "" && info != [] {
      OwnInOrder(path, info[1..]);
      assert forall m :: 0 < m < |info| ==> info[m] == info[1..][m - 1];
    }
  }

  ghost predicate GoodEntries(ds: seq<Descriptor>) {
    forall i :: 0 <= i < |ds| ==> GoodEntry(ds[i])
  }

  ghost predicate GoodEntry(d: Descriptor) {
    IsBuilt(d) && GoodTemplate(d.templatePath)
  }

  lemma {:induction false} OwnEntriesGood(path: string, info: seq<(string, MethodInfo)>)
    requires GoodTemplate(path)
    ensures OwnEntries(path, info).Some? && GoodEntries(OwnEntries(path, info).value)
    decreases |info|
  {
    var pieces :| GoodPieces(pieces) && path == PathTemplate.TemplateText(pieces);
    PathTemplate.TemplateParses(pieces);
    hide Parse, PathTemplate.RegexText, PathTemplate.ParamNames, PathTemplate.TemplateText, GoodTemplate;
    if path != "" && info != [] {
      OwnEntriesGood(path, info[1..]);
    }
  }

  /** The path is the template with a non-empty slash-free string in place of each placeholder. */
  ghost predicate IsInstance(template: string, path: string) {
    exists pieces, values :: InstancePieces(template, path, pieces, values)
  }

  ghost predicate InstancePieces(template: string, path: string, pieces: seq<PathTemplate.Piece>, values: seq<string>) {
    && GoodPieces(pieces) && PathTemplate.TemplateText(pieces) == template
    && |values| == |PathTemplate.Names(pieces)| && PathTemplate.Segments(values) && PathTemplate.Substitute(pieces, values) == path
  }

  /** An entry of such a template answers exactly the calls by its method to an instance of the template. */
  lemma EntryAnswersInstances(d: Descriptor, httpMethod: string, path: string)
    requires GoodEntry(d)
    ensures AnswersCall(d, httpMethod, path) <==> Text.UpperSpelling(httpMethod, d.httpMethod) && IsInstance(d.templatePath, path)
  {
    var pieces :| GoodPieces(pieces) && d.templatePath == PathTemplate.TemplateText(pieces);
    PathTemplate.AcceptsExactlyInstances(pieces, path);
    if Test(d.regex, path, PathTemplate.Same) {
      var values :| |values| == |PathTemplate.Names(pieces)| && PathTemplate.Segments(values) && PathTemplate.Substitute(pieces, values) == path;
      assert InstancePieces(d.templatePath, path, pieces, values);
    }
    forall others, values | InstancePieces(d.templatePath, path, others, values) ensures Test(d.regex, path, PathTemplate.Same) {
      PathTemplate.AcceptsExactlyInstances(others, path);
    }
    hide Test, Parse, PathTemplate.RegexText, PathTemplate.Items;
  }

  /** So in a walked tree of such templates a call finds an entry exactly when some template has the path for an instance. */
  lemma CallsFindInstances(nodes: seq<RawNode>, i: nat, httpMethod: string, path: string)
    requires GoodTree(nodes) && Flatten(nodes).Some? && i < |Flatten(nodes).value|
    ensures var d := Flatten(nodes).value[i];
            AnswersCall(d, httpMethod, path) <==> Text.UpperSpelling(httpMethod, d.httpMethod) && IsInstance(d.templatePath, path)
  {
    FlattenGood(nodes);
    assert GoodEntry(Flatten(nodes).value[i]);
    hide Flatten, GoodTree, GoodEntry, AnswersCall, IsInstance;
    EntryAnswersInstances(Flatten(nodes).value[i], httpMethod, path);
  }

  /** A tree of such templates can be walked, and everything the walk stores is built from one of them. */
  lemma {:induction false} FlattenGood(nodes: seq<RawNode>)
    requires GoodTree(nodes)
    ensures Flatten(nodes).Some? && GoodEntries(Flatten(nodes).value)
    decreases nodes
  {
    hide GoodTemplate, GoodEntry, OwnEntries;
    if nodes != [] {
      OwnEntriesGood(nodes[0].path, nodes[0].info);
      FlattenGood(nodes[0].children);
      FlattenGood(nodes[1..]);
      ThreeGood(OwnEntries(nodes[0].path, nodes[0].info).value, Flatten(nodes[0].children).value, Flatten(nodes[1..]).value);
    }
  }

  lemma ThreeGood(a: seq<Descriptor>, b: seq<Descriptor>, c: seq<Descriptor>)
    requires GoodEntries(a) && GoodEntries(b) && GoodEntries(c)
    ensures GoodEntries(a + (b + c))
  {
    hide GoodEntry;
  }

  /** The match names a template and parameters that together are the path. */
  ghost predicate RebuildsPath(m: Match, path: string) {
    exists pieces :: GoodPieces(pieces) && Rebuilds(pieces, m, path)
  }

  /** Whatever entry of a walked tree answers, its match rebuilds the path. */
  lemma TreeMatchesRebuildPath(nodes: seq<RawNode>, i: nat, httpMethod: string, path: string)
    requires GoodTree(nodes) && Flatten(nodes).Some? && i < |Flatten(nodes).value|
    requires Answers(Flatten(nodes).value[i], httpMethod, path)
    ensures RebuildsPath(MatchOf(Flatten(nodes).value[i], path), path)
  {
    FlattenGood(nodes);
    var d := Flatten(nodes).value[i];
    assert GoodEntry(d);
    var pieces :| GoodPieces(pieces) && d.templatePath == PathTemplate.TemplateText(pieces);
    hide Rebuilds, IsBuilt, Flatten, GoodTree;
    FoundParamsRebuildPath(pieces, d, path);
  }
}
