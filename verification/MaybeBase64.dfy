/**
 Guest-agent output may or may not be base64. Both readers guess: if the text, white space removed,
 could be base64 and re-encoding the decoded bytes gives it back up to padding, they return what was
 decoded, and otherwise the text itself.
 */
module MaybeBase64 {
  import opened Common
  import opened Utf8
  import Base64
  import Text

  function StripSpace(value: string): string {
    if value == "" then ""
    else if Text.IsSpace(value[0]) then StripSpace(value[1..])
    else [value[0]] + StripSpace(value[1..])
  }

  function StripPadding(text: string): string {
    if text != "" && text[|text| - 1] == '=' then StripPadding(text[..|text| - 1]) else text
  }

  predicate LooksLikeBase64(text: string) {
    text != "" && |text| % 4 == 0 && forall c :: c in text ==> Base64.IsBase64Char(c)
  }

  /** `decodeMaybeBase64Buffer`. */
  function DecodeBuffer(value: Option<string>): seq<byte> {
    if value.None? || value.value == "" then []
    else
      var normalized := StripSpace(value.value);
      if !LooksLikeBase64(normalized) then Encode(value.value)
      else
        var decoded := Base64.Decode(normalized);
        if StripPadding(Base64.Encode(decoded)) == StripPadding(normalized) then decoded else Encode(value.value)
  }

  /** `decodeMaybeBase64`. */
  function DecodeText(value: Option<string>): string {
    if value.None? || value.value == "" then ""
    else
      var normalized := StripSpace(value.value);
      if !LooksLikeBase64(normalized) then value.value
      else
        var decoded := Decode(Base64.Decode(normalized));
        if StripPadding(Base64.Encode(Encode(decoded))) == StripPadding(normalized) then decoded else value.value
  }

  /** `value` is `text` with white space put in anywhere. */
  predicate SpacedOut(value: string, text: string) {
    if value == "" then text == ""
    else
      || (Text.IsSpace(value[0]) && SpacedOut(value[1..], text))
      || (text != "" && value[0] == text[0] && SpacedOut(value[1..], text[1..]))
  }

  predicate AllPadding(text: string) {
    forall c :: c in text ==> c == '='
  }

  /** One text is the other with `=` put behind it. */
  predicate SameUpToPadding(a: string, b: string) {
    (a <= b && AllPadding(b[|a|..])) || (b <= a && AllPadding(a[|b|..]))
  }

  /**
   `value` can be read as the encoding of `data`: without white space put in it is a non-empty text, of
   length divisible by four, that differs from that encoding at most in how many `=` it ends with.
   */
  ghost predicate Spells(value: string, data: seq<byte>) {
    exists text :: SpacedOut(value, text) && text != "" && |text| % 4 == 0 && SameUpToPadding(text, Base64.Encode(data))
  }

  // ------------------------------------------------ white space put in

  predicate SpaceFree(text: string) {
    forall c :: c in text ==> !Text.IsSpace(c)
  }

  lemma {:induction false} StripSpaceSpaced(value: string)
    ensures SpacedOut(value, StripSpace(value)) && SpaceFree(StripSpace(value))
  {
    if value != "" {
      StripSpaceSpaced(value[1..]);
      var rest := StripSpace(value[1..]);
      assert ([value[0]] + rest)[1..] == rest;
    }
  }

  /** Text that contains no white space of its own is all that is left once white space put in is removed. */
  lemma {:induction false} SpacedOutStripped(value: string, text: string)
    requires SpacedOut(value, text) && SpaceFree(text)
    ensures StripSpace(value) == text
  {
    if value != "" {
      if Text.IsSpace(value[0]) {
        assert text != "" ==> text[0] in text;
        SpacedOutStripped(value[1..], text);
      } else {
        assert forall c :: c in text[1..] ==> c in text;
        SpacedOutStripped(value[1..], text[1..]);
        assert text == [text[0]] + text[1..];
      }
    }
  }

  lemma Base64HasNoSpace(text: string)
    requires forall c :: c in text ==> Base64.IsBase64Char(c)
    ensures SpaceFree(text)
  {
  }

  // -------------------------------------------------------- the padding

  lemma {:induction false} PaddingBehind(text: string, padding: string)
    requires AllPadding(padding)
    ensures StripPadding(text + padding) == StripPadding(text)
    decreases |padding|
  {
    if padding == "" {
      assert text + padding == text;
    } else {
      var front := padding[..|padding| - 1];
      assert forall c :: c in front ==> c in padding;
      assert padding[|padding| - 1] in padding;
      assert (text + padding)[..|text + padding| - 1] == text + front;
      PaddingBehind(text, front);
    }
  }

  lemma UpToPadding(a: string, b: string)
    ensures SameUpToPadding(a, b) <==> StripPadding(a) == StripPadding(b)
  {
    if a <= b && AllPadding(b[|a|..]) {
      assert b == a + b[|a|..];
      PaddingBehind(a, b[|a|..]);
    } else if b <= a && AllPadding(a[|b|..]) {
      assert a == b + a[|b|..];
      PaddingBehind(b, a[|b|..]);
    }
    if StripPadding(a) == StripPadding(b) {
      StripPaddingSplit(a);
      StripPaddingSplit(b);
      var n: nat :| n <= |a| && StripPadding(a) == a[..n] && (forall i :: n <= i < |a| ==> a[i] == '=');
      var m: nat :| m <= |b| && StripPadding(b) == b[..m] && (forall i :: m <= i < |b| ==> b[i] == '=');
      hide StripPadding;
      assert |a[..n]| == |b[..m]|;
      SharedFront(a, b, n);
    }
  }

  lemma SharedFront(a: string, b: string, n: nat)
    requires n <= |a| && n <= |b| && a[..n] == b[..n]
    requires (forall i :: n <= i < |a| ==> a[i] == '=') && (forall i :: n <= i < |b| ==> b[i] == '=')
    ensures SameUpToPadding(a, b)
  {
    if |a| <= |b| {
      forall i | 0 <= i < |a| ensures a[i] == b[i] {
        if i < n { assert a[..n][i] == b[..n][i]; }
      }
    } else {
      forall i | 0 <= i < |b| ensures a[i] == b[i] {
        if i < n { assert a[..n][i] == b[..n][i]; }
      }
    }
  }

  /** What spelling means for the readers, which remove white space and padding. */
  lemma SpellsStripped(value: string, data: seq<byte>)
    ensures Spells(value, data)
            <==> LooksLikeBase64(StripSpace(value)) && StripPadding(StripSpace(value)) == StripPadding(Base64.Encode(data))
  {
    var stripped := StripSpace(value);
    StripSpaceSpaced(value);
    Base64.EncodeAlphabet(data);
    forall text | SpacedOut(value, text) && SameUpToPadding(text, Base64.Encode(data))
      ensures text == stripped && forall c :: c in text ==> Base64.IsBase64Char(c)
    {
      PaddedAlphabet(text, Base64.Encode(data));
      Base64HasNoSpace(text);
      SpacedOutStripped(value, text);
    }
    UpToPadding(stripped, Base64.Encode(data));
    hide StripSpace, StripPadding, SpacedOut, SameUpToPadding, Base64.Encode, Base64.IsBase64Char;
  }

  lemma PaddedAlphabet(a: string, b: string)
    requires SameUpToPadding(a, b) && forall c :: c in b ==> Base64.IsBase64Char(c)
    ensures forall c :: c in a ==> Base64.IsBase64Char(c)
  {
    if a <= b {
      assert forall i :: 0 <= i < |a| ==> a[i] == b[i];
    } else {
      assert a == b + a[|b|..];
    }
  }

  lemma {:induction false} StripPaddingSplit(text: string)
    ensures exists n: nat :: n <= |text| && StripPadding(text) == text[..n] && (forall i :: n <= i < |text| ==> text[i] == '=')
  {
    if text != "" && text[|text| - 1] == '=' {
      var front := text[..|text| - 1];
      StripPaddingSplit(front);
      var n: nat :| n <= |front| && StripPadding(front) == front[..n] && (forall i :: n <= i < |front| ==> front[i] == '=');
      assert front[..n] == text[..n];
    } else {
      assert text[..|text|] == text;
    }
  }

  lemma {:induction false} StripPaddingOfEncode(front: string, padding: string)
    requires forall i :: 0 <= i < |front| ==> front[i] != '='
    requires forall i :: 0 <= i < |padding| ==> padding[i] == '='
    ensures StripPadding(front + padding) == front
    decreases |padding|
  {
    var text := front + padding;
    if padding == "" {
      assert text == front;
    } else {
      assert text[..|text| - 1] == front + padding[..|padding| - 1];
      StripPaddingOfEncode(front, padding[..|padding| - 1]);
    }
  }

  lemma StrippedEncoding(data: seq<byte>)
    ensures StripPadding(Base64.Encode(data)) == Base64.Chars(false, Base64.Pack(data))
  {
    var xs := Base64.Pack(data);
    forall i | 0 <= i < |xs| ensures Base64.Chars(false, xs)[i] != '=' {
      Base64.CharDigit(false, xs[i]);
    }
    StripPaddingOfEncode(Base64.Chars(false, xs), Base64.Padding(|data|));
  }

  /** Whatever text spells `data` decodes to `data`: the padding, and anything after it, does not matter. */
  lemma SpelledDataDecodes(text: string, data: seq<byte>)
    requires StripPadding(text) == StripPadding(Base64.Encode(data))
    ensures Base64.Decode(text) == data
  {
    StrippedEncoding(data);
    StripPaddingSplit(text);
    var n: nat :| n <= |text| && StripPadding(text) == text[..n] && (forall i :: n <= i < |text| ==> text[i] == '=');
    PaddingHasNoDigits(text[n..]);
    hide StripPadding, Base64.Encode, Base64.Pack, Base64.Unpack, Base64.Chars, Base64.Digits;
    assert text == text[..n] + text[n..];
    Base64.DigitsOfChars(false, Base64.Pack(data), text[n..]);
    assert Base64.Pack(data) + [] == Base64.Pack(data);
    Base64.UnpackPack(data);
  }

  lemma PaddingHasNoDigits(padding: string)
    requires forall i :: 0 <= i < |padding| ==> padding[i] == '='
    ensures Base64.Digits(padding) == []
  {
  }

  /**
   The byte reader exactly: a non-empty text that spells some data yields that data, and any other
   non-empty text yields its own UTF-8 bytes. In particular plain text that happens to be base64 is decoded.
   */
  lemma BufferCharacterised(value: string, r: seq<byte>)
    ensures value != "" ==>
              (DecodeBuffer(Some(value)) == r
               <==> Spells(value, r) || (r == Encode(value) && forall data :: !Spells(value, data)))
    ensures DecodeBuffer(None) == DecodeBuffer(Some("")) == []
  {
    var normalized := StripSpace(value);
    var out := DecodeBuffer(Some(value));
    forall data | value != "" && Spells(value, data) ensures Base64.Decode(normalized) == data && out == data {
      SpellsStripped(value, data);
      SpelledDataDecodes(normalized, data);
    }
    SpellsStripped(value, out);
    if LooksLikeBase64(normalized) { SpellsStripped(value, Base64.Decode(normalized)); }
    hide Base64.Decode, Base64.Encode, StripPadding, StripSpace, LooksLikeBase64, Spells;
    assert value == "" || Spells(value, out) || (out == Encode(value) && forall data :: !Spells(value, data));
  }

  /** Any white space may be inserted anywhere into the encoding of non-empty data. */
  lemma BufferReadsEncodings(value: string, data: seq<byte>)
    requires data != [] && SpacedOut(value, Base64.Encode(data))
    ensures DecodeBuffer(Some(value)) == data
  {
    EncodingLooksRight(data);
    Base64HasNoSpace(Base64.Encode(data));
    SpacedOutStripped(value, Base64.Encode(data));
    SpelledDataDecodes(StripSpace(value), data);
  }

  lemma EncodingLooksRight(data: seq<byte>)
    requires data != []
    ensures LooksLikeBase64(Base64.Encode(data))
  {
    hide Base64.Encode, Base64.IsBase64Char;
    Base64.EncodeAlphabet(data);
    Base64.EncodeLength(data);
  }

  lemma {:induction false} OnlySpace(value: string)
    requires SpacedOut(value, "")
    ensures StripSpace(value) == ""
  {
    if value != "" { OnlySpace(value[1..]); }
  }

  /** The text reader gives back every non-empty text from the base64 of its UTF-8 bytes, white space or not. */
  lemma TextRoundTrip(text: string, value: string)
    requires SpacedOut(value, Base64.Encode(Encode(text)))
    ensures text != "" || value == "" ==> DecodeText(Some(value)) == text
    ensures text == "" ==> DecodeText(Some(value)) == value
  {
    var data := Encode(text);
    DecodeEncode(text);
    if data == [] {
      OnlySpace(value);
    } else {
      EncodingLooksRight(data);
      Base64HasNoSpace(Base64.Encode(data));
      SpacedOutStripped(value, Base64.Encode(data));
      SpelledDataDecodes(StripSpace(value), data);
    }
  }

  /** And it decodes only then: a result other than the input itself re-encodes to the input. */
  lemma TextCharacterised(value: string)
    ensures var r := DecodeText(Some(value)); r == value || Spells(value, Encode(r))
    ensures value != "" ==> forall text :: Spells(value, Encode(text)) ==> DecodeText(Some(value)) == text
    ensures DecodeText(None) == DecodeText(Some("")) == ""
  {
    SpellsStripped(value, Encode(DecodeText(Some(value))));
    forall text | value != "" && Spells(value, Encode(text)) ensures DecodeText(Some(value)) == text {
      SpellsStripped(value, Encode(text));
      SpelledDataDecodes(StripSpace(value), Encode(text));
      DecodeEncode(text);
    }
  }
}
