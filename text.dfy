/**
 * The text handling the decoder applies to each raw line:
 * `bytes.strip()`, `decode('utf-8')` and `str.split('\t')`.
 * Decoding is modelled for ASCII: a byte of 0x80 or above is a decode error.
 */
module Text {
  import opened Wrappers
  import opened Protocol

  /** The ASCII whitespace `bytes.strip()` removes: \t \n \v \f \r and space. */
  predicate IsSpace(b: Byte) {
    b == 0x20 || 0x09 <= b <= 0x0D
  }

  /** Strips leading whitespace. */
  function TrimLeft(l: Line): Line
  {
    if l != [] && IsSpace(l[0]) then TrimLeft(l[1..]) else l
  }

  /** Strips trailing whitespace. */
  function TrimRight(l: Line): Line
  {
    if l != [] && IsSpace(l[|l| - 1]) then TrimRight(l[..|l| - 1]) else l
  }

  /** `bytes.strip()` with no argument. */
  function Strip(l: Line): Line
  {
    TrimRight(TrimLeft(l))
  }

  /** TrimLeft removes a whitespace prefix and stops at the first other byte. */
  lemma {:induction false} TrimLeftSpec(l: Line)
    ensures var r := TrimLeft(l);
      && |r| <= |l| && r == l[|l| - |r|..]
      && (forall i :: 0 <= i < |l| - |r| ==> IsSpace(l[i]))
      && (r != [] ==> !IsSpace(r[0]))
    decreases |l|
  {
    if l != [] && IsSpace(l[0]) {
      TrimLeftSpec(l[1..]);
    }
  }

  /** TrimRight removes a whitespace suffix and stops at the last other byte. */
  lemma {:induction false} TrimRightSpec(l: Line)
    ensures var r := TrimRight(l);
      && |r| <= |l| && r == l[..|r|]
      && (forall i :: |r| <= i < |l| ==> IsSpace(l[i]))
      && (r != [] ==> !IsSpace(r[|r| - 1]))
    decreases |l|
  {
    if l != [] && IsSpace(l[|l| - 1]) {
      TrimRightSpec(l[..|l| - 1]);
    }
  }

  /**
   * The stripped line begins and ends with non-whitespace, and it is empty
   * exactly when the line held only whitespace.
   */
  lemma StripSpec(l: Line)
    ensures var r := Strip(l);
      && (r != [] ==> !IsSpace(r[0]) && !IsSpace(r[|r| - 1]))
      && (r == [] <==> forall i :: 0 <= i < |l| ==> IsSpace(l[i]))
  {
    var t := TrimLeft(l);
    var r := TrimRight(t);
    TrimLeftSpec(l);
    TrimRightSpec(t);
    assert t != [] ==> t[0] == l[|l| - |t|];
    assert r == [] ==> t == [];
    assert r != [] ==> r[0] == t[0];
  }

  /** Surrounding whitespace is all `Strip` removes. */
  lemma StripKeepsInner(inner: Line, lead: Line, trail: Line)
    requires inner != [] && !IsSpace(inner[0]) && !IsSpace(inner[|inner| - 1])
    requires forall i :: 0 <= i < |lead| ==> IsSpace(lead[i])
    requires forall i :: 0 <= i < |trail| ==> IsSpace(trail[i])
    ensures Strip(lead + inner + trail) == inner
  {
    var l := lead + inner + trail;
    assert l[|lead|] == inner[0];
    assert forall i :: 0 <= i < |lead| ==> l[i] == lead[i];
    var t := TrimLeft(l);
    TrimLeftSpec(l);
    assert |l| - |t| == |lead|;
    assert t == inner + trail;
    var r := TrimRight(t);
    TrimRightSpec(t);
    assert t[|inner| - 1] == inner[|inner| - 1];
    assert forall i :: |inner| <= i < |t| ==> t[i] == trail[i - |inner|];
    assert |r| == |inner|;
  }

  predicate IsAscii(l: Line) {
    forall i :: 0 <= i < |l| ==> l[i] < 0x80
  }

  predicate IsAsciiText(s: string) {
    forall i :: 0 <= i < |s| ==> s[i] < 0x80 as char
  }

  /** The text an all-ASCII byte string decodes to. */
  function AsciiText(l: Line): (s: string)
    requires IsAscii(l)
    ensures |s| == |l| && forall i :: 0 <= i < |l| ==> s[i] as int == l[i]
    ensures IsAsciiText(s)
  {
    seq(|l|, i requires 0 <= i < |l| => l[i] as char)
  }

  /** The bytes of an ASCII string. */
  function AsciiBytes(s: string): (l: Line)
    requires IsAsciiText(s)
    ensures |l| == |s| && forall i :: 0 <= i < |s| ==> l[i] == s[i] as int
  {
    seq(|s|, i requires 0 <= i < |s| => s[i] as int)
  }

  /** `decode('utf-8')`, for the ASCII subset. */
  function Decode(l: Line): Result<string, Error>
  {
    if IsAscii(l) then Success(AsciiText(l)) else Failure(DecodeError)
  }

  /** Decoding succeeds exactly on ASCII, and encoding the text gives the bytes back. */
  lemma DecodeSpec(l: Line)
    ensures Decode(l).Success? <==> IsAscii(l)
    ensures Decode(l).Success? ==> AsciiBytes(Decode(l).value) == l
  {
  }

  /** Encoding an ASCII string and decoding it gives the string back. */
  lemma DecodeAsciiBytes(s: string)
    requires IsAsciiText(s)
    ensures Decode(AsciiBytes(s)) == Success(s)
  {
    var l := AsciiBytes(s);
    assert IsAscii(l);
    assert AsciiText(l) == s;
  }

  function Count(s: string, c: char): nat
  {
    if s == [] then 0 else Count(s[1..], c) + (if s[0] == c then 1 else 0)
  }

  /** Rejoins parts with the separator in between. */
  function JoinOn(parts: seq<string>, c: char): string
    requires |parts| >= 1
  {
    if |parts| == 1 then parts[0] else parts[0] + [c] + JoinOn(parts[1..], c)
  }

  /** `str.split(c)` for a one-character separator. */
  function SplitOn(s: string, c: char): (parts: seq<string>)
    ensures |parts| >= 1
    decreases |s|
  {
    if s == [] then [[]]
    else
      var rest := SplitOn(s[1..], c);
      if s[0] == c then [[]] + rest
      else [[s[0]] + rest[0]] + rest[1..]
  }

  /**
   * Splitting gives one more part than there are separators, no part holds
   * the separator, and rejoining the parts gives the text back.
   */
  lemma {:induction false} SplitOnSpec(s: string, c: char)
    ensures var parts := SplitOn(s, c);
      && |parts| == Count(s, c) + 1
      && (forall i :: 0 <= i < |parts| ==> c !in parts[i])
      && JoinOn(parts, c) == s
    decreases |s|
  {
    if s != [] {
      SplitOnSpec(s[1..], c);
      var rest := SplitOn(s[1..], c);
      if s[0] == c {
        assert [c] + JoinOn(rest, c) == s;
      } else {
        var parts := [[s[0]] + rest[0]] + rest[1..];
        assert parts[1..] == rest[1..];
        assert JoinOn(parts, c) == [s[0]] + JoinOn(rest, c);
      }
    }
  }

  /**
   * One line of a cycle as `parse_pdu` and `refresh` decode it:
   * `key, value = frame.strip().decode('utf-8').split('\t')`.
   */
  function ParseLine(l: Line): Result<Field, Error>
  {
    match Decode(Strip(l))
    case Failure(e) => Failure(e)
    case Success(text) =>
      var parts := SplitOn(text, '\t');
      if |parts| != 2 then Failure(UnpackError(|parts|))
      else Success(Field(parts[0], parts[1]))
  }

  /**
   * A line decodes iff, once stripped, it is ASCII holding exactly one tab;
   * the key and the value are then the text on either side of that tab.
   */
  lemma ParseLineSpec(l: Line)
    ensures !IsAscii(Strip(l)) ==> ParseLine(l) == Failure(DecodeError)
    ensures IsAscii(Strip(l)) ==>
      (ParseLine(l).Success? <==> Count(AsciiText(Strip(l)), '\t') == 1)
    ensures ParseLine(l).Success? ==>
      && IsAscii(Strip(l))
      && AsciiText(Strip(l)) == ParseLine(l).value.key + "\t" + ParseLine(l).value.value
      && '\t' !in ParseLine(l).value.key && '\t' !in ParseLine(l).value.value
    ensures IsAscii(Strip(l)) && ParseLine(l).Failure? ==>
      ParseLine(l).error == UnpackError(Count(AsciiText(Strip(l)), '\t') + 1)
  {
    if IsAscii(Strip(l)) {
      var parts := SplitOn(AsciiText(Strip(l)), '\t');
      SplitOnSpec(AsciiText(Strip(l)), '\t');
      if |parts| == 2 {
        assert parts[1..] == [parts[1]];
        assert JoinOn(parts, '\t') == parts[0] + "\t" + parts[1];
      }
    }
  }

  lemma {:induction false} SplitOnWithoutSeparator(s: string, c: char)
    requires c !in s
    ensures SplitOn(s, c) == [s]
    decreases |s|
  {
    if s != [] {
      SplitOnWithoutSeparator(s[1..], c);
      assert [s[0]] + s[1..] == s;
    }
  }

  /** A key and a value free of tabs split back apart at the one tab between them. */
  lemma {:induction false} SplitOnField(key: string, value: string)
    requires '\t' !in key && '\t' !in value
    ensures SplitOn(key + "\t" + value, '\t') == [key, value]
    decreases |key|
  {
    var s := key + "\t" + value;
    if key == [] {
      assert s[1..] == value;
      SplitOnWithoutSeparator(value, '\t');
    } else {
      assert s[1..] == key[1..] + "\t" + value;
      SplitOnField(key[1..], value);
      assert [s[0]] + key[1..] == key;
    }
  }

  /** Whitespace as a character, matching `IsSpace` on its ASCII code. */
  predicate IsSpaceChar(c: char) {
    c == ' ' || '\t' <= c <= '\r'
  }

  /** A field a device can send and the decoder gets back unchanged. */
  predicate WellFormedField(f: Field) {
    && IsAsciiText(f.key) && IsAsciiText(f.value)
    && '\t' !in f.key && '\t' !in f.value
    && f.key != [] && f.value != []
    && !IsSpaceChar(f.key[0]) && !IsSpaceChar(f.value[|f.value| - 1])
  }

  /** The wire form of one field: `KEY<TAB>VALUE\r\n` in ASCII. */
  function EncodeField(f: Field): (l: Line)
    requires WellFormedField(f)
  {
    AsciiBytes(f.key + "\t" + f.value) + [0x0D, 0x0A]
  }

  lemma StripLineEnd(inner: Line)
    requires inner != [] && !IsSpace(inner[0]) && !IsSpace(inner[|inner| - 1])
    ensures Strip(inner + [0x0D, 0x0A]) == inner
  {
    var trail: Line := [0x0D, 0x0A];
    StripKeepsInner(inner, [], trail);
    assert [] + inner + trail == inner + trail;
  }

  lemma FieldTextIsAscii(f: Field)
    requires WellFormedField(f)
    ensures IsAsciiText(f.key + "\t" + f.value)
  {
    var text := f.key + "\t" + f.value;
    forall i | 0 <= i < |text| ensures text[i] < 0x80 as char {
      if i < |f.key| {
        assert text[i] == f.key[i];
      } else if i > |f.key| {
        assert text[i] == f.value[i - |f.key| - 1];
      }
    }
  }

  lemma StripEncodedField(f: Field)
    requires WellFormedField(f)
    ensures IsAsciiText(f.key + "\t" + f.value)
    ensures Strip(EncodeField(f)) == AsciiBytes(f.key + "\t" + f.value)
  {
    FieldTextIsAscii(f);
    var text := f.key + "\t" + f.value;
    var inner := AsciiBytes(text);
    assert text[0] == f.key[0] && text[|text| - 1] == f.value[|f.value| - 1];
    assert !IsSpace(inner[0]) && !IsSpace(inner[|inner| - 1]);
    StripLineEnd(inner);
  }

  /** Decoding a field's wire form gives the field back. */
  lemma ParseEncodedField(f: Field)
    requires WellFormedField(f)
    ensures ParseLine(EncodeField(f)) == Success(f)
  {
    var text := f.key + "\t" + f.value;
    StripEncodedField(f);
    DecodeAsciiBytes(text);
    SplitOnField(f.key, f.value);
  }
}
