/**
 * The typed read surface over the field dictionary: a lookup that raises
 * `KeyError` on a missing field, Python's `int()` on a field's text, and the
 * `MPPTState` enumeration.
 */
module Accessors {
  import opened Wrappers
  import opened Protocol

  /** The charger's MPPT operating state. */
  datatype MpptState = Off | Limited | Active

  /** The integer each enumeration member stands for. */
  function MpptCode(s: MpptState): int {
    match s
    case Off => 0
    case Limited => 1
    case Active => 2
  }

  /** `MPPTState(n)`: the member with value `n`, or a ValueError for any other integer. */
  function MpptStateOf(n: int): (r: Result<MpptState, Error>)
    ensures r.Success? <==> 0 <= n <= 2
    ensures r.Success? ==> MpptCode(r.value) == n
    ensures r.Failure? ==> r.error == NotAnMpptState(n)
  {
    if n == 0 then Success(Off)
    else if n == 1 then Success(Limited)
    else if n == 2 then Success(Active)
    else Failure(NotAnMpptState(n))
  }

  /** `self._data[key]`. */
  function Lookup(data: Fields, key: string): (r: Result<string, Error>)
    ensures r.Success? <==> key in data
    ensures r.Success? ==> r.value == data[key]
    ensures r.Failure? ==> r.error == KeyMissing(key)
  {
    if key in data then Success(data[key]) else Failure(KeyMissing(key))
  }

  predicate IsDigit(c: char) {
    '0' <= c <= '9'
  }

  predicate AllDigits(s: string) {
    forall i :: 0 <= i < |s| ==> IsDigit(s[i])
  }

  /** The value of a string of decimal digits. */
  function DigitsValue(s: string): nat
    requires AllDigits(s)
    decreases |s|
  {
    if s == [] then 0 else DigitsValue(s[..|s| - 1]) * 10 + (s[|s| - 1] as int - '0' as int)
  }

  /** `int(s)` for an optional sign followed by decimal digits. */
  function ParseInt(s: string): Option<int>
  {
    if |s| > 0 && (s[0] == '-' || s[0] == '+') then
      if |s| > 1 && AllDigits(s[1..]) then
        var magnitude: int := DigitsValue(s[1..]);
        Some(if s[0] == '-' then -magnitude else magnitude)
      else None
    else if |s| > 0 && AllDigits(s) then Some(DigitsValue(s))
    else None
  }

  /** Decimal digits of a natural number, without leading zeros. */
  function ShowNat(n: nat): (s: string)
    ensures |s| >= 1 && AllDigits(s)
    decreases n
  {
    if n < 10 then [('0' as int + n) as char]
    else ShowNat(n / 10) + [('0' as int + n % 10) as char]
  }

  /** `str(n)`: how a device writes an integer field. */
  function ShowInt(n: int): string
  {
    if n < 0 then "-" + ShowNat(-n) else ShowNat(n)
  }

  lemma {:induction false} DigitsOfShowNat(n: nat)
    ensures DigitsValue(ShowNat(n)) == n
    decreases n
  {
    if n >= 10 {
      DigitsOfShowNat(n / 10);
      var s := ShowNat(n);
      assert s[..|s| - 1] == ShowNat(n / 10);
    }
  }

  /** `int(str(n)) == n`. */
  lemma ParseShowInt(n: int)
    ensures ParseInt(ShowInt(n)) == Some(n)
  {
    var s := ShowInt(n);
    if n < 0 {
      var digits := ShowNat(-n);
      DigitsOfShowNat(-n);
      assert s == "-" + digits;
      assert s[0] == '-' && s[1..] == digits;
      assert DigitsValue(s[1..]) == -n;
    } else {
      var digits := ShowNat(n);
      DigitsOfShowNat(n);
      assert s == digits;
      assert IsDigit(s[0]);
    }
  }

  /**
   * `MPPTState(int(self._data['MPPT']))`: a KeyError when the field is
   * absent, a ValueError when its text is not an integer or the integer is
   * not 0, 1 or 2.
   */
  function MpptField(data: Fields): (r: Result<MpptState, Error>)
    ensures "MPPT" !in data ==> r == Failure(KeyMissing("MPPT"))
    ensures r.Success? ==> "MPPT" in data && ParseInt(data["MPPT"]) == Some(MpptCode(r.value))
    ensures "MPPT" in data && ParseInt(data["MPPT"]).None? ==> r == Failure(NotAnInteger(data["MPPT"]))
    ensures "MPPT" in data && ParseInt(data["MPPT"]).Some? ==> r == MpptStateOf(ParseInt(data["MPPT"]).value)
  {
    match Lookup(data, "MPPT")
    case Failure(e) => Failure(e)
    case Success(text) =>
      match ParseInt(text)
      case None => Failure(NotAnInteger(text))
      case Some(n) => MpptStateOf(n)
  }

  /**
   * A field whose text `int()` reads as `n` (the text a device writes for
   * `n`, or any other spelling such as `02` or `+2`) reads back as a state
   * exactly when `n` is 0, 1 or 2.
   */
  lemma MpptFieldOfCode(data: Fields, n: int)
    requires "MPPT" in data && ParseInt(data["MPPT"]) == Some(n)
    ensures MpptField(data).Success? <==> 0 <= n <= 2
    ensures MpptField(data).Success? ==> MpptCode(MpptField(data).value) == n
    ensures !(0 <= n <= 2) ==> MpptField(data) == Failure(NotAnMpptState(n))
  {
  }

  /** What a device writes for state code `n` is read back as that code. */
  lemma MpptFieldOfShownCode(data: Fields, n: int)
    requires "MPPT" in data && data["MPPT"] == ShowInt(n)
    ensures MpptField(data).Success? <==> 0 <= n <= 2
    ensures MpptField(data).Success? ==> MpptCode(MpptField(data).value) == n
  {
    ParseShowInt(n);
    MpptFieldOfCode(data, n);
  }

  /** `int()` reads leading zeros and an explicit plus sign. */
  lemma ParseIntSpellings()
    ensures ParseInt("02") == Some(2)
    ensures ParseInt("+1") == Some(1)
    ensures ParseInt("-0") == Some(0)
    ensures ParseInt("") == None && ParseInt("-") == None && ParseInt("1.5") == None
  {
    assert "02"[..1] == "0" && "0"[..0] == "";
    assert DigitsValue("0") == 0;
    assert AllDigits("02") && DigitsValue("02") == 2;
    assert "+1"[1..] == "1";
    assert "-0"[1..] == "0";
    assert !IsDigit("1.5"[1]);
  }

  predicate AllZeros(z: string) {
    forall i :: 0 <= i < |z| ==> z[i] == '0'
  }

  lemma {:induction false} ZerosValue(z: string)
    requires AllZeros(z)
    ensures AllDigits(z) && DigitsValue(z) == 0
    decreases |z|
  {
    if z != [] {
      ZerosValue(z[..|z| - 1]);
    }
  }

  /** Leading zeros do not change the value of a digit string. */
  lemma {:induction false} LeadingZerosValue(z: string, s: string)
    requires AllZeros(z) && AllDigits(s)
    ensures AllDigits(z + s) && DigitsValue(z + s) == DigitsValue(s)
    decreases |s|
  {
    ZerosValue(z);
    assert AllDigits(z + s) by {
      forall i | 0 <= i < |z + s| ensures IsDigit((z + s)[i]) {
        if i < |z| { assert (z + s)[i] == z[i]; } else { assert (z + s)[i] == s[i - |z|]; }
      }
    }
    if s == [] {
      assert z + s == z;
    } else {
      var init := s[..|s| - 1];
      LeadingZerosValue(z, init);
      assert (z + s)[..|z + s| - 1] == z + init;
      assert (z + s)[|z + s| - 1] == s[|s| - 1];
    }
  }

  /** A digit string, after leading zeros or a plus sign, parses to its value. */
  lemma ParseIntOfDigits(z: string, digits: string)
    requires AllZeros(z) && AllDigits(digits) && digits != []
    ensures ParseInt(z + digits) == Some(DigitsValue(digits))
    ensures ParseInt("+" + digits) == Some(DigitsValue(digits))
  {
    LeadingZerosValue(z, digits);
    var padded := z + digits;
    assert IsDigit(padded[0]) by {
      if |z| > 0 { assert padded[0] == z[0]; } else { assert padded[0] == digits[0]; }
    }
    var signed := "+" + digits;
    assert signed[0] == '+' && signed[1..] == digits;
  }

  /**
   * `int()` reads any number of leading zeros and an explicit plus sign:
   * every such spelling of a natural number gives that number back.
   */
  lemma ParseIntPaddedAndSigned(z: string, n: nat)
    requires AllZeros(z)
    ensures ParseInt(z + ShowNat(n)) == Some(n)
    ensures ParseInt("+" + ShowNat(n)) == Some(n)
  {
    DigitsOfShowNat(n);
    ParseIntOfDigits(z, ShowNat(n));
  }
}
