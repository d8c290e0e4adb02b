/** parse_size: a human-readable size literal ("5 MB", "3.5kb", "700") to a byte count.
    The number in front of a kb/mb/gb suffix is read as an exact decimal (what float()
    reads) and the scaled value is truncated (int()); without a suffix the whole text must
    be an integer literal. */
module SizeParser {
  import opened Wrappers
  import opened Text

  /** The ValueError that float() or int() raises inside parse_size. */
  datatype ParseError = NotAFloat(text: string) | NotAnInt(text: string)

  /** str(e) of that ValueError, as CPython words it. */
  function ErrorMessage(e: ParseError): string {
    match e
    case NotAFloat(t) => "could not convert string to float: '" + t + "'"
    case NotAnInt(t) => "invalid literal for int() with base 10: '" + t + "'"
  }

  const KiB: nat := 1024
  const MiB: nat := 1024 * 1024
  const GiB: nat := 1024 * 1024 * 1024

  /** Index of the first occurrence of c in s. */
  function IndexOf(s: string, c: char): (r: Option<nat>)
    ensures r.None? <==> c !in s
    ensures r.Some? ==> r.value < |s| && s[r.value] == c && c !in s[..r.value]
  {
    if s == [] then None
    else if s[0] == c then Some(0)
    else match IndexOf(s[1..], c)
      case None => None
      case Some(k) => assert s[..k + 1] == [s[0]] + s[1..][..k]; Some(k + 1)
  }

  /** The first occurrence is at or before every occurrence. */
  lemma {:induction false} IndexOfFirst(s: string, c: char, i: nat)
    requires i < |s| && s[i] == c
    ensures IndexOf(s, c).Some? && IndexOf(s, c).value <= i
  {
    if s[0] != c {
      IndexOfFirst(s[1..], c, i - 1);
    }
  }

  /** An unsigned decimal literal, whole digits and an optional fraction after one point,
      with at least one digit in all: "5", "5.", ".5", "3.25". */
  datatype Decimal = Decimal(whole: string, fraction: string)

  predicate WellFormed(d: Decimal) {
    AllDigits(d.whole) && AllDigits(d.fraction) && |d.whole| + |d.fraction| >= 1
  }

  /** float(s) restricted to unsigned decimals without exponent. */
  function ReadDecimal(s: string): (r: Option<Decimal>)
    ensures r.Some? ==> WellFormed(r.value)
    ensures r.Some? ==> s == r.value.whole || s == r.value.whole + "." + r.value.fraction
    ensures r.Some? && s == r.value.whole ==> r.value.fraction == ""
  {
    match IndexOf(s, '.')
    case None =>
      if |s| >= 1 && AllDigits(s) then Some(Decimal(s, "")) else None
    case Some(k) =>
      var whole, fraction := s[..k], s[k + 1..];
      assert s == whole + "." + fraction;
      if AllDigits(whole) && AllDigits(fraction) && |whole| + |fraction| >= 1
      then Some(Decimal(whole, fraction)) else None
  }

  /** a // b on naturals. */
  function FloorDiv(a: nat, b: nat): (r: nat)
    requires b >= 1
    ensures r * b <= a < (r + 1) * b
  {
    var r := a / b;
    assert a == r * b + a % b;
    assert (r + 1) * b == r * b + b;
    r
  }

  /** int(float(text) * unit) for an exact decimal: floor(whole.fraction * unit). */
  function Scaled(text: string, unit: nat): (r: Result<nat, ParseError>)
    ensures r.Err? <==> ReadDecimal(text).None?
    ensures r.Err? ==> r.error == NotAFloat(text)
    ensures r.Ok? ==> var d := ReadDecimal(text).value;
      r.value * Pow10(|d.fraction|) <= DigitsValue(d.whole + d.fraction) * unit < (r.value + 1) * Pow10(|d.fraction|)
  {
    match ReadDecimal(text)
    case None => Err(NotAFloat(text))
    case Some(d) =>
      var scaled := DigitsValue(d.whole + d.fraction) * unit;
      Ok(FloorDiv(scaled, Pow10(|d.fraction|)))
  }

  /** The text parse_size works on: lower-cased, every space removed. */
  function Canonical(s: string): string {
    RemoveSpaces(Lower(s))
  }

  /** parse_size(size_str). */
  function ParseSize(s: string): (r: Result<nat, ParseError>)
    ensures var t := Canonical(s);
      r.Err? ==> r.error == NotAnInt(t) || (|t| >= 2 && r.error == NotAFloat(t[..|t| - 2]))
    ensures var t := Canonical(s);
      r.Ok? && !EndsWith(t, "b") ==> AllDigits(t) && r.value == DigitsValue(t)
    ensures var t := Canonical(s);
      !UnitSuffixed(t) ==> (r.Ok? <==> t != [] && AllDigits(t))
  {
    ParseCanonical(Canonical(s))
  }

  /** parse_size after its first line: the suffix tests and conversions. An error names
      the text handed to int() or, after a unit suffix is cut off, to float(); a value
      obtained without a unit is the integer the digits spell. */
  function ParseCanonical(t: string): (r: Result<nat, ParseError>)
    ensures r.Err? ==> r.error == NotAnInt(t) || (|t| >= 2 && r.error == NotAFloat(t[..|t| - 2]))
    ensures r.Ok? && !EndsWith(t, "b") ==> AllDigits(t) && r.value == DigitsValue(t)
    ensures !UnitSuffixed(t) ==> (r.Ok? <==> t != [] && AllDigits(t))
    ensures !UnitSuffixed(t) && r.Ok? ==> r.value == DigitsValue(t)
  {
    if UnitSuffixed(t) then
      assert EndsWith(t, "b") by { assert t[|t| - 1..] == t[|t| - 2..][1..]; }
      ParseUnit(t)
    else if |t| >= 1 && AllDigits(t) then Ok(DigitsValue(t))
    else Err(NotAnInt(t))
  }

  predicate UnitSuffixed(t: string) {
    EndsWith(t, "kb") || EndsWith(t, "mb") || EndsWith(t, "gb")
  }

  /** The three suffixed branches of parse_size, tried in the order kb, mb, gb. */
  function ParseUnit(t: string): (r: Result<nat, ParseError>)
    requires UnitSuffixed(t)
    ensures r.Err? ==> r.error == NotAFloat(t[..|t| - 2])
  {
    if EndsWith(t, "kb") then Scaled(t[..|t| - 2], KiB)
    else if EndsWith(t, "mb") then Scaled(t[..|t| - 2], MiB)
    else Scaled(t[..|t| - 2], GiB)
  }

  /** Text already in canonical form: no upper-case letter and no space. */
  predicate IsCanonical(s: string) {
    forall i :: 0 <= i < |s| ==> s[i] != ' ' && !('A' <= s[i] <= 'Z')
  }

  lemma CanonicalFixed(s: string)
    requires IsCanonical(s)
    ensures Canonical(s) == s
  {
    LowerOfLowerText(s);
    RemoveSpacesSpec(s);
  }

  /** The three suffixes parse_size knows. */
  datatype Unit = Kilo | Mega | Giga

  function Suffix(u: Unit): string {
    match u
    case Kilo => "kb"
    case Mega => "mb"
    case Giga => "gb"
  }

  function Multiplier(u: Unit): nat {
    match u
    case Kilo => KiB
    case Mega => MiB
    case Giga => GiB
  }

  /** Canonical text ending in a unit suffix is scaled by that unit. */
  lemma ParseSizeSuffix(text: string, u: Unit)
    requires IsCanonical(text)
    ensures ParseSize(text + Suffix(u)) == Scaled(text, Multiplier(u))
  {
    var s := text + Suffix(u);
    assert IsCanonical(s);
    CanonicalFixed(s);
    SuffixBranch(text, u);
  }

  lemma SuffixBranch(text: string, u: Unit)
    ensures ParseCanonical(text + Suffix(u)) == Scaled(text, Multiplier(u))
  {
    var s := text + Suffix(u);
    assert s[..|s| - 2] == text;
    var tail := s[|s| - 2..];
    assert tail == Suffix(u);
    assert EndsWith(s, Suffix(u));
    assert u != Kilo ==> !EndsWith(s, "kb") by {
      assert "kb"[0] == 'k';
    }
    assert u == Giga ==> !EndsWith(s, "mb") by {
      assert "mb"[0] == 'm';
    }
  }

  /** The position-by-position reading of a decimal with one point. */
  lemma ReadPointed(whole: string, fraction: string)
    requires AllDigits(whole) && AllDigits(fraction) && |whole| + |fraction| >= 1
    ensures ReadDecimal(whole + "." + fraction) == Some(Decimal(whole, fraction))
  {
    var text := whole + "." + fraction;
    assert IndexOf(text, '.') == Some(|whole|) by {
      assert '.' !in whole;
      assert text[..|whole|] == whole;
    }
    assert text[..|whole|] == whole;
    assert text[|whole| + 1..] == fraction;
  }

  /** A decimal number followed by a unit suffix: the truncation of number * unit. */
  lemma ParseSizeScaled(whole: string, fraction: string, u: Unit)
    requires AllDigits(whole) && AllDigits(fraction) && |whole| + |fraction| >= 1
    ensures ParseSize(whole + "." + fraction + Suffix(u))
         == Ok(DigitsValue(whole + fraction) * Multiplier(u) / Pow10(|fraction|))
  {
    var text := whole + "." + fraction;
    assert IsCanonical(text);
    ParseSizeSuffix(text, u);
    ReadPointed(whole, fraction);
  }

  /** A whole number followed by a unit suffix: exactly number * unit. */
  lemma ParseSizeWhole(whole: string, u: Unit)
    requires AllDigits(whole) && |whole| >= 1
    ensures ParseSize(whole + Suffix(u)) == Ok(DigitsValue(whole) * Multiplier(u))
  {
    assert IsCanonical(whole);
    ParseSizeSuffix(whole, u);
    assert '.' !in whole by {
      assert forall i :: 0 <= i < |whole| ==> IsDigit(whole[i]);
    }
    assert ReadDecimal(whole) == Some(Decimal(whole, ""));
    assert whole + "" == whole;
    var v := DigitsValue(whole) * Multiplier(u);
    assert v / Pow10(0) == v;
  }

  /** A bare integer string comes back as its own value. */
  lemma ParseSizeBare(n: nat)
    ensures ParseSize(NatToString(n)) == Ok(n)
  {
    var s := NatToString(n);
    assert IsCanonical(s);
    CanonicalFixed(s);
    assert !EndsWith(s, "kb") && !EndsWith(s, "mb") && !EndsWith(s, "gb") by {
      assert !IsDigit('b');
    }
  }

  /** A byte literal without k, m or g in front of the b ("500b", "1.5 b") is never
      accepted: it reaches int(), which rejects the trailing b. */
  lemma PlainBytesRejected(run: string, space: string)
    requires |run| >= 1 && forall i :: 0 <= i < |run| ==> IsDigitOrDot(run[i])
    requires space == "" || space == " "
    ensures ParseSize(run + space + "b") == Err(NotAnInt(run + "b"))
  {
    var s := run + space + "b";
    var t := run + "b";
    assert Canonical(s) == t by {
      assert IsLowerText(s);
      LowerOfLowerText(s);
      RemoveSpacesKeeps(run, space, "b");
    }
    var c := t[|t| - 2];
    assert c == run[|run| - 1] && IsDigitOrDot(c);
    assert !EndsWith(t, "kb") && !EndsWith(t, "mb") && !EndsWith(t, "gb") by {
      assert t[|t| - 2..][0] == c;
    }
    assert !AllDigits(t) by {
      assert t[|t| - 1] == 'b';
    }
  }

  lemma {:induction false} RemoveSpacesKeeps(run: string, space: string, tail: string)
    requires forall i :: 0 <= i < |run| ==> IsDigitOrDot(run[i])
    requires space == "" || space == " "
    requires forall i :: 0 <= i < |tail| ==> tail[i] != ' '
    ensures RemoveSpaces(run + space + tail) == run + tail
  {
    var x := run + space + tail;
    if run == [] {
      RemoveSpacesSpec(tail);
      assert RemoveSpaces(tail) == tail;
      if space == " " {
        assert x[0] == ' ' && x[1..] == tail;
      } else {
        assert x == tail;
      }
    } else {
      assert x[0] == run[0] && run[0] != ' ';
      assert x[1..] == run[1..] + space + tail;
      RemoveSpacesKeeps(run[1..], space, tail);
      assert run + tail == [run[0]] + (run[1..] + tail);
    }
  }

  /** The unit a suffix letter k, m or g stands for. */
  function UnitOf(c: char): (u: Unit)
    requires IsUnitLetter(c)
    ensures Suffix(u) == [c, 'b']
  {
    if c == 'k' then Kilo else if c == 'm' then Mega else Giga
  }

  /** A run of digits and points, one optional space and a unit suffix: the run is read
      as a float and scaled by the unit (a run with two points or none of the digits
      fails as a float). */
  lemma ScaledLiteral(run: string, space: string, u: Unit)
    requires |run| >= 1 && forall i :: 0 <= i < |run| ==> IsDigitOrDot(run[i])
    requires space == "" || space == " "
    ensures ParseSize(run + space + Suffix(u)) == Scaled(run, Multiplier(u))
  {
    SpacedCanonical(run, space, u);
    SuffixBranch(run, u);
  }

  lemma SpacedCanonical(run: string, space: string, u: Unit)
    requires forall i :: 0 <= i < |run| ==> IsDigitOrDot(run[i])
    requires space == "" || space == " "
    ensures Canonical(run + space + Suffix(u)) == run + Suffix(u)
  {
    var s := run + space + Suffix(u);
    assert IsLowerText(s) by {
      assert forall i :: 0 <= i < |s| ==> s[i] == ' ' || s[i] == 'b' || IsUnitLetter(s[i]) || IsDigitOrDot(s[i]);
    }
    LowerOfLowerText(s);
    RemoveSpacesKeeps(run, space, Suffix(u));
  }

  /** A number with two points is not a float. */
  lemma TwoPointsNotFloat(text: string, i: nat, j: nat)
    requires i < j < |text| && text[i] == '.' && text[j] == '.'
    ensures ReadDecimal(text).None?
  {
    IndexOfFirst(text, '.', i);
    var k := IndexOf(text, '.').value;
    var fraction := text[k + 1..];
    assert fraction[j - k - 1] == '.';
  }

  /** So a size with two points and a unit ("1.2.3mb") raises in float(). */
  lemma TwoPointsRejected(text: string, i: nat, j: nat, u: Unit)
    requires IsCanonical(text)
    requires i < j < |text| && text[i] == '.' && text[j] == '.'
    ensures ParseSize(text + Suffix(u)) == Err(NotAFloat(text))
  {
    ParseSizeSuffix(text, u);
    TwoPointsNotFloat(text, i, j);
  }

  lemma OnePointTwoPointThreeMegabytes()
    ensures ParseSize("1.2.3mb") == Err(NotAFloat("1.2.3"))
  {
    TwoPointsRejected("1.2.3", 1, 3, Mega);
    assert "1.2.3" + Suffix(Mega) == "1.2.3mb";
  }

  /** parse_size normalises first, so normalising its input beforehand changes nothing. */
  lemma ParseSizeCanonical(s: string)
    ensures IsCanonical(Canonical(s))
    ensures ParseSize(Canonical(s)) == ParseSize(s)
  {
    var t := Canonical(s);
    RemoveSpacesSpec(Lower(s));
    assert IsCanonical(t) by {
      forall i | 0 <= i < |t| ensures t[i] != ' ' && !('A' <= t[i] <= 'Z') {
        assert t[i] in Lower(s);
      }
    }
    CanonicalFixed(t);
  }

  lemma FiveMegabytesCanonical()
    ensures Canonical("5 MB") == "5mb"
  {
    assert Lower("5 MB") == "5 mb";
    assert RemoveSpaces("5 mb") == "5mb" by {
      assert "5 mb"[1..] == " mb";
      assert " mb"[1..] == "mb";
      assert RemoveSpaces("mb") == "mb";
    }
  }

  lemma FiveMegabytesNormalised()
    ensures ParseSize("5 MB") == ParseSize("5mb")
  {
    FiveMegabytesCanonical();
    ParseSizeCanonical("5 MB");
  }

  lemma FiveMegabytesValue()
    ensures ParseSize("5mb") == Ok(5 * MiB)
  {
    ParseSizeWhole("5", Mega);
    assert "5" + Suffix(Mega) == "5mb";
    assert DigitsValue("5") == 5 by {
      assert "5"[..0] == "";
    }
  }

  /** Case and spaces do not matter: "5 MB" is 5 MiB. */
  lemma FiveMegabytes()
    ensures ParseSize("5 MB") == Ok(5 * MiB)
  {
    FiveMegabytesNormalised();
    FiveMegabytesValue();
  }
}
