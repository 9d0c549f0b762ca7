/**
 * String helpers the source takes from Python: `str.strip()`, `str.replace('-', '_')`,
 * the file names built from a season, and the numeral syntax `pd.to_numeric` accepts.
 */
module Text {

  import opened Base

  /** The characters for which Python's `str.isspace()` holds. */
  predicate IsSpace(c: char)
  {
    || c == ' ' || c == '\t' || c == '\n' || c == '\r' || c == '\U{B}' || c == '\U{C}'
    || ('\U{1C}' <= c <= '\U{1F}') || c == '\U{85}' || c == '\U{A0}' || c == '\U{1680}'
    || ('\U{2000}' <= c <= '\U{200A}') || c == '\U{2028}' || c == '\U{2029}' || c == '\U{202F}'
    || c == '\U{205F}' || c == '\U{3000}'
  }

  ghost predicate AllSpace(s: string)
  {
    forall i | 0 <= i < |s| :: IsSpace(s[i])
  }

  /** Neither end of `s` is whitespace. */
  ghost predicate Trimmed(s: string)
  {
    |s| == 0 || (!IsSpace(s[0]) && !IsSpace(s[|s| - 1]))
  }

  function TrimStart(s: string): (r: string)
    ensures |r| <= |s| && r == s[|s| - |r|..]
    ensures AllSpace(s[..|s| - |r|])
    ensures |r| == 0 || !IsSpace(r[0])
  {
    if |s| > 0 && IsSpace(s[0]) then TrimStart(s[1..]) else s
  }

  function TrimEnd(s: string): (r: string)
    ensures |r| <= |s| && r == s[..|r|]
    ensures AllSpace(s[|r|..])
    ensures |r| == 0 || !IsSpace(r[|r| - 1])
  {
    if |s| > 0 && IsSpace(s[|s| - 1]) then TrimEnd(s[..|s| - 1]) else s
  }

  /** `s.strip()`: `s` is the result framed by whitespace, and the result has no whitespace at either end. */
  function Trim(s: string): (r: string)
    ensures Trimmed(r)
    ensures exists i, j | 0 <= i <= j <= |s| :: r == s[i..j] && AllSpace(s[..i]) && AllSpace(s[j..])
  {
    var a := TrimStart(s);
    var r := TrimEnd(a);
    StripSlices(s, a, r);
    assert |r| == 0 || r[0] == a[0];
    r
  }

  /** Stripping the start and then the end of `s` leaves a slice of `s` framed by whitespace. */
  lemma StripSlices(s: string, a: string, r: string)
    requires |a| <= |s| && a == s[|s| - |a|..] && AllSpace(s[..|s| - |a|])
    requires |r| <= |a| && r == a[..|r|] && AllSpace(a[|r|..])
    ensures var i := |s| - |a|; r == s[i..i + |r|] && AllSpace(s[..i]) && AllSpace(s[i + |r|..])
  {
    var i := |s| - |a|;
    assert s[i + |r|..] == a[|r|..];
  }

  /** Stripping a string whose ends are not whitespace leaves it as it is. */
  lemma {:induction false} TrimTrimmed(s: string)
    requires Trimmed(s)
    ensures Trim(s) == s
  {
    if |s| > 0 {
      assert TrimStart(s) == s;
      assert TrimEnd(s) == s;
    }
  }

  /** `s.strip().strip() == s.strip()`. */
  lemma TrimIdempotent(s: string)
    ensures Trim(Trim(s)) == Trim(s)
  {
    TrimTrimmed(Trim(s));
  }

  /** `s.replace('-', '_')`. */
  function ReplaceDash(s: string): (r: string)
    ensures |r| == |s|
    ensures '-' !in r
    ensures forall i | 0 <= i < |s| && s[i] != '-' :: r[i] == s[i]
    ensures forall i | 0 <= i < |s| && s[i] == '-' :: r[i] == '_'
  {
    if |s| == 0 then ""
    else ReplaceDash(s[..|s| - 1]) + [if s[|s| - 1] == '-' then '_' else s[|s| - 1]]
  }

  /** `f"{key}_{season.replace('-', '_')}.csv"`: the raw table file the collector writes and the pipeline reads back. */
  function RawFileName(key: string, season: string): string
  {
    key + "_" + ReplaceDash(season) + ".csv"
  }

  /** `f"last_update_{season.replace('-', '_')}.json"`: the watermark file of a season. */
  function WatermarkFileName(season: string): string
  {
    "last_update_" + ReplaceDash(season) + ".json"
  }

  /** `f"{table_name}_{timestamp}.csv"`: a processed table file. */
  function ProcessedFileName(table: string, stamp: string): string
  {
    table + "_" + stamp + ".csv"
  }

  /** Raw files of the two collected tables never collide, whatever the season. */
  lemma RawFileNamesDiffer(season: string)
    ensures RawFileName("players", season) != RawFileName("advanced_stats", season)
  {
    var a := RawFileName("players", season);
    var b := RawFileName("advanced_stats", season);
    assert a[1] == 'l' && b[1] == 'd';
  }

  // ----- numerals -----

  predicate IsDigit(c: char)
  {
    '0' <= c <= '9'
  }

  predicate IsNumeralChar(c: char)
  {
    IsDigit(c) || c == '+' || c == '-' || c == '.'
  }

  ghost predicate AllDigits(s: string)
  {
    forall i | 0 <= i < |s| :: IsDigit(s[i])
  }

  function Pow10(n: nat): (r: nat)
    ensures r >= 1
  {
    if n == 0 then 1 else 10 * Pow10(n - 1)
  }

  function DigitsValue(s: string): nat
    requires AllDigits(s)
  {
    if |s| == 0 then 0 else 10 * DigitsValue(s[..|s| - 1]) + (s[|s| - 1] as int - '0' as int)
  }

  function DotIndex(s: string): (k: nat)
    ensures k <= |s|
    ensures k < |s| ==> s[k] == '.'
    ensures forall i | 0 <= i < k :: s[i] != '.'
  {
    if |s| == 0 then 0 else if s[0] == '.' then 0 else 1 + DotIndex(s[1..])
  }

  /** `digits` or `digits '.' digits`. */
  function ParseUnsigned(s: string): Option<real>
  {
    var k := DotIndex(s);
    var whole := s[..k];
    var frac := if k < |s| then s[k + 1..] else "";
    if 0 < |whole| && AllDigitsCheck(whole) && (k == |s| || (0 < |frac| && AllDigitsCheck(frac))) then
      Some(DigitsValue(whole) as real + DigitsValue(frac) as real / Pow10(|frac|) as real)
    else None
  }

  function AllDigitsCheck(s: string): (b: bool)
    ensures b <==> AllDigits(s)
  {
    forall i | 0 <= i < |s| :: IsDigit(s[i])
  }

  /**
   * The numeral syntax accepted when coercing text to a number: an optional sign,
   * then digits with an optional fractional part. Text outside that syntax yields None.
   */
  function ParseNumber(s: string): (r: Option<real>)
    ensures (exists i | 0 <= i < |s| :: !IsNumeralChar(s[i])) ==> r.None?
    ensures |s| == 0 ==> r.None?
  {
    if 0 < |s| && (s[0] == '-' || s[0] == '+') then
      UnsignedRejects(s[1..]);
      assert forall i | 1 <= i < |s| :: s[1..][i - 1] == s[i];
      match ParseUnsigned(s[1..])
      case None => None
      case Some(x) => Some(if s[0] == '-' then -x else x)
    else
      UnsignedRejects(s);
      ParseUnsigned(s)
  }

  /** A character outside the numeral syntax makes an unsigned numeral unreadable. */
  lemma UnsignedRejects(u: string)
    ensures (exists i | 0 <= i < |u| :: !IsNumeralChar(u[i])) ==> ParseUnsigned(u).None?
  {
    if exists i | 0 <= i < |u| :: !IsNumeralChar(u[i]) {
      var i :| 0 <= i < |u| && !IsNumeralChar(u[i]);
      var k := DotIndex(u);
      if i < k {
        assert u[..k][i] == u[i];
      } else {
        assert u[k + 1..][i - k - 1] == u[i];
      }
    }
  }

  /** The value of `whole.frac`: the whole digits plus the fraction digits over the matching power of ten. */
  function DecimalValue(whole: string, frac: string): real
    requires AllDigits(whole) && AllDigits(frac)
  {
    DigitsValue(whole) as real + DigitsValue(frac) as real / Pow10(|frac|) as real
  }

  /** The dot of `whole.frac` is the one after the whole digits. */
  lemma DotAfterWhole(whole: string, frac: string)
    requires AllDigits(whole)
    ensures DotIndex(whole + "." + frac) == |whole|
  {
    var s := whole + "." + frac;
    assert s[|whole|] == '.';
  }

  /** Without a sign, `whole.frac` reads as its decimal value. */
  lemma ParseUnsignedFraction(whole: string, frac: string)
    requires 0 < |whole| && AllDigits(whole) && 0 < |frac| && AllDigits(frac)
    ensures ParseUnsigned(whole + "." + frac) == Some(DecimalValue(whole, frac))
  {
    var s := whole + "." + frac;
    DotAfterWhole(whole, frac);
    assert s[..|whole|] == whole;
    assert s[|whole| + 1..] == frac;
    assert AllDigitsCheck(whole) && AllDigitsCheck(frac);
  }

  /** A sign in front of an unsigned numeral negates it or keeps it; without one the numeral is read as it is. */
  lemma ParseSigned(u: string, x: real)
    requires ParseUnsigned(u) == Some(x) && 0 < |u| && IsDigit(u[0])
    ensures ParseNumber(u) == Some(x)
    ensures ParseNumber("-" + u) == Some(-x)
    ensures ParseNumber("+" + u) == Some(x)
  {
    assert ("-" + u)[1..] == u;
    assert ("+" + u)[1..] == u;
  }

  /** A numeral with a fractional part reads as its decimal value (a sign is handled by `ParseSigned`). */
  lemma ParseFraction(whole: string, frac: string)
    requires 0 < |whole| && AllDigits(whole) && 0 < |frac| && AllDigits(frac)
    ensures ParseNumber(whole + "." + frac) == Some(DecimalValue(whole, frac))
  {
    var s := whole + "." + frac;
    ParseUnsignedFraction(whole, frac);
    assert IsDigit(s[0]) by { assert s[0] == whole[0]; }
    ParseSigned(s, DecimalValue(whole, frac));
  }

  /** For instance, `"1.25"` reads as 1.25 and `"-0.5"` as -0.5. */
  lemma ParseFractionExamples()
    ensures ParseNumber("1.25") == Some(1.25)
    ensures ParseNumber("-0.5") == Some(-0.5)
  {
    assert DigitsValue("1") == 1 by { assert "1"[..0] == ""; }
    assert DigitsValue("25") == 25 by { assert "25"[..1] == "2" && "2"[..0] == ""; }
    assert DigitsValue("0") == 0 by { assert "0"[..0] == ""; }
    assert DigitsValue("5") == 5 by { assert "5"[..0] == ""; }
    assert Pow10(1) == 10 && Pow10(2) == 100;
    assert DecimalValue("1", "25") == 1.25;
    assert DecimalValue("0", "5") == 0.5;
    assert "1.25" == "1" + "." + "25";
    assert "-0.5" == "-" + ("0" + "." + "5");
    ParseFraction("1", "25");
    ParseUnsignedFraction("0", "5");
    ParseSigned("0" + "." + "5", 0.5);
  }

  /** Decimal digits of a natural number, most significant first. */
  function ShowNat(n: nat): (s: string)
    ensures 0 < |s| && AllDigits(s)
  {
    if n < 10 then [(n + '0' as int) as char] else ShowNat(n / 10) + [(n % 10 + '0' as int) as char]
  }

  lemma {:induction false} DigitsOfShowNat(n: nat)
    ensures DigitsValue(ShowNat(n)) == n
  {
    if n >= 10 {
      var s := ShowNat(n);
      assert s[..|s| - 1] == ShowNat(n / 10);
      DigitsOfShowNat(n / 10);
    }
  }

  /** Coercion reads back an integer written in decimal, with or without a sign. */
  lemma ParseShownInt(i: int)
    ensures ParseNumber(if i < 0 then "-" + ShowNat(-i) else ShowNat(i)) == Some(i as real)
  {
    var m: nat := if i < 0 then -i else i;
    var s := ShowNat(m);
    DigitsOfShowNat(m);
    assert DotIndex(s) == |s|;
    assert s[..|s|] == s;
    assert ParseUnsigned(s) == Some(m as real);
    assert IsDigit(s[0]);
    ParseSigned(s, m as real);
  }
}
