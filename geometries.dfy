/**
 * Degrees-minutes-seconds to decimal degrees. A value written DDDMMSS.frac (or DDMMSS.frac)
 * is read through its decimal text: the last two digits of the integer part are seconds,
 * the two before them minutes and the rest degrees. The sum is rounded to `digits` places
 * in the Decimal context the package sets when `geomesh.jpmesh` is imported: precision 13,
 * rounding toward zero.
 */
module Geometries {
  import opened Wrappers

  import opened Digits

  import opened Data

  import JpMesh

  /**
   * Input that is not a number, an integer part that is not 6 or 7 characters long, or a
   * rounded result with more significant digits than the Decimal context allows.
   */
  datatype DmsError = NotANumber | IntegerPartLength(length: nat) | PrecisionExceeded

  /** The index of the first '.' of s, or |s| when there is none. */
  function FirstDot(s: string): (i: nat)
    ensures i <= |s| && (i < |s| ==> s[i] == '.')
  {
    if s == [] then 0 else if s[0] == '.' then 0 else 1 + FirstDot(s[1..])
  }

  /** The integer digits as Python prints them: no leading zeros, "0" for none. */
  function StripLeadingZeros(w: string): (r: string)
    requires AllDigits(w)
    ensures AllDigits(r) && 1 <= |r| <= if w == [] then 1 else |w|
    ensures |r| > 1 ==> r[0] != '0'
    ensures DigitsValue(r) == DigitsValue(w)
    decreases |w|
  {
    if w == [] then "0"
    else if w[0] == '0' && |w| > 1 then LeadingZero(w[1..]); assert w == "0" + w[1..]; StripLeadingZeros(w[1..])
    else w
  }

  lemma {:induction false} LeadingZero(s: string)
    requires AllDigits(s)
    ensures AllDigits("0" + s) && DigitsValue("0" + s) == DigitsValue(s)
    decreases |s|
  {
    if s != [] {
      var init := s[..|s| - 1];
      LeadingZero(init);
      assert ("0" + s)[..|s|] == "0" + init;
    }
  }

  /** The parts of a decimal numeral: an optional sign, integer digits, an optional '.' and fraction digits. */
  datatype Numeral = Numeral(negative: bool, whole: string, fraction: string)

  /**
   * `float(text)`: an optional sign, digits, optionally a '.' and more digits, at least one
   * digit in all; otherwise a `ValueError`.
   */
  function ParseNumeral(s: string): (r: Option<Numeral>)
    ensures r.Some? ==> AllDigits(r.value.whole) && AllDigits(r.value.fraction)
    ensures r.Some? ==> |r.value.whole| + |r.value.fraction| >= 1
    ensures r.Some? ==> s != [] && (r.value.negative <==> s[0] == '-')
  {
    if |s| > 0 && (s[0] == '-' || s[0] == '+') then ParseUnsigned(s[1..], s[0] == '-') else ParseUnsigned(s, false)
  }

  /** The numeral after its sign: digits, optionally a '.' and more digits, at least one digit in all. */
  function ParseUnsigned(body: string, negative: bool): (r: Option<Numeral>)
    ensures r.Some? ==> AllDigits(r.value.whole) && AllDigits(r.value.fraction)
    ensures r.Some? ==> |r.value.whole| + |r.value.fraction| >= 1 && body != [] && r.value.negative == negative
  {
    var d := FirstDot(body);
    var whole := body[..d];
    var fraction := if d < |body| then body[d + 1..] else [];
    if AllDigits(whole) && AllDigits(fraction) && |whole| + |fraction| >= 1 then
      Some(Numeral(negative, whole, fraction))
    else
      None
  }

  /**
   * An accepted text is the numeral written out: a minus sign exactly when it is negative,
   * otherwise no sign or a plus sign, then its digits with a '.' before the fraction.
   */
  lemma NumeralSpelled(s: string)
    requires ParseNumeral(s).Some?
    ensures ParseNumeral(s).value.negative ==> Spells(s, "-", ParseNumeral(s).value)
    ensures !ParseNumeral(s).value.negative ==> Spells(s, "", ParseNumeral(s).value) || Spells(s, "+", ParseNumeral(s).value)
  {
    var n := ParseNumeral(s).value;
    if |s| > 0 && s[0] == '-' {
      UnsignedSpelled(s[1..], true);
      assert s == "-" + s[1..];
      SpellsSigned(s, "-", s[1..], n);
    } else if |s| > 0 && s[0] == '+' {
      UnsignedSpelled(s[1..], false);
      assert s == "+" + s[1..];
      SpellsSigned(s, "+", s[1..], n);
    } else {
      UnsignedSpelled(s, false);
      assert s == "" + s;
      SpellsSigned(s, "", s, n);
    }
  }

  lemma UnsignedSpelled(body: string, negative: bool)
    requires ParseUnsigned(body, negative).Some?
    ensures var n := ParseUnsigned(body, negative).value;
      body == n.whole + "." + n.fraction || (n.fraction == [] && body == n.whole)
  {
    SplitAtDot(body, FirstDot(body));
  }

  /** s is the sign sg, n's integer digits and '.' with n's fraction digits; the '.' may be left out when there are none. */
  predicate Spells(s: string, sg: string, n: Numeral) {
    s == sg + n.whole + "." + n.fraction || (n.fraction == [] && s == sg + n.whole)
  }

  lemma SplitAtDot(body: string, d: nat)
    requires d <= |body| && (d < |body| ==> body[d] == '.')
    ensures d < |body| ==> body == body[..d] + "." + body[d + 1..]
    ensures d == |body| ==> body == body[..d]
  {
  }

  lemma SpellsSigned(s: string, sg: string, body: string, n: Numeral)
    requires s == sg + body
    requires body == n.whole + "." + n.fraction || (n.fraction == [] && body == n.whole)
    ensures Spells(s, sg, n)
  {
    assert sg + (n.whole + "." + n.fraction) == sg + n.whole + "." + n.fraction;
  }

  /**
   * Every text of that form is a numeral: a sign of "", "+" or "-", digits, and a '.'
   * with more digits (or no '.' and no fraction), at least one digit in all.
   */
  lemma NumeralAccepted(sg: string, whole: string, fraction: string, dot: bool)
    requires sg == "" || sg == "+" || sg == "-"
    requires AllDigits(whole) && AllDigits(fraction) && |whole| + |fraction| >= 1
    requires dot || fraction == []
    ensures ParseNumeral(sg + whole + (if dot then "." + fraction else "")) == Some(Numeral(sg == "-", whole, fraction))
  {
    var body := whole + (if dot then "." + fraction else "");
    var s := sg + whole + (if dot then "." + fraction else "");
    assert s == sg + body;
    UnsignedAccepted(body, whole, fraction, dot, sg == "-");
    if sg == "" {
      assert s == body;
      assert body[0] == '.' || IsDigit(body[0]);
      BareAccepted(body, Numeral(false, whole, fraction));
    } else {
      assert s == [sg[0]] + body;
      SignAccepted(sg[0], body, Numeral(sg == "-", whole, fraction));
    }
  }

  lemma BareAccepted(body: string, n: Numeral)
    requires body != [] && (body[0] == '.' || IsDigit(body[0])) && ParseUnsigned(body, false) == Some(n)
    ensures ParseNumeral(body) == Some(n)
  {
  }

  lemma SignAccepted(c: char, body: string, n: Numeral)
    requires (c == '-' || c == '+') && ParseUnsigned(body, c == '-') == Some(n)
    ensures ParseNumeral([c] + body) == Some(n)
  {
    assert ([c] + body)[1..] == body;
  }

  lemma UnsignedAccepted(body: string, whole: string, fraction: string, dot: bool, negative: bool)
    requires AllDigits(whole) && AllDigits(fraction) && |whole| + |fraction| >= 1
    requires dot || fraction == []
    requires body == whole + (if dot then "." + fraction else "")
    ensures ParseUnsigned(body, negative) == Some(Numeral(negative, whole, fraction))
  {
    if dot {
      PlainDot(body, whole, fraction);
      assert body[..|whole|] == whole && body[|whole| + 1..] == fraction;
    } else {
      DigitsHaveNoDot(whole);
      assert body[..|whole|] == whole;
    }
  }

  lemma {:induction false} DigitsHaveNoDot(s: string)
    requires AllDigits(s)
    ensures FirstDot(s) == |s|
  {
    if s != [] {
      assert AllDigits(s[1..]);
      DigitsHaveNoDot(s[1..]);
    }
  }

  /**
   * `str(float(text))` for a numeral: sign, integer digits without leading zeros, '.', and
   * the fraction ("0" when there is none). The fraction digits are kept as written: they are
   * read back only for their value.
   */
  function FloatText(n: Numeral): (t: string)
    requires AllDigits(n.whole) && AllDigits(n.fraction)
    ensures FirstDot(t) < |t|
    ensures t[..FirstDot(t)] == (if n.negative then "-" else "") + StripLeadingZeros(n.whole)
    ensures t[FirstDot(t) + 1..] == if n.fraction == [] then "0" else n.fraction
  {
    var w := (if n.negative then "-" else "") + StripLeadingZeros(n.whole);
    var f := if n.fraction == [] then "0" else n.fraction;
    var t := w + "." + f;
    assert forall k :: 0 <= k < |w| ==> t[k] == w[k];
    assert FirstDot(t) == |w| by {
      assert forall k :: 0 <= k < |w| ==> t[k] != '.';
      FirstDotAt(t, |w|);
    }
    assert t[..|w|] == w && t[|w| + 1..] == f;
    t
  }

  lemma {:induction false} FirstDotAt(s: string, i: nat)
    requires i < |s| && s[i] == '.' && forall k :: 0 <= k < i ==> s[k] != '.'
    ensures FirstDot(s) == i
  {
    if i > 0 {
      assert s[0] != '.';
      FirstDotAt(s[1..], i - 1);
    }
  }

  function Pow10(n: nat): (p: nat)
    ensures p >= 1
  {
    if n == 0 then 1 else 10 * Pow10(n - 1)
  }

  /** `float("0." + digits)`: the value of a fraction's digits. */
  function FractionValue(f: string): (v: real)
    requires AllDigits(f)
  {
    DigitsValue(f) as real / Pow10(|f|) as real
  }

  /** The Decimal context's precision: 13 significant digits. */
  const Precision: nat := 13

  /**
   * `round(x, digits)` on a Decimal under ROUND_DOWN, scaled by 10^digits: the integer
   * toward zero from x * 10^digits, so no further from zero than x and less than one unit
   * of the last place away from it.
   */
  function QuantizeDown(x: real, digits: nat): (n: int)
    ensures var s := x * Pow10(digits) as real;
      (0.0 <= s ==> 0 <= n && n as real <= s < n as real + 1.0) &&
      (s < 0.0 ==> n <= 0 && n as real - 1.0 < s <= n as real)
  {
    JpMesh.Trunc(x * Pow10(digits) as real)
  }

  function Abs(n: int): nat {
    if n < 0 then -n else n
  }

  /**
   * `round(x, digits)` under the context: the truncated value, or `InvalidOperation` when its
   * coefficient has more than 13 digits.
   */
  function Quantize(x: real, digits: nat): (r: Result<real, DmsError>)
    ensures r.Err? <==> |NatToString(Abs(QuantizeDown(x, digits)))| > Precision
    ensures r.Err? ==> r.error == PrecisionExceeded
    ensures r.Ok? ==> r.value == QuantizeDown(x, digits) as real / Pow10(digits) as real
  {
    var n := QuantizeDown(x, digits);
    if |NatToString(Abs(n))| > Precision then Err(PrecisionExceeded) else Ok(n as real / Pow10(digits) as real)
  }

  /** The value of the integer part's pieces: degrees, minutes and seconds plus fraction. */
  function DmsSum(deg: int, min: int, sec: int, micro: real): real {
    deg as real + min as real / 60.0 + (sec as real + micro) / 3600.0
  }

  /**
   * `dms_to_degree(dms, digits)` on the text of its argument: not a number is an error,
   * otherwise the numeral is converted through its printed text.
   */
  function DmsToDegree(dms: string, digits: nat): (r: Result<real, DmsError>) {
    match ParseNumeral(dms)
    case None => Err(NotANumber)
    case Some(n) => NumeralToDegree(n, digits)
  }

  /** The conversion of a numeral, through the two halves of its printed text. */
  function NumeralToDegree(n: Numeral, digits: nat): (r: Result<real, DmsError>)
    requires AllDigits(n.whole) && AllDigits(n.fraction)
  {
    var t := FloatText(n);
    var d := FirstDot(t);
    PartsToDegree(t[..d], FractionValue(t[d + 1..]), digits)
  }

  /**
   * An integer part (sign included) outside 6..7 characters is an error; otherwise the
   * degrees, minutes and seconds are read from its slices and their sum, with the fraction
   * `micro` of a second, is rounded to `digits` places.
   */
  function PartsToDegree(ip: string, micro: real, digits: nat): (r: Result<real, DmsError>) {
    if |ip| < 6 || 7 < |ip| then
      Err(IntegerPartLength(|ip|))
    else
      match (ParseInt(Slice(ip, |ip| - 2, |ip|)), ParseInt(Slice(ip, |ip| - 4, |ip| - 2)), ParseInt(Slice(ip, 0, |ip| - 4)))
      case (Some(sec), Some(min), Some(deg)) =>
        Quantize(DmsSum(deg, min, sec, micro), digits)
      case _ => Err(NotANumber)
  }

  /** `dms_to_degree_lonlat`: both coordinates with the same settings, longitude first. */
  function DmsToDegreeLonLat(lon: string, lat: string, digits: nat): (r: Result<XY, DmsError>)
    ensures DmsToDegree(lon, digits).Err? ==> r == Err(DmsToDegree(lon, digits).error)
    ensures DmsToDegree(lon, digits).Ok? && DmsToDegree(lat, digits).Err? ==> r == Err(DmsToDegree(lat, digits).error)
    ensures r.Ok? <==> DmsToDegree(lon, digits).Ok? && DmsToDegree(lat, digits).Ok?
    ensures r.Ok? ==> r.value == XY(DmsToDegree(lon, digits).value, DmsToDegree(lat, digits).value)
  {
    var x :- DmsToDegree(lon, digits);
    var y :- DmsToDegree(lat, digits);
    Ok(XY(x, y))
  }

  /** The default number of places. */
  const DefaultDigits: nat := 9

  // ---------------------------------------------------------------------------
  // Properties
  // ---------------------------------------------------------------------------

  /** The integer digits of `str(float)` without the sign: no leading zeros, "0" for none. */
  function IntegerDigits(n: Numeral): (w: string)
    requires AllDigits(n.whole)
    ensures AllDigits(w) && DigitsValue(w) == DigitsValue(n.whole)
  {
    StripLeadingZeros(n.whole)
  }

  /** The integer part has the accepted length: 6 or 7 digits, or 5 or 6 behind a minus sign. */
  predicate AcceptedLength(n: Numeral)
    requires AllDigits(n.whole)
  {
    if n.negative then 5 <= |IntegerDigits(n)| <= 6 else 6 <= |IntegerDigits(n)| <= 7
  }

  /** The fraction digits of `str(float)`: "0" when there are none. */
  function FractionDigits(n: Numeral): (f: string)
    requires AllDigits(n.fraction)
    ensures AllDigits(f) && f != []
  {
    if n.fraction == [] then "0" else n.fraction
  }

  /** The DMS value of a numeral of the accepted length, read from its integer digits and fraction. */
  function DmsValue(n: Numeral): real
    requires AllDigits(n.whole) && AllDigits(n.fraction) && AcceptedLength(n)
  {
    SlicesValue(n.negative, IntegerDigits(n), FractionValue(FractionDigits(n)))
  }

  /**
   * deg + min/60 + (sec + micro)/3600, with sec the last two of the digits w, min the two
   * before them and deg the rest. A minus sign belongs to the degrees slice alone, so it
   * negates deg and leaves the minutes and seconds positive.
   */
  function SlicesValue(negative: bool, w: string, micro: real): real
    requires AllDigits(w) && 4 <= |w|
  {
    var deg: int := DigitsValue(w[..|w| - 4]);
    DmsSum(if negative then -deg else deg, DigitsValue(w[|w| - 4..|w| - 2]), DigitsValue(w[|w| - 2..]), micro)
  }

  /**
   * A numeral whose integer part has the accepted length converts to its DMS value rounded
   * toward zero to `digits` places.
   */
  lemma DmsAccepted(dms: string, digits: nat)
    requires ParseNumeral(dms).Some? && AcceptedLength(ParseNumeral(dms).value)
    ensures DmsToDegree(dms, digits) == Quantize(DmsValue(ParseNumeral(dms).value), digits)
  {
    var n := ParseNumeral(dms).value;
    assert DmsToDegree(dms, digits) == NumeralToDegree(n, digits);
    NumeralConverts(n, digits);
  }

  lemma NumeralConverts(n: Numeral, digits: nat)
    requires AllDigits(n.whole) && AllDigits(n.fraction) && AcceptedLength(n)
    ensures NumeralToDegree(n, digits) == Quantize(DmsValue(n), digits)
  {
    var w := IntegerDigits(n);
    var micro := FractionValue(FractionDigits(n));
    var t := FloatText(n);
    var ip := t[..FirstDot(t)];
    assert t[FirstDot(t) + 1..] == FractionDigits(n);
    assert NumeralToDegree(n, digits) == PartsToDegree(ip, micro, digits);
    if n.negative {
      assert ip == "-" + w;
      SignedParts(w, micro, digits);
    } else {
      assert ip == w;
      UnsignedParts(w, micro, digits);
    }
  }

  lemma UnsignedParts(w: string, micro: real, digits: nat)
    requires AllDigits(w) && 6 <= |w| <= 7
    ensures PartsToDegree(w, micro, digits) == Quantize(SlicesValue(false, w, micro), digits)
  {
    PiecesParse(w);
  }

  lemma SignedParts(w: string, micro: real, digits: nat)
    requires AllDigits(w) && 5 <= |w| <= 6
    ensures PartsToDegree("-" + w, micro, digits) == Quantize(SlicesValue(true, w, micro), digits)
  {
    SignedPiecesParse(w);
  }

  /**
   * At the default nine places every numeral of the accepted length converts: the precision
   * of the context is never exceeded.
   */
  lemma DmsDefaultAccepted(dms: string)
    requires ParseNumeral(dms).Some? && AcceptedLength(ParseNumeral(dms).value)
    ensures DmsToDegree(dms, DefaultDigits).Ok?
  {
    var n := ParseNumeral(dms).value;
    DmsAccepted(dms, DefaultDigits);
    ValueBelow(n);
  }

  /** The DMS value of a numeral of the accepted length lies below 1002 in magnitude. */
  lemma ValueBelow(n: Numeral)
    requires AllDigits(n.whole) && AllDigits(n.fraction) && AcceptedLength(n)
    ensures Quantize(DmsValue(n), DefaultDigits).Ok?
  {
    var w := IntegerDigits(n);
    FractionBelowOne(FractionDigits(n));
    PiecesBelow(w);
    SlicesBelow(n.negative, w, FractionValue(FractionDigits(n)));
  }

  lemma SlicesBelow(negative: bool, w: string, micro: real)
    requires AllDigits(w) && 5 <= |w| <= 7 && 0.0 <= micro < 1.0
    requires DigitsValue(w[..|w| - 4]) < 1000 && DigitsValue(w[|w| - 4..|w| - 2]) < 100 && DigitsValue(w[|w| - 2..]) < 100
    ensures Quantize(SlicesValue(negative, w, micro), DefaultDigits).Ok?
  {
    var deg: int := DigitsValue(w[..|w| - 4]);
    SumBelow(if negative then -deg else deg, DigitsValue(w[|w| - 4..|w| - 2]), DigitsValue(w[|w| - 2..]), micro);
  }

  lemma SumBelow(deg: int, min: nat, sec: nat, micro: real)
    requires -1000 < deg < 1000 && min < 100 && sec < 100 && 0.0 <= micro < 1.0
    ensures Quantize(DmsSum(deg, min, sec, micro), DefaultDigits).Ok?
  {
    var exact := DmsSum(deg, min, sec, micro);
    assert -1000.0 < exact < 1002.0;
    assert Pow10(9) == 1000000000;
    var k := QuantizeDown(exact, DefaultDigits);
    assert -10000000000000 < k < 10000000000000;
    assert Pow10(13) == 10000000000000;
    DigitCount(Abs(k), 13);
  }

  /**
   * A DMS value written with a minus sign: -14 degrees 0 minutes 51.5 seconds converts to
   * -14 + 51.5/3600, which is -13.985694444 at nine places, not -(14 + 51.5/3600).
   */
  lemma SignedDegreesOnly()
    ensures DmsToDegree("-140051.5", DefaultDigits) == Ok(-13.985694444)
  {
    var n := Numeral(true, "140051", "5");
    SignedNumeral();
    SignedValue(n);
    DmsAccepted("-140051.5", DefaultDigits);
    SignedSum();
  }

  lemma SignedNumeral()
    ensures ParseNumeral("-140051.5") == Some(Numeral(true, "140051", "5"))
  {
    NumeralAccepted("-", "140051", "5", true);
    assert "-" + "140051" + ("." + "5") == "-140051.5";
  }

  lemma SignedValue(n: Numeral)
    requires n == Numeral(true, "140051", "5")
    ensures AllDigits(n.whole) && AllDigits(n.fraction) && AcceptedLength(n)
    ensures DmsValue(n) == DmsSum(-14, 0, 51, FractionValue("5"))
  {
    NoLeadingZero(n.whole);
    SignedPieces(n.whole);
  }

  lemma SignedPieces(w: string)
    requires w == "140051"
    ensures AllDigits(w) && DigitsValue(w[..|w| - 4]) == 14 && DigitsValue(w[|w| - 4..|w| - 2]) == 0
    ensures DigitsValue(w[|w| - 2..]) == 51
  {
    assert w[..2] == "14" && w[2..4] == "00" && w[4..] == "51";
    Digits2("14");
    Digits2("00");
    Digits2("51");
  }

  lemma SignedSum()
    ensures Quantize(DmsSum(-14, 0, 51, FractionValue("5")), DefaultDigits) == Ok(-13.985694444)
  {
    assert ["5"[0]] == "5" && "5"[..0] == [];
    assert FractionValue("5") == 0.5;
    var exact := DmsSum(-14, 0, 51, 0.5);
    assert exact * 1000000000.0 == -13985694444.0 - 4.0 / 9.0;
    assert Pow10(9) == 1000000000;
    assert QuantizeDown(exact, DefaultDigits) == -13985694444;
    assert Pow10(11) == 100000000000;
    DigitCount(13985694444, 11);
  }

  /** The degrees of a 5- to 7-digit integer part are below 1000, its minutes and seconds below 100. */
  lemma PiecesBelow(w: string)
    requires AllDigits(w) && 5 <= |w| <= 7
    ensures DigitsValue(w[..|w| - 4]) < 1000 && DigitsValue(w[|w| - 4..|w| - 2]) < 100 && DigitsValue(w[|w| - 2..]) < 100
  {
    DigitsBound(w[..|w| - 4]);
    DigitsBound(w[|w| - 4..|w| - 2]);
    DigitsBound(w[|w| - 2..]);
    assert Pow10(2) == 100 && Pow10(3) == 1000;
  }

  /** The three slices of a 6- or 7-digit integer part parse as their digits' values. */
  lemma PiecesParse(ip: string)
    requires AllDigits(ip) && 6 <= |ip| <= 7
    ensures ParseInt(Slice(ip, |ip| - 2, |ip|)) == Some(DigitsValue(ip[|ip| - 2..]))
    ensures ParseInt(Slice(ip, |ip| - 4, |ip| - 2)) == Some(DigitsValue(ip[|ip| - 4..|ip| - 2]))
    ensures ParseInt(Slice(ip, 0, |ip| - 4)) == Some(DigitsValue(ip[..|ip| - 4]))
  {
    assert ip[|ip| - 2..|ip|] == ip[|ip| - 2..];
    assert ip[0..|ip| - 4] == ip[..|ip| - 4];
    ParseDigits(ip[|ip| - 2..]);
    ParseDigits(ip[|ip| - 4..|ip| - 2]);
    ParseDigits(ip[..|ip| - 4]);
  }

  /** Behind a minus sign the degrees slice parses negative and the other two as their digits. */
  lemma SignedPiecesParse(w: string)
    requires AllDigits(w) && 5 <= |w| <= 6
    ensures var ip := "-" + w;
      ParseInt(Slice(ip, |ip| - 2, |ip|)) == Some(DigitsValue(w[|w| - 2..])) &&
      ParseInt(Slice(ip, |ip| - 4, |ip| - 2)) == Some(DigitsValue(w[|w| - 4..|w| - 2])) &&
      ParseInt(Slice(ip, 0, |ip| - 4)) == Some(-(DigitsValue(w[..|w| - 4]) as int))
  {
    var ip := "-" + w;
    assert ip[|ip| - 2..|ip|] == w[|w| - 2..];
    assert ip[|ip| - 4..|ip| - 2] == w[|w| - 4..|w| - 2];
    var d := ip[0..|ip| - 4];
    assert d == "-" + w[..|w| - 4] && d[1..] == w[..|w| - 4];
    ParseDigits(w[|w| - 2..]);
    ParseDigits(w[|w| - 4..|w| - 2]);
  }

  /**
   * The error cases: text that is not a numeral is `NotANumber`; a numeral whose printed
   * integer part (sign included) is shorter than 6 or longer than 7 characters, and only
   * such a numeral, is refused with that length.
   */
  lemma DmsErrors(dms: string, digits: nat)
    ensures ParseNumeral(dms).None? ==> DmsToDegree(dms, digits) == Err(NotANumber)
    ensures ParseNumeral(dms).Some? ==>
      var t := FloatText(ParseNumeral(dms).value);
      var ip := t[..FirstDot(t)];
      ((|ip| < 6 || 7 < |ip|) <==> DmsToDegree(dms, digits) == Err(IntegerPartLength(|ip|)))
  {
  }

  lemma ParseDigits(s: string)
    requires AllDigits(s) && s != []
    ensures ParseInt(s) == Some(DigitsValue(s))
  {
  }

  /** Text that is not a numeral is refused. */
  lemma NotNumeralRefused()
    ensures DmsToDegree("abc", DefaultDigits) == Err(NotANumber)
    ensures DmsToDegree("1.2.3", DefaultDigits) == Err(NotANumber)
  {
    LettersRefused();
    TwoDotsRefused();
  }

  lemma LettersRefused()
    ensures ParseNumeral("abc") == None
  {
    assert ParseNumeral("abc") == ParseUnsigned("abc", false);
    assert FirstDot("abc") == 3;
    assert !IsDigit("abc"[0]);
  }

  lemma TwoDotsRefused()
    ensures ParseNumeral("1.2.3") == None
  {
    assert ParseNumeral("1.2.3") == ParseUnsigned("1.2.3", false);
    assert FirstDot("1.2.3") == 1;
    assert "1.2.3"[2..] == "2.3" && !IsDigit("2.3"[1]);
  }

  /** An integer part of 5 or 8 digits is refused, with its length. */
  lemma LengthRefused()
    ensures DmsToDegree("14051.5", DefaultDigits) == Err(IntegerPartLength(5))
    ensures DmsToDegree("36103600.0", DefaultDigits) == Err(IntegerPartLength(8))
  {
    FiveDigitsRefused();
    EightDigitsRefused();
  }

  lemma FiveDigitsRefused()
    ensures DmsToDegree("14051.5", DefaultDigits) == Err(IntegerPartLength(5))
  {
    Refused("14051.5", "14051", "5");
  }

  lemma EightDigitsRefused()
    ensures DmsToDegree("36103600.0", DefaultDigits) == Err(IntegerPartLength(8))
  {
    Refused("36103600.0", "36103600", "0");
  }

  lemma Refused(s: string, w: string, f: string)
    requires s == w + "." + f && AllDigits(w) && AllDigits(f) && |w| >= 1 && w[0] != '0'
    requires |w| < 6 || 7 < |w|
    ensures DmsToDegree(s, DefaultDigits) == Err(IntegerPartLength(|w|))
  {
    PlainNumeral(s, w, f);
    PlainText(w, f);
    DmsErrors(s, DefaultDigits);
  }

  /** An unsigned numeral w.f with w free of leading zeros keeps w as its integer part. */
  lemma PlainNumeral(s: string, w: string, f: string)
    requires s == w + "." + f && AllDigits(w) && AllDigits(f) && |w| >= 1 && w[0] != '0'
    ensures ParseNumeral(s) == Some(Numeral(false, w, f))
  {
    PlainDot(s, w, f);
    assert s[..|w|] == w && s[|w| + 1..] == f;
  }

  lemma PlainDot(s: string, w: string, f: string)
    requires s == w + "." + f && AllDigits(w)
    ensures FirstDot(s) == |w|
  {
    assert forall k :: 0 <= k < |w| ==> s[k] == w[k];
    FirstDotAt(s, |w|);
  }

  lemma PlainText(w: string, f: string)
    requires AllDigits(w) && AllDigits(f) && |w| >= 1 && w[0] != '0'
    ensures var t := FloatText(Numeral(false, w, f)); t[..FirstDot(t)] == w
  {
    NoLeadingZero(w);
  }

  lemma NoLeadingZero(w: string)
    requires AllDigits(w) && |w| >= 1 && w[0] != '0'
    ensures StripLeadingZeros(w) == w
  {
  }

  lemma Digits2(s: string)
    requires |s| == 2 && AllDigits(s)
    ensures DigitsValue(s) == 10 * DigitValue(s[0]) + DigitValue(s[1])
  {
    assert s[..1] == [s[0]] && s[..1][..0] == [];
    assert DigitsValue(s[..1]) == DigitValue(s[0]);
  }

  lemma Digits3(s: string)
    requires |s| == 3 && AllDigits(s)
    ensures DigitsValue(s) == 100 * DigitValue(s[0]) + 10 * DigitValue(s[1]) + DigitValue(s[2])
  {
    Digits2(s[..2]);
  }

  lemma Digits4(s: string)
    requires |s| == 4 && AllDigits(s)
    ensures DigitsValue(s) == 1000 * DigitValue(s[0]) + 100 * DigitValue(s[1]) + 10 * DigitValue(s[2]) + DigitValue(s[3])
  {
    Digits3(s[..3]);
  }

  /**
   * The two coordinates of a point near Tokyo: 1400516.2781 converts to a longitude
   * strictly between 140 and 141 and 360613.5892 to a latitude strictly between 36 and 37.
   */
  lemma TokyoConversion()
    ensures var r := DmsToDegreeLonLat("1400516.2781", "360613.5892", DefaultDigits);
      r.Ok? && 140.0 < r.value.x < 141.0 && 36.0 < r.value.y < 37.0
  {
    TokyoLongitude();
    TokyoLatitude();
  }

  lemma TokyoLongitude()
    ensures var r := DmsToDegree("1400516.2781", DefaultDigits); r.Ok? && 140.0 < r.value < 141.0
  {
    var lon := "1400516";
    TokyoLongitudePieces(lon);
    DmsWithin("1400516.2781", lon, "2781", 140, 5, 16);
  }

  lemma TokyoLongitudePieces(lon: string)
    requires lon == "1400516"
    ensures AllDigits(lon) && DigitsValue(lon[..|lon| - 4]) == 140 && DigitsValue(lon[|lon| - 4..|lon| - 2]) == 5
    ensures DigitsValue(lon[|lon| - 2..]) == 16
  {
    assert lon[..3] == "140" && lon[3..5] == "05" && lon[5..] == "16";
    Digits3("140");
    Digits2("05");
    Digits2("16");
  }

  lemma TokyoLatitude()
    ensures var r := DmsToDegree("360613.5892", DefaultDigits); r.Ok? && 36.0 < r.value < 37.0
  {
    var lat := "360613";
    TokyoLatitudePieces(lat);
    DmsWithin("360613.5892", lat, "5892", 36, 6, 13);
  }

  lemma TokyoLatitudePieces(lat: string)
    requires lat == "360613"
    ensures AllDigits(lat) && DigitsValue(lat[..|lat| - 4]) == 36 && DigitsValue(lat[|lat| - 4..|lat| - 2]) == 6
    ensures DigitsValue(lat[|lat| - 2..]) == 13
  {
    assert lat[..2] == "36" && lat[2..4] == "06" && lat[4..] == "13";
    Digits2("36");
    Digits2("06");
    Digits2("13");
  }

  /**
   * A DMS numeral with unsigned integer digits w (no leading zero), at least one second and
   * at most 58 minutes converts at nine places to a value strictly between deg and deg + 1.
   */
  lemma DmsWithin(s: string, w: string, f: string, deg: nat, min: nat, sec: nat)
    requires s == w + "." + f && AllDigits(w) && AllDigits(f) && 6 <= |w| <= 7 && w[0] != '0' && f != []
    requires DigitsValue(w[..|w| - 4]) == deg && DigitsValue(w[|w| - 4..|w| - 2]) == min && DigitsValue(w[|w| - 2..]) == sec
    requires deg < 1000 && 1 <= sec < 60 && min < 59
    ensures var r := DmsToDegree(s, DefaultDigits);
      r.Ok? && deg as real < r.value < (deg + 1) as real
  {
    PlainNumeral(s, w, f);
    NoLeadingZero(w);
    DmsAccepted(s, DefaultDigits);
    FractionBelowOne(f);
    RoundedBetween(deg, min, sec, FractionValue(f));
  }

  /**
   * Rounding toward zero at nine places keeps a sum of at most three degree digits, at least
   * one second and at most 58 minutes inside (deg, deg + 1), within the context's precision.
   */
  lemma RoundedBetween(deg: nat, min: nat, sec: nat, micro: real)
    requires deg < 1000 && 1 <= sec < 60 && min < 59 && 0.0 <= micro < 1.0
    ensures var q := Quantize(DmsSum(deg, min, sec, micro), DefaultDigits);
      q.Ok? && deg as real < q.value < (deg + 1) as real
  {
    var exact := DmsSum(deg, min, sec, micro);
    assert deg as real + 0.0002 < exact < deg as real + 0.999;
    assert Pow10(9) == 1000000000;
    var k := QuantizeDown(exact, DefaultDigits);
    assert k as real <= exact * 1000000000.0 < k as real + 1.0;
    assert 0 <= k < 1000000000000;
    assert Pow10(12) == 1000000000000;
    DigitCount(k, 12);
  }

  /** A value below 10^k has at most k digits. */
  lemma {:induction false} DigitCount(n: nat, k: nat)
    requires 1 <= k && n < Pow10(k)
    ensures |NatToString(n)| <= k
  {
    if n >= 10 {
      DigitCount(n / 10, k - 1);
    }
  }

  lemma {:induction false} DigitsBound(s: string)
    requires AllDigits(s)
    ensures DigitsValue(s) < Pow10(|s|)
    decreases |s|
  {
    if s != [] {
      DigitsBound(s[..|s| - 1]);
    }
  }

  /** A fraction's value lies in [0, 1). */
  lemma FractionBelowOne(f: string)
    requires AllDigits(f)
    ensures 0.0 <= FractionValue(f) < 1.0
  {
    DigitsBound(f);
    RatioBelowOne(DigitsValue(f) as real, Pow10(|f|) as real);
  }

  lemma RatioBelowOne(a: real, b: real)
    requires 0.0 <= a < b
    ensures 0.0 <= a / b < 1.0
  {
    var q := a / b;
    assert q * b == a;
  }
}
