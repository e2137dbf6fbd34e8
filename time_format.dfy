/**
 * The player's `formatTime` helper (src/components/MusicPlayer.js, lines
 * 175-179): a playback position in seconds rendered as minutes, a colon and
 * two-digit seconds. Minutes are `String(n)` left-padded with '0' to two
 * characters and are never carried over into an hours field.
 *
 * The value rendered is the floored position, so the core of the model works
 * on a `nat` of whole seconds; `FormatTimeOfReal` follows the source's own
 * arithmetic on a real position and is proved to agree with it.
 */
module TimeFormat {
  import opened Wrappers

  predicate IsDigit(c: char) { '0' <= c <= '9' }

  predicate AllDigits(s: string) { forall i :: 0 <= i < |s| ==> IsDigit(s[i]) }

  function DigitValue(c: char): (d: nat)
    requires IsDigit(c)
    ensures d < 10
  {
    c as int - '0' as int
  }

  function DigitChar(d: nat): (c: char)
    requires d < 10
    ensures IsDigit(c) && DigitValue(c) == d
  {
    ('0' as int + d) as char
  }

  /** The number a string of decimal digits denotes (leading zeros allowed). */
  function ParseDecimal(s: string): nat
    requires AllDigits(s)
  {
    if s == [] then 0 else 10 * ParseDecimal(s[..|s| - 1]) + DigitValue(s[|s| - 1])
  }

  /** `String(n)` for a non-negative integer: its shortest decimal numeral. */
  function Decimal(n: nat): (s: string)
    ensures |s| >= 1 && AllDigits(s)
    ensures |s| > 1 ==> s[0] != '0'
    ensures |s| == 1 <==> n < 10
  {
    if n < 10 then [DigitChar(n)] else Decimal(n / 10) + [DigitChar(n % 10)]
  }

  /** `s.padStart(width, fill)` for a one-character fill string. */
  function PadStart(s: string, width: nat, fill: char): (r: string)
    ensures |r| == if |s| < width then width else |s|
    ensures r[|r| - |s|..] == s
    ensures forall i :: 0 <= i < |r| - |s| ==> r[i] == fill
  {
    if |s| < width then seq(width - |s|, _ => fill) + s else s
  }

  /** The minutes field of a rendered time: everything before the colon. */
  function MinutesField(r: string): string
    requires |r| >= 3
  {
    r[..|r| - 3]
  }

  /** The seconds field of a rendered time: the two characters after the colon. */
  function SecondsField(r: string): string
    requires |r| >= 3
  {
    r[|r| - 2..]
  }

  /**
   * The shape of every string `formatTime` can produce: at least two minute
   * digits, padded with '0' only up to two, a colon, then two second digits
   * denoting a value below 60.
   */
  predicate WellFormedTime(r: string) {
    && |r| >= 5
    && r[|r| - 3] == ':'
    && AllDigits(MinutesField(r))
    && AllDigits(SecondsField(r))
    && (|MinutesField(r)| == 2 || r[0] != '0')
    && ParseDecimal(SecondsField(r)) < 60
  }

  /** formatTime applied to a whole number of seconds. */
  function FormatTime(t: nat): (r: string)
    ensures WellFormedTime(r)
    ensures ParseDecimal(MinutesField(r)) == t / 60
    ensures ParseDecimal(SecondsField(r)) == t % 60
    ensures |r| == 5 <==> t < 6000
  {
    Render(t / 60, t % 60)
  }

  /** Minutes and seconds, each zero-padded to two places, around a colon. */
  function Render(minutes: nat, seconds: nat): (r: string)
    requires seconds < 60
    ensures WellFormedTime(r)
    ensures ParseDecimal(MinutesField(r)) == minutes
    ensures ParseDecimal(SecondsField(r)) == seconds
    ensures |r| == 5 <==> minutes < 100
  {
    var m := PadStart(Decimal(minutes), 2, '0');
    var s := PadStart(Decimal(seconds), 2, '0');
    PadStartDecimal(minutes);
    PadStartDecimal(seconds);
    DecimalLength(minutes);
    DecimalLength(seconds);
    Fields(m, s);
    m + ":" + s
  }

  /** How a minutes field, a colon and a seconds field are read back apart. */
  lemma Fields(m: string, s: string)
    requires |m| >= 2 && |s| == 2
    ensures var r := m + ":" + s;
      |r| == |m| + 3 && r[|r| - 3] == ':' && r[0] == m[0] &&
      MinutesField(r) == m && SecondsField(r) == s
  {
  }

  /**
   * The inverse of `FormatTime`: the number of seconds a rendered time
   * denotes. It is defined on exactly the strings `FormatTime` can produce,
   * and each of them is the rendering of its result.
   */
  function ParseTime(r: string): (t: Option<nat>)
    ensures t.Some? <==> WellFormedTime(r)
    ensures t.Some? ==> FormatTime(t.value) == r
  {
    if WellFormedTime(r) then
      var minutes, seconds := ParseDecimal(MinutesField(r)), ParseDecimal(SecondsField(r));
      FormatOfRender(minutes, seconds);
      RenderingDetermined(minutes, seconds, r);
      Some(60 * minutes + seconds)
    else
      None
  }

  // ---------------------------------------------------------------------------
  // Decimal numerals

  lemma ParseDecimalSnoc(s: string, c: char)
    requires AllDigits(s) && IsDigit(c)
    ensures AllDigits(s + [c])
    ensures ParseDecimal(s + [c]) == 10 * ParseDecimal(s) + DigitValue(c)
  {
    assert (s + [c])[..|s|] == s;
  }

  /** Reading back `String(n)` gives n. */
  lemma {:induction false} DecimalRoundTrip(n: nat)
    ensures ParseDecimal(Decimal(n)) == n
  {
    if n < 10 {
      assert Decimal(n)[..0] == [];
    } else {
      DecimalRoundTrip(n / 10);
      ParseDecimalSnoc(Decimal(n / 10), DigitChar(n % 10));
    }
  }

  /** A numeral of at most two digits denotes a number below 100, and back. */
  lemma {:induction false} DecimalLength(n: nat)
    ensures |Decimal(n)| <= 2 <==> n < 100
  {
    if n >= 10 {
      assert |Decimal(n)| == |Decimal(n / 10)| + 1;
    }
  }

  /** Leading zeros do not change the number a numeral denotes. */
  lemma {:induction false} ParseDecimalLeadingZeros(z: string, s: string)
    requires forall i :: 0 <= i < |z| ==> z[i] == '0'
    requires AllDigits(s)
    ensures AllDigits(z + s)
    ensures ParseDecimal(z + s) == ParseDecimal(s)
  {
    if s == [] {
      assert z + s == z;
      ZerosDenoteZero(z);
    } else {
      var s' := s[..|s| - 1];
      var c := s[|s| - 1];
      assert s == s' + [c];
      assert z + s == (z + s') + [c];
      ParseDecimalLeadingZeros(z, s');
      ParseDecimalSnoc(z + s', c);
      ParseDecimalSnoc(s', c);
    }
  }

  lemma {:induction false} ZerosDenoteZero(z: string)
    requires forall i :: 0 <= i < |z| ==> z[i] == '0'
    ensures AllDigits(z) && ParseDecimal(z) == 0
  {
    if z != [] {
      ZerosDenoteZero(z[..|z| - 1]);
    }
  }

  /** A zero-padded `String(n)` still denotes n. */
  lemma PadStartDecimal(n: nat)
    ensures AllDigits(PadStart(Decimal(n), 2, '0'))
    ensures ParseDecimal(PadStart(Decimal(n), 2, '0')) == n
  {
    var d := Decimal(n);
    var p := PadStart(d, 2, '0');
    DecimalRoundTrip(n);
    if |d| < 2 {
      var z := p[..2 - |d|];
      assert p == z + d;
      ParseDecimalLeadingZeros(z, d);
    }
  }

  /** A digit string without a leading zero denotes a positive number. */
  lemma {:induction false} LeadingNonZeroPositive(s: string)
    requires |s| >= 1 && AllDigits(s) && s[0] != '0'
    ensures ParseDecimal(s) > 0
  {
    if |s| > 1 {
      LeadingNonZeroPositive(s[..|s| - 1]);
    }
  }

  /** `String` of the number a canonical numeral denotes is that numeral. */
  lemma {:induction false} DecimalOfParse(s: string)
    requires |s| >= 1 && AllDigits(s)
    requires |s| > 1 ==> s[0] != '0'
    ensures Decimal(ParseDecimal(s)) == s
  {
    if |s| > 1 {
      var s' := s[..|s| - 1];
      var c := s[|s| - 1];
      assert s == s' + [c];
      LeadingNonZeroPositive(s');
      DecimalOfParse(s');
      var n := ParseDecimal(s);
      assert n / 10 == ParseDecimal(s') && n % 10 == DigitValue(c);
      assert DigitChar(DigitValue(c)) == c;
    }
  }

  /** A field of a well-formed time is its own value, padded back to two places. */
  lemma PadStartOfParse(f: string)
    requires |f| >= 2 && AllDigits(f)
    requires |f| == 2 || f[0] != '0'
    ensures PadStart(Decimal(ParseDecimal(f)), 2, '0') == f
  {
    if f[0] != '0' {
      DecimalOfParse(f);
    } else {
      var tail := f[1..];
      assert f == [f[0]] + tail;
      ParseDecimalLeadingZeros([f[0]], tail);
      DecimalOfParse(tail);
    }
  }

  // ---------------------------------------------------------------------------
  // formatTime

  /** Parsing a rendered time gives back the seconds it was rendered from. */
  lemma ParseFormatTime(t: nat)
    ensures ParseTime(FormatTime(t)) == Some(t)
  {
    var r := FormatTime(t);
    var q, s := ParseDecimal(MinutesField(r)), ParseDecimal(SecondsField(r));
    assert q == t / 60 && s == t % 60;
    assert 60 * q + s == t;
  }

  /**
   * A well-formed time string is the rendering of the minutes and seconds
   * its two fields denote.
   */
  lemma RenderingDetermined(minutes: nat, seconds: nat, r: string)
    requires WellFormedTime(r)
    requires minutes == ParseDecimal(MinutesField(r)) && seconds == ParseDecimal(SecondsField(r))
    ensures Render(minutes, seconds) == r
  {
    var u := Render(minutes, seconds);
    assert MinutesField(u)[0] == u[0] && MinutesField(r)[0] == r[0];
    SameField(MinutesField(u), MinutesField(r));
    SameField(SecondsField(u), SecondsField(r));
    RejoinFields(u);
    RejoinFields(r);
  }

  /** Two fields of well-formed times that denote the same number are the same text. */
  lemma SameField(f: string, g: string)
    requires |f| >= 2 && AllDigits(f) && (|f| == 2 || f[0] != '0')
    requires |g| >= 2 && AllDigits(g) && (|g| == 2 || g[0] != '0')
    requires ParseDecimal(f) == ParseDecimal(g)
    ensures f == g
  {
    PadStartOfParse(f);
    PadStartOfParse(g);
  }

  /** `formatTime` of a number of seconds renders its minutes and its remaining seconds. */
  lemma FormatOfRender(minutes: nat, seconds: nat)
    requires seconds < 60
    ensures FormatTime(60 * minutes + seconds) == Render(minutes, seconds)
  {
    var t := 60 * minutes + seconds;
    assert t / 60 == minutes && t % 60 == seconds;
  }


  /** A string with a colon three places from the end is its two fields around it. */
  lemma RejoinFields(r: string)
    requires |r| >= 3 && r[|r| - 3] == ':'
    ensures r == MinutesField(r) + ":" + SecondsField(r)
  {
  }

  /** Distinct whole-second positions are rendered differently. */
  lemma FormatTimeInjective(t: nat, u: nat)
    requires FormatTime(t) == FormatTime(u)
    ensures t == u
  {
    ParseFormatTime(t);
    ParseFormatTime(u);
  }

  /** Minutes are not wrapped into hours: one hour renders as sixty minutes. */
  lemma OneHourIsSixtyMinutes()
    ensures FormatTime(3600) == "60:00"
  {
    assert 3600 / 60 == 60 && 3600 % 60 == 0;
    assert DigitChar(6) == '6' && DigitChar(0) == '0';
    assert Decimal(6) == "6";
    assert Decimal(60) == Decimal(6) + ['0'] == "60";
    assert Decimal(0) == "0";
    assert PadStart("60", 2, '0') == "60";
    assert PadStart("0", 2, '0') == "00";
    assert "60" + ":" + "00" == "60:00";
  }

  // ---------------------------------------------------------------------------
  // The source's arithmetic on a real-valued position

  /** `x % 60` for x >= 0 (JavaScript's remainder truncates the quotient). */
  function Remainder60(x: real): (r: real)
    requires x >= 0.0
    ensures 0.0 <= r < 60.0
  {
    x - 60.0 * ((x / 60.0).Floor as real)
  }

  /** `Math.floor` of a non-negative real, as a natural number. */
  function FloorNat(x: real): (n: nat)
    requires x >= 0.0
    ensures n as real <= x < n as real + 1.0
  {
    x.Floor
  }

  /**
   * formatTime as the source writes it: minutes `Math.floor(time / 60)`,
   * seconds `Math.floor(time % 60)`. It renders the floored position.
   */
  function FormatTimeOfReal(time: real): (r: string)
    requires time >= 0.0
    ensures r == FormatTime(FloorNat(time))
  {
    var minutes := FloorNat(time / 60.0);
    var seconds := FloorNat(Remainder60(time));
    FloorParts(time);
    Render(minutes, seconds)
  }

  lemma FloorParts(time: real)
    requires time >= 0.0
    ensures FloorNat(time / 60.0) == FloorNat(time) / 60
    ensures FloorNat(Remainder60(time)) == FloorNat(time) % 60
  {
    var f := FloorNat(time);
    var m := FloorNat(time / 60.0);
    assert 60.0 * (m as real) <= time < 60.0 * (m as real) + 60.0;
    assert 60 * m <= f < 60 * m + 60;
    assert m == f / 60;
    var rem := Remainder60(time);
    assert rem == time - 60.0 * (m as real);
    assert (f - 60 * m) as real <= rem < (f - 60 * m) as real + 1.0;
  }
}
