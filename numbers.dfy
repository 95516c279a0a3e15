/** The primitive text-to-number conversions the annotation decoder relies on:
    std::from_chars for an unsigned 32-bit value in base 10 (the QRgb colours),
    the sscanf "%u:%u:%u.%u" timestamp read and its conversion to milliseconds,
    and the decimal and hexadecimal renderings used inside diagnostics. */
module Numbers {
  import opened Wrappers

  predicate IsDigit(c: char)
  {
    '0' <= c <= '9'
  }

  function DigitValue(c: char): nat
    requires IsDigit(c)
  {
    (c as int) - ('0' as int)
  }

  predicate AllDigits(s: string)
  {
    forall k :: 0 <= k < |s| ==> IsDigit(s[k])
  }

  /** The length of the run of decimal digits at the start of `s`. */
  function DigitRunLength(s: string): (n: nat)
    ensures n <= |s|
    ensures AllDigits(s[..n])
    ensures n < |s| ==> !IsDigit(s[n])
  {
    if s == [] || !IsDigit(s[0]) then 0 else 1 + DigitRunLength(s[1..])
  }

  /** The value of a string of decimal digits, most significant digit first. */
  function DigitsValue(s: string): nat
    requires AllDigits(s)
  {
    if s == [] then 0 else 10 * DigitsValue(s[..|s| - 1]) + DigitValue(s[|s| - 1])
  }

  const U32Max: nat := 0xFFFF_FFFF

  /** std::from_chars into a 32-bit unsigned integer, base 10. It reads the
      longest run of leading digits (no whitespace, no sign) and succeeds when
      that run is non-empty and its value fits; text after the run is not
      looked at. On failure the caller only sees an error code. */
  function FromCharsU32(s: string): (r: Option<nat>)
    ensures r.Some? ==> r.value <= U32Max
    ensures r.Some? ==> |s| > 0 && IsDigit(s[0])
  {
    var n := DigitRunLength(s);
    if n == 0 then None
    else
      var v := DigitsValue(s[..n]);
      if v <= U32Max then Some(v) else None
  }

  function DigitChar(d: nat): (c: char)
    requires d < 10
    ensures IsDigit(c) && DigitValue(c) == d
  {
    ('0' as int + d) as char
  }

  /** std::to_string / std::to_chars of a natural number in base 10. */
  function NatToString(n: nat): (s: string)
    ensures |s| > 0 && AllDigits(s)
  {
    if n < 10 then [DigitChar(n)] else NatToString(n / 10) + [DigitChar(n % 10)]
  }

  /** std::to_string of an int. */
  function IntToString(i: int): (s: string)
    ensures |s| > 0
  {
    if i < 0 then "-" + NatToString(-i) else NatToString(i)
  }

  function HexChar(d: nat): (c: char)
    requires d < 16
    ensures IsHexDigit(c) && HexDigitValue(c) == d
  {
    if d < 10 then DigitChar(d) else ('a' as int + d - 10) as char
  }

  predicate IsHexDigit(c: char)
  {
    IsDigit(c) || 'a' <= c <= 'f'
  }

  function HexDigitValue(c: char): nat
    requires IsHexDigit(c)
  {
    if IsDigit(c) then DigitValue(c) else (c as int) - ('a' as int) + 10
  }

  predicate AllHexDigits(s: string)
  {
    forall k :: 0 <= k < |s| ==> IsHexDigit(s[k])
  }

  /** The value of a string of lower-case hexadecimal digits, most significant first. */
  function HexValue(s: string): nat
    requires AllHexDigits(s)
  {
    if s == [] then 0 else 16 * HexValue(s[..|s| - 1]) + HexDigitValue(s[|s| - 1])
  }

  /** std::to_chars of a natural number in base 16: lower-case digits, no prefix. */
  function NatToHex(n: nat): (s: string)
    ensures |s| > 0 && AllHexDigits(s)
  {
    if n < 16 then [HexChar(n)] else NatToHex(n / 16) + [HexChar(n % 16)]
  }

  /** The hexadecimal rendering denotes the number, and has no leading zero. */
  lemma {:induction false} NatToHexValue(n: nat)
    ensures HexValue(NatToHex(n)) == n
    ensures n > 0 ==> NatToHex(n)[0] != '0'
  {
    if n >= 16 {
      var s := NatToHex(n);
      assert s[..|s| - 1] == NatToHex(n / 16);
      NatToHexValue(n / 16);
    }
  }

  /** The value of a rendered number is the number. */
  lemma {:induction false} NatToStringValue(n: nat)
    ensures DigitsValue(NatToString(n)) == n
  {
    if n >= 10 {
      var s := NatToString(n);
      assert s[..|s| - 1] == NatToString(n / 10);
      NatToStringValue(n / 10);
    }
  }

  /** A digit run that is followed by a non-digit (or by nothing) is read whole. */
  lemma {:induction false} DigitRunOfDigits(d: string, rest: string)
    requires AllDigits(d)
    requires rest == [] || !IsDigit(rest[0])
    ensures DigitRunLength(d + rest) == |d|
  {
    if d != [] {
      assert (d + rest)[1..] == d[1..] + rest;
      DigitRunOfDigits(d[1..], rest);
    }
  }

  /** Round trip: from_chars reads back any rendered value that fits in 32 bits,
      whatever non-digit text follows it, and refuses any that does not fit. */
  lemma FromCharsU32RoundTrip(n: nat, rest: string)
    requires rest == [] || !IsDigit(rest[0])
    ensures FromCharsU32(NatToString(n) + rest) == (if n <= U32Max then Some(n) else None)
  {
    var d := NatToString(n);
    DigitRunOfDigits(d, rest);
    assert (d + rest)[..|d|] == d;
    NatToStringValue(n);
  }

  /** isspace in the "C" locale. */
  predicate IsSpace(c: char)
  {
    c == ' ' || c == '\t' || c == '\n' || c == '\U{000B}' || c == '\U{000C}' || c == '\r'
  }

  /** What is left of `s` once its leading white space is skipped. */
  function SkipSpaces(s: string): (r: string)
    ensures |r| <= |s| && r == s[|s| - |r|..]
    ensures r != [] ==> !IsSpace(r[0])
  {
    if s != [] && IsSpace(s[0]) then SkipSpaces(s[1..]) else s
  }

  /** One "%u" conversion: skip white space, then read a non-empty run of digits.
      Gives the value and the text after it, or None on a matching failure. */
  function ReadUnsigned(s: string): (r: Option<(nat, string)>)
    ensures r.Some? ==> |r.value.1| < |s|
  {
    var t := SkipSpaces(s);
    var n := DigitRunLength(t);
    if n == 0 then None else Some((DigitsValue(t[..n]), t[n..]))
  }

  /** A literal character of the format followed by one more "%u": the literal
      must be the next character of `s` (no white space is skipped before it). */
  function LiteralThenUnsigned(s: string, literal: char): (r: Option<(nat, string)>)
    ensures r.Some? ==> |r.value.1| < |s|
  {
    if s != [] && s[0] == literal then ReadUnsigned(s[1..]) else None
  }

  /** sscanf's return value: EOF, or the number of conversions made. */
  const EOF: int := -1

  datatype Scanned = Scanned(count: int, values: seq<nat>)

  /** sscanf(t, "%u:%u:%u.%u", ...): the count sscanf returns (EOF when the
      input ends before the first conversion) and the values it stored. */
  function ScanTimestamp(t: string): (r: Scanned)
    ensures EOF <= r.count <= 4
    ensures r.count == EOF <==> SkipSpaces(t) == []
    ensures r.count >= 0 ==> |r.values| == r.count
  {
    if SkipSpaces(t) == [] then Scanned(EOF, [])
    else
      match ReadUnsigned(t)
      case None => Scanned(0, [])
      case Some((hours, afterHours)) =>
        match LiteralThenUnsigned(afterHours, ':')
        case None => Scanned(1, [hours])
        case Some((minutes, afterMinutes)) =>
          match LiteralThenUnsigned(afterMinutes, ':')
          case None => Scanned(2, [hours, minutes])
          case Some((seconds, afterSeconds)) =>
            match LiteralThenUnsigned(afterSeconds, '.')
            case None => Scanned(3, [hours, minutes, seconds])
            case Some((centiseconds, _)) => Scanned(4, [hours, minutes, seconds, centiseconds])
  }

  /** hours + minutes + seconds + centiseconds as std::chrono::milliseconds. */
  function TimestampMs(hours: nat, minutes: nat, seconds: nat, centiseconds: nat): (ms: nat)
    ensures ms == ((hours * 60 + minutes) * 60 + seconds) * 1000 + centiseconds * 10
    ensures ms % 10 == 0
  {
    3_600_000 * hours + 60_000 * minutes + 1_000 * seconds + 10 * centiseconds
  }

  /** The canonical rendering H:M:S.C of four numbers. */
  function FormatTimestamp(hours: nat, minutes: nat, seconds: nat, centiseconds: nat): string
  {
    NatToString(hours) + ([':'] + (NatToString(minutes) + ([':'] + (NatToString(seconds) + (['.'] + NatToString(centiseconds))))))
  }

  /** "%u" reads a run of digits whole and stops right after it. */
  lemma ReadUnsignedOfDigits(d: string, rest: string)
    requires |d| > 0 && AllDigits(d)
    requires rest == [] || !IsDigit(rest[0])
    ensures ReadUnsigned(d + rest) == Some((DigitsValue(d), rest))
  {
    assert SkipSpaces(d + rest) == d + rest by {
      assert (d + rest)[0] == d[0];
    }
    DigitRunOfDigits(d, rest);
    assert (d + rest)[..|d|] == d;
    assert (d + rest)[|d|..] == rest;
  }

  /** "%u" reads a rendered number back and stops right after it. */
  lemma ReadUnsignedOfNat(n: nat, rest: string)
    requires rest == [] || !IsDigit(rest[0])
    ensures ReadUnsigned(NatToString(n) + rest) == Some((n, rest))
  {
    ReadUnsignedOfDigits(NatToString(n), rest);
    NatToStringValue(n);
  }

  lemma LiteralThenUnsignedOf(literal: char, s: string)
    ensures LiteralThenUnsigned([literal] + s, literal) == ReadUnsigned(s)
  {
    assert ([literal] + s)[1..] == s;
  }

  /** The scan of a text made of a number, then ':' and a number, then ':' and
      a number, then '.' and a number. */
  lemma ScanTimestampOfParts(t: string, afterH: string, afterM: string, afterS: string,
                             hours: nat, minutes: nat, seconds: nat, centiseconds: nat)
    requires SkipSpaces(t) != []
    requires ReadUnsigned(t) == Some((hours, [':'] + afterH))
    requires ReadUnsigned(afterH) == Some((minutes, [':'] + afterM))
    requires ReadUnsigned(afterM) == Some((seconds, ['.'] + afterS))
    requires ReadUnsigned(afterS).Some? && ReadUnsigned(afterS).value.0 == centiseconds
    ensures ScanTimestamp(t) == Scanned(4, [hours, minutes, seconds, centiseconds])
  {
    LiteralThenUnsignedOf(':', afterH);
    LiteralThenUnsignedOf(':', afterM);
    LiteralThenUnsignedOf('.', afterS);
  }

  /** Round trip: the timestamp scan reads all four numbers of a rendered
      timestamp back, with a count of 4. */
  lemma ScanTimestampRoundTrip(hours: nat, minutes: nat, seconds: nat, centiseconds: nat)
    ensures ScanTimestamp(FormatTimestamp(hours, minutes, seconds, centiseconds))
         == Scanned(4, [hours, minutes, seconds, centiseconds])
  {
    var h, m, s, c := NatToString(hours), NatToString(minutes), NatToString(seconds), NatToString(centiseconds);
    var afterM := s + (['.'] + c);
    var afterH := m + ([':'] + afterM);
    assert SkipSpaces(h + ([':'] + afterH)) != [] by {
      assert (h + ([':'] + afterH))[0] == h[0];
    }
    ReadUnsignedOfNat(hours, [':'] + afterH);
    ReadUnsignedOfNat(minutes, [':'] + afterM);
    ReadUnsignedOfNat(seconds, ['.'] + c);
    ReadUnsignedOfNat(centiseconds, []);
    assert c + [] == c;
    ScanTimestampOfParts(h + ([':'] + afterH), afterH, afterM, c, hours, minutes, seconds, centiseconds);
  }

  /** A digit field that ends the text reads as its decimal value. */
  lemma ReadDigitsToEnd(d: string, v: nat)
    requires 0 < DigitRunLength(d) == |d| && DigitsValue(d) == v
    ensures ReadUnsigned(d) == Some((v, []))
  {
    assert d[..|d|] == d;
    assert d + [] == d;
    ReadUnsignedOfDigits(d, []);
  }

  /** A digit field followed by a separator reads as its decimal value. */
  lemma ReadDigitField(d: string, v: nat, sep: char, rest: string)
    requires 0 < DigitRunLength(d) == |d| && DigitsValue(d) == v && !IsDigit(sep)
    ensures ReadUnsigned(d + ([sep] + rest)) == Some((v, [sep] + rest))
  {
    assert d[..|d|] == d;
    ReadUnsignedOfDigits(d, [sep] + rest);
  }

  /** Four fields joined by ':', ':' and '.', each of which reads as a number,
      scan to those numbers. */
  lemma ScanOfFieldReads(h: string, m: string, s: string, c: string, hv: nat, mv: nat, sv: nat, cv: nat)
    requires ReadUnsigned(h + ([':'] + (m + ([':'] + (s + (['.'] + c)))))) == Some((hv, [':'] + (m + ([':'] + (s + (['.'] + c))))))
    requires ReadUnsigned(m + ([':'] + (s + (['.'] + c)))) == Some((mv, [':'] + (s + (['.'] + c))))
    requires ReadUnsigned(s + (['.'] + c)) == Some((sv, ['.'] + c))
    requires ReadUnsigned(c).Some? && ReadUnsigned(c).value.0 == cv
    ensures ScanTimestamp(h + ([':'] + (m + ([':'] + (s + (['.'] + c)))))) == Scanned(4, [hv, mv, sv, cv])
  {
    var t := h + ([':'] + (m + ([':'] + (s + (['.'] + c)))));
    assert SkipSpaces(t) != [] by {
      assert DigitRunLength(SkipSpaces(t)) > 0;
    }
    ScanTimestampOfParts(t, m + ([':'] + (s + (['.'] + c))), s + (['.'] + c), c, hv, mv, sv, cv);
  }

  /** A one-digit field. */
  lemma OneDigitField(a: char)
    requires IsDigit(a)
    ensures 0 < DigitRunLength([a]) == 1 && DigitsValue([a]) == DigitValue(a)
  {
    assert [a][..0] == [];
  }

  /** A two-digit field. */
  lemma TwoDigitField(a: char, b: char)
    requires IsDigit(a) && IsDigit(b)
    ensures 0 < DigitRunLength([a, b]) == 2 && DigitsValue([a, b]) == 10 * DigitValue(a) + DigitValue(b)
  {
    assert [a, b][1..] == [b];
    assert [a, b][..1] == [a];
    OneDigitField(a);
    OneDigitField(b);
  }

  /** The value of the two-digit field `ab`. */
  function TwoDigitValue(a: char, b: char): nat
    requires IsDigit(a) && IsDigit(b)
  {
    10 * DigitValue(a) + DigitValue(b)
  }

  /** A two-digit field before a separator reads as its value. */
  lemma ReadTwoDigits(a: char, b: char, sep: char, rest: string)
    requires IsDigit(a) && IsDigit(b) && !IsDigit(sep)
    ensures ReadUnsigned([a, b] + ([sep] + rest)) == Some((TwoDigitValue(a, b), [sep] + rest))
  {
    TwoDigitField(a, b);
    ReadDigitField([a, b], TwoDigitValue(a, b), sep, rest);
  }

  /** A one-digit field before a separator reads as its value. */
  lemma ReadOneDigit(a: char, sep: char, rest: string)
    requires IsDigit(a) && !IsDigit(sep)
    ensures ReadUnsigned([a] + ([sep] + rest)) == Some((DigitValue(a), [sep] + rest))
  {
    OneDigitField(a);
    ReadDigitField([a], DigitValue(a), sep, rest);
  }

  /** The layout H:MM:SS. followed by a field that reads as `cv` scans to the
      hours, the two-digit minutes and seconds, and `cv`. */
  lemma ScanPaddedTimestamp(h: char, m1: char, m2: char, s1: char, s2: char, c: string, cv: nat)
    requires IsDigit(h) && IsDigit(m1) && IsDigit(m2) && IsDigit(s1) && IsDigit(s2)
    requires ReadUnsigned(c) == Some((cv, []))
    ensures ScanTimestamp([h, ':', m1, m2, ':', s1, s2, '.'] + c)
         == Scanned(4, [DigitValue(h), TwoDigitValue(m1, m2), TwoDigitValue(s1, s2), cv])
  {
    ReadOneDigit(h, ':', [m1, m2] + ([':'] + ([s1, s2] + (['.'] + c))));
    ReadTwoDigits(m1, m2, ':', [s1, s2] + (['.'] + c));
    ReadTwoDigits(s1, s2, '.', c);
    ScanOfFieldReads([h], [m1, m2], [s1, s2], c, DigitValue(h), TwoDigitValue(m1, m2), TwoDigitValue(s1, s2), cv);
    PaddedLayout(h, m1, m2, s1, s2, c);
  }

  /** The layout H:MM:SS.C as the fields and separators joined. */
  lemma PaddedLayout(h: char, m1: char, m2: char, s1: char, s2: char, c: string)
    ensures [h, ':', m1, m2, ':', s1, s2, '.'] + c == [h] + ([':'] + ([m1, m2] + ([':'] + ([s1, s2] + (['.'] + c)))))
  {
  }

  /** A final one-digit field reads as its value. */
  lemma OneDigitToEnd(a: char)
    requires IsDigit(a)
    ensures ReadUnsigned([a]) == Some((DigitValue(a), []))
  {
    OneDigitField(a);
    ReadDigitsToEnd([a], DigitValue(a));
  }

  /** A final two-digit field reads as its value. */
  lemma TwoDigitsToEnd(a: char, b: char)
    requires IsDigit(a) && IsDigit(b)
    ensures ReadUnsigned([a, b]) == Some((TwoDigitValue(a, b), []))
  {
    TwoDigitField(a, b);
    ReadDigitsToEnd([a, b], TwoDigitValue(a, b));
  }

  /** H:MM:SS.CC scans to its four fields. */
  lemma ScanTwoDigitCentiseconds(h: char, m1: char, m2: char, s1: char, s2: char, c1: char, c2: char)
    requires IsDigit(h) && IsDigit(m1) && IsDigit(m2) && IsDigit(s1) && IsDigit(s2) && IsDigit(c1) && IsDigit(c2)
    ensures ScanTimestamp([h, ':', m1, m2, ':', s1, s2, '.', c1, c2])
         == Scanned(4, [DigitValue(h), TwoDigitValue(m1, m2), TwoDigitValue(s1, s2), TwoDigitValue(c1, c2)])
  {
    TwoDigitsToEnd(c1, c2);
    ScanPaddedTimestamp(h, m1, m2, s1, s2, [c1, c2], TwoDigitValue(c1, c2));
    assert [h, ':', m1, m2, ':', s1, s2, '.'] + [c1, c2] == [h, ':', m1, m2, ':', s1, s2, '.', c1, c2];
  }

  /** H:MM:SS.C scans to its four fields. */
  lemma ScanOneDigitCentiseconds(h: char, m1: char, m2: char, s1: char, s2: char, c: char)
    requires IsDigit(h) && IsDigit(m1) && IsDigit(m2) && IsDigit(s1) && IsDigit(s2) && IsDigit(c)
    ensures ScanTimestamp([h, ':', m1, m2, ':', s1, s2, '.', c])
         == Scanned(4, [DigitValue(h), TwoDigitValue(m1, m2), TwoDigitValue(s1, s2), DigitValue(c)])
  {
    OneDigitToEnd(c);
    ScanPaddedTimestamp(h, m1, m2, s1, s2, [c], DigitValue(c));
    assert [h, ':', m1, m2, ':', s1, s2, '.'] + [c] == [h, ':', m1, m2, ':', s1, s2, '.', c];
  }

  /** Zero-padded fields scan to their values: "0:00:04.00". */
  lemma ScanFourSeconds()
    ensures ScanTimestamp("0:00:04.00") == Scanned(4, [0, 0, 4, 0])
  {
    ScanTwoDigitCentiseconds('0', '0', '0', '0', '4', '0', '0');
  }

  /** "0:01:45.35": one minute, 45 seconds, 35 centiseconds. */
  lemma ScanMinuteFortyFive()
    ensures ScanTimestamp("0:01:45.35") == Scanned(4, [0, 1, 45, 35])
  {
    ScanTwoDigitCentiseconds('0', '0', '1', '4', '5', '3', '5');
  }

  /** The last field is read as a whole number: ".5" is 5, not 50. */
  lemma ScanSingleDigitFraction()
    ensures ScanTimestamp("0:00:00.5") == Scanned(4, [0, 0, 0, 5])
  {
    ScanOneDigitCentiseconds('0', '0', '0', '0', '0', '5');
  }

  /** Three digit fields joined by ':' and ':', with nothing after them, scan
      to three values: the '.' literal is missing. */
  lemma ScanOfThreeDigitFields(h: string, m: string, s: string)
    requires |h| > 0 && AllDigits(h) && |m| > 0 && AllDigits(m) && |s| > 0 && AllDigits(s)
    ensures ScanTimestamp(h + ([':'] + (m + ([':'] + s))))
         == Scanned(3, [DigitsValue(h), DigitsValue(m), DigitsValue(s)])
  {
    assert s + [] == s;
    var afterH := m + ([':'] + s);
    var t := h + ([':'] + afterH);
    assert SkipSpaces(t) != [] by {
      assert t[0] == h[0];
    }
    ReadUnsignedOfDigits(h, [':'] + afterH);
    ReadUnsignedOfDigits(m, [':'] + s);
    ReadUnsignedOfDigits(s, []);
    LiteralThenUnsignedOf(':', afterH);
    LiteralThenUnsignedOf(':', s);
  }

  /** "1:2:3" stops after three conversions: the '.' literal is missing. */
  lemma ScanMissingCentiseconds()
    ensures ScanTimestamp("1:2:3") == Scanned(3, [1, 2, 3])
  {
    var t := "1:2:3";
    assert t == "1" + ([':'] + ("2" + ([':'] + "3")));
    assert DigitsValue("1") == 1 by { assert "1"[..0] == ""; }
    assert DigitsValue("2") == 2 by { assert "2"[..0] == ""; }
    assert DigitsValue("3") == 3 by { assert "3"[..0] == ""; }
    ScanOfThreeDigitFields("1", "2", "3");
    assert ScanTimestamp(t) == ScanTimestamp("1" + ([':'] + ("2" + ([':'] + "3"))));
  }
}
