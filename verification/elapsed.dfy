/** `RestoreManager.format_elapsed_time`: a number of seconds rendered as
    hours, minutes and seconds, each an integer zero-padded to two places. */
module Elapsed {
  import opened Wrappers
  import opened Text

  /** Python's `f"{n:02d}"`: the decimal form of `n` padded with zeros to
      width two. A negative value keeps its sign, which already makes it two
      characters wide. */
  function Pad2(n: int): (r: string)
    ensures |r| >= 2
    ensures 0 <= n < 100 ==> |r| == 2 && AllDigits(r)
  {
    if n < 0 then "-" + Decimal(-n)
    else if n < 10 then "0" + Decimal(n)
    else Decimal(n)
  }

  /** Reads back one field written by `Pad2`. */
  function ParsePad2(s: string): Option<int> {
    if |s| > 1 && s[0] == '-' && AllDigits(s[1..]) then Some(0 - DecimalValue(s[1..]))
    else if |s| > 0 && AllDigits(s) then Some(DecimalValue(s))
    else None
  }

  lemma Pad2RoundTrip(n: int)
    ensures ParsePad2(Pad2(n)) == Some(n)
  {
    if n < 0 {
      DecimalRoundTrip(-n);
      assert Pad2(n)[1..] == Decimal(-n);
    } else if n < 10 {
      DecimalRoundTrip(n);
      LeadingZero(Decimal(n));
    } else {
      DecimalRoundTrip(n);
    }
  }

  /** The hours, minutes and seconds `format_elapsed_time` prints:
      `seconds // 3600`, `(seconds % 3600) // 60` and `seconds % 60`, each
      truncated to an integer. For every real `seconds` (negative included)
      these are the floored division and remainder of the whole seconds
      `seconds.Floor`, which is what Dafny's `/` and `%` compute for a
      positive divisor. */
  function ElapsedFields(seconds: real): (f: (int, int, int))
    ensures f.0 * 3600 + f.1 * 60 + f.2 == seconds.Floor
    ensures 0 <= f.1 < 60 && 0 <= f.2 < 60
  {
    var n := seconds.Floor;
    (n / 3600, (n % 3600) / 60, n % 60)
  }

  /** `format_elapsed_time(seconds)`: `HH:MM:SS`, the hours field growing
      beyond two digits when needed. */
  function FormatElapsed(seconds: real): (r: string)
    ensures |r| >= 8 && r[|r| - 3] == ':' && r[|r| - 6] == ':'
    ensures AllDigits(r[|r| - 5..|r| - 3]) && AllDigits(r[|r| - 2..])
  {
    Clock(ElapsedFields(seconds))
  }

  /** The three fields joined by colons. */
  function Clock(f: (int, int, int)): string {
    Pad2(f.0) + ":" + Pad2(f.1) + ":" + Pad2(f.2)
  }

  /** Reads an `HH:MM:SS` text back into a number of seconds. */
  function ParseElapsed(text: string): Option<int> {
    if |text| < 8 || text[|text| - 3] != ':' || text[|text| - 6] != ':' then None
    else
      match (ParsePad2(text[..|text| - 6]), ParsePad2(text[|text| - 5..|text| - 3]), ParsePad2(text[|text| - 2..]))
      case (Some(h), Some(m), Some(s)) => Some(h * 3600 + m * 60 + s)
      case _ => None
  }

  /** The printed clock loses nothing but the fraction of a second: reading
      it back gives the whole number of seconds that were formatted. */
  lemma FormatElapsedRoundTrip(seconds: real)
    ensures ParseElapsed(FormatElapsed(seconds)) == Some(seconds.Floor)
  {
    var f := ElapsedFields(seconds);
    ClockRoundTrip(f);
    assert FormatElapsed(seconds) == Clock(f);
    assert f.0 * 3600 + f.1 * 60 + f.2 == seconds.Floor;
  }

  /** A clock with minutes and seconds below 60 reads back as its total
      number of seconds. */
  lemma ClockRoundTrip(f: (int, int, int))
    requires 0 <= f.1 < 60 && 0 <= f.2 < 60
    ensures ParseElapsed(Clock(f)) == Some(f.0 * 3600 + f.1 * 60 + f.2)
  {
    Pad2RoundTrip(f.0);
    Pad2RoundTrip(f.1);
    Pad2RoundTrip(f.2);
    ParseClock(Pad2(f.0), Pad2(f.1), Pad2(f.2), f.0, f.1, f.2);
  }

  /** `ParseElapsed` reads `h:m:s` field by field when the last two fields
      are two characters wide. */
  lemma ParseClock(hs: string, ms: string, ss: string, h: int, m: int, s: int)
    requires |hs| >= 2 && |ms| == 2 && |ss| == 2
    requires ParsePad2(hs) == Some(h) && ParsePad2(ms) == Some(m) && ParsePad2(ss) == Some(s)
    ensures ParseElapsed(hs + ":" + ms + ":" + ss) == Some(h * 3600 + m * 60 + s)
  {
    var text := hs + ":" + ms + ":" + ss;
    assert |text| == |hs| + 6 && text[|text| - 3] == ':' && text[|text| - 6] == ':';
    assert text[..|text| - 6] == hs;
    assert text[|text| - 5..|text| - 3] == ms;
    assert text[|text| - 2..] == ss;
  }

  /** The example of a run of 1 hour, 2 minutes and 5.7 seconds. */
  lemma FormatElapsedExample()
    ensures FormatElapsed(3725.7) == "01:02:05"
  {
    assert 3725.7.Floor == 3725;
  }
}
