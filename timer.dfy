/**
  The countdown timer widget (`Timer` in timer.py) reduced to its integer state,
  the text it shows and the parsing of a new time typed by the user. The Tk
  scheduler that calls `countdown` once a second is replaced by an explicit
  `Countdown` call: one call is one tick.
*/
module Timers {
  import opened Wrappers

  /** The text shown once the countdown has run out. */
  const FinishedText: string := "Ferdig!"

  // ---------------------------------------------------------------------------
  // Decimal numerals
  // ---------------------------------------------------------------------------

  predicate IsDigit(c: char)
  {
    '0' <= c <= '9'
  }

  predicate AllDigits(s: string)
  {
    forall i :: 0 <= i < |s| ==> IsDigit(s[i])
  }

  /** A string that Python's int() turns into a number, restricted to ASCII digits. */
  predicate IsNumeral(s: string)
  {
    |s| >= 1 && AllDigits(s)
  }

  function DigitChar(d: nat): (c: char)
    requires d < 10
    ensures IsDigit(c) && c != ':'
  {
    ('0' as int + d) as char
  }

  function DigitValue(c: char): (d: nat)
    requires IsDigit(c)
    ensures d < 10 && DigitChar(d) == c
  {
    c as int - '0' as int
  }

  /** The value of a string of digits, most significant first; the empty string is 0. */
  function ValueOf(s: string): nat
    requires AllDigits(s)
  {
    if s == [] then 0 else 10 * ValueOf(s[..|s| - 1]) + DigitValue(s[|s| - 1])
  }

  /** The numeral of n without leading zeros, as Python's str(n). */
  function Decimal(n: nat): (s: string)
    ensures IsNumeral(s) && ':' !in s
    ensures n >= 10 ==> |s| >= 2
    ensures n >= 1 ==> s[0] != '0'
    decreases n
  {
    if n < 10 then [DigitChar(n)] else Decimal(n / 10) + [DigitChar(n % 10)]
  }

  lemma {:induction false} DecimalValue(n: nat)
    ensures ValueOf(Decimal(n)) == n
    decreases n
  {
    var s := Decimal(n);
    if n >= 10 {
      DecimalValue(n / 10);
      assert s[..|s| - 1] == Decimal(n / 10);
    }
  }

  lemma {:induction false} LeadingZero(s: string)
    requires AllDigits(s)
    ensures AllDigits("0" + s) && ValueOf("0" + s) == ValueOf(s)
    decreases |s|
  {
    var z := "0" + s;
    if s != [] {
      LeadingZero(s[..|s| - 1]);
      assert z[..|z| - 1] == "0" + s[..|s| - 1];
    } else {
      assert z[..|z| - 1] == [];
    }
  }

  // ---------------------------------------------------------------------------
  // The mm:ss display (timer.py:57-58)
  // ---------------------------------------------------------------------------

  /**
    Python's f"{n:02d}": a non-negative number zero-padded to two digits; a
    negative one keeps its sign and is already two characters wide.
  */
  function Pad2(n: int): (s: string)
    ensures |s| >= 2 && ':' !in s
    ensures 0 <= n < 100 ==> |s| == 2
    ensures n >= 0 ==> IsNumeral(s) && ValueOf(s) == n
    ensures n >= 10 ==> s[0] != '0'
    ensures n < 0 ==> s[0] == '-' && IsNumeral(s[1..]) && ValueOf(s[1..]) == -n
    ensures n < 0 ==> s[1] != '0'
  {
    DecimalValue(if n < 0 then -n else n);
    if n < 0 then "-" + Decimal(-n)
    else if n < 10 then LeadingZero(Decimal(n)); "0" + Decimal(n)
    else Decimal(n)
  }

  /**
    The label text for t seconds: minutes and seconds from divmod(t, 60), each
    written with Pad2, joined by ':'. Python's divmod rounds toward minus
    infinity; for the divisor 60 that is exactly Dafny's / and %.
  */
  function Format(t: int): (s: string)
    ensures |s| >= 5
    ensures 0 <= t < 6000 ==> |s| == 5 && s[2] == ':'
    ensures t >= 0 ==> Count(s, ':') == 1
  {
    var mm, ss := Pad2(t / 60), Pad2(t % 60);
    JoinFields(mm, ss);
    mm + ":" + ss
  }

  /**
    Reading Format(t) back for t >= 0: the last three characters are ':' and
    the two-digit seconds t % 60, and what comes before the ':' is the numeral
    of the minutes t / 60, with no leading '0' once there are ten or more.
  */
  lemma FormatFields(t: int)
    requires t >= 0
    ensures var s := Format(t); var i := |s| - 3;
      s[i] == ':' && IsNumeral(s[..i]) && ValueOf(s[..i]) == t / 60 &&
      IsNumeral(s[i + 1..]) && ValueOf(s[i + 1..]) == t % 60
    ensures t >= 600 ==> Format(t)[0] != '0'
  {
    var mm, ss := Pad2(t / 60), Pad2(t % 60);
    JoinFields(mm, ss);
    assert Format(t) == mm + ":" + ss && |ss| == 2;
  }

  /**
    For t < 0 the minutes t / 60 are negative and shown with a '-' in front of
    their absolute value, without leading zeros; the seconds t % 60 are still
    between 0 and 59.
  */
  lemma FormatNegative(t: int)
    requires t < 0
    ensures var s := Format(t); var i := |s| - 3;
      s[0] == '-' && s[i] == ':' && IsNumeral(s[1..i]) && ValueOf(s[1..i]) == -(t / 60) &&
      IsNumeral(s[i + 1..]) && ValueOf(s[i + 1..]) == t % 60
    ensures Format(t)[1] != '0'
  {
    var mm, ss := Pad2(t / 60), Pad2(t % 60);
    JoinFields(mm, ss);
    assert Format(t) == mm + ":" + ss && |ss| == 2;
  }

  /** Two fields without ':' joined by one ':' can be read back by position. */
  lemma JoinFields(mm: string, ss: string)
    requires |mm| >= 1 && ':' !in mm && ':' !in ss
    ensures var r := mm + ":" + ss;
      Count(r, ':') == 1 && r[|mm|] == ':' && r[..|mm|] == mm && r[|mm| + 1..] == ss && r[1..|mm|] == mm[1..]
  {
    CountAppend(mm + ":", ss, ':');
    CountAppend(mm, ":", ':');
    assert Count(":", ':') == 1;
    NoSepCount(mm, ':');
    NoSepCount(ss, ':');
  }

  // ---------------------------------------------------------------------------
  // Splitting on a separator, as Python's str.split(sep)
  // ---------------------------------------------------------------------------

  function Count(s: string, c: char): nat
  {
    if s == [] then 0 else (if s[0] == c then 1 else 0) + Count(s[1..], c)
  }

  lemma {:induction false} CountAppend(a: string, b: string, c: char)
    ensures Count(a + b, c) == Count(a, c) + Count(b, c)
    decreases |a|
  {
    if a == [] {
      assert a + b == b;
    } else {
      CountAppend(a[1..], b, c);
      assert (a + b)[0] == a[0];
      assert (a + b)[1..] == a[1..] + b;
    }
  }

  lemma {:induction false} NoSepCount(s: string, c: char)
    ensures c !in s <==> Count(s, c) == 0
    decreases |s|
  {
    if s != [] {
      NoSepCount(s[1..], c);
      assert s == [s[0]] + s[1..];
    }
  }

  /** The pieces joined back with the separator between consecutive pieces. */
  function Join(parts: seq<string>, sep: char): string
    requires |parts| >= 1
  {
    if |parts| == 1 then parts[0] else parts[0] + [sep] + Join(parts[1..], sep)
  }

  /**
    The pieces of s between occurrences of sep: one more piece than there are
    separators, none containing the separator, and joining them gives s back.
  */
  function Split(s: string, sep: char): (parts: seq<string>)
    ensures |parts| == Count(s, sep) + 1
    ensures forall i :: 0 <= i < |parts| ==> sep !in parts[i]
    ensures Join(parts, sep) == s
    decreases |s|
  {
    if s == [] then [""]
    else
      var rest := Split(s[1..], sep);
      if s[0] == sep then
        assert Join([""] + rest, sep) == [sep] + Join(rest, sep);
        assert s == [sep] + s[1..];
        [""] + rest
      else
        var parts := [[s[0]] + rest[0]] + rest[1..];
        assert parts[1..] == rest[1..];
        assert s == [s[0]] + s[1..];
        parts
  }

  /** A string without the separator is one piece. */
  lemma {:induction false} SplitNoSeparator(s: string, sep: char)
    requires sep !in s
    ensures Split(s, sep) == [s]
    decreases |s|
  {
    if s != [] {
      SplitNoSeparator(s[1..], sep);
      assert s == [s[0]] + s[1..];
    }
  }

  /** Splitting "a:b" where neither piece holds a ':' gives the two pieces. */
  lemma {:induction false} SplitPair(a: string, b: string)
    requires ':' !in a && ':' !in b
    ensures Split(a + ":" + b, ':') == [a, b]
    decreases |a|
  {
    var s := a + ":" + b;
    if a == [] {
      assert s == ":" + b && s[1..] == b;
      SplitNoSeparator(b, ':');
    } else {
      SplitPair(a[1..], b);
      assert s[0] == a[0] && s[1..] == a[1..] + ":" + b;
      assert [a[0]] + a[1..] == a;
    }
  }

  // ---------------------------------------------------------------------------
  // Parsing a typed time (timer.py:112-128)
  // ---------------------------------------------------------------------------

  /**
    The padding of the "change time" input, three checks on the length done one
    after the other, each on the result of the previous one:
    2 characters get "00:" in front; 3 characters keep the first and the third
    with ':' between them; 4 characters get a leading '0' when ':' is second, and
    otherwise a ':' after the first two characters. Other lengths are kept.
    (The source's first guard compares the first character with the number zero,
    which always holds; on an empty string that indexing fails, hence the
    requirement.)
  */
  function Normalize(s: string): (r: string)
    requires |s| >= 1
    ensures |s| == 2 ==> r == "00:" + s
    ensures |s| == 3 ==> r == [s[0], ':', s[2]]
    ensures |s| == 4 && s[1] == ':' ==> r == "0" + s
    ensures |s| == 4 && s[1] != ':' ==> r == s[..2] + ":" + s[2..]
    ensures |s| !in {2, 3, 4} ==> r == s
  {
    var s1 := if |s| == 2 then "00:" + s else s;
    var s2 := if |s1| == 3 then s1[..1] + ":" + s1[2..] else s1;
    if |s2| == 4 then
      (if s2[1] == ':' then "0" + s2 else s2[..2] + ":" + s2[2..])
    else
      s2
  }

  /** Normalizing an already normalized string changes nothing. */
  lemma NormalizeIdempotent(s: string)
    requires |s| >= 1
    ensures Normalize(Normalize(s)) == Normalize(s)
  {
  }

  /**
    The seconds read from a normalized string: it is split on ':', each piece is
    converted to an integer, and the result is 60 * minutes + seconds. There is a
    number only when s splits into exactly two numerals.
  */
  function ParseTime(s: string): (t: Option<int>)
    ensures t.Some? ==> t.value >= 0 && Count(s, ':') == 1
    ensures Count(s, ':') != 1 ==> t == None
  {
    var parts := Split(s, ':');
    if |parts| == 2 && IsNumeral(parts[0]) && IsNumeral(parts[1]) then
      Some(60 * ValueOf(parts[0]) + ValueOf(parts[1]))
    else
      None
  }

  /** "m:s" with two numerals m and s is accepted as 60 * m + s seconds. */
  lemma ParseTimeAccepts(s: string, i: nat)
    requires i < |s| && s[i] == ':' && IsNumeral(s[..i]) && IsNumeral(s[i + 1..])
    ensures ParseTime(s) == Some(60 * ValueOf(s[..i]) + ValueOf(s[i + 1..]))
  {
    assert s == s[..i] + ":" + s[i + 1..];
    SplitPair(s[..i], s[i + 1..]);
  }

  /** Nothing else is accepted: an accepted string is a numeral, ':', a numeral. */
  lemma ParseTimeOnlyAccepts(s: string) returns (i: nat)
    requires ParseTime(s).Some?
    ensures i < |s| && s[i] == ':' && IsNumeral(s[..i]) && IsNumeral(s[i + 1..])
  {
    var parts := Split(s, ':');
    i := |parts[0]|;
    assert Join(parts[1..], ':') == parts[1];
    assert s == parts[0] + [':'] + parts[1];
    assert s[..i] == parts[0] && s[i + 1..] == parts[1];
  }

  /** Whatever the label shows for t >= 0 seconds is read back by "change time" as t. */
  lemma FormatRoundTrip(t: int)
    requires t >= 0
    ensures ParseTime(Normalize(Format(t))) == Some(t)
  {
    FormatNormalized(t);
    FormatParses(t);
  }

  /** The label text is already in the normalized form. */
  lemma FormatNormalized(t: int)
    ensures Normalize(Format(t)) == Format(t)
  {
  }

  lemma FormatParses(t: int)
    requires t >= 0
    ensures ParseTime(Format(t)) == Some(t)
  {
    var mm, ss := Pad2(t / 60), Pad2(t % 60);
    SplitPair(mm, ss);
  }

  /** A single digit is a numeral worth that digit. */
  lemma OneDigit(c: char)
    requires IsDigit(c)
    ensures IsNumeral([c]) && ValueOf([c]) == DigitValue(c)
  {
    assert [c][..0] == [];
  }

  /** A 3-character input abc is read as a:c; the middle character is dropped. */
  lemma ThreeCharacterInput(s: string)
    requires |s| == 3 && IsDigit(s[0]) && IsDigit(s[2])
    ensures ParseTime(Normalize(s)) == Some(60 * DigitValue(s[0]) + DigitValue(s[2]))
  {
    assert Normalize(s) == [s[0]] + ":" + [s[2]];
    OneDigit(s[0]);
    OneDigit(s[2]);
    SplitPair([s[0]], [s[2]]);
  }

  /** Two digits are read as seconds only. */
  lemma TwoDigitInput(s: string)
    requires |s| == 2 && IsNumeral(s)
    ensures ParseTime(Normalize(s)) == Some(ValueOf(s))
  {
    PaddedSeconds(s);
    assert "00"[..1] == "0" && "0"[..0] == [];
    assert ValueOf("00") == 0;
    SplitPair("00", s);
  }

  lemma PaddedSeconds(s: string)
    requires |s| == 2
    ensures Normalize(s) == "00" + ":" + s
  {
  }

  /** Four digits mmss are read as mm minutes and ss seconds. */
  lemma FourDigitInput(s: string)
    requires |s| == 4 && IsNumeral(s)
    ensures ParseTime(Normalize(s)) == Some(60 * ValueOf(s[..2]) + ValueOf(s[2..]))
  {
    SplitPair(s[..2], s[2..]);
  }

  /** "m:ss" is read as m minutes and ss seconds, through the padded "0m:ss". */
  lemma ShortMinutesInput(s: string)
    requires |s| == 4 && s[1] == ':' && IsDigit(s[0]) && IsNumeral(s[2..])
    ensures ParseTime(Normalize(s)) == Some(60 * DigitValue(s[0]) + ValueOf(s[2..]))
  {
    var m := "0" + [s[0]];
    LeadingZero([s[0]]);
    assert [s[0]][..0] == [];
    SplitPair(m, s[2..]);
    assert "0" + s == m + ":" + s[2..];
  }

  /** "mm:s" becomes "mm::s", which has two separators and is always refused. */
  lemma ColonThirdRejected(s: string)
    requires |s| == 4 && s[1] != ':' && s[2] == ':'
    ensures ParseTime(Normalize(s)) == None
  {
    var r := Normalize(s);
    assert r == (s[..2] + "::") + s[3..];
    CountAppend(s[..2] + "::", s[3..], ':');
    CountAppend(s[..2], "::", ':');
    assert Count("::", ':') == 2;
  }

  // ---------------------------------------------------------------------------
  // The tick (timer.py:77-79)
  // ---------------------------------------------------------------------------

  /** The counter after one tick: down by one while running and not yet below zero. */
  function Tick(t: int, paused: bool): (t': int)
    ensures t >= 0 && !paused ==> t' == t - 1
    ensures t < 0 || paused ==> t' == t
    ensures t >= -1 ==> t' >= -1
  {
    if t >= 0 && !paused then t - 1 else t
  }

  /** The counter after k unpaused ticks. */
  function Run(t: int, k: nat): int
  {
    if k == 0 then t else Run(Tick(t, false), k - 1)
  }

  /** From t >= -1, k ticks leave max(t - k, -1): it counts down and stops at -1. */
  lemma {:induction false} RunDown(t: int, k: nat)
    requires t >= -1
    ensures Run(t, k) == if t - k >= -1 then t - k else -1
    decreases k
  {
    if k > 0 {
      RunDown(Tick(t, false), k - 1);
    }
  }

  // ---------------------------------------------------------------------------
  // The widget state (timer.py:3-133)
  // ---------------------------------------------------------------------------

  class Timer {
    var initialTime: int
    var currentTime: int
    var paused: bool
    /** The text in the middle of the progress ring. */
    var shown: string

    constructor (initial: int)
      ensures initialTime == initial && currentTime == initial && !paused
      ensures shown == Format(initial)
    {
      initialTime := initial;
      currentTime := initial;
      paused := false;
      shown := Format(initial);
    }

    /**
      One tick: while running and at or above zero, show the time and then count
      down; once below zero, show the finished text.
    */
    method Countdown()
      modifies this
      ensures initialTime == old(initialTime) && paused == old(paused)
      ensures currentTime == Tick(old(currentTime), old(paused))
      ensures old(currentTime) >= -1 ==> currentTime >= -1
      ensures shown == if currentTime < 0 then FinishedText
                       else if old(currentTime) >= 0 && !old(paused) then Format(old(currentTime))
                       else old(shown)
    {
      if currentTime >= 0 && !paused {
        shown := Format(currentTime);
        currentTime := currentTime - 1;
      }
      if currentTime < 0 {
        shown := FinishedText;
      }
    }

    /** Pausing freezes the counter; resuming clears the flag and runs one tick. */
    method TogglePause()
      modifies this
      ensures paused == !old(paused) && initialTime == old(initialTime)
      ensures !old(paused) ==> currentTime == old(currentTime) && shown == old(shown)
      ensures old(paused) ==> currentTime == Tick(old(currentTime), false)
      ensures old(paused) ==> shown == if currentTime < 0 then FinishedText
                                       else if old(currentTime) >= 0 then Format(old(currentTime))
                                       else old(shown)
    {
      if !paused {
        paused := true;
      } else {
        paused := false;
        Countdown();
      }
    }

    /** Back to the starting time, running, with the starting time shown. */
    method ResetTimer()
      modifies this
      ensures initialTime == old(initialTime)
      ensures currentTime == initialTime && !paused
      ensures shown == Format(initialTime)
    {
      currentTime := initialTime;
      paused := false;
      shown := Format(currentTime);
    }

    /**
      The "change time" dialog's effect for one typed string: normalize, parse,
      and when that succeeds make the result both the current and the starting
      time. A string that does not parse changes nothing (the dialog then asks
      again).
    */
    method ChangeTime(input: string) returns (accepted: bool)
      requires |input| >= 1
      modifies this
      ensures accepted == ParseTime(Normalize(input)).Some?
      ensures accepted ==> currentTime == ParseTime(Normalize(input)).value &&
                           initialTime == currentTime && shown == Format(currentTime)
      ensures !accepted ==> currentTime == old(currentTime) && initialTime == old(initialTime) && shown == old(shown)
      ensures paused == old(paused)
    {
      var newTime := Normalize(input);
      var parsed := ParseTime(newTime);
      accepted := parsed.Some?;
      if accepted {
        currentTime := parsed.value;
        initialTime := currentTime;
        shown := Format(currentTime);
      }
    }
  }
}
