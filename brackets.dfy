/**
  The single-elimination bracket engine (`TournamentModel` in brackets.py) and the
  name-to-team lookup that the control window does before recording a winner.

  The bracket is a table of rounds: round 0 is the first round played and the last
  round holds the single final match. A match is a value; the model object keeps the
  table in a field that each operation reassigns.
*/
module Brackets {
  import opened Wrappers

  /** A team record: a name and an optional logo reference that is never interpreted. */
  datatype Team = Team(name: string, logo: Option<string>)

  /** A bracket match; `None` stands for a slot, winner or start time not yet set. */
  datatype Match = Match(team1: Option<Team>, team2: Option<Team>, winner: Option<Team>, startTime: Option<string>)

  /** The padding record that fills the slots beyond the number of teams. */
  const ByeName: string := "BYE"
  const Bye: Team := Team(ByeName, None)

  /** A match of a later round, before any winner has reached it. */
  const EmptyMatch: Match := Match(None, None, None, None)

  // ---------------------------------------------------------------------------
  // Powers of two, on integers
  // ---------------------------------------------------------------------------

  function Pow2(k: nat): (p: nat)
    ensures p >= 1
  {
    if k == 0 then 1 else 2 * Pow2(k - 1)
  }

  /** The exponent of the smallest power of two that is at least n: ceil(log2 n). */
  function CeilLog2(n: nat): (k: nat)
    requires n >= 1
    ensures n <= Pow2(k)
    ensures k == 0 || Pow2(k - 1) < n
    decreases n
  {
    if n == 1 then 0 else 1 + CeilLog2((n + 1) / 2)
  }

  lemma {:induction false} Pow2Add(a: nat, b: nat)
    ensures Pow2(a + b) == Pow2(a) * Pow2(b)
  {
    if a > 0 {
      Pow2Add(a - 1, b);
      calc {
        Pow2(a + b);
        2 * Pow2(a - 1 + b);
        2 * (Pow2(a - 1) * Pow2(b));
        (2 * Pow2(a - 1)) * Pow2(b);
      }
    }
  }

  /** Multiplying by a non-negative d keeps a gap of at least d between a < b. */
  lemma {:induction false} MulGap(a: int, b: int, d: int)
    requires d >= 0
    ensures a < b ==> a * d + d <= b * d
    decreases if a < b then b - a else 0
  {
    if a < b - 1 {
      MulGap(a, b - 1, d);
      assert (b - 1) * d + d == b * d;
    } else if a == b - 1 {
      assert a * d + d == b * d;
    }
  }

  lemma {:induction false} ExactDivision(q: nat, d: nat)
    requires d >= 1
    ensures (q * d) / d == q
  {
    var t, r := (q * d) / d, (q * d) % d;
    assert q * d == t * d + r && 0 <= r < d;
    // t < q would leave a remainder of at least d, and q < t a negative one
    MulGap(t, q, d);
    MulGap(q, t, d);
  }

  lemma Pow2Div(k: nat, j: nat)
    requires j <= k
    ensures Pow2(k) / Pow2(j) == Pow2(k - j)
  {
    Pow2Add(k - j, j);
    ExactDivision(Pow2(k - j), Pow2(j));
  }

  // ---------------------------------------------------------------------------
  // The shape of a bracket
  // ---------------------------------------------------------------------------

  /** Each round has half the matches of its predecessor and the last round is one match. */
  predicate WellShaped(rs: seq<seq<Match>>)
  {
    (forall j :: 0 < j < |rs| ==> |rs[j - 1]| == 2 * |rs[j]|) &&
    (|rs| > 0 ==> |rs[|rs| - 1]| == 1)
  }

  /** In a well-shaped table of R rounds, round j has 2^(R-1-j) matches. */
  lemma {:induction false} RoundSizes(rs: seq<seq<Match>>, j: nat)
    requires WellShaped(rs) && j < |rs|
    ensures |rs[j]| == Pow2(|rs| - 1 - j)
    decreases |rs| - j
  {
    if j < |rs| - 1 {
      RoundSizes(rs, j + 1);
    }
  }

  // ---------------------------------------------------------------------------
  // Building the bracket (brackets.py:13-44)
  // ---------------------------------------------------------------------------

  /** The team records made from the shuffled names, logo not yet set. */
  function TeamsOf(names: seq<string>): (ts: seq<Team>)
    ensures |ts| == |names|
    ensures forall i :: 0 <= i < |names| ==> ts[i] == Team(names[i], None)
  {
    seq(|names|, i requires 0 <= i < |names| => Team(names[i], None))
  }

  function NamesOf(ts: seq<Team>): (ns: seq<string>)
    ensures |ns| == |ts|
    ensures forall i :: 0 <= i < |ts| ==> ns[i] == ts[i].name
  {
    seq(|ts|, i requires 0 <= i < |ts| => ts[i].name)
  }

  /** The slot list of round 0: the teams, then BYE records up to `power` slots. */
  function Padded(ts: seq<Team>, power: nat): (slots: seq<Team>)
    requires |ts| <= power
    ensures |slots| == power && slots[..|ts|] == ts
    ensures forall i :: |ts| <= i < power ==> slots[i] == Bye
  {
    ts + seq(power - |ts|, _ => Bye)
  }

  /** Consecutive slots paired into matches: match i plays slot 2i against slot 2i+1. */
  function FirstRound(slots: seq<Team>): (ms: seq<Match>)
    requires |slots| % 2 == 0
    ensures |ms| == |slots| / 2
    ensures forall i :: 0 <= i < |ms| ==> ms[i].winner == None && ms[i].startTime == None
  {
    seq(|slots| / 2, i requires 0 <= i < |slots| / 2 =>
      Match(Some(slots[2 * i]), Some(slots[2 * i + 1]), None, None))
  }

  function EmptyRound(count: nat): (ms: seq<Match>)
    ensures |ms| == count && forall i :: 0 <= i < count ==> ms[i] == EmptyMatch
  {
    seq(count, _ => EmptyMatch)
  }

  /** The number of slots of round 0 for n teams. */
  function Power(n: nat): nat
    requires n >= 1
  {
    Pow2(CeilLog2(n))
  }

  /**
    A table of k rounds over 2^k slots: round 0 pairs the slots, then for
    r = 2 .. k a round of 2^(k-r) = 2^k / 2^r empty matches.
  */
  function Layout(slots: seq<Team>, k: nat): (b: seq<seq<Match>>)
    requires k >= 1 && |slots| == Pow2(k)
    ensures |b| == k
  {
    assert |slots| == 2 * Pow2(k - 1);
    [FirstRound(slots)] + seq(k - 1, j requires 0 <= j < k - 1 => EmptyRound(Pow2(k - (j + 2))))
  }

  lemma LayoutLater(slots: seq<Team>, k: nat, j: nat)
    requires k >= 1 && |slots| == Pow2(k) && 1 <= j < k
    ensures Layout(slots, k)[j] == EmptyRound(Pow2(k - 1 - j))
  {
    var i := j - 1;
    assert Layout(slots, k)[j] == EmptyRound(Pow2(k - (i + 2)));
  }

  /** The table `build_bracket` stores for the shuffled names. */
  function InitialBracket(shuffled: seq<string>): (b: seq<seq<Match>>)
    requires |shuffled| >= 2
    ensures |b| == CeilLog2(|shuffled|) >= 1
  {
    var k := CeilLog2(|shuffled|);
    assert k >= 1;
    Layout(Padded(TeamsOf(shuffled), Pow2(k)), k)
  }

  /** Round 0 of the initial table pairs the padded slots. */
  lemma InitialBracketFirst(shuffled: seq<string>)
    requires |shuffled| >= 2
    ensures var power := Power(|shuffled|);
            power % 2 == 0 &&
            InitialBracket(shuffled)[0] == FirstRound(Padded(TeamsOf(shuffled), power))
  {
    var k := CeilLog2(|shuffled|);
    var slots := Padded(TeamsOf(shuffled), Pow2(k));
    assert Pow2(k) == 2 * Pow2(k - 1);
    assert InitialBracket(shuffled) == Layout(slots, k);
    assert Layout(slots, k)[0] == FirstRound(slots);
  }

  /** Round j >= 1 of the initial table consists of 2^(k-1-j) = power / 2^(j+1) empty matches. */
  lemma LaterRound(shuffled: seq<string>, j: nat)
    requires |shuffled| >= 2 && 1 <= j < CeilLog2(|shuffled|)
    ensures InitialBracket(shuffled)[j] == EmptyRound(Pow2(CeilLog2(|shuffled|) - 1 - j))
    ensures InitialBracket(shuffled)[j] == EmptyRound(Power(|shuffled|) / Pow2(j + 1))
  {
    var k := CeilLog2(|shuffled|);
    LayoutLater(Padded(TeamsOf(shuffled), Pow2(k)), k, j);
    Pow2Div(k, j + 1);
  }

  /**
    Right after building, no match has a winner or a start time, and no match of
    round 1 or later has a team.
  */
  lemma FreshBracket(shuffled: seq<string>)
    requires |shuffled| >= 2
    ensures var b := InitialBracket(shuffled);
            (forall j, i :: 0 <= j < |b| && 0 <= i < |b[j]| ==> b[j][i].winner == None && b[j][i].startTime == None) &&
            (forall j, i :: 1 <= j < |b| && 0 <= i < |b[j]| ==> b[j][i].team1 == None && b[j][i].team2 == None)
  {
    var b := InitialBracket(shuffled);
    InitialBracketFirst(shuffled);
    forall j | 1 <= j < |b|
      ensures forall i :: 0 <= i < |b[j]| ==> b[j][i] == EmptyMatch
    {
      LaterRound(shuffled, j);
    }
  }

  /**
    For n >= 2 names there are log2(power) rounds, round j has power / 2^(j+1)
    matches (round 0 has power / 2), each round halves its predecessor and the
    final has one match.
  */
  lemma BracketShape(shuffled: seq<string>)
    requires |shuffled| >= 2
    ensures var b := InitialBracket(shuffled);
            var k := CeilLog2(|shuffled|);
            k >= 1 && |b| == k &&
            (forall j :: 0 <= j < k ==> |b[j]| == Power(|shuffled|) / Pow2(j + 1)) &&
            (forall j :: 0 <= j < k ==> |b[j]| == Pow2(k - 1 - j)) &&
            |b[0]| == Power(|shuffled|) / 2 && |b[k - 1]| == 1 &&
            WellShaped(b)
  {
    var b := InitialBracket(shuffled);
    var k := CeilLog2(|shuffled|);
    var power := Pow2(k);
    forall j | 0 <= j < k
      ensures |b[j]| == power / Pow2(j + 1) && |b[j]| == Pow2(k - 1 - j)
    {
      Pow2Div(k, j + 1);
      if j == 0 {
        InitialBracketFirst(shuffled);
        assert power == 2 * Pow2(k - 1);
      } else {
        LaterRound(shuffled, j);
      }
    }
    forall j | 0 < j < k
      ensures |b[j - 1]| == 2 * |b[j]|
    {
      assert Pow2(k - 1 - (j - 1)) == 2 * Pow2(k - 1 - j);
    }
  }

  /** The matches' slots flattened in order: team1 then team2 of each match. */
  function SlotList(ms: seq<Match>): (ss: seq<Option<Team>>)
    ensures |ss| == 2 * |ms|
  {
    if ms == [] then [] else [ms[0].team1, ms[0].team2] + SlotList(ms[1..])
  }

  function Somes(ts: seq<Team>): (os: seq<Option<Team>>)
    ensures |os| == |ts|
    ensures forall i :: 0 <= i < |ts| ==> os[i] == Some(ts[i])
  {
    seq(|ts|, i requires 0 <= i < |ts| => Some(ts[i]))
  }

  lemma {:induction false} FirstRoundSlots(slots: seq<Team>)
    requires |slots| % 2 == 0
    ensures SlotList(FirstRound(slots)) == Somes(slots)
    decreases |slots|
  {
    if slots != [] {
      FirstRoundSlots(slots[2..]);
      assert FirstRound(slots)[1..] == FirstRound(slots[2..]);
      assert Somes(slots) == [Some(slots[0]), Some(slots[1])] + Somes(slots[2..]);
    }
  }

  /**
    Round 0 read slot by slot is the shuffled names in order, then power - n BYE
    records; match i pairs slot 2i with slot 2i+1.
  */
  lemma Round0Layout(shuffled: seq<string>)
    requires |shuffled| >= 2
    ensures var b := InitialBracket(shuffled);
            var n := |shuffled|;
            var power := Power(n);
            var slots := SlotList(b[0]);
            |slots| == power &&
            (forall i :: 0 <= i < n ==> slots[i] == Some(Team(shuffled[i], None))) &&
            (forall i :: n <= i < power ==> slots[i] == Some(Bye)) &&
            (forall i :: 0 <= i < |b[0]| ==> b[0][i].team1 == slots[2 * i] && b[0][i].team2 == slots[2 * i + 1])
  {
    var n := |shuffled|;
    var padded := Padded(TeamsOf(shuffled), Power(n));
    InitialBracketFirst(shuffled);
    FirstRoundSlots(padded);
  }

  /** The names of the real (non-BYE) teams standing in the slots, in slot order. */
  function Entrant(o: Option<Team>): seq<string>
  {
    if o.Some? && o.value.name != ByeName then [o.value.name] else []
  }

  function Entrants(ss: seq<Option<Team>>): seq<string>
  {
    if ss == [] then [] else Entrant(ss[0]) + Entrants(ss[1..])
  }

  lemma {:induction false} EntrantsAppend(a: seq<Option<Team>>, b: seq<Option<Team>>)
    ensures Entrants(a + b) == Entrants(a) + Entrants(b)
    decreases |a|
  {
    if a != [] {
      EntrantsAppend(a[1..], b);
      assert (a + b)[0] == a[0];
      assert (a + b)[1..] == a[1..] + b;
      calc {
        Entrants(a + b);
        Entrant(a[0]) + Entrants(a[1..] + b);
        Entrant(a[0]) + (Entrants(a[1..]) + Entrants(b));
        (Entrant(a[0]) + Entrants(a[1..])) + Entrants(b);
      }
    } else {
      assert a + b == b;
    }
  }

  lemma {:induction false} EntrantsOfNames(s: seq<string>)
    requires ByeName !in s
    ensures Entrants(Somes(TeamsOf(s))) == s
    decreases |s|
  {
    if s != [] {
      EntrantsOfNames(s[1..]);
      assert Somes(TeamsOf(s))[1..] == Somes(TeamsOf(s[1..]));
    }
  }

  lemma {:induction false} EntrantsOfByes(ss: seq<Option<Team>>)
    requires forall i :: 0 <= i < |ss| ==> ss[i] == Some(Bye)
    ensures Entrants(ss) == []
    decreases |ss|
  {
    if ss != [] {
      EntrantsOfByes(ss[1..]);
    }
  }

  /**
    When no input name is "BYE", the real teams of round 0 are exactly the shuffled
    names in order, so they are a permutation of the input names.
  */
  lemma Round0Entrants(names: seq<string>, shuffled: seq<string>)
    requires multiset(shuffled) == multiset(names)
    requires |shuffled| >= 2
    requires ByeName !in names
    ensures var b := InitialBracket(shuffled);
            Entrants(SlotList(b[0])) == shuffled &&
            multiset(Entrants(SlotList(b[0]))) == multiset(names)
  {
    assert ByeName !in multiset(shuffled);
    var n := |shuffled|;
    var power := Power(n);
    var padded := Padded(TeamsOf(shuffled), power);
    InitialBracketFirst(shuffled);
    FirstRoundSlots(padded);
    var slots := Somes(padded);
    assert slots == Somes(TeamsOf(shuffled)) + slots[n..];
    EntrantsAppend(Somes(TeamsOf(shuffled)), slots[n..]);
    EntrantsOfNames(shuffled);
    EntrantsOfByes(slots[n..]);
  }

  // ---------------------------------------------------------------------------
  // Recording a winner (brackets.py:47-55)
  // ---------------------------------------------------------------------------

  /** The parent match after a winner arrives: the first free slot, team1 before team2. */
  function Fill(p: Match, w: Team): (q: Match)
    ensures q.winner == p.winner && q.startTime == p.startTime
    ensures p.team1 == None ==> q.team1 == Some(w) && q.team2 == p.team2
    ensures p.team1 != None && p.team2 == None ==> q.team1 == p.team1 && q.team2 == Some(w)
    ensures p.team1 != None && p.team2 != None ==> q == p
  {
    if p.team1 == None then p.(team1 := Some(w))
    else if p.team2 == None then p.(team2 := Some(w))
    else p
  }

  /** The table after `set_winner(r, m, w)`. */
  function Advance(rs: seq<seq<Match>>, r: nat, m: nat, w: Team): (a: seq<seq<Match>>)
    requires WellShaped(rs) && r < |rs| && m < |rs[r]|
    ensures WellShaped(a)
    ensures |a| == |rs| && forall i :: 0 <= i < |rs| ==> |a[i]| == |rs[i]|
    ensures a[r][m] == rs[r][m].(winner := Some(w))
    ensures r + 1 < |rs| ==> a[r + 1][m / 2] == Fill(rs[r + 1][m / 2], w)
    ensures forall i, j :: 0 <= i < |rs| && 0 <= j < |rs[i]| && !(i == r && j == m) && !(i == r + 1 && j == m / 2) ==>
              a[i][j] == rs[i][j]
  {
    var decided := rs[r := rs[r][m := rs[r][m].(winner := Some(w))]];
    if r + 1 < |rs| then
      var p := m / 2;
      decided[r + 1 := decided[r + 1][p := Fill(decided[r + 1][p], w)]]
    else
      decided
  }

  /**
    The order of the parent's slots follows the order in which the two children's
    winners are recorded, whatever the parity of the child indices: the first
    recorded winner lands in team1 and the second in team2.
  */
  lemma FirstRecordedWinnerTakesTeam1(rs: seq<seq<Match>>, r: nat, m1: nat, m2: nat, w1: Team, w2: Team)
    requires WellShaped(rs) && r + 1 < |rs| && m1 < |rs[r]| && m2 < |rs[r]|
    requires m1 != m2 && m1 / 2 == m2 / 2
    requires rs[r + 1][m1 / 2].team1 == None && rs[r + 1][m1 / 2].team2 == None
    ensures var a := Advance(Advance(rs, r, m1, w1), r, m2, w2);
            a[r + 1][m1 / 2].team1 == Some(w1) && a[r + 1][m1 / 2].team2 == Some(w2) &&
            a[r][m1].winner == Some(w1) && a[r][m2].winner == Some(w2)
  {
  }

  /**
    Recording the same winner twice for one match puts it into both slots of the
    parent: the code does not guard against this.
  */
  lemma RepeatedWinnerFillsBothSlots(rs: seq<seq<Match>>, r: nat, m: nat, w: Team)
    requires WellShaped(rs) && r + 1 < |rs| && m < |rs[r]|
    requires rs[r + 1][m / 2].team1 == None && rs[r + 1][m / 2].team2 == None
    ensures var a := Advance(Advance(rs, r, m, w), r, m, w);
            a[r + 1][m / 2].team1 == Some(w) && a[r + 1][m / 2].team2 == Some(w)
  {
  }

  // ---------------------------------------------------------------------------
  // The control window's winner lookup (brackets.py:279-284)
  // ---------------------------------------------------------------------------

  /**
    The team record for the clicked name: team1 when its name matches, else team2
    when its name matches, else a fresh record with that name and no logo.
  */
  function WinnerRecord(m: Match, name: string): (t: Team)
    ensures t.name == name
    ensures m.team1.Some? && m.team1.value.name == name ==> t == m.team1.value
    ensures !(m.team1.Some? && m.team1.value.name == name) && m.team2.Some? && m.team2.value.name == name ==>
              t == m.team2.value
    ensures t != Team(name, None) ==> Some(t) == m.team1 || Some(t) == m.team2
  {
    if m.team1.Some? && m.team1.value.name == name then m.team1.value
    else if m.team2.Some? && m.team2.value.name == name then m.team2.value
    else Team(name, None)
  }

  /** Round 0 built match by match from consecutive pairs of slots. */
  method PairSlots(slots: seq<Team>) returns (round1: seq<Match>)
    requires |slots| % 2 == 0
    ensures round1 == FirstRound(slots)
  {
    round1 := [];
    var i := 0;
    while i < |slots|
      invariant 0 <= i <= |slots| && i % 2 == 0
      invariant |round1| == i / 2
      invariant forall t :: 0 <= t < i / 2 ==> round1[t] == Match(Some(slots[2 * t]), Some(slots[2 * t + 1]), None, None)
    {
      round1 := round1 + [Match(Some(slots[i]), Some(slots[i + 1]), None, None)];
      i := i + 2;
    }
  }

  /** A later round built match by match, every match still undecided and unfilled. */
  method NewEmptyRound(count: nat) returns (matches: seq<Match>)
    ensures |matches| == count
    ensures forall q :: 0 <= q < count ==> matches[q] == EmptyMatch
  {
    matches := [];
    for q := 0 to count
      invariant |matches| == q
      invariant forall t :: 0 <= t < q ==> matches[t] == EmptyMatch
    {
      matches := matches + [EmptyMatch];
    }
  }

  // ---------------------------------------------------------------------------
  // The model object (brackets.py:8-67)
  // ---------------------------------------------------------------------------

  class TournamentModel {
    var teams: seq<Team>
    var rounds: seq<seq<Match>>

    /** The invariant every operation keeps: the rounds halve down to one final match. */
    predicate Valid()
      reads this
    {
      WellShaped(rounds)
    }

    constructor ()
      ensures Valid() && teams == [] && rounds == []
    {
      teams := [];
      rounds := [];
    }

    /**
      Builds the bracket for `names` seeded in the order `shuffled`, an arbitrary
      permutation of `names` standing for the random shuffle; any earlier table is
      replaced.
    */
    method BuildBracket(names: seq<string>, shuffled: seq<string>)
      requires multiset(shuffled) == multiset(names)
      requires |shuffled| >= 2
      modifies this
      ensures teams == TeamsOf(shuffled) && multiset(NamesOf(teams)) == multiset(names)
      ensures rounds == InitialBracket(shuffled)
      ensures Valid()
    {
      assert NamesOf(TeamsOf(shuffled)) == shuffled;
      teams := TeamsOf(shuffled);
      var n := |teams|;
      var k := CeilLog2(n);
      var power := Pow2(k);
      assert k >= 1 && power == 2 * Pow2(k - 1);
      var padded := Padded(teams, power);
      ghost var b := InitialBracket(shuffled);
      InitialBracketFirst(shuffled);

      var round1 := PairSlots(padded);
      assert round1 == b[0];
      rounds := [round1];
      assert rounds == b[..1];

      for r := 2 to k + 1
        invariant teams == TeamsOf(shuffled)
        invariant rounds == b[..r - 1]
      {
        Pow2Div(k, r);
        var numMatches := power / Pow2(r);
        var matches := NewEmptyRound(numMatches);
        assert matches == EmptyRound(numMatches);
        LaterRound(shuffled, r - 1);
        assert b[..r] == b[..r - 1] + [b[r - 1]];
        rounds := rounds + [matches];
      }
      assert b[..k] == b;
      assert Valid() by { BracketShape(shuffled); }
    }

    /** Records `w` as the winner of match (r, m) and moves it into the parent match. */
    method SetWinner(r: nat, m: nat, w: Team)
      requires Valid() && r < |rounds| && m < |rounds[r]|
      modifies this
      ensures Valid() && teams == old(teams)
      ensures rounds == Advance(old(rounds), r, m, w)
    {
      rounds := rounds[r := rounds[r][m := rounds[r][m].(winner := Some(w))]];
      if r + 1 < |rounds| {
        var nextIndex := m / 2;
        var parent := rounds[r + 1][nextIndex];
        if parent.team1 == None {
          parent := parent.(team1 := Some(w));
        } else if parent.team2 == None {
          parent := parent.(team2 := Some(w));
        }
        rounds := rounds[r + 1 := rounds[r + 1][nextIndex := parent]];
      }
    }

    /** Stores a free-form start time on one match; nothing else changes. */
    method SetStartTime(r: nat, m: nat, time: string)
      requires Valid() && r < |rounds| && m < |rounds[r]|
      modifies this
      ensures Valid() && teams == old(teams)
      ensures rounds == old(rounds)[r := old(rounds)[r][m := old(rounds)[r][m].(startTime := Some(time))]]
    {
      rounds := rounds[r := rounds[r][m := rounds[r][m].(startTime := Some(time))]];
    }

    /** Replaces both teams of one match and clears its winner and start time. */
    method SetMatchTeams(r: nat, m: nat, team1: Option<Team>, team2: Option<Team>)
      requires Valid() && r < |rounds| && m < |rounds[r]|
      modifies this
      ensures Valid() && teams == old(teams)
      ensures rounds == old(rounds)[r := old(rounds)[r][m := Match(team1, team2, None, None)]]
    {
      rounds := rounds[r := rounds[r][m := Match(team1, team2, None, None)]];
    }

    /** The round table as it stands; the table is a value, so reading it changes nothing. */
    function GetRounds(): (rs: seq<seq<Match>>)
      reads this
      ensures rs == rounds
      ensures Valid() ==> WellShaped(rs)
    {
      rounds
    }
  }

  /**
    The control window's "set winner" action: look up the clicked name among the
    match's teams, then record that record as the winner.
  */
  method ControlSetWinner(model: TournamentModel, r: nat, m: nat, name: string)
    requires model.Valid() && r < |model.rounds| && m < |model.rounds[r]|
    modifies model
    ensures model.Valid() && model.teams == old(model.teams)
    ensures model.rounds == Advance(old(model.rounds), r, m, WinnerRecord(old(model.rounds)[r][m], name))
    ensures model.rounds[r][m].winner.Some? && model.rounds[r][m].winner.value.name == name
  {
    var winner := WinnerRecord(model.rounds[r][m], name);
    model.SetWinner(r, m, winner);
  }
}
