# Tournament bracket and match timer, modelled in Dafny

This project models the core of a small beer-pong tournament application. It has two parts:

* **The single-elimination bracket engine** (`TournamentModel`, brackets.py). It builds a table of rounds from a list of team names. Round 0 pairs the shuffled names, padded with `"BYE"` records up to the next power of two. Each later round starts with half as many empty matches, down to a one-match final. Recording a winner fills the first free slot of the parent match `m / 2` in the next round. Two more operations edit one match in place: setting a start time, and replacing a match's teams. The model also covers the control window's lookup that turns a clicked team name into a team record.
* **The countdown timer widget** (`Timer`, timer.py), reduced to its integer state, the `mm:ss` text it shows and the parsing of a new time typed by the user. The widget's state is `currentTime`, `initialTime`, `paused` and the shown text.

Files:

* `wrappers.dfy`: `Option`, which stands for Python's `None`-or-value.
* `brackets.dfy`: module `Brackets`.
  * `Team` and `Match` are values.
  * `TournamentModel` is a class. Its `rounds` field is a `seq<seq<Match>>`, and every operation reassigns it.
  * `BuildBracket` and `SetWinner` are specified by pure functions: `InitialBracket` for building and `Advance` for recording a winner. The lemmas beside them state the shape, layout and progression properties. `SetStartTime` and `SetMatchTeams` state the one-match update of the table directly.
  * The class invariant `Valid()` says that each round has half the matches of the round before it, and that the last round has one match.
* `timer.dfy`: module `Timers`.
  * `Timer` is a class whose methods are the widget's button handlers.
  * The scheduler callback becomes an explicit `Countdown` call: one call is one tick.
  * The pure parts are functions: formatting (`Decimal`, `Pad2`, `Format`), `str.split` (`Split`), the input padding (`Normalize`) and parsing (`ParseTime`). The round trips are `DecimalValue` (the numeral reads back as its number), the `Join` law in `Split`'s contract, and `FormatRoundTrip` (the shown text is parsed back to the time).

The random shuffle is an argument. `BuildBracket(names, shuffled)` accepts any `shuffled` with the same multiset of names as `names`, so the model covers every seeding the shuffle can produce. The source crashes for fewer than two teams: `log2(0)` fails, and so does `padded_teams[1]` for one team. `BuildBracket` therefore requires at least two names. The power of two is computed on integers (`CeilLog2`, `Pow2`).

Details of the code that the model keeps:
* Padding slots are `"BYE"` team records, not empty slots.
* Blank names are not filtered out.
* Recording a winner for the same match twice puts that winner into both slots of the parent match. `RepeatedWinnerFillsBothSlots` states this.

## Model

| member | source | states |
|---|---|---|
| `Brackets.CeilLog2` | brackets.py:18 | the exponent k of the power of two used for n teams: n <= 2^k, and 2^(k-1) < n when k > 0, so 2^k is the smallest power of two at least n |
| `Brackets.InitialBracket` | brackets.py:30-33 | the table built for n >= 2 names has ceil(log2 n) >= 1 rounds, that is log2(power) |
| `Brackets.FreshBracket` | brackets.py:23-44 | in a freshly built table every match has no winner and no start time, and every match of rounds 1 and later has no teams |
| `Brackets.BracketShape` | brackets.py:17-44 | for n >= 2 names there are log2(power) >= 1 rounds; round j has power / 2^(j+1) = 2^(k-1-j) matches, so round 0 has power / 2; each round has half the matches of its predecessor; the final round has exactly one match |
| `Brackets.RoundSizes` | brackets.py:32-34 | in any table that keeps the halving invariant, round j of R rounds has 2^(R-1-j) matches |
| `Brackets.Round0Layout` | brackets.py:19-29 | round 0 read slot by slot gives the shuffled names in order as logo-less records, then power - n BYE records; match i pairs slot 2i with slot 2i+1 |
| `Brackets.Round0Entrants` | brackets.py:14-29 | when no input name is "BYE", the non-BYE names in round 0 are exactly the shuffled sequence, so they are a permutation of the input names |
| `Brackets.PairSlots` | brackets.py:21-29 | the step-by-2 loop builds exactly the pairing of consecutive slots, with no winner and no start time |
| `Brackets.NewEmptyRound` | brackets.py:34-43 | the inner loop builds the requested number of matches, each with no teams, winner or start time |
| `Brackets.TournamentModel.constructor` | brackets.py:9-11 | a new model has no teams and no rounds |
| `Brackets.TournamentModel.BuildBracket` | brackets.py:13-44 | `teams` becomes the shuffled names as records, with the same multiset of names as the input; `rounds` becomes the initial table for that seeding, whatever was there before; the halving invariant holds |
| `Brackets.Fill` | brackets.py:51-55 | a winner arriving at a parent match goes into team1 if it is empty, else into team2 if it is empty, else the parent is unchanged |
| `Brackets.Advance` | brackets.py:47-55 | after recording w for (r, m): the shape is kept; (r, m) has winner w; if round r+1 exists, its match m/2 is filled as described for `Fill`; every other match is unchanged |
| `Brackets.FirstRecordedWinnerTakesTeam1` | brackets.py:50-55 | for two sibling matches, in either order and whatever their parity, the first winner recorded lands in team1 of the parent and the second in team2 |
| `Brackets.RepeatedWinnerFillsBothSlots` | brackets.py:47-55 | recording the same winner twice for one match fills both slots of an empty parent with that winner |
| `Brackets.TournamentModel.SetWinner` | brackets.py:47-55 | the round table becomes `Advance` of the old one; `teams` and the halving invariant are kept |
| `Brackets.TournamentModel.SetStartTime` | brackets.py:57-58 | only the start time of match (r, m) changes; every other field and match stays as it was |
| `Brackets.TournamentModel.SetMatchTeams` | brackets.py:60-64 | match (r, m) gets the two given teams, with its winner and start time cleared; nothing else changes |
| `Brackets.TournamentModel.GetRounds` | brackets.py:66-67 | returns the table itself; under the invariant, the result is well shaped |
| `Brackets.WinnerRecord` | brackets.py:279-284 | the result always carries the clicked name; it is team1 when team1's name matches, else team2 when team2's name matches; otherwise it is a fresh record with no logo |
| `Brackets.ControlSetWinner` | brackets.py:276-286 | the control window records the looked-up record as the winner; the recorded winner of (r, m) carries the clicked name |
| `Timers.Decimal` | timer.py:58 | Python's `str(n)` for n >= 0: a non-empty digit string without ':', at least two digits from 10 on, and no leading '0' for n >= 1 |
| `Timers.Pad2` | timer.py:58 | Python's `{n:02d}`: at least two characters and no ':' in them; exactly two characters for 0 <= n < 100; for n >= 0 a digit string whose value is n, with no leading '0' from 10 on; for n < 0 a '-' followed by the digits of -n, with no '0' after the sign |
| `Timers.Format` | timer.py:57-58 | the `mm:ss` text is at least five characters; for 0 <= t < 6000 it is exactly five characters with ':' at index 2; for t >= 0 it holds exactly one ':' |
| `Timers.FormatFields` | timer.py:57-58 | for t >= 0 the text is the numeral of the minutes t / 60, then ':', then the two digits of the seconds t % 60; from 10 minutes on the text does not start with '0' |
| `Timers.FormatNegative` | timer.py:57-58 | for t < 0 the text is '-' and the digits of -(t / 60) without a leading '0', then ':', then the two digits of t % 60, the floor division and remainder of Python's `divmod` |
| `Timers.FormatRoundTrip` | timer.py:112-128 | whatever the label shows for t >= 0 seconds, typed into "change time", comes out as t |
| `Timers.Split` | timer.py:126 | `str.split(':')` gives one more piece than there are separators; no piece contains the separator; joining the pieces back gives the input |
| `Timers.ParseTime` | timer.py:125-127 | a parsed time is non-negative and comes from a string with exactly one ':'; any other number of ':' is refused |
| `Timers.ParseTimeAccepts` | timer.py:126-127 | a numeral, ':' and another numeral are parsed as 60 * minutes + seconds |
| `Timers.ParseTimeOnlyAccepts` | timer.py:126 | conversely, every accepted string is a numeral, ':' and another numeral |
| `Timers.Normalize` | timer.py:112-123 | a 2-character input s becomes "00:" + s; a 3-character input abc becomes a:c; a 4-character input with ':' at index 1 gets a leading '0'; any other 4-character input gets ':' inserted after index 2; other lengths are kept |
| `Timers.NormalizeIdempotent` | timer.py:113-123 | normalizing the result again changes nothing |
| `Timers.TwoDigitInput` | timer.py:113-114 | two digits are read as that many seconds |
| `Timers.ThreeCharacterInput` | timer.py:116-117 | a 3-character input abc is read as a minutes and c seconds, whatever b is; so `m:s` is kept and read as m:s |
| `Timers.ShortMinutesInput` | timer.py:119-121 | "m:ss" is read as m minutes and ss seconds |
| `Timers.FourDigitInput` | timer.py:122-123 | four digits mmss are read as mm minutes and ss seconds |
| `Timers.ColonThirdRejected` | timer.py:122-126 | a 4-character input with ':' at index 2 (and not at index 1) becomes "ab::c" and is always refused |
| `Timers.Tick` | timer.py:77-79 | a tick while not paused and at zero or above lowers the counter by exactly one; when paused or below zero the counter is unchanged; a counter at -1 or above never goes below -1 |
| `Timers.RunDown` | timer.py:74-80 | after k unpaused ticks from t >= -1 the counter is max(t - k, -1) |
| `Timers.Timer.constructor` | timer.py:4-8 | starts with current = initial time, not paused, showing the formatted initial time |
| `Timers.Timer.Countdown` | timer.py:74-83 | the counter becomes `Tick` of the old counter; the paused flag and the initial time are kept; the text shows the time before the decrement, or "Ferdig!" once the counter is below zero |
| `Timers.Timer.TogglePause` | timer.py:85-95 | flips the paused flag; pausing leaves the counter and the text alone; resuming performs one countdown step |
| `Timers.Timer.ResetTimer` | timer.py:97-106 | current time := initial time, paused := false, the text shows the initial time |
| `Timers.Timer.ChangeTime` | timer.py:108-130 | accepts the input exactly when its normalization parses; on success current time = initial time = the parsed value, shown formatted; on failure nothing changes; the paused flag is kept |

## Left out

- Canvas drawing, the winner pop-up and the layout in `TournamentBracketCanvas` (brackets.py:69-203): these are floating-point geometry and Tk calls.
- The dialogs, buttons and widget rebuild of `ControlWindow` (brackets.py:205-327), apart from the winner lookup and the set-winner action. `edit_match` passes bare strings as teams; the model's `SetMatchTeams` takes team records.
- Logo loading and the logo re-mapping after the shuffle (brackets.py:166-182, 238-240). The re-mapping depends on the team records being shared between `teams` and the round table; the model uses values, so it has no such sharing.
- Brackets.TournamentModel.SetWinner: requires the round and match indices to be in range. The source raises `IndexError` past the end and accepts negative indices counted from the end. The control window takes its indices from `enumerate` over the rounds (brackets.py:250-268), so neither case arises there.
- Brackets.TournamentModel.SetStartTime: requires in-range indices, for the same reason as `SetWinner`.
- Brackets.TournamentModel.SetMatchTeams: requires in-range indices, for the same reason as `SetWinner`; `edit_match` reads the match at those indices first (brackets.py:301).
- The randomness of `random.shuffle`: the seeding is an argument, and every permutation is allowed.
- Brackets.CeilLog2: computed exactly on integers. The source's floating-point `log2` is not modelled: from n = 2^49 + 1 teams on it can round down to a whole number, so `power` falls below n, no BYE is added, and an odd n then makes `padded_teams[i + 1]` (brackets.py:25) index past the end.
- The Tk `after` / `after_cancel` scheduling (timer.py:80, 89-90, 100-101): the model has no pending-callback state and no overlapping tick chains, and each `Countdown` call is one tick. The Start button's enabled state is not modelled either.
- The progress-arc fraction, its colours and the text colour (timer.py:59-71, 82-83, 105, 129): floating-point and presentation only.
- Timers.ChangeTime: requires a non-empty input, because the source fails indexing an empty string or `None` (timer.py:112). The re-prompt after a `ValueError` (timer.py:131-132) is left out; instead the method reports refusal and changes nothing.
- Timers.ParseTime: understands ASCII digit strings only; Python's `int()` also takes signs, surrounding whitespace, underscores and other Unicode digits.
- main.py: window layout, plus a wall-clock title label.
