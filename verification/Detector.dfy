/**
 * Authoring a challenge's flags, switching its flag mode, and the detector of solves nobody was issued a
 * flag for.
 *
 * Calls are taken one after another. With `guarded` off the switch forgets its no-solves guard, which the
 * code never does; the last lemma shows what would happen.
 */
module Detector {
  import opened Prelude

  datatype Mode = Static | Unique

  // A requested mode is a string; Unknown is one ParseMode refuses.
  datatype Wanted = Known(mode: Mode) | Unknown

  datatype FlagType = Literal | Regex

  // `logicAll` is logic = 'all'; `flags` are the types of its rows in `flags`.
  datatype Challenge = Challenge(mode: Mode, logicAll: bool, flags: seq<FlagType>)

  // The primary key of flag_issues.
  datatype Key = Key(challenge: int, account: int)

  // `account` is what the instance mode resolves a solve to: NULL for a teamless solve in teams mode.
  datatype Solve = Solve(challenge: int, account: NullId)

  datatype State = State(challenges: map<int, Challenge>, issues: set<Key>, solves: seq<Solve>)

  datatype Verdict = Switched | Unchanged | UnknownMode | NoChallenge | HasSolves | HasRegex | LogicIsAll | NoFlags

  predicate IsSolved(s: State, c: int) {
    exists i :: 0 <= i < |s.solves| && s.solves[i].challenge == c
  }

  // count(*) FILTER (WHERE type = 'regex').
  function RegexCount(flags: seq<FlagType>): (n: nat)
    ensures n == 0 <==> Regex !in flags
  {
    if flags == [] then 0 else RegexCount(flags[1..]) + (if flags[0] == Regex then 1 else 0)
  }

  // The guards, in the order they refuse.
  function Judge(s: State, c: int, want: Wanted, guarded: bool): Verdict {
    if want.Unknown? then UnknownMode
    else if c !in s.challenges then NoChallenge
    else
      var ch := s.challenges[c];
      if ch.mode == want.mode then Unchanged
      else if guarded && IsSolved(s, c) then HasSolves
      else if want.mode == Unique && RegexCount(ch.flags) > 0 then HasRegex
      else if want.mode == Unique && ch.logicAll then LogicIsAll
      else if want.mode == Static && |ch.flags| == 0 then NoFlags
      else Switched
  }

  function SetMode(s: State, c: int, want: Wanted, guarded: bool): State {
    if Judge(s, c, want, guarded) == Switched
    then s.(challenges := s.challenges[c := s.challenges[c].(mode := want.mode)])
    else s
  }

  // ── the detector ────────────────────────────────────────────────────────────

  predicate NoIssue(s: State, v: Solve) {
    v.account.Null? || Key(v.challenge, v.account.id) !in s.issues
  }

  predicate Reported(s: State, v: Solve) {
    && v.challenge in s.challenges && s.challenges[v.challenge].mode == Unique
    && NoIssue(s, v)
  }

  // FindUnissuedSolves, over all pages.
  function Unissued(s: State, solves: seq<Solve>): seq<Solve> {
    if solves == [] then []
    else
      var before, last := Unissued(s, solves[..|solves| - 1]), solves[|solves| - 1];
      if Reported(s, last) then before + [last] else before
  }

  lemma {:induction false} UnissuedAre(s: State, solves: seq<Solve>)
    ensures forall v :: v in Unissued(s, solves) <==> v in solves && Reported(s, v)
  {
    if solves != [] {
      UnissuedAre(s, solves[..|solves| - 1]);
      assert solves == solves[..|solves| - 1] + [solves[|solves| - 1]];
    }
  }

  // ── runs ────────────────────────────────────────────────────────────────────

  // `compiles` is whether a pattern compiles. Uploads touch none of this.
  datatype Event =
    | Create(challenge: int, logicAll: bool)
    | SetLogic(challenge: int, logicAll: bool)
    | AddFlag(challenge: int, kind: FlagType, compiles: bool)
    | EditFlag(challenge: int, index: nat, kind: FlagType, compiles: bool)
    | DeleteFlag(challenge: int, index: nat)
    | Issue(key: Key)
    | Record(solve: Solve)
    | Switch(challenge: int, want: Wanted)

  function Put(s: State, c: int, ch: Challenge): State { s.(challenges := s.challenges[c := ch]) }

  // validateFlag.
  predicate FlagValid(mode: Mode, kind: FlagType, compiles: bool) {
    kind == Regex ==> mode != Unique && compiles
  }

  function Do(s: State, e: Event, guarded: bool): State {
    match e
    // A new challenge takes the column's default mode.
    case Create(c, all) => if c in s.challenges then s else Put(s, c, Challenge(Static, all, []))
    case SetLogic(c, all) =>
      if c !in s.challenges || (all && s.challenges[c].mode == Unique) then s
      else Put(s, c, s.challenges[c].(logicAll := all))
    case AddFlag(c, kind, compiles) =>
      if c !in s.challenges || !FlagValid(s.challenges[c].mode, kind, compiles) then s
      else Put(s, c, s.challenges[c].(flags := s.challenges[c].flags + [kind]))
    case EditFlag(c, i, kind, compiles) =>
      if c !in s.challenges || i >= |s.challenges[c].flags| || !FlagValid(s.challenges[c].mode, kind, compiles) then s
      else Put(s, c, s.challenges[c].(flags := s.challenges[c].flags[i := kind]))
    case DeleteFlag(c, i) =>
      if c !in s.challenges || i >= |s.challenges[c].flags| then s
      else Put(s, c, s.challenges[c].(flags := s.challenges[c].flags[..i] + s.challenges[c].flags[i + 1..]))
    case Issue(key) => s.(issues := s.issues + {key})
    case Record(v) => if v.challenge in s.challenges then s.(solves := s.solves + [v]) else s
    case Switch(c, want) => SetMode(s, c, want, guarded)
  }

  function Run(s: State, events: seq<Event>, guarded: bool): State
    decreases |events|
  {
    if events == [] then s else Run(Do(s, events[0], guarded), events[1..], guarded)
  }

  // Whoever solves a unique-flag challenge was issued an instance of it before.
  predicate IssuedFirst(s: State, e: Event) {
    e.Record? && e.solve.challenge in s.challenges && s.challenges[e.solve.challenge].mode == Unique ==>
      e.solve.account.Id? && Key(e.solve.challenge, e.solve.account.id) in s.issues
  }

  predicate AllIssuedFirst(s: State, events: seq<Event>, guarded: bool)
    decreases |events|
  {
    events == [] || (IssuedFirst(s, events[0]) && AllIssuedFirst(Do(s, events[0], guarded), events[1..], guarded))
  }

  // Every solve is of an existing challenge, and none is reported.
  ghost predicate Clean(s: State) {
    forall v :: v in s.solves ==> v.challenge in s.challenges && !Reported(s, v)
  }

  /** Serial runs in which unique-flag solvers were issued first: the detector reports nothing, ever. */
  lemma {:induction false} NothingToReport(s: State, events: seq<Event>)
    requires Clean(s) && AllIssuedFirst(s, events, true)
    ensures var s' := Run(s, events, true); Unissued(s', s'.solves) == []
    decreases |events|
  {
    if events == [] {
      UnissuedAre(s, s.solves);
      if Unissued(s, s.solves) != [] { NoneIn(s, s.solves); }
    } else {
      NothingToReport(Do(s, events[0], true), events[1..]);
    }
  }

  lemma {:induction false} NoneIn(s: State, solves: seq<Solve>)
    requires forall v :: v in solves ==> !Reported(s, v)
    ensures Unissued(s, solves) == []
  {
    if solves != [] {
      assert solves[|solves| - 1] in solves;
      NoneIn(s, solves[..|solves| - 1]);
    }
  }

  // ── what authoring keeps ────────────────────────────────────────────────────

  /** A unique-flag challenge has no pattern among its flags and does not combine them. */
  ghost predicate UniqueIsIssuable(s: State) {
    forall c :: c in s.challenges && s.challenges[c].mode == Unique ==>
      Regex !in s.challenges[c].flags && !s.challenges[c].logicAll
  }

  /** Every run of authoring and switching keeps that: the two guards meet from both sides. */
  lemma {:induction false} RunsKeepUniqueIssuable(s: State, events: seq<Event>, guarded: bool)
    requires UniqueIsIssuable(s)
    ensures UniqueIsIssuable(Run(s, events, guarded))
    decreases |events|
  {
    if events != [] {
      var e := events[0];
      if e.DeleteFlag? && e.challenge in s.challenges && e.index < |s.challenges[e.challenge].flags| {
        var flags := s.challenges[e.challenge].flags;
        assert forall k :: k in flags[..e.index] + flags[e.index + 1..] ==> k in flags;
      }
      RunsKeepUniqueIssuable(Do(s, events[0], guarded), events[1..], guarded);
    }
  }

  // ── what it reports in general ──────────────────────────────────────────────

  // The events with the mode each solve was recorded under.
  datatype Witness = Witness(solve: Solve, under: Mode)

  function Witnessed(s: State, events: seq<Event>): seq<Witness>
    decreases |events|
  {
    if events == [] then []
    else
      var e := events[0];
      var rest := Witnessed(Do(s, e, true), events[1..]);
      if e.Record? && e.solve.challenge in s.challenges
      then [Witness(e.solve, s.challenges[e.solve.challenge].mode)] + rest else rest
  }

  /** Thanks to the guard, a challenge keeps the mode its solves were recorded under. */
  lemma {:induction false} SolvedModeIsFrozen(s: State, events: seq<Event>, c: int)
    requires c in s.challenges && IsSolved(s, c)
    ensures var s' := Run(s, events, true); c in s'.challenges && s'.challenges[c].mode == s.challenges[c].mode
    decreases |events|
  {
    if events != [] {
      var s1 := Do(s, events[0], true);
      var i :| 0 <= i < |s.solves| && s.solves[i].challenge == c;
      assert s1.solves[i] == s.solves[i];
      SolvedModeIsFrozen(s1, events[1..], c);
    }
  }

  lemma {:induction false} WitnessReported(s: State, events: seq<Event>, w: Witness)
    requires w in Witnessed(s, events)
    ensures Reported(Run(s, events, true), w.solve)
       <==> w.under == Unique && NoIssue(Run(s, events, true), w.solve)
    decreases |events|
  {
    var e := events[0];
    var s1 := Do(s, e, true);
    if w in Witnessed(s1, events[1..]) {
      WitnessReported(s1, events[1..], w);
    } else {
      assert s1.solves[|s.solves|] == w.solve;
      SolvedModeIsFrozen(s1, events[1..], w.solve.challenge);
    }
  }

  // Every solve of a run is witnessed once, in order.
  lemma {:induction false} SolvesAreWitnessed(s: State, events: seq<Event>)
    ensures Run(s, events, true).solves == s.solves + SolvesIn(Witnessed(s, events))
    decreases |events|
  {
    if events != [] {
      SolvesAreWitnessed(Do(s, events[0], true), events[1..]);
      var ws := Witnessed(Do(s, events[0], true), events[1..]);
      if events[0].Record? && events[0].solve.challenge in s.challenges {
        assert Witnessed(s, events)[1..] == ws;
      }
    }
  }

  function SolvesIn(ws: seq<Witness>): (vs: seq<Solve>)
    ensures |vs| == |ws| && forall i :: 0 <= i < |ws| ==> vs[i] == ws[i].solve
  {
    if ws == [] then [] else [ws[0].solve] + SolvesIn(ws[1..])
  }

  /**
   * In general, over a run from a table with no solves, the detector's list holds exactly the solves
   * recorded while their challenge was in unique mode, by accounts that hold no issue of it: no solve made
   * in static mode is ever among them, and none made in unique mode is missed.
   */
  lemma {:induction false} ReportsExactly(s: State, events: seq<Event>, v: Solve)
    requires s.solves == []
    ensures v in Unissued(Run(s, events, true), Run(s, events, true).solves)
       <==> NoIssue(Run(s, events, true), v) && Witness(v, Unique) in Witnessed(s, events)
  {
    var s', ws := Run(s, events, true), Witnessed(s, events);
    UnissuedAre(s', s'.solves);
    SolvesAreWitnessed(s, events);
    assert s'.solves == SolvesIn(ws);
    if v in s'.solves {
      var i :| 0 <= i < |s'.solves| && s'.solves[i] == v;
      assert ws[i] in ws && ws[i].solve == v;
      WitnessReported(s, events, ws[i]);
    }
    if Witness(v, Unique) in ws {
      var i :| 0 <= i < |ws| && ws[i] == Witness(v, Unique);
      assert s'.solves[i] == v;
      WitnessReported(s, events, ws[i]);
    }
  }

  /** Without the guard an honest static solve is reported after a switch to unique. */
  lemma WithoutTheGuardHonestSolversAreReported()
    ensures exists events ::
              var s' := Run(State(map[], {}, []), events, false);
              AllIssuedFirst(State(map[], {}, []), events, false) && Unissued(s', s'.solves) == [Solve(1, Id(5))]
  {
    var v := Solve(1, Id(5));
    var s0 := State(map[], {}, []);
    var s1 := State(map[1 := Challenge(Static, false, [])], {}, []);
    var s2 := s1.(solves := [v]);
    var s3 := s2.(challenges := map[1 := Challenge(Unique, false, [])]);
    var e1, e2, e3 := Create(1, false), Record(v), Switch(1, Known(Unique));
    assert Do(s0, e1, false) == s1;
    assert Do(s1, e2, false) == s2 by { assert s1.solves + [v] == [v]; }
    assert Do(s2, e3, false) == s3;
    RunOne(s2, e3, []);
    RunOne(s1, e2, [e3]);
    RunOne(s0, e1, [e2, e3]);
    assert [e1, e2, e3] == [e1] + [e2, e3] && [e2, e3] == [e2] + [e3] && [e3] == [e3] + [];
    assert Run(s0, [e1, e2, e3], false) == s3;
    assert [v][..0] == [];
    assert Unissued(s3, [v]) == [v];
  }

  lemma {:induction false} RunOne(s: State, e: Event, rest: seq<Event>)
    ensures Run(s, [e] + rest, false) == Run(Do(s, e, false), rest, false)
    ensures AllIssuedFirst(s, [e] + rest, false) <==> IssuedFirst(s, e) && AllIssuedFirst(Do(s, e, false), rest, false)
  {
  }
}
