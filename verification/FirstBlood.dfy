/**
 * First blood by commit order and by date.
 *
 * The announcement goes to the first visible solver to commit; the schema derives first blood as the
 * visible solve first by date, then id. Ids are drawn under the challenge row lock, so on one challenge
 * their order is the order of the rows. Dates are transaction starts, and a clock that never goes back
 * does not make them follow it: this module says exactly when the two agree.
 */
module FirstBlood {
  import opened Prelude
  import opened Decay
  import opened Submit

  // ORDER BY date, id LIMIT 1 over the visible solves.
  function Derived(cfg: Cfg, solves: seq<Solve>): (r: seq<Solve>)
    ensures |r| <= 1 && (r == [] <==> ShownCount(cfg, solves) == 0)
  {
    if solves == [] then []
    else
      var before, v := Derived(cfg, solves[..|solves| - 1]), solves[|solves| - 1];
      if Shown(cfg, v.actor) && (before == [] || v.date < before[0].date) then [v] else before
  }

  // A visible solve dated before d.
  ghost predicate Early(cfg: Cfg, solves: seq<Solve>, d: int) {
    exists i :: 0 <= i < |solves| && Shown(cfg, solves[i].actor) && solves[i].date < d
  }

  // What "first by date, then id" means.
  ghost predicate Earliest(cfg: Cfg, solves: seq<Solve>, i: nat) {
    && i < |solves| && Shown(cfg, solves[i].actor)
    && !Early(cfg, solves, solves[i].date)
    && forall k :: 0 <= k < i && Shown(cfg, solves[k].actor) ==> solves[k].date > solves[i].date
  }

  lemma {:induction false} DerivedIsEarliest(cfg: Cfg, solves: seq<Solve>) returns (i: nat)
    requires ShownCount(cfg, solves) > 0
    ensures Earliest(cfg, solves, i) && Derived(cfg, solves) == [solves[i]]
  {
    var before, v := solves[..|solves| - 1], solves[|solves| - 1];
    assert solves == before + [v];
    if ShownCount(cfg, before) == 0 {
      i := |before|;
      NobodyShown(cfg, before);
    } else {
      i := DerivedIsEarliest(cfg, before);
      if Shown(cfg, v.actor) && v.date < before[i].date { i := |before|; }
    }
  }

  /** The first visible solver to commit is the derived one exactly when no visible solve is dated before theirs. */
  lemma {:induction false} DerivedIsFirstShownIff(cfg: Cfg, solves: seq<Solve>, i: nat)
    requires OneSolveEach(solves) && i < |solves| && Shown(cfg, solves[i].actor)
    requires forall k :: 0 <= k < i ==> !Shown(cfg, solves[k].actor)
    ensures Derived(cfg, solves) == [solves[i]] <==> !Early(cfg, solves, solves[i].date)
  {
    NobodyShown(cfg, solves);
    var j := DerivedIsEarliest(cfg, solves);
    assert i < j ==> solves[i].date > solves[j].date;
    assert i < j ==> !Collide(solves[i].actor, solves[j].actor);
  }

  // ── the clock ───────────────────────────────────────────────────────────────

  // now() never goes back from one transaction's start to a later one's.
  ghost predicate Forward(events: seq<Event>) {
    forall i, j :: 0 <= i < j < |events| && events[i].Start? && events[j].Start? ==> events[i].date <= events[j].date
  }

  ghost predicate StartsFrom(events: seq<Event>, d: int) {
    forall i :: 0 <= i < |events| && events[i].Start? ==> d <= events[i].date
  }

  // An open transaction's date is that of an event that started it.
  lemma {:induction false} DatedByItsStart(s: Sys, events: seq<Event>, cfg: Cfg, chs: map<int, Challenge>, t: int) returns (i: nat)
    requires s.txns == map[] && t in Run(s, events, cfg, chs, true).txns
    ensures i < |events| && events[i].Start? && events[i].date == Run(s, events, cfg, chs, true).txns[t].date
    decreases |events|
  {
    var init, e := events[..|events| - 1], events[|events| - 1];
    assert events == init + [e];
    RunOneMore(s, init, e, cfg, chs, true);
    var before := Run(s, init, cfg, chs, true);
    if t in before.txns {
      Identity(before, e, t, cfg, chs);
      i := DatedByItsStart(s, init, cfg, chs, t);
    } else {
      i := |init|;
      BornByStart(before, e, t, cfg, chs);
    }
  }

  // A statement leaves alone who submits what, and when that began.
  lemma Identity(s: Sys, e: Event, t: int, cfg: Cfg, chs: map<int, Challenge>)
    requires t in s.txns && t in Do(s, e, cfg, chs, true).txns
    ensures var x, y := s.txns[t], Do(s, e, cfg, chs, true).txns[t];
            x.challenge == y.challenge && x.actor == y.actor && x.date == y.date
  {
    if e.Step? && e.txn == t { ExecuteIdentity(s, t, cfg, chs); }
  }

  lemma ExecuteIdentity(s: Sys, t: int, cfg: Cfg, chs: map<int, Challenge>)
    requires t in s.txns && t in Execute(s, t, cfg, chs, true).txns
    ensures var x, y := s.txns[t], Execute(s, t, cfg, chs, true).txns[t];
            x.challenge == y.challenge && x.actor == y.actor && x.date == y.date
  {
    match s.txns[t].pc {
      case AtLock =>
      case AtSolve =>
      case AtCount =>
      case AtPay =>
      case AtRecalc =>
      case AtCommit =>
    }
  }

  lemma BornByStart(s: Sys, e: Event, t: int, cfg: Cfg, chs: map<int, Challenge>)
    requires t !in s.txns && t in Do(s, e, cfg, chs, true).txns
    ensures e.Start? && e.txn == t && Do(s, e, cfg, chs, true).txns[t].date == e.date
  {
  }

  // ── commits that come later ─────────────────────────────────────────────────

  // Transaction t is about to commit a solve.
  predicate Solving(s: Sys, t: int, chs: map<int, Challenge>) {
    t in s.txns && s.txns[t].pc == AtCommit && s.txns[t].solved && s.txns[t].challenge in s.db && s.txns[t].challenge in chs
  }

  // The transaction open as t, and not a later one of that name, goes on to commit a solve.
  predicate Commits(s: Sys, events: seq<Event>, cfg: Cfg, chs: map<int, Challenge>, t: int)
    decreases |events|
  {
    t in s.txns && events != [] &&
    ((events[0] == Step(t) && Solving(s, t, chs)) || Commits(Do(s, events[0], cfg, chs, true), events[1..], cfg, chs, t))
  }

  // A visible account's open submission to c that began before d.
  predicate Older(s: Sys, cfg: Cfg, c: int, d: int, t: int) {
    t in s.txns && s.txns[t].challenge == c && Shown(cfg, s.txns[t].actor) && s.txns[t].date < d
  }

  ghost predicate Overtaken(s: Sys, events: seq<Event>, cfg: Cfg, chs: map<int, Challenge>, c: int, d: int) {
    exists t :: Older(s, cfg, c, d, t) && Commits(s, events, cfg, chs, t)
  }

  lemma EarlyOneMore(cfg: Cfg, solves: seq<Solve>, v: Solve, d: int)
    ensures Early(cfg, solves + [v], d) <==> Early(cfg, solves, d) || (Shown(cfg, v.actor) && v.date < d)
  {
    if Early(cfg, solves, d) {
      var i :| 0 <= i < |solves| && Shown(cfg, solves[i].actor) && solves[i].date < d;
      assert (solves + [v])[i] == solves[i];
    }
    if Shown(cfg, v.actor) && v.date < d { assert (solves + [v])[|solves|] == v; }
  }

  // One event adds an early solve exactly when it commits one.
  lemma EarlyStep(s: Sys, e: Event, cfg: Cfg, chs: map<int, Challenge>, c: int, d: int)
    requires c in s.db && c in chs
    ensures c in Do(s, e, cfg, chs, true).db
    ensures Early(cfg, Do(s, e, cfg, chs, true).db[c].solves, d)
       <==> Early(cfg, s.db[c].solves, d) || (e.Step? && Older(s, cfg, c, d, e.txn) && Solving(s, e.txn, chs))
  {
    if e.Step? && Solving(s, e.txn, chs) && s.txns[e.txn].challenge == c {
      var x := s.txns[e.txn];
      assert Do(s, e, cfg, chs, true).db[c].solves == s.db[c].solves + [Own(x)[0]];
      EarlyOneMore(cfg, s.db[c].solves, Own(x)[0], d);
    } else {
      assert Do(s, e, cfg, chs, true).db[c].solves == s.db[c].solves;
    }
  }

  // Who was open and older before an event is after it, unless it is done; and nobody new is older.
  lemma OlderStep(s: Sys, e: Event, cfg: Cfg, chs: map<int, Challenge>, c: int, d: int, t: int)
    requires StartsFrom([e], d) && t in Do(s, e, cfg, chs, true).txns
    ensures Older(Do(s, e, cfg, chs, true), cfg, c, d, t) <==> Older(s, cfg, c, d, t)
  {
    if t in s.txns {
      Identity(s, e, t, cfg, chs);
    } else {
      BornByStart(s, e, t, cfg, chs);
      assert [e][0] == e;
    }
  }

  lemma OvertakenStep(s: Sys, events: seq<Event>, cfg: Cfg, chs: map<int, Challenge>, c: int, d: int)
    requires events != [] && c in s.db && c in chs && StartsFrom(events, d)
    ensures Overtaken(s, events, cfg, chs, c, d)
       <==> || Overtaken(Do(s, events[0], cfg, chs, true), events[1..], cfg, chs, c, d)
            || (events[0].Step? && Older(s, cfg, c, d, events[0].txn) && Solving(s, events[0].txn, chs))
  {
    var e, rest := events[0], events[1..];
    var s' := Do(s, e, cfg, chs, true);
    if Overtaken(s, events, cfg, chs, c, d) {
      var t :| Older(s, cfg, c, d, t) && Commits(s, events, cfg, chs, t);
      if !(e == Step(t) && Solving(s, t, chs)) {
        assert Commits(s', rest, cfg, chs, t);
        OlderStep(s, e, cfg, chs, c, d, t);
      }
    }
    if Overtaken(s', rest, cfg, chs, c, d) {
      var t :| Older(s', cfg, c, d, t) && Commits(s', rest, cfg, chs, t);
      OlderStep(s, e, cfg, chs, c, d, t);
      assert Commits(s, events, cfg, chs, t);
    }
    if e.Step? && Older(s, cfg, c, d, e.txn) && Solving(s, e.txn, chs) {
      assert Commits(s, events, cfg, chs, e.txn);
    }
  }

  /** From d on, a visible solve dated before d can come only from a transaction already open. */
  lemma {:induction false} EarlySolvesWereOpen(s: Sys, events: seq<Event>, cfg: Cfg, chs: map<int, Challenge>, c: int, d: int)
    requires c in s.db && c in chs && StartsFrom(events, d)
    ensures c in Run(s, events, cfg, chs, true).db
    ensures Early(cfg, Run(s, events, cfg, chs, true).db[c].solves, d)
       <==> Early(cfg, s.db[c].solves, d) || Overtaken(s, events, cfg, chs, c, d)
    decreases |events|
  {
    if events == [] {
      assert forall t :: !Commits(s, events, cfg, chs, t);
    } else {
      EarlyStep(s, events[0], cfg, chs, c, d);
      OvertakenStep(s, events, cfg, chs, c, d);
      EarlySolvesWereOpen(Do(s, events[0], cfg, chs, true), events[1..], cfg, chs, c, d);
    }
  }

  // ── the results ─────────────────────────────────────────────────────────────

  // Transaction t is about to commit the solve that has first blood on c.
  predicate Blooding(s: Sys, t: int, chs: map<int, Challenge>, c: int) {
    Solving(s, t, chs) && s.txns[t].first && s.txns[t].challenge == c
  }

  // Every announcement comes from one such commit.
  lemma {:induction false} AnnouncedOnce(s: Sys, events: seq<Event>, cfg: Cfg, chs: map<int, Challenge>, c: int) returns (k: nat)
    requires c in s.db && s.db[c].announced == []
    requires c in Run(s, events, cfg, chs, true).db && Run(s, events, cfg, chs, true).db[c].announced != []
    ensures k < |events| && events[k].Step?
    ensures Blooding(Run(s, events[..k], cfg, chs, true), events[k].txn, chs, c)
    decreases |events|
  {
    var s' := Do(s, events[0], cfg, chs, true);
    StepOnlyAppends(s, events[0], cfg, chs, true, c);
    if s'.db[c].announced != [] {
      k := 0;
    } else {
      var j := AnnouncedOnce(s', events[1..], cfg, chs, c);
      k := j + 1;
      assert events[..k][1..] == events[1..][..j];
    }
  }

  // The ledger right after that commit: its solve is the only visible one.
  lemma {:induction false} BloodedLedger(s: Sys, t: int, cfg: Cfg, chs: map<int, Challenge>, c: int)
    requires Inv(s, cfg, chs) && Blooding(s, t, chs, c)
    ensures var x, s' := s.txns[t], Do(s, Step(t), cfg, chs, true);
            && c in s'.db && s'.db[c].solves == s.db[c].solves + [Own(x)[0]] && s'.db[c].announced == [x.actor]
            && Shown(cfg, x.actor) && (forall k :: 0 <= k < |s.db[c].solves| ==> !Shown(cfg, s.db[c].solves[k].actor))
            && !Early(cfg, s'.db[c].solves, x.date)
  {
    assert TxnOk(s, t, cfg, chs);
    assert LedgerOk(cfg, chs[c], s.db[c]);
    NobodyShown(cfg, s.db[c].solves);
    EarlyOneMore(cfg, s.db[c].solves, Own(s.txns[t])[0], s.txns[t].date);
  }

  lemma {:induction false} QuietInv(s: Sys, cfg: Cfg, chs: map<int, Challenge>)
    requires Quiet(s, chs)
    ensures Inv(s, cfg, chs)
  {
    forall c | c in s.db ensures LedgerOk(cfg, chs[c], s.db[c]) {
      FirstSolverPaysInitial(chs[c].curve);
    }
  }

  // Whatever comes after, the winner's row stays the first visible one.
  lemma {:induction false} WinnerStays(s: Sys, t: int, after: seq<Event>, cfg: Cfg, chs: map<int, Challenge>, c: int)
    requires Inv(s, cfg, chs) && Blooding(s, t, chs, c)
    ensures var x, s2, i := s.txns[t], Run(Do(s, Step(t), cfg, chs, true), after, cfg, chs, true), |s.db[c].solves|;
            && c in s2.db && s2.db[c].announced == [x.actor] && OneSolveEach(s2.db[c].solves)
            && i < |s2.db[c].solves| && s2.db[c].solves[i] == Own(x)[0] && Shown(cfg, x.actor)
            && forall k :: 0 <= k < i ==> !Shown(cfg, s2.db[c].solves[k].actor)
  {
    var s1 := Do(s, Step(t), cfg, chs, true);
    BloodedLedger(s, t, cfg, chs, c);
    StepKeepsInv(s, Step(t), cfg, chs);
    InvRun(s1, after, cfg, chs);
    RowsAreNeverRewritten(s1, after, cfg, chs, true, c);
    var l := Run(s1, after, cfg, chs, true).db[c];
    assert LedgerOk(cfg, chs[c], l);
    forall k | 0 <= k < |s.db[c].solves| ensures !Shown(cfg, l.solves[k].actor) {
      assert l.solves[k] == s1.db[c].solves[k] == s.db[c].solves[k];
    }
  }

  // From the winner's commit on, whatever comes after.
  lemma {:induction false} AfterTheBlood(s: Sys, t: int, after: seq<Event>, cfg: Cfg, chs: map<int, Challenge>, c: int)
    requires Inv(s, cfg, chs) && Blooding(s, t, chs, c) && StartsFrom(after, s.txns[t].date)
    ensures var x, s1 := s.txns[t], Do(s, Step(t), cfg, chs, true);
            var s2 := Run(s1, after, cfg, chs, true);
            && c in s2.db && s2.db[c].announced == [x.actor]
            && (Derived(cfg, s2.db[c].solves) == [Own(x)[0]] <==> !Overtaken(s1, after, cfg, chs, c, x.date))
  {
    var x, s1 := s.txns[t], Do(s, Step(t), cfg, chs, true);
    BloodedLedger(s, t, cfg, chs, c);
    WinnerStays(s, t, after, cfg, chs, c);
    DerivedIsFirstShownIff(cfg, Run(s1, after, cfg, chs, true).db[c].solves, |s.db[c].solves|);
    EarlySolvesWereOpen(s1, after, cfg, chs, c, x.date);
  }

  /**
   * In every run whose clock never goes back, an announced first blood comes from one commit; and the
   * announced solve is the one the schema derives exactly when no visible account's submission that was
   * then open, and had begun earlier, went on to commit a solve of the same challenge.
   */
  lemma {:induction false} AnnouncedIsDerivedIff(s: Sys, events: seq<Event>, cfg: Cfg, chs: map<int, Challenge>, c: int) returns (k: nat)
    requires Quiet(s, chs) && Forward(events) && c in s.db
    requires var end := Run(s, events, cfg, chs, true); c in end.db && end.db[c].announced != []
    ensures k < |events| && events[k].Step? && Blooding(Run(s, events[..k], cfg, chs, true), events[k].txn, chs, c)
    ensures var x := Run(s, events[..k], cfg, chs, true).txns[events[k].txn];
            var next, end := Run(s, events[..k + 1], cfg, chs, true), Run(s, events, cfg, chs, true);
            && end.db[c].announced == [x.actor]
            && (Derived(cfg, end.db[c].solves) == [Own(x)[0]] <==> !Overtaken(next, events[k + 1..], cfg, chs, c, x.date))
  {
    k := AnnouncedOnce(s, events, cfg, chs, c);
    SplitAt(s, events, cfg, chs, k);
    StartedBefore(s, events, cfg, chs, k);
    QuietInv(s, cfg, chs);
    InvRun(s, events[..k], cfg, chs);
    AfterTheBlood(Run(s, events[..k], cfg, chs, true), events[k].txn, events[k + 1..], cfg, chs, c);
  }

  lemma {:induction false} SplitAt(s: Sys, events: seq<Event>, cfg: Cfg, chs: map<int, Challenge>, k: nat)
    requires k < |events|
    ensures var s1 := Run(s, events[..k], cfg, chs, true);
            && Run(s, events[..k + 1], cfg, chs, true) == Do(s1, events[k], cfg, chs, true)
            && Run(s, events, cfg, chs, true) == Run(Do(s1, events[k], cfg, chs, true), events[k + 1..], cfg, chs, true)
    decreases |events|
  {
    if k == 0 {
      assert events[..1] == [events[0]] && [events[0]][1..] == [];
    } else {
      SplitAt(Do(s, events[0], cfg, chs, true), events[1..], cfg, chs, k - 1);
      assert events[..k][1..] == events[1..][..k - 1] && events[..k + 1][1..] == events[1..][..k];
      assert events[k + 1..] == events[1..][k..];
    }
  }

  // Whoever starts after a step started no earlier than the transaction that takes it.
  lemma {:induction false} StartedBefore(s: Sys, events: seq<Event>, cfg: Cfg, chs: map<int, Challenge>, k: nat)
    requires s.txns == map[] && Forward(events) && k < |events| && events[k].Step?
    requires events[k].txn in Run(s, events[..k], cfg, chs, true).txns
    ensures StartsFrom(events[k + 1..], Run(s, events[..k], cfg, chs, true).txns[events[k].txn].date)
  {
    var i := DatedByItsStart(s, events[..k], cfg, chs, events[k].txn);
    assert events[..k][i] == events[i];
  }

  /**
   * What can be checked at the commit: with no older visible submission open on the challenge, the
   * announced solve is the derived one in every continuation.
   */
  lemma {:induction false} NobodyOlderOpen(s: Sys, events: seq<Event>, t: int, after: seq<Event>, cfg: Cfg, chs: map<int, Challenge>, c: int)
    requires Quiet(s, chs) && Forward(events + [Step(t)] + after)
    requires Blooding(Run(s, events, cfg, chs, true), t, chs, c)
    requires var s1 := Run(s, events, cfg, chs, true); forall o :: !Older(s1, cfg, c, s1.txns[t].date, o)
    ensures var x := Run(s, events, cfg, chs, true).txns[t];
            var end := Run(s, events + [Step(t)] + after, cfg, chs, true);
            && c in end.db && end.db[c].announced == [x.actor] && Derived(cfg, end.db[c].solves) == [Own(x)[0]]
  {
    var all, k := events + [Step(t)] + after, |events|;
    assert all[..k] == events && all[k] == Step(t) && all[k + 1..] == after;
    SplitAt(s, all, cfg, chs, k);
    StartedBefore(s, all, cfg, chs, k);
    QuietInv(s, cfg, chs);
    InvRun(s, events, cfg, chs);
    var s1 := Run(s, events, cfg, chs, true);
    AfterTheBlood(s1, t, after, cfg, chs, c);
    forall o ensures !Older(Do(s1, Step(t), cfg, chs, true), cfg, c, s1.txns[t].date, o) {
      if o in Do(s1, Step(t), cfg, chs, true).txns { OlderStep(s1, Step(t), cfg, chs, c, s1.txns[t].date, o); }
    }
  }
}
