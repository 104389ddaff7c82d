/**
 * Correct submissions, statement by statement, with any number of them interleaved.
 *
 * A transaction starts at its BEGIN, which fixes the date it will stamp; only those whose flag is found
 * correct are followed, from the statement after that: it locks the challenge row and re-reads it, inserts
 * the solve, counts, pays first blood, recomputes the price and commits. A statement sees what is committed plus its own transaction's writes. Accounts keep their
 * visibility and challenges their parameters for the whole run. With `locking` off the row lock is
 * dropped, which the code never does; the last lemma shows what would happen.
 */
module Submit {
  import opened Prelude
  import opened Decay

  datatype Actor = Actor(user: int, team: NullId)

  // The instance mode, and which accounts are neither hidden nor banned.
  datatype Cfg = Cfg(teams: bool, userShown: int -> bool, teamShown: int -> bool)

  // The column and its bonus, which a CHECK keeps together.
  datatype Blood = NoBlood | Announced | Bonus(points: int)

  // `base` is the stored value a static challenge keeps.
  datatype Challenge = Challenge(curve: Curve, base: int, blood: Blood)

  datatype Solve = Solve(actor: Actor, value: int, date: int)

  datatype Award = Award(actor: Actor, points: int)

  // What is committed for one challenge: its stored value, and three append-only tables in commit order.
  datatype Ledger = Ledger(value: int, solves: seq<Solve>, awards: seq<Award>, announced: seq<Actor>)

  datatype Pc = AtLock | AtSolve | AtCount | AtPay | AtRecalc | AtCommit

  // `date` is when the transaction began, which is what DEFAULT now() stamps.
  datatype Txn = Txn(challenge: int, actor: Actor, date: int, pc: Pc, price: int, solved: bool, first: bool, value: int)

  // What a finished call told its player.
  datatype Answer =
    | Correct(challenge: int, solve: Solve, first: bool)
    | AlreadySolved(challenge: int, actor: Actor)

  datatype Sys = Sys(db: map<int, Ledger>, locks: map<int, int>, txns: map<int, Txn>, answers: seq<Answer>)

  datatype Event = Start(txn: int, challenge: int, actor: Actor, date: int) | Step(txn: int) | Rollback(txn: int)

  // ── what the queries compute ────────────────────────────────────────────────

  predicate Shown(cfg: Cfg, a: Actor) {
    if cfg.teams then a.team.Id? && cfg.teamShown(a.team.id) else cfg.userShown(a.user)
  }

  // UNIQUE(challenge, user) or UNIQUE(challenge, team); NULL teams never collide.
  predicate Collide(a: Actor, b: Actor) {
    a.user == b.user || (a.team.Id? && a.team == b.team)
  }

  predicate HasSolve(solves: seq<Solve>, a: Actor) {
    exists i :: 0 <= i < |solves| && Collide(solves[i].actor, a)
  }

  function ShownCount(cfg: Cfg, solves: seq<Solve>): nat {
    if solves == [] then 0
    else ShownCount(cfg, solves[..|solves| - 1]) + (if Shown(cfg, solves[|solves| - 1].actor) then 1 else 0)
  }

  // What the challenge is worth with these solves.
  function PriceOf(cfg: Cfg, ch: Challenge, solves: seq<Solve>): int {
    if ch.curve.kind == Static then ch.base else Price(ch.curve, ShownCount(cfg, solves))
  }

  function Own(x: Txn): seq<Solve> {
    if x.solved then [Solve(x.actor, x.price, x.date)] else []
  }

  // ── the steps ───────────────────────────────────────────────────────────────

  function Unlock(locks: map<int, int>, t: int): map<int, int> {
    map c | c in locks && locks[c] != t :: locks[c]
  }

  function End(s: Sys, t: int): Sys {
    s.(locks := Unlock(s.locks, t), txns := s.txns - {t})
  }

  function Advance(s: Sys, t: int, x: Txn): Sys {
    s.(txns := s.txns[t := x])
  }

  // An uncommitted solve of another transaction holds the unique key; the insert waits for its outcome.
  predicate Waits(s: Sys, t: int, x: Txn) {
    exists o | o in s.txns && o != t && s.txns[o].solved ::
      s.txns[o].challenge == x.challenge && Collide(s.txns[o].actor, x.actor)
  }

  // Without the row lock two transactions could update one challenge; the last write would win.
  function Committed(cfg: Cfg, ch: Challenge, l: Ledger, x: Txn): Ledger {
    Ledger(if x.solved && ch.curve.kind != Static then x.value else l.value,
           l.solves + Own(x),
           if x.solved && x.first && ch.blood.Bonus? then l.awards + [Award(x.actor, ch.blood.points)] else l.awards,
           if x.solved && x.first then l.announced + [x.actor] else l.announced)
  }

  function AnswerOf(x: Txn): Answer {
    if x.solved then Correct(x.challenge, Solve(x.actor, x.price, x.date), x.first) else AlreadySolved(x.challenge, x.actor)
  }

  function Execute(s: Sys, t: int, cfg: Cfg, chs: map<int, Challenge>, locking: bool): Sys
    requires t in s.txns
  {
    var x := s.txns[t];
    if x.challenge !in s.db || x.challenge !in chs then End(s, t) // ErrChallengeNotFound
    else
      var l, ch := s.db[x.challenge], chs[x.challenge];
      match x.pc
      case AtLock =>
        if locking && x.challenge in s.locks && s.locks[x.challenge] != t then s
        else
          Advance(s, t, x.(pc := AtSolve, price := l.value))
          .(locks := if locking then s.locks[x.challenge := t] else s.locks)
      case AtSolve =>
        if Waits(s, t, x) then s
        else if HasSolve(l.solves, x.actor) then Advance(s, t, x.(pc := AtCommit)) // already solved
        else Advance(s, t, x.(pc := if ch.blood == NoBlood then AtRecalc else AtCount, solved := true))
      case AtCount =>
        Advance(s, t, x.(pc := AtPay, first := ShownCount(cfg, l.solves) == 0 && Shown(cfg, x.actor)))
      case AtPay =>
        // One first-blood award per challenge is a unique index; a second one raises.
        if x.first && ch.blood.Bonus? && l.awards != [] then End(s, t)
        else Advance(s, t, x.(pc := AtRecalc))
      case AtRecalc =>
        if ch.curve.kind == Static then Advance(s, t, x.(pc := AtCommit))
        else
          (match SqlValue(ch.curve, ShownCount(cfg, l.solves + Own(x)))
           case None => End(s, t) // bigint out of range: the submission is rolled back
           case Some(v) => Advance(s, t, x.(pc := AtCommit, value := v)))
      case AtCommit =>
        End(s.(db := s.db[x.challenge := Committed(cfg, ch, l, x)], answers := s.answers + [AnswerOf(x)]), t)
  }

  function Do(s: Sys, e: Event, cfg: Cfg, chs: map<int, Challenge>, locking: bool): Sys {
    match e
    case Start(t, c, a, date) =>
      // A teamless user in teams mode has no account to attribute a solve to.
      if t in s.txns || (cfg.teams && a.team.Null?) then s
      else Advance(s, t, Txn(c, a, date, AtLock, 0, false, false, 0))
    case Step(t) => if t in s.txns then Execute(s, t, cfg, chs, locking) else s
    case Rollback(t) => End(s, t)
  }

  function Run(s: Sys, events: seq<Event>, cfg: Cfg, chs: map<int, Challenge>, locking: bool): Sys
    decreases |events|
  {
    if events == [] then s else Run(Do(s, events[0], cfg, chs, locking), events[1..], cfg, chs, locking)
  }

  // ── what every run keeps ────────────────────────────────────────────────────

  // The first visible solver to commit, as a sequence of at most one.
  function FirstShown(cfg: Cfg, solves: seq<Solve>): (r: seq<Actor>)
    ensures |r| <= 1 && (r == [] <==> ShownCount(cfg, solves) == 0)
  {
    if solves == [] then []
    else
      var before := FirstShown(cfg, solves[..|solves| - 1]);
      var a := solves[|solves| - 1].actor;
      if before == [] && Shown(cfg, a) then [a] else before
  }

  /** UNIQUE(challenge, user) and UNIQUE(challenge, team) hold of the committed solves. */
  ghost predicate OneSolveEach(solves: seq<Solve>) {
    forall i, j :: 0 <= i < j < |solves| ==> !Collide(solves[i].actor, solves[j].actor)
  }

  /** Every solve was stamped with what the challenge was worth just before it. */
  ghost predicate Stamped(cfg: Cfg, ch: Challenge, solves: seq<Solve>) {
    forall i :: 0 <= i < |solves| ==> solves[i].value == PriceOf(cfg, ch, solves[..i])
  }

  function Bonuses(ch: Challenge, winners: seq<Actor>): seq<Award> {
    if winners != [] && ch.blood.Bonus? then [Award(winners[0], ch.blood.points)] else []
  }

  /** The committed rows of one challenge are a function of its solves, and the solves are well stamped. */
  ghost predicate LedgerOk(cfg: Cfg, ch: Challenge, l: Ledger) {
    && OneSolveEach(l.solves)
    && (cfg.teams ==> forall i :: 0 <= i < |l.solves| ==> l.solves[i].actor.team.Id?)
    && Stamped(cfg, ch, l.solves)
    && l.value == PriceOf(cfg, ch, l.solves)
    && l.announced == (if ch.blood == NoBlood then [] else FirstShown(cfg, l.solves))
    && l.awards == Bonuses(ch, l.announced)
  }

  ghost predicate SameKeys(s: Sys, chs: map<int, Challenge>) {
    forall c :: c in s.db <==> c in chs
  }

  ghost predicate TxnOk(s: Sys, t: int, cfg: Cfg, chs: map<int, Challenge>)
    requires t in s.txns && SameKeys(s, chs)
  {
    var x := s.txns[t];
    if x.pc == AtLock then !x.solved && !x.first && (cfg.teams ==> x.actor.team.Id?)
    else
      && (cfg.teams ==> x.actor.team.Id?)
      && x.challenge in s.db
      && x.challenge in s.locks && s.locks[x.challenge] == t
      && var l, ch := s.db[x.challenge], chs[x.challenge];
      && x.price == l.value
      && (x.pc == AtSolve ==> !x.solved)
      && (x.pc in {AtCount, AtPay, AtRecalc} ==> x.solved)
      && (x.solved ==> !HasSolve(l.solves, x.actor))
      && (x.pc == AtCount ==> ch.blood != NoBlood && !x.first)
      && (x.pc == AtSolve ==> !x.first)
      && (x.pc == AtPay ==> ch.blood != NoBlood)
      && (x.pc in {AtPay, AtRecalc, AtCommit} && x.solved ==>
            x.first == (ch.blood != NoBlood && ShownCount(cfg, l.solves) == 0 && Shown(cfg, x.actor)))
      && (x.pc == AtCommit && !x.solved ==> HasSolve(l.solves, x.actor))
      && (x.pc == AtCommit && x.solved && ch.curve.kind != Static ==>
            x.value == PriceOf(cfg, ch, l.solves + Own(x)))
  }

  /**
   * An answer stays true: a solver has their row, at the value they were told, and first blood exactly if
   * they were told so; one told "already solved" has a row of their account.
   */
  ghost predicate AnswerOk(db: map<int, Ledger>, a: Answer) {
    a.challenge in db &&
    match a
    case Correct(c, v, first) => v in db[c].solves && (first <==> db[c].announced == [v.actor])
    case AlreadySolved(c, actor) => HasSolve(db[c].solves, actor)
  }

  ghost predicate Inv(s: Sys, cfg: Cfg, chs: map<int, Challenge>) {
    && SameKeys(s, chs)
    && (forall c :: c in s.db ==> LedgerOk(cfg, chs[c], s.db[c]))
    && (forall t :: t in s.txns ==> TxnOk(s, t, cfg, chs))
    && (forall n :: 0 <= n < |s.answers| ==> AnswerOk(s.db, s.answers[n]))
  }

  // ── committing ──────────────────────────────────────────────────────────────

  // The ledger after one well-made solve: its stamp is the stored price, its blood was decided here.
  lemma {:induction false} AppendKeepsLedger(cfg: Cfg, ch: Challenge, l: Ledger, x: Txn)
    requires LedgerOk(cfg, ch, l) && x.solved && !HasSolve(l.solves, x.actor) && x.price == l.value
    requires x.first == (ch.blood != NoBlood && ShownCount(cfg, l.solves) == 0 && Shown(cfg, x.actor))
    requires ch.curve.kind != Static ==> x.value == PriceOf(cfg, ch, l.solves + Own(x))
    requires cfg.teams ==> x.actor.team.Id?
    ensures LedgerOk(cfg, ch, Committed(cfg, ch, l, x))
  {
    var v := Solve(x.actor, x.price, x.date);
    assert Own(x) == [v];
    StampOneMore(cfg, ch, l.solves, v);
  }

  lemma StampOneMore(cfg: Cfg, ch: Challenge, solves: seq<Solve>, v: Solve)
    requires Stamped(cfg, ch, solves) && v.value == PriceOf(cfg, ch, solves)
    ensures Stamped(cfg, ch, solves + [v])
  {
    var solves' := solves + [v];
    forall i | 0 <= i < |solves'| ensures solves'[i].value == PriceOf(cfg, ch, solves'[..i]) {
      assert solves'[..i] == solves[..i];
      assert i == |solves| ==> solves[..i] == solves;
    }
  }

  lemma {:induction false} FirstShownSolved(cfg: Cfg, solves: seq<Solve>)
    ensures forall a :: a in FirstShown(cfg, solves) ==> HasSolve(solves, a)
  {
    if solves != [] {
      var init := solves[..|solves| - 1];
      FirstShownSolved(cfg, init);
      forall a | a in FirstShown(cfg, solves) ensures HasSolve(solves, a) {
        if a in FirstShown(cfg, init) {
          var i :| 0 <= i < |init| && Collide(init[i].actor, a);
          assert solves[i] == init[i];
        } else {
          assert Collide(solves[|solves| - 1].actor, a);
        }
      }
    }
  }

  // What was told before a commit is true after it, and so is what the commit tells.
  lemma {:induction false} CommitKeepsAnswer(db: map<int, Ledger>, cfg: Cfg, ch: Challenge, x: Txn, a: Answer)
    requires x.challenge in db && LedgerOk(cfg, ch, db[x.challenge])
    requires x.solved ==> !HasSolve(db[x.challenge].solves, x.actor)
    requires x.solved ==> x.first == (ch.blood != NoBlood && ShownCount(cfg, db[x.challenge].solves) == 0 && Shown(cfg, x.actor))
    requires !x.solved ==> HasSolve(db[x.challenge].solves, x.actor)
    requires AnswerOk(db, a) || a == AnswerOf(x)
    ensures AnswerOk(db[x.challenge := Committed(cfg, ch, db[x.challenge], x)], a)
  {
    var l := db[x.challenge];
    var l' := Committed(cfg, ch, l, x);
    FirstShownSolved(cfg, l.solves);
    if a.challenge == x.challenge {
      GrownHas(l.solves, Own(x));
      if a.Correct? && a.solve in l.solves && x.solved {
        var i :| 0 <= i < |l.solves| && l.solves[i] == a.solve;
        assert !Collide(l.solves[i].actor, x.actor);
        assert x.first ==> l.announced == [] && l'.announced == [x.actor];
      } else if a.Correct? && x.solved {
        assert a.solve == Own(x)[0] && a.solve in l'.solves;
        assert x.actor !in l.announced;
        assert x.first ==> l.announced == [] && l'.announced == [x.actor];
      }
    }
  }

  lemma GrownHas(solves: seq<Solve>, more: seq<Solve>)
    ensures forall a :: HasSolve(solves, a) ==> HasSolve(solves + more, a)
  {
    forall a | HasSolve(solves, a) ensures HasSolve(solves + more, a) {
      var i :| 0 <= i < |solves| && Collide(solves[i].actor, a);
      assert (solves + more)[i] == solves[i];
    }
  }

  // Past the lock, another transaction works on another challenge.
  lemma OthersElsewhere(s: Sys, t: int, o: int, cfg: Cfg, chs: map<int, Challenge>)
    requires Inv(s, cfg, chs) && t in s.txns && o in s.txns && t != o
    requires s.txns[t].pc != AtLock && s.txns[o].pc != AtLock
    ensures s.txns[o].challenge != s.txns[t].challenge
  {
  }

  lemma CommitKeepsTxns(s: Sys, t: int, cfg: Cfg, chs: map<int, Challenge>)
    requires Inv(s, cfg, chs) && t in s.txns && s.txns[t].pc == AtCommit
    ensures var s' := Execute(s, t, cfg, chs, true);
            SameKeys(s', chs) && forall o :: o in s'.txns ==> TxnOk(s', o, cfg, chs)
  {
    var s' := Execute(s, t, cfg, chs, true);
    assert TxnOk(s, t, cfg, chs);
    forall o | o in s'.txns ensures TxnOk(s', o, cfg, chs) {
      assert TxnOk(s, o, cfg, chs);
      if s.txns[o].pc != AtLock { OthersElsewhere(s, t, o, cfg, chs); }
    }
  }

  lemma CommitKeepsAnswers(s: Sys, t: int, cfg: Cfg, chs: map<int, Challenge>)
    requires Inv(s, cfg, chs) && t in s.txns && s.txns[t].pc == AtCommit
    ensures var s' := Execute(s, t, cfg, chs, true);
            forall n :: 0 <= n < |s'.answers| ==> AnswerOk(s'.db, s'.answers[n])
  {
    var x, s' := s.txns[t], Execute(s, t, cfg, chs, true);
    assert TxnOk(s, t, cfg, chs);
    forall n | 0 <= n < |s'.answers| ensures AnswerOk(s'.db, s'.answers[n]) {
      CommitKeepsAnswer(s.db, cfg, chs[x.challenge], x, s'.answers[n]);
    }
  }

  lemma {:induction false} LedgerAfter(cfg: Cfg, ch: Challenge, l: Ledger, x: Txn)
    requires LedgerOk(cfg, ch, l) && (cfg.teams ==> x.actor.team.Id?)
    requires x.solved ==> !HasSolve(l.solves, x.actor) && x.price == l.value
    requires x.solved ==> x.first == (ch.blood != NoBlood && ShownCount(cfg, l.solves) == 0 && Shown(cfg, x.actor))
    requires x.solved && ch.curve.kind != Static ==> x.value == PriceOf(cfg, ch, l.solves + Own(x))
    ensures LedgerOk(cfg, ch, Committed(cfg, ch, l, x))
  {
    if x.solved { AppendKeepsLedger(cfg, ch, l, x); } else { assert Committed(cfg, ch, l, x) == l; }
  }

  lemma CommitKeepsInv(s: Sys, t: int, cfg: Cfg, chs: map<int, Challenge>)
    requires Inv(s, cfg, chs) && t in s.txns && s.txns[t].pc == AtCommit
    ensures Inv(Execute(s, t, cfg, chs, true), cfg, chs)
  {
    var x := s.txns[t];
    assert TxnOk(s, t, cfg, chs);
    LedgerAfter(cfg, chs[x.challenge], s.db[x.challenge], x);
    CommitKeepsTxns(s, t, cfg, chs);
    CommitKeepsAnswers(s, t, cfg, chs);
  }

  lemma EndKeepsInv(s: Sys, t: int, cfg: Cfg, chs: map<int, Challenge>)
    requires Inv(s, cfg, chs)
    ensures Inv(End(s, t), cfg, chs)
  {
  }

  // A statement that moves its own transaction on, and at most takes a lock nobody else holds.
  lemma AdvanceKeepsInv(s: Sys, t: int, x: Txn, locks: map<int, int>, cfg: Cfg, chs: map<int, Challenge>)
    requires Inv(s, cfg, chs)
    requires forall c :: c in s.locks && s.locks[c] != t ==> c in locks && locks[c] == s.locks[c]
    requires var s' := Advance(s, t, x).(locks := locks); TxnOk(s', t, cfg, chs)
    ensures Inv(Advance(s, t, x).(locks := locks), cfg, chs)
  {
  }

  lemma RecalcKeepsInv(s: Sys, t: int, cfg: Cfg, chs: map<int, Challenge>)
    requires Inv(s, cfg, chs) && t in s.txns && s.txns[t].pc == AtRecalc
    ensures Inv(Execute(s, t, cfg, chs, true), cfg, chs)
  {
    var x := s.txns[t];
    assert TxnOk(s, t, cfg, chs);
    var l, ch := s.db[x.challenge], chs[x.challenge];
    if ch.curve.kind == Static {
      AdvanceKeepsInv(s, t, x.(pc := AtCommit), s.locks, cfg, chs);
    } else {
      match SqlValue(ch.curve, ShownCount(cfg, l.solves + Own(x))) {
        case None => EndKeepsInv(s, t, cfg, chs);
        case Some(v) =>
          SqlIsThePrice(ch.curve, ShownCount(cfg, l.solves + Own(x)));
          assert Own(x.(pc := AtCommit, value := v)) == Own(x);
          AdvanceKeepsInv(s, t, x.(pc := AtCommit, value := v), s.locks, cfg, chs);
      }
    }
  }

  // An award is only ever attempted by the first visible solver, and then there is none yet.
  lemma PayKeepsInv(s: Sys, t: int, cfg: Cfg, chs: map<int, Challenge>)
    requires Inv(s, cfg, chs) && t in s.txns && s.txns[t].pc == AtPay
    ensures Execute(s, t, cfg, chs, true) == Advance(s, t, s.txns[t].(pc := AtRecalc))
    ensures Inv(Execute(s, t, cfg, chs, true), cfg, chs)
  {
  }

  lemma SolveKeepsInv(s: Sys, t: int, cfg: Cfg, chs: map<int, Challenge>)
    requires Inv(s, cfg, chs) && t in s.txns && s.txns[t].pc == AtSolve
    ensures Inv(Execute(s, t, cfg, chs, true), cfg, chs)
  {
    var x := s.txns[t];
    assert TxnOk(s, t, cfg, chs);
    var ch := chs[x.challenge];
    if !Waits(s, t, x) {
      if HasSolve(s.db[x.challenge].solves, x.actor) {
        AdvanceKeepsInv(s, t, x.(pc := AtCommit), s.locks, cfg, chs);
      } else {
        var pc := if ch.blood == NoBlood then AtRecalc else AtCount;
        AdvanceKeepsInv(s, t, x.(pc := pc, solved := true), s.locks, cfg, chs);
      }
    }
  }

  lemma ExecuteKeepsInv(s: Sys, t: int, cfg: Cfg, chs: map<int, Challenge>)
    requires Inv(s, cfg, chs) && t in s.txns
    ensures Inv(Execute(s, t, cfg, chs, true), cfg, chs)
  {
    var x := s.txns[t];
    assert TxnOk(s, t, cfg, chs);
    if x.challenge !in s.db { EndKeepsInv(s, t, cfg, chs); }
    else {
      match x.pc {
        case AtLock =>
          if !(x.challenge in s.locks && s.locks[x.challenge] != t) {
            var y := x.(pc := AtSolve, price := s.db[x.challenge].value);
            AdvanceKeepsInv(s, t, y, s.locks[x.challenge := t], cfg, chs);
          }
        case AtSolve => SolveKeepsInv(s, t, cfg, chs);
        case AtCount =>
          var first := ShownCount(cfg, s.db[x.challenge].solves) == 0 && Shown(cfg, x.actor);
          AdvanceKeepsInv(s, t, x.(pc := AtPay, first := first), s.locks, cfg, chs);
        case AtPay => PayKeepsInv(s, t, cfg, chs);
        case AtRecalc => RecalcKeepsInv(s, t, cfg, chs);
        case AtCommit => CommitKeepsInv(s, t, cfg, chs);
      }
    }
  }

  lemma StepKeepsInv(s: Sys, e: Event, cfg: Cfg, chs: map<int, Challenge>)
    requires Inv(s, cfg, chs)
    ensures Inv(Do(s, e, cfg, chs, true), cfg, chs)
  {
    match e {
      case Start(t, c, a, date) =>
        if t !in s.txns && !(cfg.teams && a.team.Null?) {
          AdvanceKeepsInv(s, t, Txn(c, a, date, AtLock, 0, false, false, 0), s.locks, cfg, chs);
        }
      case Step(t) => if t in s.txns { ExecuteKeepsInv(s, t, cfg, chs); }
      case Rollback(t) => EndKeepsInv(s, t, cfg, chs);
    }
  }

  lemma {:induction false} InvRun(s: Sys, events: seq<Event>, cfg: Cfg, chs: map<int, Challenge>)
    requires Inv(s, cfg, chs)
    ensures Inv(Run(s, events, cfg, chs, true), cfg, chs)
    decreases |events|
  {
    if events != [] {
      StepKeepsInv(s, events[0], cfg, chs);
      InvRun(Do(s, events[0], cfg, chs, true), events[1..], cfg, chs);
    }
  }

  // ── the results ─────────────────────────────────────────────────────────────

  // What a challenge looks like before anyone has solved it.
  function Fresh(ch: Challenge): Ledger {
    Ledger(if ch.curve.kind == Static then ch.base else ch.curve.initial, [], [], [])
  }

  ghost predicate Quiet(s: Sys, chs: map<int, Challenge>) {
    && s.txns == map[] && s.locks == map[] && s.answers == []
    && SameKeys(s, chs)
    && forall c :: c in s.db ==> Valid(chs[c].curve) && s.db[c] == Fresh(chs[c])
  }

  /**
   * In every interleaving of correct submissions, for every challenge: one solve per user and per
   * team, each stamped with the price just before it; the stored price is the curve at the visible
   * solve count; first blood is announced, and paid, for the first visible solver to commit and for
   * nobody else; and every player was told what the tables say.
   */
  lemma {:induction false} EveryRunKeepsTheLedger(s: Sys, events: seq<Event>, cfg: Cfg, chs: map<int, Challenge>)
    requires Quiet(s, chs)
    ensures var s' := Run(s, events, cfg, chs, true);
            && SameKeys(s', chs)
            && (forall c :: c in s'.db ==> LedgerOk(cfg, chs[c], s'.db[c]))
            && forall n :: 0 <= n < |s'.answers| ==> AnswerOk(s'.db, s'.answers[n])
  {
    forall c | c in s.db ensures LedgerOk(cfg, chs[c], s.db[c]) {
      FirstSolverPaysInitial(chs[c].curve);
    }
    InvRun(s, events, cfg, chs);
  }

  lemma StepOnlyAppends(s: Sys, e: Event, cfg: Cfg, chs: map<int, Challenge>, locking: bool, c: int)
    requires c in s.db
    ensures var s' := Do(s, e, cfg, chs, locking);
            && c in s'.db
            && s.db[c].solves <= s'.db[c].solves
            && s.db[c].awards <= s'.db[c].awards
            && s.db[c].announced <= s'.db[c].announced
            && s.answers <= s'.answers
  {
    if e.Step? && e.txn in s.txns && s.txns[e.txn].pc == AtCommit { CommitOnlyAppends(s, e.txn, cfg, chs, locking, c); }
  }

  lemma CommitOnlyAppends(s: Sys, t: int, cfg: Cfg, chs: map<int, Challenge>, locking: bool, c: int)
    requires c in s.db && t in s.txns && s.txns[t].pc == AtCommit
    ensures var s' := Execute(s, t, cfg, chs, locking);
            && c in s'.db
            && s.db[c].solves <= s'.db[c].solves
            && s.db[c].awards <= s'.db[c].awards
            && s.db[c].announced <= s'.db[c].announced
            && s.answers <= s'.answers
  {
  }

  /** No submission ever changes or removes a committed solve or award: the tables only grow. */
  lemma {:induction false} RowsAreNeverRewritten(s: Sys, events: seq<Event>, cfg: Cfg, chs: map<int, Challenge>, locking: bool, c: int)
    requires c in s.db
    ensures var s' := Run(s, events, cfg, chs, locking);
            && c in s'.db
            && s.db[c].solves <= s'.db[c].solves
            && s.db[c].awards <= s'.db[c].awards
            && s.db[c].announced <= s'.db[c].announced
            && s.answers <= s'.answers
    decreases |events|
  {
    if events != [] {
      StepOnlyAppends(s, events[0], cfg, chs, locking, c);
      RowsAreNeverRewritten(Do(s, events[0], cfg, chs, locking), events[1..], cfg, chs, locking, c);
    }
  }

  /** In every run the k-th visible solver is stamped with the curve at k - 1; the first one gets full price. */
  lemma {:induction false} KthVisibleStamp(s: Sys, events: seq<Event>, cfg: Cfg, chs: map<int, Challenge>, c: int, i: nat)
    requires Quiet(s, chs) && c in chs && chs[c].curve.kind != Static
    ensures c in Run(s, events, cfg, chs, true).db
    ensures var solves, curve := Run(s, events, cfg, chs, true).db[c].solves, chs[c].curve;
            i < |solves| && Shown(cfg, solves[i].actor) ==>
              var k := ShownCount(cfg, solves[..i + 1]);
              k >= 1 && solves[i].value == Price(curve, k - 1) && (k == 1 ==> solves[i].value == curve.initial)
  {
    EveryRunKeepsTheLedger(s, events, cfg, chs);
    var l := Run(s, events, cfg, chs, true).db[c];
    assert c in s.db && LedgerOk(cfg, chs[c], l);
    if i < |l.solves| { assert l.solves[..i + 1][..i] == l.solves[..i]; }
    FirstSolverPaysInitial(chs[c].curve);
  }

  lemma {:induction false} CountGrows(cfg: Cfg, solves: seq<Solve>, i: nat)
    requires i <= |solves|
    ensures ShownCount(cfg, solves[..i]) <= ShownCount(cfg, solves)
  {
    if i == |solves| {
      assert solves[..i] == solves;
    } else {
      CountGrows(cfg, solves[..|solves| - 1], i);
      assert solves[..|solves| - 1][..i] == solves[..i];
    }
  }

  /** In every run, nobody is paid more than an earlier committer, and the asking price is not above any stamp. */
  lemma {:induction false} StampsFall(s: Sys, events: seq<Event>, cfg: Cfg, chs: map<int, Challenge>, c: int, i: nat, j: nat)
    requires Quiet(s, chs) && c in chs
    ensures c in Run(s, events, cfg, chs, true).db
    ensures var l := Run(s, events, cfg, chs, true).db[c];
            i <= j < |l.solves| ==> l.solves[i].value >= l.solves[j].value >= l.value
  {
    EveryRunKeepsTheLedger(s, events, cfg, chs);
    var l, ch := Run(s, events, cfg, chs, true).db[c], chs[c];
    assert c in s.db && LedgerOk(cfg, ch, l);
    if i <= j < |l.solves| {
      assert l.solves[..j][..i] == l.solves[..i];
      CountGrows(cfg, l.solves[..j], i);
      CountGrows(cfg, l.solves, j);
      if ch.curve.kind != Static {
        PriceFalls(ch.curve, ShownCount(cfg, l.solves[..i]), ShownCount(cfg, l.solves[..j]));
        PriceFalls(ch.curve, ShownCount(cfg, l.solves[..j]), ShownCount(cfg, l.solves));
      }
    }
  }

  /** Who has first blood: the visible solver whom only hidden or banned ones committed before. */
  lemma {:induction false} FirstBloodWinner(cfg: Cfg, solves: seq<Solve>) returns (i: nat)
    requires ShownCount(cfg, solves) > 0
    ensures i < |solves| && Shown(cfg, solves[i].actor) && FirstShown(cfg, solves) == [solves[i].actor]
    ensures forall k :: 0 <= k < i ==> !Shown(cfg, solves[k].actor)
  {
    var before := solves[..|solves| - 1];
    if ShownCount(cfg, before) > 0 {
      i := FirstBloodWinner(cfg, before);
    } else {
      i := |solves| - 1;
      NobodyShown(cfg, before);
    }
  }

  lemma {:induction false} NobodyShown(cfg: Cfg, solves: seq<Solve>)
    ensures ShownCount(cfg, solves) == 0 <==> forall k :: 0 <= k < |solves| ==> !Shown(cfg, solves[k].actor)
  {
    if solves != [] {
      var before := solves[..|solves| - 1];
      NobodyShown(cfg, before);
      assert (forall k :: 0 <= k < |solves| ==> !Shown(cfg, solves[k].actor))
        <==> (forall k :: 0 <= k < |before| ==> !Shown(cfg, before[k].actor)) && !Shown(cfg, solves[|solves| - 1].actor);
    }
  }

  // ── two runs worth seeing ───────────────────────────────────────────────────

  lemma {:induction false} RunOneMore(s: Sys, events: seq<Event>, e: Event, cfg: Cfg, chs: map<int, Challenge>, locking: bool)
    ensures Run(s, events + [e], cfg, chs, locking) == Do(Run(s, events, cfg, chs, locking), e, cfg, chs, locking)
    decreases |events|
  {
    if events != [] {
      assert (events + [e])[0] == events[0] && (events + [e])[1..] == events[1..] + [e];
      RunOneMore(Do(s, events[0], cfg, chs, locking), events[1..], e, cfg, chs, locking);
    }
  }

  // One challenge, `1`, with a static value and announced first blood; everybody is visible.
  function Everyone(): Cfg { Cfg(false, u => true, t => true) }

  function Sample(): Challenge { Challenge(Curve(Static, 100, 0, 0), 100, Announced) }

  function Samples(): map<int, Challenge> { map[1 := Sample()] }

  function Player(u: int): Actor { Actor(u, Null) }

  function Empty(): Sys { Sys(map[1 := Fresh(Sample())], map[], map[], []) }

  ghost predicate Reaches(locking: bool, s: Sys) {
    exists events :: Run(Empty(), events, Everyone(), Samples(), locking) == s
  }

  // One event, ending where it is said to end.
  lemma Reach(locking: bool, s: Sys, e: Event, s': Sys)
    requires Reaches(locking, s) && Do(s, e, Everyone(), Samples(), locking) == s'
    ensures Reaches(locking, s')
  {
    var events :| Run(Empty(), events, Everyone(), Samples(), locking) == s;
    RunOneMore(Empty(), events, e, Everyone(), Samples(), locking);
  }

  function At(u: int, date: int, pc: Pc): Txn {
    Txn(1, Player(u), date, pc, if pc == AtLock then 0 else 100, pc !in {AtLock, AtSolve}, pc in {AtPay, AtRecalc, AtCommit}, 0)
  }

  // Without the lock a lone submission still runs through, reading the ledger as nobody had solved it.
  lemma UpToCommit(s: Sys, t: int, u: int, date: int)
    requires t in s.txns && s.txns[t] == At(u, date, AtLock) && s.db == map[1 := Fresh(Sample())]
    requires forall o :: o in s.txns && o != t ==> s.txns[o].actor.user != u && s.txns[o].actor.team.Null?
    requires Reaches(false, s)
    ensures Reaches(false, Advance(s, t, At(u, date, AtCommit)))
  {
    var s1, s2 := Advance(s, t, At(u, date, AtSolve)), Advance(s, t, At(u, date, AtCount));
    Reach(false, s, Step(t), s1);
    assert !Waits(s1, t, s1.txns[t]);
    Reach(false, s1, Step(t), s2);
    CountToCommit(s, t, u, date);
  }

  lemma CountToCommit(s: Sys, t: int, u: int, date: int)
    requires t in s.txns && s.db == map[1 := Fresh(Sample())]
    requires Reaches(false, Advance(s, t, At(u, date, AtCount)))
    ensures Reaches(false, Advance(s, t, At(u, date, AtCommit)))
  {
    var s2, s3 := Advance(s, t, At(u, date, AtCount)), Advance(s, t, At(u, date, AtPay));
    var s4 := Advance(s, t, At(u, date, AtRecalc));
    assert Shown(Everyone(), Player(u));
    Reach(false, s2, Step(t), s3);
    Reach(false, s3, Step(t), s4);
    Reach(false, s4, Step(t), Advance(s, t, At(u, date, AtCommit)));
  }

  /** With the row lock dropped, two players can both be announced as first blood. */
  lemma WithoutTheLockTwoFirstBloods()
    ensures exists s :: Reaches(false, s) && 1 in s.db && s.db[1].announced == [Player(7), Player(8)]
  {
    var s0 := Empty();
    assert Run(s0, [], Everyone(), Samples(), false) == s0;
    var s1 := Advance(s0, 10, At(7, 0, AtLock));
    Reach(false, s0, Start(10, 1, Player(7), 0), s1);
    var s2 := Advance(s1, 20, At(8, 1, AtLock));
    Reach(false, s1, Start(20, 1, Player(8), 1), s2);
    UpToCommit(s2, 10, 7, 0);
    var s3 := Advance(s2, 10, At(7, 0, AtCommit));
    UpToCommit(s3, 20, 8, 1);
    var s4 := Advance(s3, 20, At(8, 1, AtCommit));
    BothCommit(s4);
  }

  lemma BothCommit(s4: Sys)
    requires s4 == Sys(map[1 := Fresh(Sample())], map[], map[10 := At(7, 0, AtCommit), 20 := At(8, 1, AtCommit)], [])
    requires Reaches(false, s4)
    ensures exists s :: Reaches(false, s) && 1 in s.db && s.db[1].announced == [Player(7), Player(8)]
  {
    var s5 := Do(s4, Step(10), Everyone(), Samples(), false);
    Reach(false, s4, Step(10), s5);
    assert s5.db[1].announced == [] + [Player(7)] && s5.txns[20] == At(8, 1, AtCommit);
    var s6 := Do(s5, Step(20), Everyone(), Samples(), false);
    Reach(false, s5, Step(20), s6);
    assert s6.db[1].announced == [Player(7)] + [Player(8)];
  }

  /**
   * Dates are transaction starts, so even with the lock they need not follow the order of commits: the
   * first to commit, who has first blood, can carry the later date of two visible solves.
   */
  lemma FirstBloodCanCarryTheLaterDate()
    ensures exists s :: Reaches(true, s) && 1 in s.db
              && s.db[1].solves == [Solve(Player(8), 100, 1), Solve(Player(7), 100, 0)]
              && s.db[1].announced == [Player(8)]
  {
    var s0 := Empty();
    assert Run(s0, [], Everyone(), Samples(), true) == s0;
    var s1 := Advance(s0, 10, At(7, 0, AtLock));
    Reach(true, s0, Start(10, 1, Player(7), 0), s1);
    var s2 := Advance(s1, 20, At(8, 1, AtLock));
    Reach(true, s1, Start(20, 1, Player(8), 1), s2);
    var s3 := LockedRun(s2, 20, 8, 1);
    assert s3.txns[10] == At(7, 0, AtLock);
    var s4 := LockedRun(s3, 10, 7, 0);
  }

  // What one committed submission of the sample challenge adds.
  function Extended(l: Ledger, u: int, date: int): Ledger {
    l.(solves := l.solves + [Solve(Player(u), 100, date)],
       announced := if l.solves == [] then l.announced + [Player(u)] else l.announced)
  }

  predicate Alone(s: Sys, t: int, u: int) {
    && (forall o :: o in s.txns && o != t ==> !s.txns[o].solved)
    && (1 in s.db ==> !HasSolve(s.db[1].solves, Player(u)))
    && 1 !in s.locks
  }

  function Decided(u: int, date: int, pc: Pc, first: bool): Txn {
    At(u, date, pc).(first := first)
  }

  // With the lock, a submission that nobody is ahead of runs through and commits.
  lemma LockedRun(s: Sys, t: int, u: int, date: int) returns (end: Sys)
    requires t in s.txns && s.txns[t] == At(u, date, AtLock) && Alone(s, t, u)
    requires 1 in s.db && s.db == map[1 := s.db[1]] && s.db[1].value == 100
    requires Reaches(true, s)
    ensures Reaches(true, end) && end.db == map[1 := Extended(s.db[1], u, date)] && end.txns == s.txns - {t}
    ensures forall c :: c in end.locks ==> end.locks[c] != t && c in s.locks
  {
    var first := s.db[1].solves == [];
    LockedSteps(s, t, u, date);
    var held := Held(s, t, Decided(u, date, AtCommit, first));
    end := Do(held, Step(t), Everyone(), Samples(), true);
    Reach(true, held, Step(t), end);
    assert end.db[1] == Extended(s.db[1], u, date) && end.txns == s.txns - {t};
  }

  function Held(s: Sys, t: int, x: Txn): Sys {
    Advance(s, t, x).(locks := s.locks[1 := t])
  }

  lemma LockedSteps(s: Sys, t: int, u: int, date: int)
    requires t in s.txns && s.txns[t] == At(u, date, AtLock) && Alone(s, t, u)
    requires 1 in s.db && s.db[1].value == 100 && Reaches(true, s)
    ensures Reaches(true, Held(s, t, Decided(u, date, AtCommit, s.db[1].solves == [])))
  {
    var first := s.db[1].solves == [];
    var s1, s2 := Held(s, t, At(u, date, AtSolve)), Held(s, t, At(u, date, AtCount));
    var s3, s4 := Held(s, t, Decided(u, date, AtPay, first)), Held(s, t, Decided(u, date, AtRecalc, first));
    Reach(true, s, Step(t), s1);
    assert !Waits(s1, t, s1.txns[t]);
    HeldStep(s, t, s1, At(u, date, AtCount));
    assert Shown(Everyone(), Player(u));
    HeldStep(s, t, s2, Decided(u, date, AtPay, first));
    HeldStep(s, t, s3, Decided(u, date, AtRecalc, first));
    HeldStep(s, t, s4, Decided(u, date, AtCommit, first));
  }

  lemma HeldStep(s: Sys, t: int, from: Sys, x: Txn)
    requires t in from.txns && from == Held(s, t, from.txns[t]) && Reaches(true, from)
    requires Execute(from, t, Everyone(), Samples(), true) == Advance(from, t, x)
    ensures Reaches(true, Held(s, t, x))
  {
    assert Advance(from, t, x) == Held(s, t, x);
    Reach(true, from, Step(t), Held(s, t, x));
  }
}
