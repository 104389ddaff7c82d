/**
 * Handing out unique-flag instances, statement by statement.
 *
 * `IssueInstance` reads the account's row, locks the challenge's pool, assigns, and re-reads. The
 * assigning statement is two steps here, because under READ COMMITTED its snapshot is taken when it
 * starts and its INSERT is checked against what is committed when it writes. With `folded` the lock
 * is taken inside the statement, after its snapshot; the code never does that, and the last lemma
 * shows what would happen.
 *
 * `lockKey` is the hash the advisory lock is keyed by. Nothing is assumed of it: two challenges may
 * share a key.
 */
module Issuance {
  import opened Prelude

  datatype Instance = Instance(challenge: int, generation: nat)

  // The primary key of flag_issues.
  datatype Key = Key(challenge: int, account: int)

  // What a statement sees of the two tables.
  datatype Tables = Tables(pool: map<int, Instance>, issues: map<Key, int>)

  datatype Pc = AtRead | AtLock | AtSnapshot | AtInsert | AtReread | AtCommit

  // `pend` is this transaction's uncommitted flag_issues row.
  datatype Txn = Txn(key: Key, pc: Pc, seen: Tables, pend: NullId)

  // What a finished call told its caller. A call that came to the assigning statement carries that
  // statement's snapshot; Found is the row re-read after it assigned nothing.
  datatype Answer =
    | Held(key: Key, instance: int)
    | Found(key: Key, instance: int, seen: Tables)
    | Assigned(key: Key, instance: int, seen: Tables)
    | Exhausted(key: Key, seen: Tables)

  datatype Sys = Sys(db: Tables, locks: map<int, int>, txns: map<int, Txn>, answers: seq<Answer>, violated: bool)

  datatype Event =
    | Start(txn: int, key: Key)
    | Step(txn: int)
    | Rollback(txn: int)
    | Upload(instances: map<int, Instance>)

  predicate Taken(issues: map<Key, int>, i: int) {
    exists k | k in issues :: issues[k] == i
  }

  function Free(db: Tables, challenge: int): set<int> {
    set i | i in db.pool && db.pool[i].challenge == challenge && !Taken(db.issues, i)
  }

  // ORDER BY generation DESC, id.
  predicate Before(pool: map<int, Instance>, i: int, j: int)
    requires i in pool && j in pool
  {
    pool[i].generation > pool[j].generation || (pool[i].generation == pool[j].generation && i <= j)
  }

  predicate IsBest(pool: map<int, Instance>, ids: set<int>, i: int)
    requires forall j :: j in ids ==> j in pool
  {
    i in ids && forall j :: j in ids ==> Before(pool, i, j)
  }

  lemma {:induction false} BestExists(pool: map<int, Instance>, ids: set<int>)
    requires |ids| > 0 && forall j :: j in ids ==> j in pool
    ensures exists i :: IsBest(pool, ids, i)
  {
    var x := Pick(ids);
    var rest := ids - {x};
    assert forall j :: j in ids ==> j in rest || j == x;
    if |rest| == 0 {
      assert IsBest(pool, ids, x);
    } else {
      BestExists(pool, rest);
      var m :| IsBest(pool, rest, m);
      assert Before(pool, m, x) ==> IsBest(pool, ids, m);
      assert !Before(pool, m, x) ==> IsBest(pool, ids, x);
    }
  }

  // The `picked` CTE: the first free instance, or no row.
  function Picked(db: Tables, challenge: int): (r: NullId)
    ensures r.Null? <==> |Free(db, challenge)| == 0
    ensures r.Id? ==> IsBest(db.pool, Free(db, challenge), r.id)
  {
    var free := Free(db, challenge);
    if |free| == 0 then Null
    else
      BestExists(db.pool, free);
      var i :| IsBest(db.pool, free, i);
      Id(i)
  }

  function FirstPc(folded: bool): Pc { if folded then AtSnapshot else AtLock }

  // Commit and rollback release every lock of the transaction.
  function Unlock<K>(locks: map<K, int>, t: int): map<K, int> {
    map k | k in locks && locks[k] != t :: locks[k]
  }

  function End(s: Sys, t: int): Sys {
    s.(locks := Unlock(s.locks, t), txns := s.txns - {t})
  }

  function Advance(s: Sys, t: int, x: Txn): Sys {
    s.(txns := s.txns[t := x])
  }

  function Tell(s: Sys, a: Answer): Sys {
    s.(answers := s.answers + [a])
  }

  // Another transaction has an uncommitted row this insert would collide with.
  predicate Waits(s: Sys, t: int, key: Key, i: int) {
    exists o | o in s.txns && o != t && s.txns[o].pend.Id? :: s.txns[o].key == key || s.txns[o].pend == Id(i)
  }

  function Execute(s: Sys, t: int, lockKey: int -> int, folded: bool): Sys
    requires t in s.txns
  {
    var x := s.txns[t];
    match x.pc
    case AtRead =>
      if x.key in s.db.issues then End(Tell(s, Held(x.key, s.db.issues[x.key])), t)
      else Advance(s, t, x.(pc := FirstPc(folded)))
    case AtLock =>
      var k := lockKey(x.key.challenge);
      if k in s.locks && s.locks[k] != t then s
      else Advance(s, t, x.(pc := if folded then AtInsert else AtSnapshot)).(locks := s.locks[k := t])
    case AtSnapshot => Advance(s, t, x.(pc := if folded then AtLock else AtInsert, seen := s.db))
    case AtInsert =>
      (match Picked(x.seen, x.key.challenge)
       case Null => Advance(s, t, x.(pc := AtReread))
       case Id(i) =>
         if Waits(s, t, x.key, i) then s
         else if x.key in s.db.issues then Advance(s, t, x.(pc := AtReread))
         else if Taken(s.db.issues, i) then End(s, t).(violated := true)
         else Advance(s, t, x.(pc := AtReread, pend := Id(i))))
    case AtReread =>
      if x.pend.Id? || x.key in s.db.issues then Advance(s, t, x.(pc := AtCommit))
      else End(Tell(s, Exhausted(x.key, x.seen)), t)
    case AtCommit =>
      match x.pend
      case Id(i) =>
        End(Tell(s.(db := s.db.(issues := s.db.issues[x.key := i])), Assigned(x.key, i, x.seen)), t)
      case Null =>
        if x.key in s.db.issues then End(Tell(s, Found(x.key, s.db.issues[x.key], x.seen)), t) else End(s, t)
  }

  function Do(s: Sys, e: Event, lockKey: int -> int, folded: bool): Sys {
    match e
    case Start(t, key) => if t in s.txns then s else Advance(s, t, Txn(key, AtRead, Tables(map[], map[]), Null))
    case Step(t) => if t in s.txns then Execute(s, t, lockKey, folded) else s
    case Rollback(t) => End(s, t)
    // A pool upload commits as one statement; its ids come from a sequence, so they are new.
    case Upload(instances) =>
      if exists i | i in instances :: i in s.db.pool then s
      else s.(db := s.db.(pool := s.db.pool + instances))
  }

  function Run(s: Sys, events: seq<Event>, lockKey: int -> int, folded: bool): Sys
    decreases |events|
  {
    if events == [] then s else Run(Do(s, events[0], lockKey, folded), events[1..], lockKey, folded)
  }

  // ── the invariant ───────────────────────────────────────────────────────────

  /** No instance is held twice, and every held instance belongs to the challenge it is held for. */
  ghost predicate Exclusive(db: Tables) {
    && (forall k :: k in db.issues ==> db.issues[k] in db.pool && db.pool[db.issues[k]].challenge == k.challenge)
    && (forall k, l :: k in db.issues && l in db.issues && db.issues[k] == db.issues[l] ==> k == l)
  }

  // `db` extends `seen`: nothing was lost, and nothing was issued for this challenge since.
  ghost predicate Current(seen: Tables, db: Tables, challenge: int) {
    && (forall i :: i in seen.pool ==> i in db.pool && db.pool[i] == seen.pool[i])
    && (forall k :: k in seen.issues ==> k in db.issues && db.issues[k] == seen.issues[k])
    && (forall k :: k in db.issues && k.challenge == challenge ==> k in seen.issues)
  }

  ghost predicate TxnOk(s: Sys, t: int, lockKey: int -> int)
    requires t in s.txns
  {
    var x := s.txns[t];
    && (x.pc in {AtRead, AtLock} ==> x.pend == Null)
    && (x.pc !in {AtRead, AtLock} ==>
          lockKey(x.key.challenge) in s.locks && s.locks[lockKey(x.key.challenge)] == t)
    && (x.pc == AtSnapshot ==> x.pend == Null)
    && (x.pc in {AtInsert, AtReread, AtCommit} ==> Current(x.seen, s.db, x.key.challenge))
    && (x.pc == AtInsert ==> x.pend == Null)
    && (x.pend.Id? ==> x.pend == Picked(x.seen, x.key.challenge) && x.key !in s.db.issues)
    && (x.pc == AtReread && x.pend == Null ==>
          x.key in s.db.issues || Picked(x.seen, x.key.challenge) == Null)
    && (x.pc == AtCommit && x.pend == Null ==> x.key in s.db.issues)
  }

  /** What each answer was worth: the holder's row is there for good, a fresh one was the best free. */
  ghost predicate AnswerOk(db: Tables, a: Answer) {
    match a
    case Held(key, i) => key in db.issues && db.issues[key] == i
    case Found(key, i, seen) => key in db.issues && db.issues[key] == i && key in seen.issues
    case Assigned(key, i, seen) =>
      && key in db.issues && db.issues[key] == i
      && key !in seen.issues
      && (forall j :: j in Free(seen, key.challenge) ==> j in seen.pool)
      && IsBest(seen.pool, Free(seen, key.challenge), i)
    case Exhausted(key, seen) => key !in seen.issues && Free(seen, key.challenge) == {}
  }

  ghost predicate Inv(s: Sys, lockKey: int -> int) {
    && Exclusive(s.db)
    && !s.violated
    && (forall t :: t in s.txns ==> TxnOk(s, t, lockKey))
    && (forall n :: 0 <= n < |s.answers| ==> AnswerOk(s.db, s.answers[n]))
  }

  // A snapshot that is current for the challenge saw the picked instance free, and so is everyone else's.
  lemma PickedIsFree(x: Txn, db: Tables, i: int)
    requires Exclusive(db) && Current(x.seen, db, x.key.challenge) && Picked(x.seen, x.key.challenge) == Id(i)
    ensures i in db.pool && db.pool[i].challenge == x.key.challenge && !Taken(db.issues, i)
  {
  }

  // Past the lock, another transaction works on another challenge.
  lemma OthersElsewhere(s: Sys, lockKey: int -> int, t: int, o: int)
    requires Inv(s, lockKey) && t in s.txns && o in s.txns && t != o
    requires s.txns[t].pc !in {AtRead, AtLock} && s.txns[o].pc !in {AtRead, AtLock}
    ensures s.txns[o].key.challenge != s.txns[t].key.challenge
  {
  }

  lemma CommitKeepsInv(s: Sys, t: int, i: int, lockKey: int -> int)
    requires Inv(s, lockKey) && t in s.txns && s.txns[t].pc == AtCommit && s.txns[t].pend == Id(i)
    ensures Inv(Execute(s, t, lockKey, false), lockKey)
  {
    var x, s' := s.txns[t], Execute(s, t, lockKey, false);
    assert TxnOk(s, t, lockKey);
    PickedIsFree(x, s.db, i);
    assert Exclusive(s'.db) by {
      assert forall k :: k in s.db.issues ==> s.db.issues[k] != i;
    }
    forall o | o in s'.txns ensures TxnOk(s', o, lockKey) {
      assert TxnOk(s, o, lockKey);
      if s.txns[o].pc !in {AtRead, AtLock} { OthersElsewhere(s, lockKey, t, o); }
    }
    assert AnswerOk(s'.db, Assigned(x.key, i, x.seen));
  }

  // Ending a transaction frees only its own locks.
  lemma EndKeepsInv(s: Sys, t: int, lockKey: int -> int)
    requires Inv(s, lockKey)
    ensures Inv(End(s, t), lockKey)
  {
  }

  // A statement that only moves its own transaction on.
  lemma AdvanceKeepsInv(s: Sys, t: int, lockKey: int -> int)
    requires Inv(s, lockKey) && t in s.txns && s.txns[t].pc in {AtRead, AtLock, AtSnapshot}
    requires s.txns[t].pc == AtRead ==> s.txns[t].key !in s.db.issues
    ensures Inv(Execute(s, t, lockKey, false), lockKey)
  {
  }

  lemma InsertKeepsInv(s: Sys, t: int, lockKey: int -> int)
    requires Inv(s, lockKey) && t in s.txns && s.txns[t].pc == AtInsert
    ensures Inv(Execute(s, t, lockKey, false), lockKey)
  {
  }

  lemma UploadKeepsInv(s: Sys, instances: map<int, Instance>, lockKey: int -> int)
    requires Inv(s, lockKey) && forall i :: i in instances ==> i !in s.db.pool
    ensures Inv(s.(db := s.db.(pool := s.db.pool + instances)), lockKey)
  {
  }

  lemma StepKeepsInv(s: Sys, e: Event, lockKey: int -> int)
    requires Inv(s, lockKey)
    ensures Inv(Do(s, e, lockKey, false), lockKey)
  {
    match e {
      case Start(t, key) =>
        var s' := Do(s, e, lockKey, false);
        forall o | o in s'.txns ensures TxnOk(s', o, lockKey) { assert o in s.txns ==> TxnOk(s, o, lockKey); }
      case Rollback(t) => EndKeepsInv(s, t, lockKey);
      case Upload(instances) =>
        if forall i :: i in instances ==> i !in s.db.pool { UploadKeepsInv(s, instances, lockKey); }
      case Step(t) =>
        if t in s.txns {
          var x := s.txns[t];
          assert TxnOk(s, t, lockKey);
          if x.pc == AtInsert { InsertKeepsInv(s, t, lockKey); }
          else if x.pc == AtCommit && x.pend.Id? { CommitKeepsInv(s, t, x.pend.id, lockKey); }
          else if x.pc == AtReread { RereadKeepsInv(s, t, lockKey); }
          else if x.pc == AtCommit || (x.pc == AtRead && x.key in s.db.issues) {
            var a := if x.pc == AtRead then Held(x.key, s.db.issues[x.key]) else Found(x.key, s.db.issues[x.key], x.seen);
            EndKeepsInv(Tell(s, a), t, lockKey);
          } else { AdvanceKeepsInv(s, t, lockKey); }
        }
    }
  }

  lemma RereadKeepsInv(s: Sys, t: int, lockKey: int -> int)
    requires Inv(s, lockKey) && t in s.txns && s.txns[t].pc == AtReread
    ensures Inv(Execute(s, t, lockKey, false), lockKey)
  {
  }

  lemma {:induction false} InvRun(s: Sys, events: seq<Event>, lockKey: int -> int)
    requires Inv(s, lockKey)
    ensures Inv(Run(s, events, lockKey, false), lockKey)
    decreases |events|
  {
    if events != [] {
      StepKeepsInv(s, events[0], lockKey);
      InvRun(Do(s, events[0], lockKey, false), events[1..], lockKey);
    }
  }

  ghost predicate Quiet(s: Sys) {
    s.txns == map[] && s.answers == [] && !s.violated
  }

  /**
   * In every interleaving of first views and pool uploads: no instance is ever issued twice, the
   * UNIQUE(instance_id) error is never raised, a fresh issue is the best instance its snapshot had
   * free, and a call reports exhaustion only when its account held nothing and nothing was free.
   */
  lemma {:induction false} EveryIssueIsExclusive(s: Sys, events: seq<Event>, lockKey: int -> int)
    requires Quiet(s) && Exclusive(s.db)
    ensures var s' := Run(s, events, lockKey, false);
            && Exclusive(s'.db)
            && !s'.violated
            && forall n :: 0 <= n < |s'.answers| ==> AnswerOk(s'.db, s'.answers[n])
  {
    InvRun(s, events, lockKey);
  }

  /**
   * So of the calls that came to the assigning statement, one was given a row exactly when, on that
   * statement's snapshot, its account had none and some instance was free: zero rows mean already issued or
   * exhausted, and the caller is told which.
   */
  lemma {:induction false} ZeroRowsIff(s: Sys, events: seq<Event>, lockKey: int -> int, a: Answer)
    requires Quiet(s) && Exclusive(s.db) && a in Run(s, events, lockKey, false).answers && !a.Held?
    ensures a.Assigned? <==> a.key !in a.seen.issues && Free(a.seen, a.key.challenge) != {}
    ensures a.Found? <==> a.key in a.seen.issues
    ensures a.Exhausted? <==> a.key !in a.seen.issues && Free(a.seen, a.key.challenge) == {}
  {
    EveryIssueIsExclusive(s, events, lockKey);
    assert AnswerOk(Run(s, events, lockKey, false).db, a);
  }

  // ── why the lock is its own statement ───────────────────────────────────────

  lemma {:induction false} RunOneMore(s: Sys, events: seq<Event>, e: Event, lockKey: int -> int, folded: bool)
    ensures Run(s, events + [e], lockKey, folded) == Do(Run(s, events, lockKey, folded), e, lockKey, folded)
    decreases |events|
  {
    if events != [] {
      assert (events + [e])[0] == events[0] && (events + [e])[1..] == events[1..] + [e];
      RunOneMore(Do(s, events[0], lockKey, folded), events[1..], e, lockKey, folded);
    }
  }

  ghost predicate Reaches(s0: Sys, lockKey: int -> int, s: Sys) {
    exists events :: Run(s0, events, lockKey, true) == s
  }

  lemma Then(s0: Sys, lockKey: int -> int, s: Sys, e: Event)
    requires Reaches(s0, lockKey, s)
    ensures Reaches(s0, lockKey, Do(s, e, lockKey, true))
  {
    var events :| Run(s0, events, lockKey, true) == s;
    RunOneMore(s0, events, e, lockKey, true);
  }

  const CHALLENGE := 5

  // Two instances of one generation, nothing issued.
  function FreshPool(): Tables {
    Tables(map[1 := Instance(CHALLENGE, 1), 2 := Instance(CHALLENGE, 1)], map[])
  }

  function Pair(db: Tables, locks: map<int, int>, x: Txn, y: Txn): Sys {
    Sys(db, locks, map[10 := x, 20 := y], [], false)
  }

  lemma FreshPick()
    ensures Picked(FreshPool(), CHALLENGE) == Id(1)
  {
    var db := FreshPool();
    assert 1 in Free(db, CHALLENGE) && 2 in Free(db, CHALLENGE);
    assert Before(db.pool, Picked(db, CHALLENGE).id, 1);
  }

  // One statement of transaction 10 (or 20), ending where it is said to end.
  lemma Reach(s0: Sys, lockKey: int -> int, s: Sys, t: int, s': Sys)
    requires Reaches(s0, lockKey, s) && Do(s, Step(t), lockKey, true) == s'
    ensures Reaches(s0, lockKey, s')
  {
    Then(s0, lockKey, s, Step(t));
  }

  lemma StartBoth(s0: Sys, k: Key, l: Key, lockKey: int -> int)
    requires s0 == Sys(FreshPool(), map[], map[], [], false)
    ensures var none := Tables(map[], map[]);
            Reaches(s0, lockKey, Pair(FreshPool(), map[], Txn(k, AtRead, none, Null), Txn(l, AtRead, none, Null)))
  {
    var none := Tables(map[], map[]);
    assert Run(s0, [], lockKey, true) == s0;
    Then(s0, lockKey, s0, Start(10, k));
    Then(s0, lockKey, Do(s0, Start(10, k), lockKey, true), Start(20, l));
    assert Do(Do(s0, Start(10, k), lockKey, true), Start(20, l), lockKey, true)
        == Pair(FreshPool(), map[], Txn(k, AtRead, none, Null), Txn(l, AtRead, none, Null));
  }

  // Both first views have taken their snapshot of the untouched pool.
  lemma ReadsAndSnapshots10(k: Key, y: Txn, lockKey: int -> int)
    ensures var none := Tables(map[], map[]);
            var s := Pair(FreshPool(), map[], Txn(k, AtRead, none, Null), y);
            var s' := Pair(FreshPool(), map[], Txn(k, AtSnapshot, none, Null), y);
            && Do(s, Step(10), lockKey, true) == s'
            && Do(s', Step(10), lockKey, true) == Pair(FreshPool(), map[], Txn(k, AtLock, FreshPool(), Null), y)
  {
  }

  lemma ReadsAndSnapshots20(x: Txn, l: Key, lockKey: int -> int)
    ensures var none := Tables(map[], map[]);
            var s := Pair(FreshPool(), map[], x, Txn(l, AtRead, none, Null));
            var s' := Pair(FreshPool(), map[], x, Txn(l, AtSnapshot, none, Null));
            && Do(s, Step(20), lockKey, true) == s'
            && Do(s', Step(20), lockKey, true) == Pair(FreshPool(), map[], x, Txn(l, AtLock, FreshPool(), Null))
  {
  }

  // Both first views have taken their snapshot of the untouched pool.
  lemma BothSnapshots(s0: Sys, k: Key, l: Key, lockKey: int -> int)
    requires s0 == Sys(FreshPool(), map[], map[], [], false)
    ensures Reaches(s0, lockKey,
                    Pair(FreshPool(), map[], Txn(k, AtLock, FreshPool(), Null), Txn(l, AtLock, FreshPool(), Null)))
  {
    var db, none := FreshPool(), Tables(map[], map[]);
    var x, y := Txn(k, AtLock, db, Null), Txn(l, AtRead, none, Null);
    StartBoth(s0, k, l, lockKey);
    ReadsAndSnapshots10(k, y, lockKey);
    ReadsAndSnapshots20(x, l, lockKey);
    Reach(s0, lockKey, Pair(db, map[], Txn(k, AtRead, none, Null), y), 10, Pair(db, map[], Txn(k, AtSnapshot, none, Null), y));
    Reach(s0, lockKey, Pair(db, map[], Txn(k, AtSnapshot, none, Null), y), 10, Pair(db, map[], x, y));
    Reach(s0, lockKey, Pair(db, map[], x, y), 20, Pair(db, map[], x, Txn(l, AtSnapshot, none, Null)));
    Reach(s0, lockKey, Pair(db, map[], x, Txn(l, AtSnapshot, none, Null)), 20, Pair(db, map[], x, Txn(l, AtLock, db, Null)));
  }

  lemma LocksAndInserts10(k: Key, y: Txn, lockKey: int -> int)
    requires k.challenge == CHALLENGE && y.pend == Null
    ensures var db, held := FreshPool(), map[lockKey(CHALLENGE) := 10];
            && Do(Pair(db, map[], Txn(k, AtLock, db, Null), y), Step(10), lockKey, true)
               == Pair(db, held, Txn(k, AtInsert, db, Null), y)
            && Do(Pair(db, held, Txn(k, AtInsert, db, Null), y), Step(10), lockKey, true)
               == Pair(db, held, Txn(k, AtReread, db, Id(1)), y)
  {
    FreshPick();
  }

  lemma RereadsAndCommits10(k: Key, y: Txn, lockKey: int -> int)
    requires k.challenge == CHALLENGE
    ensures var db, held := FreshPool(), map[lockKey(CHALLENGE) := 10];
            var s := Pair(db, held, Txn(k, AtCommit, db, Id(1)), y);
            && Do(Pair(db, held, Txn(k, AtReread, db, Id(1)), y), Step(10), lockKey, true) == s
            && Do(s, Step(10), lockKey, true)
               == Sys(Tables(db.pool, map[k := 1]), map[], map[20 := y], [Assigned(k, 1, db)], false)
  {
    var db, held := FreshPool(), map[lockKey(CHALLENGE) := 10];
    var s' := Do(Pair(db, held, Txn(k, AtCommit, db, Id(1)), y), Step(10), lockKey, true);
    assert s'.locks == map[] && s'.txns == map[20 := y] && s'.db.issues == map[k := 1];
  }

  // The first one assigns and commits while the second waits for the lock.
  lemma FirstCommits(s0: Sys, k: Key, y: Txn, lockKey: int -> int)
    requires k.challenge == CHALLENGE && y.pend == Null
    requires Reaches(s0, lockKey, Pair(FreshPool(), map[], Txn(k, AtLock, FreshPool(), Null), y))
    ensures Reaches(s0, lockKey,
                    Sys(Tables(FreshPool().pool, map[k := 1]), map[], map[20 := y], [Assigned(k, 1, FreshPool())], false))
  {
    var db, held := FreshPool(), map[lockKey(CHALLENGE) := 10];
    LocksAndInserts10(k, y, lockKey);
    RereadsAndCommits10(k, y, lockKey);
    Reach(s0, lockKey, Pair(db, map[], Txn(k, AtLock, db, Null), y), 10, Pair(db, held, Txn(k, AtInsert, db, Null), y));
    Reach(s0, lockKey, Pair(db, held, Txn(k, AtInsert, db, Null), y), 10, Pair(db, held, Txn(k, AtReread, db, Id(1)), y));
    Reach(s0, lockKey, Pair(db, held, Txn(k, AtReread, db, Id(1)), y), 10, Pair(db, held, Txn(k, AtCommit, db, Id(1)), y));
    Reach(s0, lockKey, Pair(db, held, Txn(k, AtCommit, db, Id(1)), y), 10,
          Sys(Tables(db.pool, map[k := 1]), map[], map[20 := y], [Assigned(k, 1, db)], false));
  }

  /** Taking the lock inside the assigning statement: two first views, and the UNIQUE error is raised. */
  lemma FoldedLockViolates(lockKey: int -> int)
    ensures exists s :: Reaches(Sys(FreshPool(), map[], map[], [], false), lockKey, s) && s.violated
  {
    var db, s0 := FreshPool(), Sys(FreshPool(), map[], map[], [], false);
    var k, l := Key(CHALLENGE, 100), Key(CHALLENGE, 200);
    var y := Txn(l, AtLock, db, Null);
    BothSnapshots(s0, k, l, lockKey);
    FirstCommits(s0, k, y, lockKey);
    var s1 := Sys(Tables(db.pool, map[k := 1]), map[], map[20 := y], [Assigned(k, 1, db)], false);
    SecondViolates(s1, k, l, lockKey);
    Then(s0, lockKey, s1, Step(20));
    Then(s0, lockKey, Do(s1, Step(20), lockKey, true), Step(20));
  }

  // The second one then takes the lock and writes what its old snapshot picked.
  lemma SecondViolates(s1: Sys, k: Key, l: Key, lockKey: int -> int)
    requires l == Key(CHALLENGE, 200) && k != l && s1.db == Tables(FreshPool().pool, map[k := 1])
    requires s1.locks == map[] && s1.txns == map[20 := Txn(l, AtLock, FreshPool(), Null)]
    ensures Do(Do(s1, Step(20), lockKey, true), Step(20), lockKey, true).violated
  {
    var s2 := Do(s1, Step(20), lockKey, true);
    assert s2.txns[20] == Txn(l, AtInsert, FreshPool(), Null) && s2.db == s1.db;
    FreshPick();
    assert s2.db.issues[k] == 1 && Taken(s2.db.issues, 1);
  }
}
