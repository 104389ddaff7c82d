/**
 * The last-admin protocol, statement by statement.
 *
 * Every transaction runs at READ COMMITTED: each statement sees the latest committed rows plus its
 * own transaction's writes, an UPDATE waits while another transaction has an uncommitted version of
 * the row, and all locks go at commit or rollback. `Run` executes an arbitrary schedule of
 * statements, so a property of every `Run` is a property of every interleaving.
 *
 * `useLock` says whether lockAdminRoster excludes; it is false only in the run that shows why the
 * lock is there.
 */
module AdminRoster {
  import opened Prelude
  import opened Roster

  datatype Op =
    | SetRole(user: int, admin: bool)
    | SetBanned(actor: int, user: int, ban: bool)
    | BanTeam(actor: int, team: int, ban: bool)
    | MoveMember(from: int, user: int, to: int)
    | RemoveMember(from: int, user: int)
    | JoinTeam(to: int, user: int)

  datatype Refusal =
    | LastAdmin | UserNotFound | TeamNotFound | SelfBan | SelfTeamBan | SameTeam
    | NotOnTeam | NotEnrolled | JoinDenied | ActorNotFound

  // The statement a transaction executes next.
  datatype Pc = AtLock | AtTarget | AtActor | AtTeam | AtCount | AtUpdate | AtDetach | AtReseat | AtEnrol | AtAdopt | AtCommit

  datatype Txn = Txn(op: Op, pc: Pc, pend: Writes)

  datatype Sys = Sys(db: Db, lock: NullId, txns: map<int, Txn>)

  datatype Event = Start(txn: int, op: Op) | Step(txn: int) | Rollback(txn: int)

  datatype Reply = Next(pc: Pc, writes: Writes) | Refuse(why: Refusal)

  // What the service checks before it opens a transaction.
  predicate RefusedUpFront(op: Op) {
    (op.SetBanned? && op.ban && op.actor == op.user) || (op.MoveMember? && op.from == op.to)
  }

  // The paths that can cost the instance an admin queue on the roster lock; the rest never take it.
  predicate TakesLock(op: Op) {
    match op
    case SetRole(_, admin) => !admin
    case SetBanned(_, _, ban) => ban
    case BanTeam(_, _, ban) => ban
    case MoveMember(_, _, _) => true
    case RemoveMember(_, _) => false
    case JoinTeam(_, _) => false
  }

  function FirstPc(op: Op): Pc {
    if TakesLock(op) then AtLock
    else if op.RemoveMember? then AtDetach
    else if op.JoinTeam? then AtTeam
    else AtUpdate
  }

  function AfterLock(op: Op): Pc {
    match op
    case SetRole(_, _) => AtCount
    case BanTeam(_, _, _) => AtActor
    case _ => AtTarget
  }

  // Where a transaction that may proceed does its first write.
  function WritePc(op: Op): Pc {
    if op.MoveMember? then AtDetach else AtUpdate
  }

  /** One statement of `op`, executed against the database as its transaction sees it. */
  function Statement(db: Db, op: Op, pc: Pc): Reply {
    match pc
    case AtLock => Next(AfterLock(op), NO_WRITES)
    case AtCommit => Next(AtCommit, NO_WRITES)
    case AtTarget =>
      if !(op.SetBanned? || op.MoveMember?) then Refuse(UserNotFound)
      else if op.user !in db.users then Refuse(UserNotFound)
      else if !db.users[op.user].admin || db.users[op.user].banned then Next(WritePc(op), NO_WRITES)
      else Next(if op.MoveMember? then AtTeam else AtCount, NO_WRITES)
    case AtActor =>
      if !op.BanTeam? then Refuse(ActorNotFound)
      else if op.actor !in db.users then Refuse(ActorNotFound)
      else if db.users[op.actor].team == Id(op.team) then Refuse(SelfTeamBan)
      else Next(AtCount, NO_WRITES)
    case AtTeam =>
      if op.JoinTeam? then
        if op.to !in db.teams || db.teams[op.to].banned then Refuse(JoinDenied) else Next(AtEnrol, NO_WRITES)
      else if !op.MoveMember? || op.to !in db.teams then Refuse(TeamNotFound)
      else Next(if db.teams[op.to].banned then AtCount else AtDetach, NO_WRITES)
    case AtCount =>
      var remaining := if op.BanTeam? then CountAdminsOutsideTeam(db, op.team)
                       else if op.JoinTeam? then 0 else CountOtherAdmins(db, op.user);
      if remaining == 0 then Refuse(LastAdmin) else Next(WritePc(op), NO_WRITES)
    case AtUpdate =>
      var w := match op
               case SetRole(u, admin) => SetUserAdmin(db, u, admin)
               case SetBanned(_, u, ban) => SetUserBanned(db, u, ban)
               case BanTeam(_, t, ban) => SetTeamBanned(db, t, ban)
               case _ => NO_WRITES;
      if w == NO_WRITES then Refuse(if op.BanTeam? then TeamNotFound else UserNotFound)
      else Next(AtCommit, w)
    case AtDetach =>
      if !(op.MoveMember? || op.RemoveMember?) then Refuse(NotOnTeam)
      else if Detach(db, op.user, op.from) != NO_WRITES then Next(AtReseat, Detach(db, op.user, op.from))
      else if op.from !in db.teams then Refuse(TeamNotFound)
      else if op.user !in db.users then Refuse(UserNotFound)
      else Refuse(NotOnTeam)
    case AtReseat =>
      if !(op.MoveMember? || op.RemoveMember?) then Refuse(NotOnTeam)
      else Next(if op.MoveMember? then AtEnrol else AtCommit, Reseat(db, op.from, op.user))
    case AtEnrol =>
      if !(op.MoveMember? || op.JoinTeam?) then Refuse(NotEnrolled)
      else if Enrol(db, op.user, op.to) == NO_WRITES then Refuse(NotEnrolled)
      else if op.to !in db.teams then Refuse(TeamNotFound)
      else Next(AtAdopt, Enrol(db, op.user, op.to))
    case AtAdopt =>
      if !(op.MoveMember? || op.JoinTeam?) then Refuse(NotEnrolled)
      else Next(AtCommit, Adopt(db, op.user, op.to))
  }

  function View(s: Sys, t: int): Db
    requires t in s.txns
  {
    Apply(s.db, s.txns[t].pend)
  }

  // Another transaction holds an uncommitted version of a row this statement would write.
  predicate Waits(s: Sys, t: int, w: Writes) {
    exists other | other in s.txns && other != t :: !Apart(s.txns[other].pend, w)
  }

  // No row is in both.
  predicate Apart(w: Writes, v: Writes) {
    && (forall u | u in w.users :: u !in v.users)
    && (forall t | t in w.teams :: t !in v.teams)
  }

  function End(s: Sys, t: int): Sys {
    s.(lock := if s.lock == Id(t) then Null else s.lock, txns := s.txns - {t})
  }

  function Do(s: Sys, e: Event, useLock: bool): Sys {
    match e
    case Start(t, op) =>
      if t in s.txns || RefusedUpFront(op) then s
      else s.(txns := s.txns[t := Txn(op, FirstPc(op), NO_WRITES)])
    case Rollback(t) => End(s, t)
    case Step(t) => if t in s.txns then Execute(s, t, useLock) else s
  }

  function Execute(s: Sys, t: int, useLock: bool): Sys
    requires t in s.txns
  {
    var x := s.txns[t];
    if x.pc == AtCommit then End(s.(db := Apply(s.db, x.pend)), t)
    else if x.pc == AtLock && useLock && s.lock.Id? && s.lock != Id(t) then s
    else
      match Statement(View(s, t), x.op, x.pc)
      case Refuse(_) => End(s, t)
      case Next(pc, w) =>
        if Waits(s, t, w) then s
        else s.(lock := if x.pc == AtLock && useLock then Id(t) else s.lock,
                txns := s.txns[t := Txn(x.op, pc, Also(x.pend, w))])
  }

  function Run(s: Sys, events: seq<Event>, useLock: bool): Sys
    decreases |events|
  {
    if events == [] then s else Run(Do(s, events[0], useLock), events[1..], useLock)
  }

  // ── the invariant ───────────────────────────────────────────────────────────

  predicate Standing(db: Db, u: int) {
    u in db.users && db.users[u].admin && !db.users[u].banned
  }

  predicate Barred(db: Db, team: NullId) {
    team.Id? && team.id in db.teams && db.teams[team.id].banned
  }

  // Committing these rows can neither disable a usable admin nor move one anywhere but to an open `to`.
  ghost predicate Harmless(db: Db, w: Writes, to: NullId) {
    && (forall u :: u in w.users ==> u in db.users)
    && (forall t :: t in w.teams ==> t in db.teams)
    && (forall u :: u in w.users && Standing(db, u) ==>
          && w.users[u].admin && !w.users[u].banned
          && (w.users[u].team == db.users[u].team || w.users[u].team.Null? || (w.users[u].team == to && !Barred(db, to))))
    && (forall t :: t in w.teams && w.teams[t].banned ==> db.teams[t].banned)
  }

  // What a self-serve join may have pending: its user's row, moved to the team, and the team's seat.
  ghost predicate Joining(db: Db, op: Op, w: Writes)
    requires op.JoinTeam?
  {
    && (forall u :: u in w.users ==> u == op.user && u in db.users && w.users[u] == db.users[u].(team := Id(op.to)))
    && (forall t :: t in w.teams ==> t == op.to && t in db.teams && w.teams[t].banned == db.teams[t].banned)
  }

  // An admin this operation leaves standing. A move may instead carry its own admin to an open team.
  ghost predicate Spares(db: Db, op: Op) {
    match op
    case BanTeam(_, team, _) => exists w :: Usable(db, w) && db.users[w].team != Id(team)
    case MoveMember(_, user, to) => SparesOther(db, user) || OpenMove(db, user, to)
    case SetRole(user, _) => SparesOther(db, user)
    case SetBanned(_, user, _) => SparesOther(db, user)
    case _ => true
  }

  ghost predicate SparesOther(db: Db, user: int) {
    exists w :: Usable(db, w) && w != user
  }

  ghost predicate OpenMove(db: Db, user: int, to: int) {
    && user in db.users && db.users[user].admin && !db.users[user].banned
    && to in db.teams && !db.teams[to].banned
  }

  predicate Writing(pc: Pc) {
    pc in {AtUpdate, AtDetach, AtReseat, AtEnrol, AtAdopt, AtCommit}
  }

  // What a transaction that took the lock may have pending.
  ghost predicate Confined(db: Db, op: Op, w: Writes) {
    && (forall u :: u in w.users ==> u in db.users)
    && (forall t :: t in w.teams ==> t in db.teams)
    && match op
       case SetRole(user, _) => (forall u :: u in w.users ==> u == user) && w.teams == map[]
       case SetBanned(_, user, _) => (forall u :: u in w.users ==> u == user) && w.teams == map[]
       case BanTeam(_, team, _) => w.users == map[] && (forall t :: t in w.teams ==> t == team)
       case MoveMember(_, user, to) =>
         && (forall u :: u in w.users ==> u == user)
         && (user in w.users ==>
               && w.users[user].admin == db.users[user].admin
               && w.users[user].banned == db.users[user].banned
               && (w.users[user].team == Null || w.users[user].team == Id(to)))
         && (forall t :: t in w.teams ==> w.teams[t].banned == db.teams[t].banned)
       case _ => false
  }

  predicate Arrived(x: Txn)
    requires x.op.MoveMember?
  {
    x.op.user in x.pend.users && x.pend.users[x.op.user].team == Id(x.op.to)
  }

  predicate Banning(w: Writes, team: int) { team in w.teams && w.teams[team].banned }

  ghost predicate TxnOk(db: Db, x: Txn) {
    if x.op.JoinTeam? then
      && Joining(db, x.op, x.pend)
      && (if x.pc in {AtAdopt, AtCommit} then x.op.user in x.pend.users else x.pend == NO_WRITES)
    else if !TakesLock(x.op) then
      Harmless(db, x.pend, Null)
    else if Writing(x.pc) then
      && Spares(db, x.op)
      && Confined(db, x.op, x.pend)
      && (x.op.BanTeam? ==> (x.pc == AtUpdate && x.pend == NO_WRITES) || (x.pc == AtCommit && Banning(x.pend, x.op.team)))
      && (x.op.MoveMember? && x.pc in {AtAdopt, AtCommit} ==> Arrived(x))
    else
      && x.pend == NO_WRITES
      && (x.op.MoveMember? && x.pc in {AtTeam, AtCount} ==>
            x.op.user in db.users && db.users[x.op.user].admin && !db.users[x.op.user].banned)
  }

  ghost predicate Disjoint(s: Sys) {
    forall t, v :: t in s.txns && v in s.txns && t != v ==> Apart(s.txns[t].pend, s.txns[v].pend)
  }

  // Past its first statement, a path that takes the lock holds it.
  ghost predicate Queued(s: Sys) {
    forall t :: t in s.txns && TakesLock(s.txns[t].op) && s.txns[t].pc != AtLock ==> s.lock == Id(t)
  }

  ghost predicate Inv(s: Sys) {
    && HasUsableAdmin(s.db)
    && Disjoint(s)
    && Queued(s)
    && forall t :: t in s.txns ==> TxnOk(s.db, s.txns[t])
  }

  // A ban of this team that has counted the admins off it, and not yet committed.
  predicate Counted(x: Txn, team: int) {
    x.op.BanTeam? && x.op.ban && x.op.team == team && Writing(x.pc)
  }

  // The one thing the schedule must not do: let an admin's self-serve join commit to a team that is banned
  // by then, or that an open ban has counted without them.
  predicate LateJoin(s: Sys, e: Event) {
    && e.Step? && e.txn in s.txns && s.txns[e.txn].op.JoinTeam? && s.txns[e.txn].pc == AtCommit
    && var op := s.txns[e.txn].op;
    && Standing(s.db, op.user)
    && (Barred(s.db, Id(op.to)) || exists b | b in s.txns :: Counted(s.txns[b], op.to))
  }

  predicate NoLateJoins(s: Sys, events: seq<Event>)
    decreases |events|
  {
    events == [] || (!LateJoin(s, events[0]) && NoLateJoins(Do(s, events[0], true), events[1..]))
  }

  // ── commits ─────────────────────────────────────────────────────────────────

  // A user whose row is not rewritten stays usable unless a commit bans the team the row names.
  lemma StaysUsable(db: Db, w: Writes, u: int)
    requires Usable(db, u) && u !in w.users
    requires db.users[u].team.Id? && db.users[u].team.id in w.teams && w.teams[db.users[u].team.id].banned ==>
               db.users[u].team.id in db.teams && db.teams[db.users[u].team.id].banned
    ensures Usable(Apply(db, w), u) && Apply(db, w).users[u] == db.users[u]
  {
  }

  lemma HarmlessCommit(db: Db, w: Writes, to: NullId, u: int)
    requires Harmless(db, w, to) && Usable(db, u)
    ensures Usable(Apply(db, w), u)
    ensures var team := Apply(db, w).users[u].team; team == db.users[u].team || team.Null? || team == to
  {
  }

  // A commit that disturbs neither this transaction's rows nor its witness leaves it sound.
  lemma StableUnderHarmless(db: Db, w: Writes, to: NullId, x: Txn)
    requires Harmless(db, w, to) && TxnOk(db, x) && Apart(x.pend, w)
    requires x.op.BanTeam? && Counted(x, x.op.team) ==> to != Id(x.op.team)
    ensures TxnOk(Apply(db, w), x)
  {
    var db' := Apply(db, w);
    if TakesLock(x.op) && Writing(x.pc) {
      assert Spares(db', x.op) by {
        if x.op.BanTeam? {
          var v :| Usable(db, v) && db.users[v].team != Id(x.op.team);
          HarmlessCommit(db, w, to, v);
        } else if SparesOther(db, x.op.user) {
          var v :| Usable(db, v) && v != x.op.user;
          HarmlessCommit(db, w, to, v);
        }
      }
    }
  }

  // A join that is not late commits harmlessly: its user is no admin, or stands on an open team.
  lemma TimelyJoin(s: Sys, t: int) returns (to: NullId)
    requires t in s.txns && s.txns[t].op.JoinTeam? && s.txns[t].pc == AtCommit
    requires TxnOk(s.db, s.txns[t]) && !LateJoin(s, Step(t))
    ensures Harmless(s.db, s.txns[t].pend, to)
    ensures forall b :: b in s.txns && s.txns[b].op.BanTeam? && Counted(s.txns[b], s.txns[b].op.team) ==> to != Id(s.txns[b].op.team)
  {
    to := if Standing(s.db, s.txns[t].op.user) then Id(s.txns[t].op.to) else Null;
  }

  // The holder's own commit: what it spares is still standing afterwards.
  lemma SparingCommit(db: Db, x: Txn)
    requires TakesLock(x.op) && x.pc == AtCommit && TxnOk(db, x)
    ensures HasUsableAdmin(Apply(db, x.pend))
  {
    if x.op.BanTeam? {
      var w :| Usable(db, w) && db.users[w].team != Id(x.op.team);
      StaysUsable(db, x.pend, w);
    } else if SparesOther(db, x.op.user) {
      var w :| Usable(db, w) && w != x.op.user;
      StaysUsable(db, x.pend, w);
    } else {
      assert Usable(Apply(db, x.pend), x.op.user);
    }
  }

  // Rows a commit does not touch keep their standing.
  lemma UnlockedApart(db: Db, w: Writes, x: Txn)
    requires !TakesLock(x.op) && TxnOk(db, x) && Apart(x.pend, w)
    requires (forall u :: u in w.users ==> u in db.users) && (forall t :: t in w.teams ==> t in db.teams)
    ensures TxnOk(Apply(db, w), x)
  {
  }

  lemma CommitKeepsInv(s: Sys, t: int)
    requires Inv(s) && t in s.txns && s.txns[t].pc == AtCommit && !LateJoin(s, Step(t))
    ensures Inv(Execute(s, t, true))
  {
    var x, s' := s.txns[t], Execute(s, t, true);
    if TakesLock(x.op) {
      SparingCommit(s.db, x);
      forall v | v in s'.txns ensures TxnOk(s'.db, s'.txns[v]) {
        // x holds the roster lock, so whoever needs it is still waiting for it.
        if !TakesLock(s.txns[v].op) { UnlockedApart(s.db, x.pend, s.txns[v]); } else { assert s.txns[v].pc == AtLock; }
      }
    } else {
      var to := Null;
      if x.op.JoinTeam? { to := TimelyJoin(s, t); }
      var w :| Usable(s.db, w);
      HarmlessCommit(s.db, x.pend, to, w);
      forall v | v in s'.txns ensures TxnOk(s'.db, s'.txns[v]) {
        StableUnderHarmless(s.db, x.pend, to, s.txns[v]);
      }
    }
  }

  lemma JoinStatement(db: Db, x: Txn)
    requires x.op.JoinTeam? && x.pc != AtCommit && TxnOk(db, x) && Statement(Apply(db, x.pend), x.op, x.pc).Next?
    ensures var r := Statement(Apply(db, x.pend), x.op, x.pc); TxnOk(db, Txn(x.op, r.pc, Also(x.pend, r.writes)))
  {
    assert x.pend == NO_WRITES ==> Apply(db, x.pend) == db;
  }

  // What a path that never takes the lock writes is harmless.
  lemma UnlockedStatement(db: Db, x: Txn)
    requires !TakesLock(x.op) && !x.op.JoinTeam? && TxnOk(db, x) && Statement(Apply(db, x.pend), x.op, x.pc).Next?
    ensures var r := Statement(Apply(db, x.pend), x.op, x.pc); TxnOk(db, Txn(x.op, r.pc, Also(x.pend, r.writes)))
  {
  }

  // What a path that holds the lock establishes before it writes, and keeps while it does.
  lemma LockedStatement(db: Db, x: Txn)
    requires HasUsableAdmin(db) && TakesLock(x.op) && x.pc !in {AtLock, AtCommit} && TxnOk(db, x)
    requires Statement(Apply(db, x.pend), x.op, x.pc).Next?
    ensures var r := Statement(Apply(db, x.pend), x.op, x.pc); TxnOk(db, Txn(x.op, r.pc, Also(x.pend, r.writes)))
  {
    var r := Statement(Apply(db, x.pend), x.op, x.pc);
    if Writing(x.pc) {
      WritingStatement(db, x);
    } else {
      assert Apply(db, x.pend) == db && Also(x.pend, NO_WRITES) == x.pend;
      if x.pc == AtTarget { var w :| Usable(db, w); }
    }
  }

  lemma WritingStatement(db: Db, x: Txn)
    requires HasUsableAdmin(db) && TakesLock(x.op) && Writing(x.pc) && x.pc != AtCommit && TxnOk(db, x)
    requires Statement(Apply(db, x.pend), x.op, x.pc).Next?
    ensures var r := Statement(Apply(db, x.pend), x.op, x.pc); TxnOk(db, Txn(x.op, r.pc, Also(x.pend, r.writes)))
  {
    if x.op.MoveMember? { MovingStatement(db, x); }
  }

  lemma MovingStatement(db: Db, x: Txn)
    requires x.op.MoveMember? && Writing(x.pc) && x.pc != AtCommit && TxnOk(db, x)
    requires Statement(Apply(db, x.pend), x.op, x.pc).Next?
    ensures var r := Statement(Apply(db, x.pend), x.op, x.pc); TxnOk(db, Txn(x.op, r.pc, Also(x.pend, r.writes)))
  {
  }

  // The transaction a statement leaves behind is sound.
  lemma StatementSound(s: Sys, t: int)
    requires Inv(s) && t in s.txns
    requires s.txns[t].pc != AtCommit && Statement(View(s, t), s.txns[t].op, s.txns[t].pc).Next?
    ensures var x := s.txns[t];
            var r := Statement(View(s, t), x.op, x.pc);
            TxnOk(s.db, Txn(x.op, r.pc, Also(x.pend, r.writes)))
  {
    var x := s.txns[t];
    if x.op.JoinTeam? {
      JoinStatement(s.db, x);
    } else if !TakesLock(x.op) {
      UnlockedStatement(s.db, x);
    } else if x.pc != AtLock {
      LockedStatement(s.db, x);
    }
  }

  lemma AdvanceKeepsDisjoint(s: Sys, t: int, y: Txn, w: Writes, lock: NullId)
    requires Disjoint(s) && t in s.txns && !Waits(s, t, w) && y.pend == Also(s.txns[t].pend, w)
    ensures Disjoint(Sys(s.db, lock, s.txns[t := y]))
  {
  }

  lemma StepKeepsInv(s: Sys, e: Event)
    requires Inv(s) && !LateJoin(s, e)
    ensures Inv(Do(s, e, true))
  {
    if e.Step? && e.txn in s.txns {
      var t, x, s' := e.txn, s.txns[e.txn], Do(s, e, true);
      if x.pc == AtCommit {
        CommitKeepsInv(s, t);
      } else if s' != s && t in s'.txns {
        StatementSound(s, t);
        AdvanceKeepsDisjoint(s, t, s'.txns[t], Statement(View(s, t), x.op, x.pc).writes, s'.lock);
      }
    }
  }

  lemma {:induction false} InvRun(s: Sys, events: seq<Event>)
    requires Inv(s) && NoLateJoins(s, events)
    ensures Inv(Run(s, events, true))
    decreases |events|
  {
    if events != [] {
      StepKeepsInv(s, events[0]);
      InvRun(Do(s, events[0], true), events[1..]);
    }
  }

  ghost predicate Quiet(s: Sys) {
    s.txns == map[] && s.lock == Null
  }

  /**
   * In every interleaving of the roster operations, every state that is ever committed keeps an
   * admin who can log in and administer, as long as no admin's self-serve join commits late: to a team
   * banned by then, or counted by a ban still open. (A prefix of a schedule is a schedule, so this speaks
   * of every committed state.)
   */
  lemma {:induction false} UsableAdminInEveryRun(s: Sys, events: seq<Event>)
    requires Quiet(s) && HasUsableAdmin(s.db) && NoLateJoins(s, events)
    ensures HasUsableAdmin(Run(s, events, true).db)
  {
    InvRun(s, events);
  }

  // ── a counted ban meets a join ──────────────────────────────────────────────

  // A ban of the team past its count, and a join of it past its reading of the ban: all that is left to
  // either is to write and commit, and nothing can refuse them.
  ghost predicate Meet(s: Sys, b: int, j: int, team: int, user: int) {
    && b in s.txns && Counted(s.txns[b], team)
    && j in s.txns && s.txns[j].op == JoinTeam(team, user) && s.txns[j].pc in {AtEnrol, AtAdopt, AtCommit}
    && team in s.db.teams && user in s.db.users && s.db.users[user].team.Null?
  }

  // How far the two have come from `from`: each is still open with its writes pending, or has committed them.
  ghost predicate Halfway(from: Db, s: Sys, b: int, j: int, team: int, user: int)
    requires user in from.users
  {
    && b != j && Disjoint(s) && team in s.db.teams && user in s.db.users
    && (forall t :: t in s.db.teams <==> t in from.teams)
    && (forall t :: t in from.teams ==> s.db.teams[t].banned == (from.teams[t].banned || (t == team && b !in s.txns)))
    && (forall u :: u in s.db.users <==> u in from.users)
    && (forall u :: u in from.users ==>
          s.db.users[u] == (if u == user && j !in s.txns then from.users[u].(team := Id(team)) else from.users[u]))
    && (b in s.txns ==> var x := s.txns[b];
          && x.op.BanTeam? && x.op.ban && x.op.team == team && x.pend.users == map[]
          && (forall t :: t in x.pend.teams ==> t == team)
          && ((x.pc == AtUpdate && x.pend == NO_WRITES) || (x.pc == AtCommit && Banning(x.pend, team))))
    && (j in s.txns ==> var x := s.txns[j];
          && x.op == JoinTeam(team, user) && x.pc in {AtEnrol, AtAdopt, AtCommit} && TxnOk(s.db, x)
          && from.users[user].team.Null?)
  }

  predicate OfThese(e: Event, b: int, j: int) { e == Step(b) || e == Step(j) }

  lemma BanWrites(from: Db, s: Sys, b: int, j: int, team: int, user: int)
    requires user in from.users && Halfway(from, s, b, j, team, user) && b in s.txns && s.txns[b].pc == AtUpdate
    ensures Halfway(from, Do(s, Step(b), true), b, j, team, user)
  {
    var x, w := s.txns[b], SetTeamBanned(s.db, team, true);
    assert View(s, b) == s.db && Statement(s.db, x.op, x.pc) == Next(AtCommit, w) by { assert team in w.teams; }
    if !Waits(s, b, w) { AdvanceKeepsDisjoint(s, b, Txn(x.op, AtCommit, Also(x.pend, w)), w, s.lock); }
  }

  lemma OneCommits(from: Db, s: Sys, b: int, j: int, team: int, user: int, t: int)
    requires user in from.users && Halfway(from, s, b, j, team, user) && t in {b, j} && t in s.txns && s.txns[t].pc == AtCommit
    ensures Halfway(from, Do(s, Step(t), true), b, j, team, user)
  {
    if t == b && j in s.txns { UnlockedApart(s.db, s.txns[b].pend, s.txns[j]); }
  }

  // Neither statement left to the join can be refused.
  lemma JoinReplies(db: Db, x: Txn, team: int, user: int)
    requires x.op == JoinTeam(team, user) && x.pc in {AtEnrol, AtAdopt} && TxnOk(db, x)
    requires team in db.teams && user in db.users && db.users[user].team.Null?
    ensures var r := Statement(Apply(db, x.pend), x.op, x.pc);
            && r.Next? && r.pc in {AtAdopt, AtCommit} && TxnOk(db, Txn(x.op, r.pc, Also(x.pend, r.writes)))
  {
    if x.pc == AtEnrol { assert Apply(db, x.pend) == db && user in Enrol(db, user, team).users; }
    JoinStatement(db, x);
  }

  lemma JoinWrites(from: Db, s: Sys, b: int, j: int, team: int, user: int)
    requires user in from.users && Halfway(from, s, b, j, team, user) && j in s.txns && s.txns[j].pc != AtCommit
    ensures Halfway(from, Do(s, Step(j), true), b, j, team, user)
  {
    var x := s.txns[j];
    var r := Statement(View(s, j), x.op, x.pc);
    JoinReplies(s.db, x, team, user);
    if !Waits(s, j, r.writes) { AdvanceKeepsDisjoint(s, j, Txn(x.op, r.pc, Also(x.pend, r.writes)), r.writes, s.lock); }
  }

  lemma {:induction false} HalfwayRun(from: Db, s: Sys, events: seq<Event>, b: int, j: int, team: int, user: int)
    requires user in from.users && Halfway(from, s, b, j, team, user) && forall e :: e in events ==> OfThese(e, b, j)
    ensures Halfway(from, Run(s, events, true), b, j, team, user)
    decreases |events|
  {
    if events != [] {
      assert OfThese(events[0], b, j);
      if events[0] == Step(b) && b in s.txns {
        if s.txns[b].pc == AtCommit { OneCommits(from, s, b, j, team, user, b); } else { BanWrites(from, s, b, j, team, user); }
      } else if j in s.txns {
        if s.txns[j].pc == AtCommit { OneCommits(from, s, b, j, team, user, j); } else { JoinWrites(from, s, b, j, team, user); }
      }
      HalfwayRun(from, Do(s, events[0], true), events[1..], b, j, team, user);
    }
  }

  /**
   * What a late join costs, exactly: from a state every run keeps, let a counted ban of a team and a join of
   * it that has read it as open both finish, in whatever order their statements come. A usable admin is left
   * exactly when some other usable admin than the one joining was off the team.
   */
  lemma {:induction false} BanMeetsJoin(s: Sys, events: seq<Event>, b: int, j: int, team: int, user: int)
    requires Inv(s) && Meet(s, b, j, team, user)
    requires forall e :: e in events ==> OfThese(e, b, j)
    requires var s' := Run(s, events, true); b !in s'.txns && j !in s'.txns
    ensures HasUsableAdmin(Run(s, events, true).db)
       <==> exists w :: Usable(s.db, w) && w != user && s.db.users[w].team != Id(team)
  {
    HalfwayRun(s.db, s, events, b, j, team, user);
    var db' := Run(s, events, true).db;
    forall w ensures Usable(db', w) <==> Usable(s.db, w) && w != user && s.db.users[w].team != Id(team) {
      assert w in db'.users <==> w in s.db.users;
    }
    if HasUsableAdmin(db') { var w :| Usable(db', w); }
    if w :| Usable(s.db, w) && w != user && s.db.users[w].team != Id(team) { assert Usable(db', w); }
  }

  // ── why each half of the protocol is needed ─────────────────────────────────

  const ALICE := 1
  const BOB := 2
  const TEAM := 7

  // Two admins; Bob is on the team, or on none.
  function TwoAdmins(bob: NullId): Db {
    Db(map[ALICE := User(true, false, Null), BOB := User(true, false, bob)], map[TEAM := Team(false, Id(BOB))])
  }

  lemma {:induction false} RunOneMore(s: Sys, events: seq<Event>, e: Event, useLock: bool)
    ensures Run(s, events + [e], useLock) == Do(Run(s, events, useLock), e, useLock)
    decreases |events|
  {
    if events != [] {
      assert (events + [e])[0] == events[0] && (events + [e])[1..] == events[1..] + [e];
      RunOneMore(Do(s, events[0], useLock), events[1..], e, useLock);
    }
  }

  ghost predicate Reaches(s0: Sys, useLock: bool, s: Sys) {
    exists events :: Run(s0, events, useLock) == s
  }

  lemma Then(s0: Sys, useLock: bool, s: Sys, e: Event)
    requires Reaches(s0, useLock, s)
    ensures Reaches(s0, useLock, Do(s, e, useLock))
  {
    var events :| Run(s0, events, useLock) == s;
    RunOneMore(s0, events, e, useLock);
  }

  lemma Begin(db: Db, a: Op, b: Op, useLock: bool)
    requires !RefusedUpFront(a) && !RefusedUpFront(b)
    ensures Reaches(Sys(db, Null, map[]), useLock, Pair(db, Null, Txn(a, FirstPc(a), NO_WRITES), Txn(b, FirstPc(b), NO_WRITES)))
  {
    var s0 := Sys(db, Null, map[]);
    assert Run(s0, [], useLock) == s0;
    Then(s0, useLock, s0, Start(10, a));
    Then(s0, useLock, Do(s0, Start(10, a), useLock), Start(20, b));
    assert Do(Do(s0, Start(10, a), useLock), Start(20, b), useLock)
        == Pair(db, Null, Txn(a, FirstPc(a), NO_WRITES), Txn(b, FirstPc(b), NO_WRITES));
  }

  // Two transactions in flight, numbered 10 and 20.
  function Pair(db: Db, lock: NullId, x: Txn, y: Txn): Sys {
    Sys(db, lock, map[10 := x, 20 := y])
  }

  function LockAfter(lock: NullId, x: Txn, t: int, useLock: bool): NullId {
    if x.pc == AtLock && useLock then Id(t) else lock
  }

  // One statement of a transaction that has written nothing yet and need not wait.
  lemma OneStatement(s: Sys, t: int, next: Pc, w: Writes, useLock: bool)
    requires t in s.txns && s.txns[t].pend == NO_WRITES && s.txns[t].pc != AtCommit && (s.txns[t].pc == AtLock ==> s.lock == Null)
    requires Statement(s.db, s.txns[t].op, s.txns[t].pc) == Next(next, w) && !Waits(s, t, w)
    ensures Do(s, Step(t), useLock)
         == Sys(s.db, LockAfter(s.lock, s.txns[t], t, useLock), s.txns[t := Txn(s.txns[t].op, next, w)])
  {
    assert Apply(s.db, NO_WRITES) == s.db && Also(NO_WRITES, w) == w;
  }

  // One statement of transaction 10, then of transaction 20.
  lemma First(s0: Sys, db: Db, lock: NullId, x: Txn, y: Txn, next: Pc, w: Writes, useLock: bool)
    requires Reaches(s0, useLock, Pair(db, lock, x, y))
    requires x.pend == NO_WRITES && x.pc != AtCommit && (x.pc == AtLock ==> lock == Null)
    requires Statement(db, x.op, x.pc) == Next(next, w) && Apart(y.pend, w)
    ensures Reaches(s0, useLock, Pair(db, LockAfter(lock, x, 10, useLock), Txn(x.op, next, w), y))
  {
    OneStatement(Pair(db, lock, x, y), 10, next, w, useLock);
    Then(s0, useLock, Pair(db, lock, x, y), Step(10));
  }

  lemma Second(s0: Sys, db: Db, lock: NullId, x: Txn, y: Txn, next: Pc, w: Writes, useLock: bool)
    requires Reaches(s0, useLock, Pair(db, lock, x, y))
    requires y.pend == NO_WRITES && y.pc != AtCommit && (y.pc == AtLock ==> lock == Null)
    requires Statement(db, y.op, y.pc) == Next(next, w) && Apart(x.pend, w)
    ensures Reaches(s0, useLock, Pair(db, LockAfter(lock, y, 20, useLock), x, Txn(y.op, next, w)))
  {
    OneStatement(Pair(db, lock, x, y), 20, next, w, useLock);
    Then(s0, useLock, Pair(db, lock, x, y), Step(20));
  }

  // Both commit, the second one's rows last.
  lemma CommitBoth(s0: Sys, db: Db, x: Txn, y: Txn, useLock: bool)
    requires Reaches(s0, useLock, Pair(db, Null, x, y)) && x.pc == AtCommit && y.pc == AtCommit
    ensures exists s :: Reaches(s0, useLock, s) && s.db == Apply(Apply(db, x.pend), y.pend)
  {
    var s1 := Do(Pair(db, Null, x, y), Step(10), useLock);
    Then(s0, useLock, Pair(db, Null, x, y), Step(10));
    assert s1 == Sys(Apply(db, x.pend), Null, map[20 := y]);
    Then(s0, useLock, s1, Step(20));
    assert Do(s1, Step(20), useLock).db == Apply(Apply(db, x.pend), y.pend);
  }

  // What the demotion and the ban see when both admins are still standing.
  lemma BothCountsPass(db: Db, demote: Op, ban: Op)
    requires db == TwoAdmins(Null) && demote == SetRole(BOB, false) && ban == SetBanned(BOB, ALICE, true)
    ensures Statement(db, demote, AtCount) == Next(AtUpdate, NO_WRITES)
    ensures Statement(db, ban, AtTarget) == Next(AtCount, NO_WRITES)
    ensures Statement(db, ban, AtCount) == Next(AtUpdate, NO_WRITES)
  {
    assert Usable(db, ALICE) && Usable(db, BOB);
    OthersWitness(db, BOB);
    OthersWitness(db, ALICE);
  }

  /** Without the shared lock: a demotion and a ban each count the other's admin, and both commit. */
  lemma WithoutLockNobodyIsLeft()
    ensures exists s :: Reaches(Sys(TwoAdmins(Null), Null, map[]), false, s) && !HasUsableAdmin(s.db)
  {
    var db := TwoAdmins(Null);
    var demote, ban := SetRole(BOB, false), SetBanned(BOB, ALICE, true);
    var demoted, banned := SetUserAdmin(db, BOB, false), SetUserBanned(db, ALICE, true);
    assert BOB in demoted.users && ALICE in banned.users;
    BothCountsPass(db, demote, ban);
    var s0 := Sys(db, Null, map[]);
    var d2 := Txn(demote, AtUpdate, NO_WRITES);
    BothReachTheirUpdate(s0, db, demote, ban);
    First(s0, db, Null, d2, Txn(ban, AtUpdate, NO_WRITES), AtCommit, demoted, false);
    Second(s0, db, Null, Txn(demote, AtCommit, demoted), Txn(ban, AtUpdate, NO_WRITES), AtCommit, banned, false);
    CommitBoth(s0, db, Txn(demote, AtCommit, demoted), Txn(ban, AtCommit, banned), false);
  }

  // Without the lock both transactions count before either writes.
  lemma BothReachTheirUpdate(s0: Sys, db: Db, demote: Op, ban: Op)
    requires db == TwoAdmins(Null) && s0 == Sys(db, Null, map[])
    requires demote == SetRole(BOB, false) && ban == SetBanned(BOB, ALICE, true)
    ensures Reaches(s0, false, Pair(db, Null, Txn(demote, AtUpdate, NO_WRITES), Txn(ban, AtUpdate, NO_WRITES)))
  {
    var b0, d2 := Txn(ban, AtLock, NO_WRITES), Txn(demote, AtUpdate, NO_WRITES);
    BothCountsPass(db, demote, ban);
    Begin(db, demote, ban, false);
    First(s0, db, Null, Txn(demote, AtLock, NO_WRITES), b0, AtCount, NO_WRITES, false);
    First(s0, db, Null, Txn(demote, AtCount, NO_WRITES), b0, AtUpdate, NO_WRITES, false);
    Second(s0, db, Null, d2, b0, AtTarget, NO_WRITES, false);
    Second(s0, db, Null, d2, Txn(ban, AtTarget, NO_WRITES), AtCount, NO_WRITES, false);
    Second(s0, db, Null, d2, Txn(ban, AtCount, NO_WRITES), AtUpdate, NO_WRITES, false);
  }

  // A join that finds the seat taken: adopt writes nothing, and the enrolment commits.
  lemma AdoptsNothingAndCommits(s0: Sys, db: Db, x: Txn, join: Op, w: Writes)
    requires join == JoinTeam(TEAM, ALICE) && x.pc != AtCommit
    requires w.teams == map[] && TEAM in db.teams && db.teams[TEAM].captain.Id?
    requires Reaches(s0, true, Pair(db, Id(10), x, Txn(join, AtAdopt, w)))
    ensures Reaches(s0, true, Sys(Apply(db, w), Id(10), map[10 := x]))
  {
    var s, s' := Pair(db, Id(10), x, Txn(join, AtAdopt, w)), Pair(db, Id(10), x, Txn(join, AtCommit, w));
    AdoptsNothing(db, x, join, w);
    Then(s0, true, s, Step(20));
    assert map[10 := x, 20 := Txn(join, AtCommit, w)] - {20} == map[10 := x];
    Then(s0, true, s', Step(20));
  }

  lemma AdoptsNothing(db: Db, x: Txn, join: Op, w: Writes)
    requires join == JoinTeam(TEAM, ALICE) && w.teams == map[] && TEAM in db.teams && db.teams[TEAM].captain.Id?
    ensures Do(Pair(db, Id(10), x, Txn(join, AtAdopt, w)), Step(20), true) == Pair(db, Id(10), x, Txn(join, AtCommit, w))
  {
    var s := Pair(db, Id(10), x, Txn(join, AtAdopt, w));
    assert Also(w, NO_WRITES) == w && View(s, 20) == Apply(db, w);
    assert Statement(View(s, 20), join, AtAdopt) == Next(AtCommit, NO_WRITES);
  }

  lemma WritesAndCommits(s0: Sys, db: Db, x: Txn, w: Writes)
    requires Reaches(s0, true, Sys(db, Id(10), map[10 := x]))
    requires x.pend == NO_WRITES && x.pc == AtUpdate && Statement(db, x.op, x.pc) == Next(AtCommit, w)
    ensures exists s :: Reaches(s0, true, s) && s.db == Apply(db, w)
  {
    var s, s' := Sys(db, Id(10), map[10 := x]), Sys(db, Id(10), map[10 := Txn(x.op, AtCommit, w)]);
    assert Apply(db, NO_WRITES) == db && Also(NO_WRITES, w) == w;
    Then(s0, true, s, Step(10));
    assert Do(s, Step(10), true) == s';
    Then(s0, true, s', Step(10));
    assert Do(s', Step(10), true).db == Apply(db, w);
  }

  // Alice's ban has counted her, and her join has read an open team.
  lemma CountedAndOpen(db: Db, ban: Op, join: Op)
    requires db == TwoAdmins(Id(TEAM)) && ban == BanTeam(ALICE, TEAM, true) && join == JoinTeam(TEAM, ALICE)
    ensures Reaches(Sys(db, Null, map[]), true,
                    Pair(db, Id(10), Txn(ban, AtUpdate, NO_WRITES), Txn(join, AtEnrol, NO_WRITES)))
  {
    assert Statement(db, ban, AtCount) == Next(AtUpdate, NO_WRITES) by {
      assert Usable(db, ALICE);
      OutsideWitness(db, TEAM);
    }
    var s0, j0 := Sys(db, Null, map[]), Txn(join, AtTeam, NO_WRITES);
    Begin(db, ban, join, true);
    First(s0, db, Null, Txn(ban, AtLock, NO_WRITES), j0, AtActor, NO_WRITES, true);
    First(s0, db, Id(10), Txn(ban, AtActor, NO_WRITES), j0, AtCount, NO_WRITES, true);
    First(s0, db, Id(10), Txn(ban, AtCount, NO_WRITES), j0, AtUpdate, NO_WRITES, true);
    Second(s0, db, Id(10), Txn(ban, AtUpdate, NO_WRITES), j0, AtEnrol, NO_WRITES, true);
  }

  /**
   * With the lock, a self-serve join can still undo the count: it reads `banned` and enrols without
   * queueing. Alice bans Bob's team while she joins it; the ban counted her as the admin outside it.
   */
  lemma JoiningAdminDefeatsTheCount()
    ensures exists s :: Reaches(Sys(TwoAdmins(Id(TEAM)), Null, map[]), true, s) && !HasUsableAdmin(s.db)
  {
    var db := TwoAdmins(Id(TEAM));
    var s0, ban, join := Sys(db, Null, map[]), BanTeam(ALICE, TEAM, true), JoinTeam(TEAM, ALICE);
    var b := Txn(ban, AtUpdate, NO_WRITES);
    var enrolled := Enrol(db, ALICE, TEAM);
    var joined := Apply(db, enrolled);
    var banned := SetTeamBanned(joined, TEAM, true);
    assert ALICE in enrolled.users && TEAM in banned.teams;
    CountedAndOpen(db, ban, join);
    Second(s0, db, Id(10), b, Txn(join, AtEnrol, NO_WRITES), AtAdopt, enrolled, true);
    AdoptsNothingAndCommits(s0, db, b, join, enrolled);
    WritesAndCommits(s0, joined, b, banned);
    assert !HasUsableAdmin(Apply(joined, banned));
  }
}
