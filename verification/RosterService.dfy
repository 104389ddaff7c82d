/**
 * The roster transactions, one method a service call, each run alone.
 *
 * A method works on `db` as its transaction would and installs it at the end, so a refusal on any
 * path rolls everything back. Whether a new team's row is accepted (its name, its secret, the number of
 * teams) is a parameter, `refused`.
 */
module RosterService {
  import opened Prelude
  import opened Roster

  datatype Refusal =
    | LastAdmin | UserNotFound | TeamNotFound | SelfBan | SelfTeamBan | SameTeam | ActorNotFound
    | NotOnTeam | NotCaptain | NotMember | CannotKickSelf | AlreadyOnTeam | TeamFull | TeamRefused
    | JoinDenied | HasScored | HasHistory

  datatype Outcome = Done | Refused(why: Refusal)

  /** A seat is empty exactly when the team has no members; a filled one holds a current member. */
  ghost predicate SeatsOk(db: Db) {
    && (forall u :: u in db.users && db.users[u].team.Id? ==> db.users[u].team.id in db.teams)
    && (forall t :: t in db.teams ==> SeatOk(db, t))
  }

  ghost predicate SeatOk(db: Db, t: int)
    requires t in db.teams
  {
    match db.teams[t].captain
    case Null => forall u :: u in db.users ==> db.users[u].team != Id(t)
    case Id(c) => OnTeam(db, c, t)
  }

  // The roster with one user's team replaced.
  function Moved(db: Db, user: int, team: NullId): Db
    requires user in db.users
  {
    db.(users := db.users[user := db.users[user].(team := team)])
  }

  // The seat of a team somebody leaves: theirs passes to the lowest id left, or empties.
  ghost predicate Vacated(before: Db, after: Db, team: int, leaver: int)
    requires team in before.teams && team in after.teams
  {
    var rest := Members(before, team) - {leaver};
    after.teams[team] == if before.teams[team].captain != Id(leaver) then before.teams[team]
                         else before.teams[team].(captain := MinId(rest))
  }

  lemma MembersAfter(db: Db, user: int, team: NullId, t: int)
    requires user in db.users
    ensures Members(Moved(db, user, team), t)
         == if team == Id(t) then Members(db, t) + {user} else Members(db, t) - {user}
  {
  }

  // Leaving one team counts nobody out of another.
  lemma LeavesOthers(db: Db, user: int, from: int, to: int)
    requires OnTeam(db, user, from) && from != to
    ensures var tx := Apply(db, Detach(db, user, from)); Members(Apply(tx, Reseat(tx, from, user)), to) == Members(db, to)
  {
    var tx := Apply(db, Detach(db, user, from));
    assert tx == Moved(db, user, Null) && Apply(tx, Reseat(tx, from, user)).users == tx.users;
    MembersAfter(db, user, Null, to);
    assert user !in Members(db, to);
  }

  lemma SoleMember(db: Db, user: int, team: int)
    requires user in db.users && db.users[user].team == Id(team)
    ensures |Members(db, team)| == 1 <==> forall u :: OnTeam(db, u, team) ==> u == user
  {
    var m := Members(db, team);
    assert user in m;
    if |m| == 1 {
      var rest := m - {user};
      assert |rest| == 0 && rest == {};
      forall u | OnTeam(db, u, team) ensures u == user { assert u in m && u !in rest; }
    }
    if forall u :: OnTeam(db, u, team) ==> u == user {
      forall u | u in m ensures u == user { assert OnTeam(db, u, team); }
      assert m == {user};
    }
  }

  predicate OnSomeTeam(db: Db, user: int) {
    user in db.users && db.users[user].team.Id?
  }

  // What checking a password against a stored hash says.
  datatype Check = Check(ok: bool, rehash: bool)

  predicate Opens(db: Db, secrets: map<int, string>, team: int, password: string, verify: (string, string) -> Check) {
    team in db.teams && !db.teams[team].banned && team in secrets && verify(secrets[team], password).ok
  }

  // What enforce_account_caps counts when a row gets a team.
  predicate Full(db: Db, teamSize: int, team: int) { teamSize > 0 && |Members(db, team)| >= teamSize }

  // The order in which a refused kick or transfer is explained.
  function Asked(rule: Refusal): nat {
    match rule
    case UserNotFound => 0
    case NotOnTeam => 1
    case NotCaptain => 2
    case NotMember => 3
    case _ => 4
  }

  // A live login of a user.
  datatype Login = Login(id: int, user: int)

  class Service {
    var db: Db
    // Teams with a solve, and teams with any ledger row.
    var scored: set<int>
    var history: set<int>
    var sessions: set<Login>
    // The hashed join secret of each team, and config's team_size; a size below 1 caps nothing.
    var secrets: map<int, string>
    var teamSize: int

    ghost predicate Valid() reads this {
      SeatsOk(db) && scored <= history && forall t :: t in db.teams ==> t in secrets
    }

    // ── adminops ────────────────────────────────────────────────────────────────

    /** Demoting is refused exactly when nobody else usable would be left; promoting never is. */
    method SetRole(user: int, admin: bool) returns (r: Outcome)
      requires Valid()
      modifies this`db
      ensures Valid()
      ensures r == if !admin && !(exists w :: Usable(old(db), w) && w != user) then Refused(LastAdmin)
                   else if user !in old(db).users then Refused(UserNotFound) else Done
      ensures r.Refused? ==> db == old(db)
      ensures r.Done? ==> db == old(db).(users := old(db).users[user := old(db).users[user].(admin := admin)])
      ensures HasUsableAdmin(old(db)) ==> HasUsableAdmin(db)
    {
      if !admin {
        OthersWitness(db, user);
        if CountOtherAdmins(db, user) == 0 { return Refused(LastAdmin); }
      }
      if user !in db.users { return Refused(UserNotFound); }
      ghost var before := db;
      db := Apply(db, SetUserAdmin(db, user, admin));
      assert forall w :: Usable(before, w) && w != user ==> Usable(db, w);
      if admin { assert forall w :: Usable(before, w) ==> Usable(db, w); }
      r := Done;
    }

    /**
     * A ban is refused when it would disable the last usable admin, and only then (or on oneself). It logs
     * the user out everywhere, and nobody else.
     */
    method SetBanned(actor: int, user: int, banned: bool) returns (r: Outcome)
      requires Valid()
      modifies this`db, this`sessions
      ensures Valid()
      ensures r == if banned && actor == user then Refused(SelfBan)
                   else if user !in old(db).users then Refused(UserNotFound)
                   else if banned && old(db).users[user].admin && !old(db).users[user].banned
                           && !(exists w :: Usable(old(db), w) && w != user) then Refused(LastAdmin)
                   else Done
      ensures r.Refused? ==> db == old(db)
      ensures r.Done? ==> db == old(db).(users := old(db).users[user := old(db).users[user].(banned := banned)])
      ensures forall l :: l in sessions <==> l in old(sessions) && !(r.Done? && banned && l.user == user)
      ensures HasUsableAdmin(old(db)) ==> HasUsableAdmin(db)
    {
      if banned && actor == user { return Refused(SelfBan); }
      if user !in db.users { return Refused(UserNotFound); }
      if banned && db.users[user].admin && !db.users[user].banned {
        OthersWitness(db, user);
        if CountOtherAdmins(db, user) == 0 { return Refused(LastAdmin); }
      }
      if HasUsableAdmin(db) { BanSparesAnAdmin(db, user, banned); }
      FlagsWritten(db, user, db.users[user].(banned := banned));
      db := Apply(db, SetUserBanned(db, user, banned));
      if banned { sessions := set l | l in sessions && l.user != user; }
      r := Done;
    }

    /** A team ban is refused when every usable admin sits on that team. It logs out exactly the members. */
    method SetTeamBanned(actor: int, team: int, banned: bool) returns (r: Outcome)
      requires Valid()
      modifies this`db, this`sessions
      ensures Valid()
      ensures r == if banned && actor !in old(db).users then Refused(ActorNotFound)
                   else if banned && old(db).users[actor].team == Id(team) then Refused(SelfTeamBan)
                   else if banned && !(exists w :: Usable(old(db), w) && old(db).users[w].team != Id(team))
                     then Refused(LastAdmin)
                   else if team !in old(db).teams then Refused(TeamNotFound) else Done
      ensures r.Refused? ==> db == old(db)
      ensures r.Done? ==> db == old(db).(teams := old(db).teams[team := old(db).teams[team].(banned := banned)])
      ensures forall l :: l in sessions <==> l in old(sessions) && !(r.Done? && banned && OnTeam(db, l.user, team))
      ensures HasUsableAdmin(old(db)) ==> HasUsableAdmin(db)
    {
      if banned {
        if actor !in db.users { return Refused(ActorNotFound); }
        if db.users[actor].team == Id(team) { return Refused(SelfTeamBan); }
        OutsideWitness(db, team);
        if CountAdminsOutsideTeam(db, team) == 0 { return Refused(LastAdmin); }
      }
      if team !in db.teams { return Refused(TeamNotFound); }
      ghost var before := db;
      db := Apply(db, Roster.SetTeamBanned(db, team, banned));
      assert db.users == before.users;
      if banned { sessions := set l | l in sessions && !OnTeam(db, l.user, team); }
      assert forall w :: Usable(before, w) && before.users[w].team != Id(team) ==> Usable(db, w);
      if !banned { assert forall w :: Usable(before, w) ==> Usable(db, w); }
      r := Done;
    }

    /** The member leaves the team; the seat passes on if it was theirs. */
    method RemoveTeamMember(team: int, user: int) returns (r: Outcome)
      requires Valid()
      modifies this`db
      ensures Valid()
      ensures r == if OnTeam(old(db), user, team) then Done
                   else if team !in old(db).teams then Refused(TeamNotFound)
                   else if user !in old(db).users then Refused(UserNotFound) else Refused(NotOnTeam)
      ensures r.Refused? ==> db == old(db)
      ensures r.Done? ==>
                && db.users == Moved(old(db), user, Null).users
                && db.teams.Keys == old(db).teams.Keys
                && Vacated(old(db), db, team, user)
                && forall t :: t in db.teams && t != team ==> db.teams[t] == old(db).teams[t]
      ensures HasUsableAdmin(old(db)) ==> HasUsableAdmin(db)
    {
      if !OnTeam(db, user, team) {
        return Refused(if team !in db.teams then TeamNotFound else if user !in db.users then UserNotFound else NotOnTeam);
      }
      var tx := Apply(db, Detach(db, user, team));
      DetachAndReseat(db, user, team);
      db := Apply(tx, Reseat(tx, team, user));
      return Done;
    }

    /**
     * Leave and join in one transaction. Taking the last usable admin onto a banned team is refused;
     * the seat behind passes on, and an empty seat ahead is taken; a full team takes nobody.
     */
    method MoveTeamMember(from: int, user: int, to: int) returns (r: Outcome)
      requires Valid()
      modifies this`db
      ensures Valid()
      ensures r == if from == to then Refused(SameTeam)
                   else if user !in old(db).users then Refused(UserNotFound)
                   else if LiveAdmin(old(db), user) && to !in old(db).teams then Refused(TeamNotFound)
                   else if LiveAdmin(old(db), user) && old(db).teams[to].banned
                           && !(exists w :: Usable(old(db), w) && w != user) then Refused(LastAdmin)
                   else if !OnTeam(old(db), user, from)
                     then Refused(if from !in old(db).teams then TeamNotFound else NotOnTeam)
                   else if Full(old(db), teamSize, to) then Refused(TeamFull)
                   else if to !in old(db).teams then Refused(TeamNotFound) else Done
      ensures r.Refused? ==> db == old(db)
      ensures r.Done? ==>
                && db.users == Moved(old(db), user, Id(to)).users
                && db.teams.Keys == old(db).teams.Keys
                && Vacated(old(db), db, from, user)
                && Filled(old(db), db, to, user)
                && forall t :: t in db.teams && t != from && t != to ==> db.teams[t] == old(db).teams[t]
      ensures HasUsableAdmin(old(db)) ==> HasUsableAdmin(db)
    {
      if from == to { return Refused(SameTeam); }
      if user !in db.users { return Refused(UserNotFound); }
      if db.users[user].admin && !db.users[user].banned {
        if to !in db.teams { return Refused(TeamNotFound); }
        if db.teams[to].banned {
          OthersWitness(db, user);
          if CountOtherAdmins(db, user) == 0 { return Refused(LastAdmin); }
        }
      }
      if !OnTeam(db, user, from) { return Refused(if from !in db.teams then TeamNotFound else NotOnTeam); }
      var tx := Apply(db, Detach(db, user, from));
      var left := Apply(tx, Reseat(tx, from, user));
      LeavesOthers(db, user, from, to);
      if Full(left, teamSize, to) { return Refused(TeamFull); }
      if to !in left.teams {
        DetachAndReseat(db, user, from);
        return Refused(TeamNotFound);
      }
      var joined := Apply(left, Enrol(left, user, to));
      MoveEffect(db, from, user, to);
      db := Apply(joined, Adopt(joined, user, to));
      return Done;
    }

    // ── accounts ────────────────────────────────────────────────────────────────

    /** The creator is captain and sole member of a team that did not exist, and its secret is stored. */
    method CreateTeam(user: int, team: int, secret: string, refused: bool) returns (r: Outcome)
      requires Valid() && team !in db.teams
      modifies this`db, this`secrets
      ensures Valid()
      ensures r == if refused then Refused(TeamRefused)
                   else if user !in old(db).users then Refused(UserNotFound)
                   else if old(db).users[user].team != Null then Refused(AlreadyOnTeam) else Done
      ensures r.Refused? ==> db == old(db) && secrets == old(secrets)
      ensures r.Done? ==>
                && db.users == Moved(old(db), user, Id(team)).users
                && db.teams == old(db).teams[team := Team(false, Id(user))]
                && secrets == old(secrets)[team := secret]
    {
      if refused { return Refused(TeamRefused); }
      if user !in db.users { return Refused(UserNotFound); }
      var tx := db.(teams := db.teams[team := Team(false, Id(user))]);
      if Enrol(tx, user, team) == NO_WRITES {
        assert db.users[user].team.Null? ==> user in Enrol(tx, user, team).users;
        return Refused(AlreadyOnTeam);
      }
      ghost var before := db;
      secrets := secrets[team := secret];
      db := Apply(tx, Enrol(tx, user, team));
      assert db.users == Moved(before, user, Id(team)).users;
      forall t | t in db.teams ensures SeatOk(db, t) {
        if t != team {
          assert SeatOk(before, t);
          assert forall u :: OnTeam(db, u, t) <==> OnTeam(before, u, t);
        }
      }
      return Done;
    }

    /**
     * The right secret of a team that is not banned enrols a teamless user while there is room, and the
     * first member of a captainless team adopts it. A secret stored under old parameters is rehashed once it
     * has opened the team, whether or not the join then goes through; `upgraded` is the new hash, if any.
     */
    method JoinTeam(user: int, team: int, password: string, verify: (string, string) -> Check, upgraded: Option<string>)
        returns (r: Outcome)
      requires Valid()
      modifies this`db, this`secrets
      ensures Valid()
      ensures r == if !Opens(old(db), old(secrets), team, password, verify) then Refused(JoinDenied)
                   else if user !in old(db).users || old(db).users[user].team != Null then Refused(AlreadyOnTeam)
                   else if Full(old(db), teamSize, team) then Refused(TeamFull) else Done
      ensures secrets == if && Opens(old(db), old(secrets), team, password, verify) && upgraded.Some?
                            && verify(old(secrets)[team], password).rehash then old(secrets)[team := upgraded.value]
                         else old(secrets)
      ensures r.Refused? ==> db == old(db)
      ensures r.Done? && teamSize > 0 ==> |Members(db, team)| <= teamSize
      ensures r.Done? ==>
                && db.users == Moved(old(db), user, Id(team)).users
                && db.teams.Keys == old(db).teams.Keys
                && Filled(old(db), db, team, user)
                && forall t :: t in db.teams && t != team ==> db.teams[t] == old(db).teams[t]
    {
      if team !in db.teams || db.teams[team].banned { return Refused(JoinDenied); }
      var check := verify(secrets[team], password);
      if !check.ok { return Refused(JoinDenied); }
      if check.rehash && upgraded.Some? { secrets := secrets[team := upgraded.value]; }
      if Enrol(db, user, team) == NO_WRITES {
        assert user in db.users && db.users[user].team.Null? ==> user in Enrol(db, user, team).users;
        return Refused(AlreadyOnTeam);
      }
      if Full(db, teamSize, team) { return Refused(TeamFull); }
      var tx := Apply(db, Enrol(db, user, team));
      EnrolAndAdopt(db, user, team);
      MembersAfter(db, user, Id(team), team);
      db := Apply(tx, Adopt(tx, user, team));
      return Done;
    }

    /** A player may leave only while their team has no solves. */
    method LeaveTeam(user: int) returns (r: Outcome)
      requires Valid()
      modifies this`db
      ensures Valid()
      ensures r == if user !in old(db).users then Refused(UserNotFound)
                   else if old(db).users[user].team == Null then Refused(NotOnTeam)
                   else if old(db).users[user].team.id in scored then Refused(HasScored) else Done
      ensures r.Refused? ==> db == old(db)
      ensures r.Done? ==>
                var team := old(db).users[user].team.id;
                && db.users == Moved(old(db), user, Null).users
                && db.teams.Keys == old(db).teams.Keys
                && team in db.teams && Vacated(old(db), db, team, user)
                && forall t :: t in db.teams && t != team ==> db.teams[t] == old(db).teams[t]
    {
      if user !in db.users { return Refused(UserNotFound); }
      if db.users[user].team == Null { return Refused(NotOnTeam); }
      var team := db.users[user].team.id;
      if team in scored { return Refused(HasScored); }
      assert db.users[user].team == Id(team);
      var tx := Apply(db, Detach(db, user, team));
      DetachAndReseat(db, user, team);
      db := Apply(tx, Reseat(tx, team, user));
      return Done;
    }

    /** Only the captain removes, only a teammate, never themselves, and only while nothing was scored. */
    method KickMember(captain: int, member: int) returns (r: Outcome)
      requires Valid()
      modifies this`db
      ensures Valid()
      ensures r == if member == captain then Refused(CannotKickSelf)
                   else if captain !in old(db).users then Refused(UserNotFound)
                   else if old(db).users[captain].team == Null then Refused(NotOnTeam)
                   else if old(db).teams[old(db).users[captain].team.id].captain != Id(captain) then Refused(NotCaptain)
                   else if member !in old(db).users || old(db).users[member].team != old(db).users[captain].team
                     then Refused(NotMember)
                   else if old(db).users[captain].team.id in scored then Refused(HasScored) else Done
      ensures r.Refused? ==> db == old(db)
      ensures r.Done? ==> db == Moved(old(db), member, Null)
    {
      // The one UPDATE: captaincy, membership and the scored guard are its WHERE clause.
      if member in db.users && member != captain && db.users[member].team.Id? {
        var team := db.users[member].team.id;
        if db.teams[team].captain == Id(captain) && team !in scored {
          assert SeatOk(db, team) && db.users[member].team == Id(team);
          ghost var before := db;
          db := Moved(db, member, Null);
          forall t | t in db.teams ensures SeatOk(db, t) {
            assert SeatOk(before, t);
            assert forall u :: OnTeam(db, u, t) ==> OnTeam(before, u, t);
          }
          return Done;
        }
      }
      // Zero rows: say which rule refused it.
      if member == captain { return Refused(CannotKickSelf); }
      r := RosterRefusal(captain, member, true);
      assert !RowMatches(captain, member, true);
      Explained(captain, member, true, r.why);
    }

    // What the UPDATEs of a kick and a transfer ask for: a row of the target on a team of the captain's.
    predicate RowMatches(captain: int, target: int, guarded: bool) reads this {
      && OnSomeTeam(db, target) && db.users[target].team.id in db.teams
      && var team := db.users[target].team.id;
      db.teams[team].captain == Id(captain) && !(guarded && team in scored)
    }

    // The rule a refusal names does not hold.
    predicate Broken(rule: Refusal, captain: int, target: int, guarded: bool) reads this {
      match rule
      case UserNotFound => captain !in db.users
      case NotOnTeam => captain in db.users && !OnSomeTeam(db, captain)
      case NotCaptain => OnSomeTeam(db, captain) && forall t | t in db.teams :: t != db.users[captain].team.id || db.teams[t].captain != Id(captain)
      case NotMember => captain in db.users && (target in db.users ==> db.users[target].team != db.users[captain].team)
      case HasScored => guarded && OnSomeTeam(db, captain) && db.users[captain].team.id in scored
      case _ => false
    }

    /**
     * Why the statement found no row: the rule named is broken, and every rule asked before it holds. The
     * answer at the end, which names a rule that holds, is reached only with a row to be found.
     */
    method RosterRefusal(captain: int, target: int, scoredBlocks: bool) returns (r: Outcome)
      requires Valid()
      ensures r.Refused?
      ensures !RowMatches(captain, target, scoredBlocks) ==>
                && Broken(r.why, captain, target, scoredBlocks)
                && forall rule :: Broken(rule, captain, target, scoredBlocks) ==> Asked(r.why) <= Asked(rule)
      ensures RowMatches(captain, target, scoredBlocks) ==>
                r.why == NotMember && forall rule :: !Broken(rule, captain, target, scoredBlocks)
    {
      if captain !in db.users { return Refused(UserNotFound); }
      if db.users[captain].team == Null { return Refused(NotOnTeam); }
      var team := db.users[captain].team.id;
      assert SeatOk(db, team);
      if db.teams[team].captain != Id(captain) { return Refused(NotCaptain); }
      if target !in db.users || db.users[target].team != Id(team) { return Refused(NotMember); }
      if scoredBlocks && team in scored { return Refused(HasScored); }
      return Refused(NotMember);
    }

    // The first broken rule is the one the callers' contracts spell out.
    lemma Explained(captain: int, target: int, guarded: bool, why: Refusal)
      requires Valid() && Broken(why, captain, target, guarded)
      requires forall rule :: Broken(rule, captain, target, guarded) ==> Asked(why) <= Asked(rule)
      ensures why == if captain !in db.users then UserNotFound
                     else if db.users[captain].team == Null then NotOnTeam
                     else if db.teams[db.users[captain].team.id].captain != Id(captain) then NotCaptain
                     else if target !in db.users || db.users[target].team != db.users[captain].team then NotMember
                     else HasScored
    {
      if captain !in db.users {
        assert Broken(UserNotFound, captain, target, guarded);
      } else if db.users[captain].team == Null {
        assert Broken(NotOnTeam, captain, target, guarded);
      } else {
        var team := db.users[captain].team.id;
        if db.teams[team].captain != Id(captain) { assert Broken(NotCaptain, captain, target, guarded); }
        if target !in db.users || db.users[target].team != Id(team) { assert Broken(NotMember, captain, target, guarded); }
      }
    }

    /** The seat moves from its holder to a teammate, scored or not. */
    method TransferCaptaincy(captain: int, next: int) returns (r: Outcome)
      requires Valid()
      modifies this`db
      ensures Valid()
      ensures r == if captain !in old(db).users then Refused(UserNotFound)
                   else if old(db).users[captain].team == Null then Refused(NotOnTeam)
                   else if old(db).teams[old(db).users[captain].team.id].captain != Id(captain) then Refused(NotCaptain)
                   else if next !in old(db).users || old(db).users[next].team != old(db).users[captain].team
                     then Refused(NotMember)
                   else Done
      ensures r.Refused? ==> db == old(db)
      ensures r.Done? ==>
                var team := old(db).users[captain].team.id;
                db == old(db).(teams := old(db).teams[team := old(db).teams[team].(captain := Id(next))])
    {
      ghost var before := db;
      var moved := set t | t in db.teams && db.teams[t].captain == Id(captain) && OnTeam(db, next, t);
      assert RowMatches(captain, next, false) ==> db.users[next].team.id in moved;
      if |moved| == 0 {
        if captain in db.users && db.users[captain].team.Id? {
          assert db.users[captain].team.id !in moved;
        }
        r := RosterRefusal(captain, next, false);
        Explained(captain, next, false, r.why);
        return;
      }
      ghost var team := Pick(moved);
      assert SeatOk(db, team);
      assert forall t :: t in moved ==> t == team by {
        forall t | t in moved ensures t == team { assert SeatOk(db, t); }
      }
      var teams := map t | t in db.teams :: if t in moved then db.teams[t].(captain := Id(next)) else db.teams[t];
      assert teams == db.teams[team := db.teams[team].(captain := Id(next))];
      db := db.(teams := teams);
      forall t | t in db.teams ensures SeatOk(db, t) { assert SeatOk(before, t); }
      return Done;
    }

    /** A team with no ledger row disappears and frees its members; any history refuses the delete. */
    method DisbandTeam(captain: int) returns (r: Outcome)
      requires Valid()
      modifies this`db
      ensures Valid()
      ensures r == if captain !in old(db).users then Refused(UserNotFound)
                   else if old(db).users[captain].team == Null then Refused(NotOnTeam)
                   else if old(db).teams[old(db).users[captain].team.id].captain != Id(captain) then Refused(NotCaptain)
                   else if old(db).users[captain].team.id in history then Refused(HasHistory) else Done
      ensures r.Refused? ==> db == old(db)
      ensures r.Done? ==>
                var team := old(db).users[captain].team.id;
                && db.teams == old(db).teams - {team}
                && db.users.Keys == old(db).users.Keys
                && forall u :: u in db.users ==>
                     db.users[u] == if old(db).users[u].team == Id(team) then old(db).users[u].(team := Null) else old(db).users[u]
    {
      if captain !in db.users { return Refused(UserNotFound); }
      if db.users[captain].team == Null { return Refused(NotOnTeam); }
      var team := db.users[captain].team.id;
      if db.teams[team].captain != Id(captain) { return Refused(NotCaptain); }
      if team in history { return Refused(HasHistory); }
      ghost var before := db;
      db := Db(map u | u in db.users ::
                 if db.users[u].team == Id(team) then db.users[u].(team := Null) else db.users[u],
               db.teams - {team});
      forall t | t in db.teams ensures SeatOk(db, t) {
        assert SeatOk(before, t);
        assert forall u :: OnTeam(db, u, t) <==> OnTeam(before, u, t);
      }
      return Done;
    }
  }

  // Writing a user's flags writes that row, and decides no seat.
  lemma FlagsWritten(db: Db, user: int, row: User)
    requires SeatsOk(db) && user in db.users && row.team == db.users[user].team
    ensures Apply(db, Writes(map[user := row], map[])) == db.(users := db.users[user := row])
    ensures SeatsOk(db.(users := db.users[user := row]))
  {
    assert db.users + map[user := row] == db.users[user := row];
    var db' := db.(users := db.users[user := row]);
    forall t | t in db'.teams ensures SeatOk(db', t) { assert SeatOk(db, t); }
  }

  // Banning one user leaves every other admin as usable as before, and unbanning leaves all.
  lemma BanSparesAnAdmin(db: Db, user: int, banned: bool)
    requires user in db.users && HasUsableAdmin(db)
    requires banned && db.users[user].admin && !db.users[user].banned ==> exists w :: Usable(db, w) && w != user
    ensures HasUsableAdmin(Apply(db, SetUserBanned(db, user, banned)))
  {
    var db' := Apply(db, SetUserBanned(db, user, banned));
    if w :| Usable(db, w) && w != user {
      assert Usable(db', w);
    } else {
      var w :| Usable(db, w);
      assert Usable(db', w);
    }
  }

  predicate LiveAdmin(db: Db, user: int) {
    user in db.users && db.users[user].admin && !db.users[user].banned
  }

  // The seat of a team somebody joins: theirs if it was empty.
  ghost predicate Filled(before: Db, after: Db, team: int, joiner: int)
    requires team in before.teams && team in after.teams
  {
    after.teams[team] == if before.teams[team].captain.Null? then before.teams[team].(captain := Id(joiner))
                         else before.teams[team]
  }

  // With every seat right, the adopting statement fires exactly when the seat is empty.
  lemma EnrolAndAdopt(db: Db, user: int, team: int)
    requires SeatsOk(db) && user in db.users && db.users[user].team.Null? && team in db.teams
    ensures var tx := Apply(db, Enrol(db, user, team));
            var after := Apply(tx, Adopt(tx, user, team));
            && tx == Moved(db, user, Id(team))
            && SeatsOk(after)
            && after.users == tx.users
            && after.teams.Keys == db.teams.Keys
            && Filled(db, after, team, user)
            && (forall t :: t in db.teams && t != team ==> after.teams[t] == db.teams[t])
  {
    var tx := Apply(db, Enrol(db, user, team));
    var after := Apply(tx, Adopt(tx, user, team));
    assert tx.users == db.users[user := db.users[user].(team := Id(team))] && tx.teams == db.teams;
    assert SeatOk(db, team);
    SoleMember(tx, user, team);
    if db.teams[team].captain.Null? {
      assert forall u :: OnTeam(tx, u, team) ==> u == user;
    }
    forall t | t in after.teams ensures SeatOk(after, t) {
      assert SeatOk(db, t);
      if t != team {
        assert forall u :: OnTeam(after, u, t) <==> OnTeam(db, u, t);
      }
    }
  }

  // A move that passed its guard leaves an admin standing: another one, or the one who moved.
  lemma MoveSparesAnAdmin(before: Db, after: Db, user: int, to: int)
    requires HasUsableAdmin(before) && user in before.users && to in before.teams
    requires after.users == Moved(before, user, Id(to)).users && after.teams.Keys == before.teams.Keys
    requires forall t :: t in after.teams ==> after.teams[t].banned == before.teams[t].banned
    requires LiveAdmin(before, user) && before.teams[to].banned ==> exists w :: Usable(before, w) && w != user
    ensures HasUsableAdmin(after)
  {
    if w :| Usable(before, w) && w != user {
      assert Usable(after, w);
    } else {
      assert Usable(before, user) ==> Usable(after, user);
    }
  }

  // Detaching a member and reseating behind them keeps every seat right.
  lemma DetachAndReseat(db: Db, user: int, team: int)
    requires SeatsOk(db) && OnTeam(db, user, team)
    ensures var tx := Apply(db, Detach(db, user, team));
            var after := Apply(tx, Reseat(tx, team, user));
            && tx == Moved(db, user, Null)
            && SeatsOk(after)
            && after.users == tx.users
            && after.teams.Keys == db.teams.Keys
            && Vacated(db, after, team, user)
            && (forall t :: t in db.teams && t != team ==> after.teams[t] == db.teams[t])
            && (HasUsableAdmin(db) ==> HasUsableAdmin(after))
  {
    var tx := Apply(db, Detach(db, user, team));
    var after := Apply(tx, Reseat(tx, team, user));
    assert tx.users == db.users[user := db.users[user].(team := Null)] && tx.teams == db.teams;
    MembersAfter(db, user, Null, team);
    assert forall u :: OnTeam(after, u, team) <==> u in Members(tx, team);
    forall t | t in after.teams ensures SeatOk(after, t) {
      if t != team {
        assert SeatOk(db, t) && after.teams[t] == db.teams[t];
        assert forall u :: OnTeam(after, u, t) <==> OnTeam(db, u, t);
      } else {
        assert SeatOk(db, t);
        if after.teams[team].captain == Null {
          forall u | u in after.users ensures after.users[u].team != Id(team) {
            assert u !in Members(tx, team);
            assert !OnTeam(after, u, team);
          }
        }
      }
    }
    forall w | Usable(db, w) ensures Usable(after, w) {
      assert after.users[w].team == db.users[w].team || after.users[w].team == Null;
    }
  }

  function Left(db: Db, from: int, user: int): Db {
    var tx := Apply(db, Detach(db, user, from));
    Apply(tx, Reseat(tx, from, user))
  }

  function Joined(db: Db, user: int, to: int): Db {
    var tx := Apply(db, Enrol(db, user, to));
    Apply(tx, Adopt(tx, user, to))
  }

  // What the joining half makes of it.
  lemma JoinEffect(db: Db, left: Db, from: int, user: int, to: int)
    requires user in db.users && from in db.teams && to in db.teams && from != to && SeatsOk(left)
    requires left.teams.Keys == db.teams.Keys && left.users == Moved(db, user, Null).users
    requires left.teams[to] == db.teams[to] && Vacated(db, left, from, user)
    requires forall t :: t in db.teams && t != from ==> left.teams[t] == db.teams[t]
    ensures var after := Joined(left, user, to);
            && SeatsOk(after) && after.users == Moved(db, user, Id(to)).users && after.teams.Keys == db.teams.Keys
            && Vacated(db, after, from, user) && Filled(db, after, to, user)
            && (forall t :: t in db.teams && t != from && t != to ==> after.teams[t] == db.teams[t])
            && (forall t :: t in db.teams ==> after.teams[t].banned == left.teams[t].banned)
  {
    EnrolAndAdopt(left, user, to);
    assert Joined(left, user, to).users == Moved(left, user, Id(to)).users == Moved(db, user, Id(to)).users;
  }

  // The leave and the join of a move, run back to back.
  lemma MoveEffect(db: Db, from: int, user: int, to: int)
    requires SeatsOk(db) && OnTeam(db, user, from) && from != to
    requires LiveAdmin(db, user) && to in db.teams && db.teams[to].banned ==> exists w :: Usable(db, w) && w != user
    ensures var after := Joined(Left(db, from, user), user, to);
            && Left(db, from, user).teams.Keys == db.teams.Keys
            && (to in db.teams ==>
                  && SeatsOk(after)
                  && after.users == Moved(db, user, Id(to)).users
                  && after.teams.Keys == db.teams.Keys
                  && Vacated(db, after, from, user)
                  && Filled(db, after, to, user)
                  && (forall t :: t in db.teams && t != from && t != to ==> after.teams[t] == db.teams[t])
                  && (HasUsableAdmin(db) ==> HasUsableAdmin(after)))
  {
    DetachAndReseat(db, user, from);
    assert Left(db, from, user).teams[from].banned == db.teams[from].banned;
    if to in db.teams {
      JoinEffect(db, Left(db, from, user), from, user, to);
      if HasUsableAdmin(db) { MoveSparesAnAdmin(db, Joined(Left(db, from, user), user, to), user, to); }
    }
  }
}
