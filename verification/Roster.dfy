/**
 * The users and teams tables, and the roster statements every route is composed from.
 *
 * A statement that writes returns the new row versions it would install (`Writes`), computed from
 * the database as its transaction sees it. The interleaved model keeps them pending until commit;
 * the serial model applies them at once. Both therefore run the same statements.
 */
module Roster {
  import opened Prelude

  datatype User = User(admin: bool, banned: bool, team: NullId)
  datatype Team = Team(banned: bool, captain: NullId)
  datatype Db = Db(users: map<int, User>, teams: map<int, Team>)
  datatype Writes = Writes(users: map<int, User>, teams: map<int, Team>)

  const NO_WRITES := Writes(map[], map[])

  function Apply(db: Db, w: Writes): Db {
    Db(db.users + w.users, db.teams + w.teams)
  }

  function Also(w: Writes, v: Writes): Writes {
    Writes(w.users + v.users, w.teams + v.teams)
  }

  // COALESCE(t.banned, false) over the LEFT JOIN: no team, or a team row that is gone, is not banned.
  predicate OnBannedTeam(db: Db, u: User) {
    u.team.Id? && u.team.id in db.teams && db.teams[u.team.id].banned
  }

  /** An admin who can still reach an admin route. */
  predicate Usable(db: Db, id: int) {
    id in db.users && db.users[id].admin && !db.users[id].banned && !OnBannedTeam(db, db.users[id])
  }

  ghost predicate HasUsableAdmin(db: Db) {
    exists id :: Usable(db, id)
  }

  // AdminCountOtherAdmins.
  function CountOtherAdmins(db: Db, id: int): nat {
    |set u | u in db.users && Usable(db, u) && u != id|
  }

  // AdminCountAdminsOutsideTeam.
  function CountAdminsOutsideTeam(db: Db, team: int): nat {
    |set u | u in db.users && Usable(db, u) && db.users[u].team != Id(team)|
  }

  function Members(db: Db, team: int): set<int> {
    set u | u in db.users && db.users[u].team == Id(team)
  }

  // min(u.id) over a set of ids; NULL over the empty set.
  function MinId(ids: set<int>): (m: NullId)
    ensures m.Null? <==> |ids| == 0
    ensures m.Id? ==> m.id in ids && forall i :: i in ids ==> m.id <= i
  {
    if |ids| == 0 then Null
    else
      MinIdExists(ids);
      var m :| m in ids && forall i :: i in ids ==> m <= i;
      Id(m)
  }

  lemma {:induction false} MinIdExists(ids: set<int>)
    requires |ids| > 0
    ensures exists m :: m in ids && forall i :: i in ids ==> m <= i
  {
    var x := Pick(ids);
    var rest := ids - {x};
    if |rest| == 0 {
      assert forall i :: i in ids ==> i in rest || i == x;
    } else {
      MinIdExists(rest);
      var m :| m in rest && forall i :: i in rest ==> m <= i;
      var least := if m <= x then m else x;
      assert least in ids && forall i :: i in ids ==> i in rest || i == x;
    }
  }

  // ── the writing statements ──────────────────────────────────────────────────

  // AdminSetUserRole.
  function SetUserAdmin(db: Db, id: int, admin: bool): Writes {
    if id in db.users then Writes(map[id := db.users[id].(admin := admin)], map[]) else NO_WRITES
  }

  // AdminSetUserBanned.
  function SetUserBanned(db: Db, id: int, banned: bool): Writes {
    if id in db.users then Writes(map[id := db.users[id].(banned := banned)], map[]) else NO_WRITES
  }

  // AdminSetTeamBanned.
  function SetTeamBanned(db: Db, team: int, banned: bool): Writes {
    if team in db.teams then Writes(map[], map[team := db.teams[team].(banned := banned)]) else NO_WRITES
  }

  predicate OnTeam(db: Db, id: int, team: int) {
    id in db.users && db.users[id].team == Id(team)
  }

  // AdminDetachMember, and the SET of LeaveTeam and KickMember.
  function Detach(db: Db, id: int, team: int): Writes {
    if OnTeam(db, id, team) then Writes(map[id := db.users[id].(team := Null)], map[]) else NO_WRITES
  }

  // ReassignCaptainAfterLeave: the seat goes to the lowest-id member, or empties.
  function Reseat(db: Db, team: int, leaver: int): Writes {
    if team in db.teams && db.teams[team].captain == Id(leaver)
    then Writes(map[], map[team := db.teams[team].(captain := MinId(Members(db, team)))])
    else NO_WRITES
  }

  // EnrollUser: "already on a team" is the WHERE clause.
  function Enrol(db: Db, id: int, team: int): Writes {
    if id in db.users && db.users[id].team.Null?
    then Writes(map[id := db.users[id].(team := Id(team))], map[])
    else NO_WRITES
  }

  // AdoptCaptainlessTeam: a sole member takes an empty seat.
  function Adopt(db: Db, id: int, team: int): Writes {
    if team in db.teams && db.teams[team].captain.Null? && |Members(db, team)| == 1
    then Writes(map[], map[team := db.teams[team].(captain := Id(id))])
    else NO_WRITES
  }

  lemma OthersWitness(db: Db, id: int)
    ensures CountOtherAdmins(db, id) > 0 <==> exists w :: Usable(db, w) && w != id
  {
    var others := set u | u in db.users && Usable(db, u) && u != id;
    if w :| Usable(db, w) && w != id { assert w in others; }
    if |others| > 0 { var w := Pick(others); }
  }

  lemma OutsideWitness(db: Db, team: int)
    ensures CountAdminsOutsideTeam(db, team) > 0
       <==> exists w :: Usable(db, w) && db.users[w].team != Id(team)
  {
    var outside := set u | u in db.users && Usable(db, u) && db.users[u].team != Id(team);
    if w :| Usable(db, w) && db.users[w].team != Id(team) { assert w in outside; }
    if |outside| > 0 { var w := Pick(outside); }
  }
}
