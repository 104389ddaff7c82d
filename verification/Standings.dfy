/**
 * The scoreboard: two live queries, one per instance mode, and the time-travel query, all over one
 * append-only ledger of solves and awards.
 */
module Standings {
  import opened Prelude
  import opened Sorting

  // A row of `solves` or `awards`.
  datatype Event = Event(user: int, team: NullId, value: int, date: int)

  datatype Ledger = Ledger(solves: seq<Event>, awards: seq<Event>)

  // A row of `users` or `teams`.
  datatype Account = Account(id: int, name: string, bracket: NullId, hidden: bool, banned: bool)

  datatype World = World(teamMode: bool, users: seq<Account>, teams: seq<Account>, bracketName: int -> string)

  // A scoring event with the account column its query picked.
  datatype Scoring = Scoring(account: NullId, value: int, date: int)

  datatype Bracket = NoBracket | Named(name: string)

  datatype Entry = Entry(account: int, name: string, bracket: NullId, bracketName: Bracket,
                         hidden: bool, banned: bool, score: int, last: int)

  // ── group by account ────────────────────────────────────────────────────────

  function Sum(es: seq<Scoring>, a: int): int {
    if es == [] then 0
    else Sum(es[..|es| - 1], a) + (if es[|es| - 1].account == Id(a) then es[|es| - 1].value else 0)
  }

  predicate Scores(es: seq<Scoring>, a: int) {
    exists i :: 0 <= i < |es| && es[i].account == Id(a)
  }

  function Last(es: seq<Scoring>, a: int): int
    requires Scores(es, a)
  {
    var init, e := es[..|es| - 1], es[|es| - 1];
    if e.account != Id(a) then ScoresInit(es, a); Last(init, a)
    else if Scores(init, a) then Max(Last(init, a), e.date)
    else e.date
  }

  lemma ScoresInit(es: seq<Scoring>, a: int)
    requires es != []
    ensures Scores(es, a) <==> Scores(es[..|es| - 1], a) || es[|es| - 1].account == Id(a)
  {
  }

  // The groups, in order of first appearance.
  function Groups(es: seq<Scoring>): seq<int> {
    if es == [] then []
    else
      var before, last := Groups(es[..|es| - 1]), es[|es| - 1];
      if last.account.Id? && last.account.id !in before then before + [last.account.id] else before
  }

  // ── ORDER BY and LIMIT ──────────────────────────────────────────────────────

  // score DESC, last_event ASC, account_id ASC.
  predicate BoardOrder(a: Entry, b: Entry) {
    a.score > b.score || (a.score == b.score && (a.last < b.last || (a.last == b.last && a.account <= b.account)))
  }

  function ClampLimit(n: int): int {
    if n <= 0 || n > 1_000_000 then 0 else n
  }

  // LIMIT NULLIF(lim, 0).
  function Limit(rows: seq<Entry>, lim: int): seq<Entry> {
    if lim <= 0 || lim >= |rows| then rows else rows[..lim]
  }

  predicate Admits(admin: bool, bracket: NullId, a: Account) {
    (admin || (!a.hidden && !a.banned)) && (bracket == Null || a.bracket == bracket)
  }

  // ── GetStandingsAsOf ────────────────────────────────────────────────────────

  // Both legs: non-zero events before the instant, keyed by the column the instance mode selects.
  function AsOfLeg(w: World, rows: seq<Event>, t: int): seq<Scoring> {
    if rows == [] then []
    else
      var e := rows[|rows| - 1];
      var before := AsOfLeg(w, rows[..|rows| - 1], t);
      if e.value != 0 && e.date < t then before + [Scoring(if w.teamMode then e.team else Id(e.user), e.value, e.date)]
      else before
  }

  function AsOfScoring(w: World, l: Ledger, t: int): seq<Scoring> {
    AsOfLeg(w, l.solves, t) + AsOfLeg(w, l.awards, t)
  }

  function Table(w: World): seq<Account> { if w.teamMode then w.teams else w.users }

  predicate Exists(table: seq<Account>, id: int) {
    exists i :: 0 <= i < |table| && table[i].id == id
  }

  function Find(table: seq<Account>, id: int): (a: Account)
    requires Exists(table, id)
    ensures a in table && a.id == id
  {
    if table[0].id == id then table[0] else Find(table[1..], id)
  }

  function EntryOf(a: Account, bracketName: Bracket, es: seq<Scoring>): Entry
    requires Scores(es, a.id)
  {
    Entry(a.id, a.name, a.bracket, bracketName, a.hidden, a.banned, Sum(es, a.id), Last(es, a.id))
  }

  // FROM sumscores LEFT JOIN the account table: a group without an account is dropped.
  function AsOfRows(table: seq<Account>, es: seq<Scoring>, ids: seq<int>, admin: bool, bracket: NullId): seq<Entry>
    requires forall k :: 0 <= k < |ids| ==> Scores(es, ids[k])
  {
    if ids == [] then []
    else
      var rest := AsOfRows(table, es, ids[1..], admin, bracket);
      if Exists(table, ids[0]) && Admits(admin, bracket, Find(table, ids[0]))
      then [EntryOf(Find(table, ids[0]), NoBracket, es)] + rest else rest
  }

  lemma {:induction false} GroupsScore(es: seq<Scoring>)
    ensures forall a :: a in Groups(es) <==> Scores(es, a)
    ensures forall i, j :: 0 <= i < j < |Groups(es)| ==> Groups(es)[i] != Groups(es)[j]
    ensures forall k :: 0 <= k < |Groups(es)| ==> Scores(es, Groups(es)[k])
  {
    if es != [] {
      GroupsScore(es[..|es| - 1]);
      forall a ensures a in Groups(es) <==> Scores(es, a) { ScoresInit(es, a); }
      assert forall k :: 0 <= k < |Groups(es)| ==> Groups(es)[k] in Groups(es);
    }
  }

  function AsOf(w: World, l: Ledger, t: int, admin: bool, bracket: NullId, limit: int): seq<Entry> {
    var es := AsOfScoring(w, l, t);
    GroupsScore(es);
    Limit(Sort(BoardOrder, AsOfRows(Table(w), es, Groups(es), admin, bracket)), ClampLimit(limit))
  }

  // ── GetTeamStandings and GetUserStandings ───────────────────────────────────

  // No cutoff: that is how Top calls them.
  function TeamLeg(rows: seq<Event>): seq<Scoring> {
    if rows == [] then []
    else
      var e := rows[|rows| - 1];
      var before := TeamLeg(rows[..|rows| - 1]);
      if e.value != 0 && e.team != Null then before + [Scoring(e.team, e.value, e.date)] else before
  }

  function UserLeg(rows: seq<Event>): seq<Scoring> {
    if rows == [] then []
    else
      var e := rows[|rows| - 1];
      var before := UserLeg(rows[..|rows| - 1]);
      if e.value != 0 then before + [Scoring(Id(e.user), e.value, e.date)] else before
  }

  function NameOf(w: World, bracket: NullId): Bracket {
    if bracket == Null then NoBracket else Named(w.bracketName(bracket.id))
  }

  // FROM accounts JOIN sumscores: an account without a scoring event has no row.
  function TopRows(w: World, table: seq<Account>, es: seq<Scoring>, admin: bool, bracket: NullId): seq<Entry> {
    if table == [] then []
    else
      var rest := TopRows(w, table[1..], es, admin, bracket);
      if Scores(es, table[0].id) && Admits(admin, bracket, table[0])
      then [EntryOf(table[0], NameOf(w, table[0].bracket), es)] + rest else rest
  }

  function GetTeamStandings(w: World, l: Ledger, admin: bool, bracket: NullId, lim: int): seq<Entry> {
    Limit(Sort(BoardOrder, TopRows(w, w.teams, TeamLeg(l.solves) + TeamLeg(l.awards), admin, bracket)), lim)
  }

  function GetUserStandings(w: World, l: Ledger, admin: bool, bracket: NullId, lim: int): seq<Entry> {
    Limit(Sort(BoardOrder, TopRows(w, w.users, UserLeg(l.solves) + UserLeg(l.awards), admin, bracket)), lim)
  }

  function Top(w: World, l: Ledger, admin: bool, bracket: NullId, limit: int): seq<Entry> {
    if w.teamMode then GetTeamStandings(w, l, admin, bracket, ClampLimit(limit))
    else GetUserStandings(w, l, admin, bracket, ClampLimit(limit))
  }

  // ── time travel ─────────────────────────────────────────────────────────────

  lemma {:induction false} LegIgnoresLater(w: World, rows: seq<Event>, later: seq<Event>, t: int)
    requires forall i :: 0 <= i < |later| ==> later[i].date >= t
    ensures AsOfLeg(w, rows + later, t) == AsOfLeg(w, rows, t)
  {
    if later == [] {
      assert rows + later == rows;
    } else {
      var init := later[..|later| - 1];
      LegIgnoresLater(w, rows, init, t);
      assert (rows + later)[..|rows + later| - 1] == rows + init;
    }
  }

  /** Whatever is appended at or after `t`, the board as of `t` stays what it was. */
  lemma AsOfIgnoresLater(w: World, l: Ledger, solves: seq<Event>, awards: seq<Event>, t: int, admin: bool, bracket: NullId, limit: int)
    requires forall i :: 0 <= i < |solves| ==> solves[i].date >= t
    requires forall i :: 0 <= i < |awards| ==> awards[i].date >= t
    ensures AsOf(w, Ledger(l.solves + solves, l.awards + awards), t, admin, bracket, limit)
         == AsOf(w, l, t, admin, bracket, limit)
  {
    LegIgnoresLater(w, l.solves, solves, t);
    LegIgnoresLater(w, l.awards, awards, t);
  }

  // ── the order ───────────────────────────────────────────────────────────────

  ghost predicate UniqueIds(table: seq<Account>) {
    forall i, j :: 0 <= i < j < |table| ==> table[i].id != table[j].id
  }

  ghost predicate DistinctAccounts(rows: seq<Entry>) {
    forall i, j :: 0 <= i < j < |rows| ==> rows[i].account != rows[j].account
  }

  /** Each row comes strictly before the next: on a tie of score and instant, by account id. */
  ghost predicate StrictlyOrdered(rows: seq<Entry>) {
    forall i, j :: 0 <= i < j < |rows| ==> BoardOrder(rows[i], rows[j]) && !BoardOrder(rows[j], rows[i])
  }

  // Sorting rows of distinct accounts: strict order, and the accounts stay distinct.
  lemma {:induction false} SortDistinct(rows: seq<Entry>)
    requires DistinctAccounts(rows)
    ensures StrictlyOrdered(Sort(BoardOrder, rows)) && DistinctAccounts(Sort(BoardOrder, rows))
  {
    assert TotalPreorder(BoardOrder);
    SortKeeps(BoardOrder, rows);
    SortDistinctBy(BoardOrder, (r: Entry) => r.account, rows);
  }

  // The row a group makes.
  ghost predicate FromGroup(table: seq<Account>, es: seq<Scoring>, admin: bool, bracket: NullId, r: Entry) {
    && Scores(es, r.account) && Exists(table, r.account)
    && Admits(admin, bracket, Find(table, r.account))
    && r == EntryOf(Find(table, r.account), NoBracket, es)
  }

  lemma {:induction false} AsOfRowsAre(table: seq<Account>, es: seq<Scoring>, ids: seq<int>, admin: bool, bracket: NullId)
    requires forall k :: 0 <= k < |ids| ==> Scores(es, ids[k])
    requires forall i, j :: 0 <= i < j < |ids| ==> ids[i] != ids[j]
    ensures var rows := AsOfRows(table, es, ids, admin, bracket);
            && DistinctAccounts(rows)
            && (forall r :: r in rows ==> r.account in ids && FromGroup(table, es, admin, bracket, r))
            && (forall k :: 0 <= k < |ids| && Exists(table, ids[k]) && Admits(admin, bracket, Find(table, ids[k])) ==>
                  EntryOf(Find(table, ids[k]), NoBracket, es) in rows)
  {
    if ids != [] {
      AsOfRowsAre(table, es, ids[1..], admin, bracket);
      var rest := AsOfRows(table, es, ids[1..], admin, bracket);
      assert ids == [ids[0]] + ids[1..];
      forall i | 0 <= i < |rest| ensures rest[i].account != ids[0] {
        assert rest[i] in rest && rest[i].account in ids[1..];
      }
      assert forall k :: 1 <= k < |ids| ==> ids[k] == ids[1..][k - 1];
    }
  }

  lemma {:induction false} FindUnique(table: seq<Account>, i: nat)
    requires UniqueIds(table) && i < |table|
    ensures Exists(table, table[i].id) && Find(table, table[i].id) == table[i]
  {
  }

  function Erase(r: Entry): Entry { r.(bracketName := NoBracket) }

  // The row an account makes.
  ghost predicate FromAccount(w: World, table: seq<Account>, es: seq<Scoring>, admin: bool, bracket: NullId, r: Entry) {
    exists i ::
      && 0 <= i < |table| && table[i].id == r.account && Scores(es, table[i].id)
      && Admits(admin, bracket, table[i])
      && r == EntryOf(table[i], NameOf(w, table[i].bracket), es)
  }

  lemma {:induction false} TopRowsAre(w: World, table: seq<Account>, es: seq<Scoring>, admin: bool, bracket: NullId)
    requires UniqueIds(table)
    ensures var rows := TopRows(w, table, es, admin, bracket);
            && DistinctAccounts(rows)
            && (forall r :: r in rows ==> FromAccount(w, table, es, admin, bracket, r))
            && (forall i :: 0 <= i < |table| && Scores(es, table[i].id) && Admits(admin, bracket, table[i]) ==>
                  EntryOf(table[i], NameOf(w, table[i].bracket), es) in rows)
  {
    if table != [] {
      TopRowsAre(w, table[1..], es, admin, bracket);
      var rest := TopRows(w, table[1..], es, admin, bracket);
      forall r | r in rest ensures r.account != table[0].id && FromAccount(w, table, es, admin, bracket, r) {
        var i :| && 0 <= i < |table[1..]| && table[1..][i].id == r.account && Scores(es, table[1..][i].id)
                 && Admits(admin, bracket, table[1..][i])
                 && r == EntryOf(table[1..][i], NameOf(w, table[1..][i].bracket), es);
        assert table[i + 1] == table[1..][i];
      }
      assert forall k :: 0 <= k < |rest| ==> rest[k] in rest;
      assert forall i :: 1 <= i < |table| ==> table[i] == table[1..][i - 1];
    }
  }

  lemma AsOfIsStrict(w: World, l: Ledger, t: int, admin: bool, bracket: NullId, limit: int)
    ensures StrictlyOrdered(AsOf(w, l, t, admin, bracket, limit))
  {
    var es := AsOfScoring(w, l, t);
    GroupsScore(es);
    AsOfRowsAre(Table(w), es, Groups(es), admin, bracket);
    SortDistinct(AsOfRows(Table(w), es, Groups(es), admin, bracket));
  }

  lemma TopIsStrict(w: World, l: Ledger, admin: bool, bracket: NullId, limit: int)
    requires UniqueIds(Table(w))
    ensures StrictlyOrdered(Top(w, l, admin, bracket, limit))
  {
    TopRowsAre(w, Table(w), LiveScoring(w, l), admin, bracket);
    SortDistinct(TopRows(w, Table(w), LiveScoring(w, l), admin, bracket));
  }

  /** Both boards are strictly ordered, so a rank is never shared and never ambiguous. */
  lemma BoardsAreStrictlyOrdered(w: World, l: Ledger, t: int, admin: bool, bracket: NullId, limit: int)
    requires UniqueIds(Table(w))
    ensures StrictlyOrdered(AsOf(w, l, t, admin, bracket, limit))
    ensures StrictlyOrdered(Top(w, l, admin, bracket, limit))
  {
    AsOfIsStrict(w, l, t, admin, bracket, limit);
    TopIsStrict(w, l, admin, bracket, limit);
  }

  // ── the live board is the board as of the end of time ───────────────────────

  // Two ways to pick scoring events that come to the same for every account.
  ghost predicate SameScoring(es: seq<Scoring>, fs: seq<Scoring>) {
    forall a :: && Scores(es, a) == Scores(fs, a) && Sum(es, a) == Sum(fs, a)
                && (Scores(es, a) ==> Last(es, a) == Last(fs, a))
  }

  // The events of known accounts; both live queries read exactly these.
  function Known(es: seq<Scoring>): seq<Scoring> {
    if es == [] then []
    else if es[|es| - 1].account.Id? then Known(es[..|es| - 1]) + [es[|es| - 1]]
    else Known(es[..|es| - 1])
  }

  lemma {:induction false} SnocScoring(es: seq<Scoring>, e: Scoring, a: int)
    ensures Scores(es + [e], a) <==> Scores(es, a) || e.account == Id(a)
    ensures Sum(es + [e], a) == Sum(es, a) + (if e.account == Id(a) then e.value else 0)
    ensures Scores(es + [e], a) ==>
              Last(es + [e], a) == if e.account != Id(a) then Last(es, a)
                                   else if Scores(es, a) then Max(Last(es, a), e.date) else e.date
  {
  }

  lemma {:induction false} KnownIsEnough(es: seq<Scoring>)
    ensures SameScoring(es, Known(es))
  {
    if es != [] {
      var init, e := es[..|es| - 1], es[|es| - 1];
      assert es == init + [e];
      KnownIsEnough(init);
      forall a ensures && Scores(es, a) == Scores(Known(es), a) && Sum(es, a) == Sum(Known(es), a)
                       && (Scores(es, a) ==> Last(es, a) == Last(Known(es), a)) {
        SnocScoring(init, e, a);
        if e.account.Id? { SnocScoring(Known(init), e, a); }
      }
    }
  }

  lemma {:induction false} KnownAppend(es: seq<Scoring>, fs: seq<Scoring>)
    ensures Known(es + fs) == Known(es) + Known(fs)
  {
    if fs == [] {
      assert es + fs == es;
    } else {
      KnownAppend(es, fs[..|fs| - 1]);
      assert (es + fs)[..|es + fs| - 1] == es + fs[..|fs| - 1];
    }
  }

  lemma {:induction false} LiveLegs(w: World, rows: seq<Event>, t: int)
    requires forall i :: 0 <= i < |rows| ==> rows[i].date < t
    ensures Known(AsOfLeg(w, rows, t)) == if w.teamMode then TeamLeg(rows) else UserLeg(rows)
  {
    if rows != [] {
      var e := rows[|rows| - 1];
      LiveLegs(w, rows[..|rows| - 1], t);
      var one := [Scoring(if w.teamMode then e.team else Id(e.user), e.value, e.date)];
      KnownAppend(AsOfLeg(w, rows[..|rows| - 1], t), one);
      assert one[..0] == [];
      assert Known(one) == if one[0].account.Id? then one else [];
    }
  }

  function LiveScoring(w: World, l: Ledger): seq<Scoring> {
    if w.teamMode then TeamLeg(l.solves) + TeamLeg(l.awards) else UserLeg(l.solves) + UserLeg(l.awards)
  }

  lemma LiveScoringIsAsOf(w: World, l: Ledger, t: int)
    requires AllBefore(l, t)
    ensures SameScoring(AsOfScoring(w, l, t), LiveScoring(w, l))
  {
    LiveLegs(w, l.solves, t);
    LiveLegs(w, l.awards, t);
    KnownAppend(AsOfLeg(w, l.solves, t), AsOfLeg(w, l.awards, t));
    KnownIsEnough(AsOfScoring(w, l, t));
  }

  ghost predicate AllBefore(l: Ledger, t: int) {
    && (forall i :: 0 <= i < |l.solves| ==> l.solves[i].date < t)
    && (forall i :: 0 <= i < |l.awards| ==> l.awards[i].date < t)
  }

  function EraseAll(rows: seq<Entry>): (r: seq<Entry>)
    ensures |r| == |rows| && forall i :: 0 <= i < |rows| ==> r[i] == Erase(rows[i])
  {
    if rows == [] then [] else [Erase(rows[0])] + EraseAll(rows[1..])
  }

  // A row of the one query is, bracket name aside, a row of the other.
  lemma {:induction false} AsOfRowIsTop(w: World, table: seq<Account>, es: seq<Scoring>, fs: seq<Scoring>, admin: bool, bracket: NullId, r: Entry) returns (q: Entry)
    requires UniqueIds(table) && SameScoring(es, fs)
    requires forall k :: 0 <= k < |Groups(es)| ==> Scores(es, Groups(es)[k])
    requires r in AsOfRows(table, es, Groups(es), admin, bracket)
    ensures q in TopRows(w, table, fs, admin, bracket) && r == Erase(q)
  {
    GroupsScore(es);
    AsOfRowsAre(table, es, Groups(es), admin, bracket);
    TopRowsAre(w, table, fs, admin, bracket);
    var a := Find(table, r.account);
    var i :| 0 <= i < |table| && table[i] == a;
    assert Scores(fs, table[i].id);
    q := EntryOf(table[i], NameOf(w, table[i].bracket), fs);
  }

  lemma {:induction false} TopRowIsAsOf(w: World, table: seq<Account>, es: seq<Scoring>, fs: seq<Scoring>, admin: bool, bracket: NullId, q: Entry)
    requires UniqueIds(table) && SameScoring(es, fs)
    requires forall k :: 0 <= k < |Groups(es)| ==> Scores(es, Groups(es)[k])
    requires q in TopRows(w, table, fs, admin, bracket)
    ensures Erase(q) in AsOfRows(table, es, Groups(es), admin, bracket)
  {
    GroupsScore(es);
    AsOfRowsAre(table, es, Groups(es), admin, bracket);
    TopRowsAre(w, table, fs, admin, bracket);
    assert FromAccount(w, table, fs, admin, bracket, q);
    var i :| && 0 <= i < |table| && table[i].id == q.account && Scores(fs, table[i].id)
             && Admits(admin, bracket, table[i]) && q == EntryOf(table[i], NameOf(w, table[i].bracket), fs);
    FindUnique(table, i);
    assert table[i].id in Groups(es);
    var k :| 0 <= k < |Groups(es)| && Groups(es)[k] == table[i].id;
    assert EntryOf(Find(table, Groups(es)[k]), NoBracket, es) in AsOfRows(table, es, Groups(es), admin, bracket);
  }

  // The two queries' rows, before ORDER BY, are the same set but for the bracket name.
  lemma {:induction false} SameRows(w: World, table: seq<Account>, es: seq<Scoring>, fs: seq<Scoring>, admin: bool, bracket: NullId, r: Entry)
    requires UniqueIds(table) && SameScoring(es, fs)
    requires forall k :: 0 <= k < |Groups(es)| ==> Scores(es, Groups(es)[k])
    ensures r in AsOfRows(table, es, Groups(es), admin, bracket)
       <==> exists q :: q in TopRows(w, table, fs, admin, bracket) && r == Erase(q)
  {
    if r in AsOfRows(table, es, Groups(es), admin, bracket) {
      var q := AsOfRowIsTop(w, table, es, fs, admin, bracket, r);
    }
    if q :| q in TopRows(w, table, fs, admin, bracket) && r == Erase(q) {
      TopRowIsAsOf(w, table, es, fs, admin, bracket, q);
    }
  }

  lemma {:induction false} StrictAndSameIsEqual(a: seq<Entry>, b: seq<Entry>)
    requires StrictlyOrdered(a) && StrictlyOrdered(b) && DistinctAccounts(a)
    requires forall r :: r in a <==> r in b
    ensures a == b
  {
    forall x, y | x in a && y in a && BoardOrder(x, y) && BoardOrder(y, x) ensures x == y {
      var i :| 0 <= i < |a| && a[i] == x;
      var j :| 0 <= j < |a| && a[j] == y;
    }
    SortedUnique(BoardOrder, a, b);
  }

  lemma {:induction false} FullBoardsAgree(w: World, l: Ledger, t: int, admin: bool, bracket: NullId)
    requires UniqueIds(Table(w)) && AllBefore(l, t)
    requires forall k :: 0 <= k < |Groups(AsOfScoring(w, l, t))| ==> Scores(AsOfScoring(w, l, t), Groups(AsOfScoring(w, l, t))[k])
    ensures Sort(BoardOrder, AsOfRows(Table(w), AsOfScoring(w, l, t), Groups(AsOfScoring(w, l, t)), admin, bracket))
         == EraseAll(Sort(BoardOrder, TopRows(w, Table(w), LiveScoring(w, l), admin, bracket)))
  {
    var es, fs := AsOfScoring(w, l, t), LiveScoring(w, l);
    GroupsScore(es);
    LiveScoringIsAsOf(w, l, t);
    var rows, tops := AsOfRows(Table(w), es, Groups(es), admin, bracket), TopRows(w, Table(w), fs, admin, bracket);
    AsOfRowsAre(Table(w), es, Groups(es), admin, bracket);
    TopRowsAre(w, Table(w), fs, admin, bracket);
    forall r { SameRows(w, Table(w), es, fs, admin, bracket, r); }
    SortedTogether(rows, tops);
  }

  lemma {:induction false} SortedTogether(rows: seq<Entry>, tops: seq<Entry>)
    requires DistinctAccounts(rows) && DistinctAccounts(tops)
    requires forall r :: r in rows <==> exists q :: q in tops && r == Erase(q)
    ensures Sort(BoardOrder, rows) == EraseAll(Sort(BoardOrder, tops))
  {
    SortDistinct(rows);
    SortDistinct(tops);
    var a, b := Sort(BoardOrder, rows), EraseAll(Sort(BoardOrder, tops));
    forall r { SortedMember(rows, tops, r); }
    StrictAndSameIsEqual(a, b);
  }

  lemma {:induction false} SortedMember(rows: seq<Entry>, tops: seq<Entry>, r: Entry)
    requires r in rows <==> exists q :: q in tops && r == Erase(q)
    ensures r in Sort(BoardOrder, rows) <==> r in EraseAll(Sort(BoardOrder, tops))
  {
    assert TotalPreorder(BoardOrder);
    SortKeeps(BoardOrder, rows);
    SortKeeps(BoardOrder, tops);
    ErasedMembers(Sort(BoardOrder, tops), r);
  }

  lemma {:induction false} ErasedMembers(rows: seq<Entry>, r: Entry)
    ensures r in EraseAll(rows) <==> exists q :: q in rows && r == Erase(q)
  {
  }

  /** In both modes, once `t` is past every date, the board as of `t` is the live one, bracket names aside. */
  lemma AsOfMeetsTop(w: World, l: Ledger, t: int, admin: bool, bracket: NullId, limit: int)
    requires UniqueIds(Table(w)) && AllBefore(l, t)
    ensures AsOf(w, l, t, admin, bracket, limit) == EraseAll(Top(w, l, admin, bracket, limit))
  {
    GroupsScore(AsOfScoring(w, l, t));
    FullBoardsAgree(w, l, t, admin, bracket);
    LimitErases(Sort(BoardOrder, TopRows(w, Table(w), LiveScoring(w, l), admin, bracket)), ClampLimit(limit));
  }

  lemma {:induction false} LimitErases(rows: seq<Entry>, lim: int)
    ensures Limit(EraseAll(rows), lim) == EraseAll(Limit(rows, lim))
  {
  }

  // ── brackets, visibility and limits ─────────────────────────────────────────

  lemma {:induction false} TopRowsFilter(w: World, table: seq<Account>, es: seq<Scoring>, admin: bool, bracket: NullId)
    ensures TopRows(w, table, es, admin, bracket) == Filter(Keeps(admin, bracket), TopRows(w, table, es, true, Null))
  {
    if table != [] {
      TopRowsFilter(w, table[1..], es, admin, bracket);
      var rest := TopRows(w, table[1..], es, true, Null);
      if Scores(es, table[0].id) {
        var e := EntryOf(table[0], NameOf(w, table[0].bracket), es);
        assert ([e] + rest)[1..] == rest;
      }
    }
  }

  // Which entries of the organiser's full board a narrower one keeps.
  function Keeps(admin: bool, bracket: NullId): Entry -> bool {
    (r: Entry) => (admin || (!r.hidden && !r.banned)) && (bracket == Null || r.bracket == bracket)
  }

  /**
   * Hiding accounts and narrowing to a bracket filter one ranking, and a limit takes its head: every
   * board is the first rows of the kept rows of the organiser's full board.
   */
  lemma EveryBoardIsAPrefixOfAFilter(w: World, l: Ledger, admin: bool, bracket: NullId, limit: int)
    ensures var full, board := Top(w, l, true, Null, 0), Top(w, l, admin, bracket, limit);
            && board <= Filter(Keeps(admin, bracket), full)
            && |board| == (if 0 < limit <= 1_000_000 && limit < |Filter(Keeps(admin, bracket), full)| then limit
                           else |Filter(Keeps(admin, bracket), full)|)
  {
    assert TotalPreorder(BoardOrder);
    var rows := TopRows(w, Table(w), LiveScoring(w, l), true, Null);
    TopRowsFilter(w, Table(w), LiveScoring(w, l), admin, bracket);
    FilterSort(BoardOrder, Keeps(admin, bracket), rows);
  }

  lemma {:induction false} AsOfRowsFilter(table: seq<Account>, es: seq<Scoring>, ids: seq<int>, admin: bool, bracket: NullId)
    requires forall k :: 0 <= k < |ids| ==> Scores(es, ids[k])
    ensures AsOfRows(table, es, ids, admin, bracket)
         == Filter(Keeps(admin, bracket), AsOfRows(table, es, ids, true, Null))
  {
    if ids != [] {
      AsOfRowsFilter(table, es, ids[1..], admin, bracket);
      var rest := AsOfRows(table, es, ids[1..], true, Null);
      if Exists(table, ids[0]) {
        var e := EntryOf(Find(table, ids[0]), NoBracket, es);
        assert ([e] + rest)[1..] == rest;
      }
    }
  }

  /** The same of time travel. */
  lemma EveryPastBoardIsAPrefixOfAFilter(w: World, l: Ledger, t: int, admin: bool, bracket: NullId, limit: int)
    ensures var full, board := AsOf(w, l, t, true, Null, 0), AsOf(w, l, t, admin, bracket, limit);
            && board <= Filter(Keeps(admin, bracket), full)
            && |board| == (if 0 < limit <= 1_000_000 && limit < |Filter(Keeps(admin, bracket), full)| then limit
                           else |Filter(Keeps(admin, bracket), full)|)
  {
    assert TotalPreorder(BoardOrder);
    var es := AsOfScoring(w, l, t);
    GroupsScore(es);
    AsOfRowsFilter(Table(w), es, Groups(es), admin, bracket);
    FilterSort(BoardOrder, Keeps(admin, bracket), AsOfRows(Table(w), es, Groups(es), true, Null));
  }

  /** A row's score is the stamped values of its account's events, whatever the accounts around it do. */
  lemma TopRowMeans(w: World, l: Ledger, admin: bool, bracket: NullId, limit: int, r: Entry)
    requires UniqueIds(Table(w)) && r in Top(w, l, admin, bracket, limit)
    ensures Scores(LiveScoring(w, l), r.account) && r.score == Sum(LiveScoring(w, l), r.account)
    ensures r.last == Last(LiveScoring(w, l), r.account)
    ensures (admin || (!r.hidden && !r.banned)) && (bracket == Null || r.bracket == bracket)
  {
    assert TotalPreorder(BoardOrder);
    var rows := TopRows(w, Table(w), LiveScoring(w, l), admin, bracket);
    TopRowsAre(w, Table(w), LiveScoring(w, l), admin, bracket);
    SortKeeps(BoardOrder, rows);
    assert r in rows;
  }
}
