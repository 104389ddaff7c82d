/**
 * The scoring rules in Go: fold events into one entry per account, rank them, number the places.
 *
 * A map's iteration order is arbitrary, so the methods are specified by what their result is, and that
 * specification has one solution for a given bag of events.
 */
module Scoring {
  import opened Prelude
  import opened Sorting
  import Standings

  datatype Event = Event(account: int, value: int, at: int)

  datatype Entry = Entry(account: int, score: int, last: int)

  datatype Standing = Standing(entry: Entry, place: int)

  // The zero time.Time, which a new entry's LastEvent starts from.
  const ZERO := 0

  predicate Counts(e: Event) { e.value != 0 }

  predicate Of(e: Event, a: int) { Counts(e) && e.account == a }

  function Sum(events: seq<Event>, a: int): int {
    if events == [] then 0
    else Sum(events[..|events| - 1], a) + (if Of(events[|events| - 1], a) then events[|events| - 1].value else 0)
  }

  predicate Appears(events: seq<Event>, a: int) {
    exists e :: e in events && Of(e, a)
  }

  // The latest counting event, but never before the zero time.
  predicate IsLast(events: seq<Event>, a: int, last: int) {
    && last >= ZERO
    && (forall e :: e in events && Of(e, a) ==> e.at <= last)
    && (last == ZERO || exists e :: e in events && Of(e, a) && e.at == last)
  }

  predicate IsEntry(events: seq<Event>, e: Entry) {
    Appears(events, e.account) && e.score == Sum(events, e.account) && IsLast(events, e.account, e.last)
  }

  lemma {:induction false} SnocEvent(events: seq<Event>, ev: Event, a: int)
    ensures Sum(events + [ev], a) == Sum(events, a) + (if Of(ev, a) then ev.value else 0)
    ensures Appears(events + [ev], a) <==> Appears(events, a) || Of(ev, a)
  {
  }

  lemma SnocLast(events: seq<Event>, ev: Event, a: int, last: int)
    requires IsLast(events, a, last) || (!Appears(events, a) && last == ZERO)
    ensures IsLast(events + [ev], a, if Of(ev, a) && ev.at > last then ev.at else last)
  {
  }

  // The map after folding these events.
  ghost predicate Folded(events: seq<Event>, m: map<int, Entry>) {
    && (forall a :: a in m <==> Appears(events, a))
    && (forall a :: a in m ==> m[a].account == a && IsEntry(events, m[a]))
    && (forall a :: a !in m ==> Sum(events, a) == 0)
  }

  lemma FoldSkips(events: seq<Event>, m: map<int, Entry>, ev: Event)
    requires Folded(events, m) && !Counts(ev)
    ensures Folded(events + [ev], m)
  {
  }

  lemma FoldAdds(events: seq<Event>, m: map<int, Entry>, ev: Event, e: Entry)
    requires Folded(events, m) && Counts(ev)
    requires var was := if ev.account in m then m[ev.account] else Entry(ev.account, 0, ZERO);
             e == Entry(ev.account, was.score + ev.value, if ev.at > was.last then ev.at else was.last)
    ensures Folded(events + [ev], m[ev.account := e])
  {
    var m' := m[ev.account := e];
    SnocEvent(events, ev, ev.account);
    SnocLast(events, ev, ev.account, if ev.account in m then m[ev.account].last else ZERO);
    assert IsEntry(events + [ev], e);
    forall a | a != ev.account ensures && (a in m' <==> Appears(events + [ev], a))
                                       && (a in m' ==> IsEntry(events + [ev], m'[a]))
                                       && (a !in m' ==> Sum(events + [ev], a) == 0) {
      SnocEvent(events, ev, a);
      if a in m { SnocLast(events, ev, a, m[a].last); }
    }
  }

  method Fold(events: seq<Event>) returns (byAccount: map<int, Entry>)
    ensures Folded(events, byAccount)
  {
    byAccount := map[];
    for i := 0 to |events|
      invariant Folded(events[..i], byAccount)
    {
      var ev := events[i];
      assert events[..i + 1] == events[..i] + [ev];
      if !Counts(ev) {
        FoldSkips(events[..i], byAccount, ev);
        continue;
      }
      var e := if ev.account in byAccount then byAccount[ev.account] else Entry(ev.account, 0, ZERO);
      e := e.(score := e.score + ev.value);
      if ev.at > e.last { e := e.(last := ev.at); }
      FoldAdds(events[..i], byAccount, ev, e);
      byAccount := byAccount[ev.account := e];
    }
    assert events[..|events|] == events;
  }

  // The map's entries, in the arbitrary order it is walked.
  method Collect(m: map<int, Entry>) returns (out: seq<Entry>)
    requires forall a :: a in m ==> m[a].account == a
    ensures forall e :: e in out ==> e.account in m && m[e.account] == e
    ensures forall a :: a in m ==> m[a] in out
    ensures DistinctAccounts(out)
  {
    out := [];
    var left := m.Keys;
    while |left| > 0
      invariant forall a :: a in left ==> a in m
      invariant forall e :: e in out ==> e.account in m && e.account !in left && e == m[e.account]
      invariant forall a :: a in m ==> a in left || m[a] in out
      invariant DistinctAccounts(out)
    {
      ghost var _ := Pick(left);
      var a :| a in left;
      assert forall k :: 0 <= k < |out| ==> out[k] in out;
      out := out + [m[a]];
      left := left - {a};
    }
  }

  method Aggregate(events: seq<Event>) returns (out: seq<Entry>)
    ensures forall e :: e in out ==> IsEntry(events, e)
    ensures forall a :: Appears(events, a) ==> exists e :: e in out && e.account == a
    ensures DistinctAccounts(out)
  {
    var byAccount := Fold(events);
    out := Collect(byAccount);
  }

  ghost predicate DistinctAccounts(s: seq<Entry>) {
    forall i, j :: 0 <= i < j < |s| ==> s[i].account != s[j].account
  }

  // ── the ranking ─────────────────────────────────────────────────────────────

  predicate Less(a: Entry, b: Entry) {
    if a.score != b.score then a.score > b.score
    else if a.last != b.last then a.last < b.last
    else a.account < b.account
  }

  // The stable sort needs only "not after".
  predicate NotAfter(a: Entry, b: Entry) { !Less(b, a) }

  lemma NotAfterIsTotal()
    ensures TotalPreorder(NotAfter)
  {
  }

  /** The board of a bag of events: an entry for each account with a counting event, strictly ranked, placed from 1. */
  ghost predicate IsBoard(events: seq<Event>, board: seq<Standing>) {
    && (forall i :: 0 <= i < |board| ==> board[i].place == i + 1 && IsEntry(events, board[i].entry))
    && (forall a :: Appears(events, a) ==> exists i :: 0 <= i < |board| && board[i].entry.account == a)
    && (forall i, j :: 0 <= i < j < |board| ==> Less(board[i].entry, board[j].entry))
  }

  method Board(events: seq<Event>) returns (board: seq<Standing>)
    ensures IsBoard(events, board)
  {
    var entries := Aggregate(events);
    var ranked := Sort(NotAfter, entries);
    board := [];
    for i := 0 to |ranked|
      invariant |board| == i
      invariant forall k :: 0 <= k < i ==> board[k] == Standing(ranked[k], k + 1)
    {
      board := board + [Standing(ranked[i], i + 1)];
    }
    RankedIsBoard(events, entries, board);
  }

  lemma {:induction false} RankedIsBoard(events: seq<Event>, entries: seq<Entry>, board: seq<Standing>)
    requires forall e :: e in entries ==> IsEntry(events, e)
    requires forall a :: Appears(events, a) ==> exists e :: e in entries && e.account == a
    requires DistinctAccounts(entries) && |board| == |Sort(NotAfter, entries)|
    requires forall k :: 0 <= k < |board| ==> board[k] == Standing(Sort(NotAfter, entries)[k], k + 1)
    ensures IsBoard(events, board)
  {
    var ranked := Sort(NotAfter, entries);
    NotAfterIsTotal();
    SortKeeps(NotAfter, entries);
    SortDistinctBy(NotAfter, (e: Entry) => e.account, entries);
    forall k | 0 <= k < |ranked| ensures IsEntry(events, ranked[k]) { assert ranked[k] in entries; }
    forall a | Appears(events, a) ensures exists i :: 0 <= i < |board| && board[i].entry.account == a {
      var e :| e in entries && e.account == a;
      assert e in ranked;
      var k :| 0 <= k < |ranked| && ranked[k] == e;
      assert board[k].entry.account == a;
    }
    forall i, j | 0 <= i < j < |board| ensures Less(board[i].entry, board[j].entry) {
      assert NotAfter(ranked[i], ranked[j]) && ranked[i].account != ranked[j].account;
    }
  }

  // ── one bag of events, one board ────────────────────────────────────────────

  lemma {:induction false} SumRemove(events: seq<Event>, i: nat, a: int)
    requires i < |events|
    ensures Sum(events, a) == Sum(events[..i] + events[i + 1..], a) + (if Of(events[i], a) then events[i].value else 0)
  {
    var n := |events| - 1;
    if i == n {
      assert events[..i] + events[i + 1..] == events[..n];
    } else {
      SumRemove(events[..n], i, a);
      assert (events[..i] + events[i + 1..])[..n - 1] == events[..n][..i] + events[..n][i + 1..];
    }
  }

  lemma {:induction false} SumOfBag(events: seq<Event>, events': seq<Event>, a: int)
    requires multiset(events) == multiset(events')
    ensures Sum(events, a) == Sum(events', a)
    decreases |events|
  {
    if events == [] {
      assert |multiset(events')| == 0;
    } else {
      var n := |events| - 1;
      var init, last := events[..n], events[n];
      assert events == init + [last];
      assert last in multiset(events');
      var i :| 0 <= i < |events'| && events'[i] == last;
      var rest := events'[..i] + events'[i + 1..];
      assert events' == events'[..i] + [last] + events'[i + 1..];
      assert multiset(rest) == multiset(events') - multiset{last};
      assert multiset(init) == multiset(events) - multiset{last};
      SumOfBag(init, rest, a);
      SumRemove(events', i, a);
    }
  }

  lemma SameBag(events: seq<Event>, events': seq<Event>, e: Entry)
    requires multiset(events) == multiset(events') && IsEntry(events, e)
    ensures IsEntry(events', e)
  {
    forall x ensures x in events <==> x in events' {
      assert x in multiset(events) <==> x in multiset(events');
    }
    SumOfBag(events, events', e.account);
  }

  function EntriesOf(board: seq<Standing>): (s: seq<Entry>)
    ensures |s| == |board| && forall i :: 0 <= i < |s| ==> s[i] == board[i].entry
  {
    seq(|board|, i requires 0 <= i < |board| => board[i].entry)
  }

  lemma MemberAcross(events: seq<Event>, board: seq<Standing>, board': seq<Standing>, e: Entry)
    requires IsBoard(events, board) && IsBoard(events, board') && e in EntriesOf(board)
    ensures e in EntriesOf(board')
  {
  }

  lemma Ranked(s: seq<Entry>)
    requires forall i, j :: 0 <= i < j < |s| ==> Less(s[i], s[j])
    ensures Sorted(NotAfter, s)
    ensures forall i, j :: 0 <= i < j < |s| ==> s[i] != s[j]
    ensures forall x, y :: x in s && y in s && NotAfter(x, y) && NotAfter(y, x) ==> x == y
  {
  }

  lemma BoardUnique(events: seq<Event>, board: seq<Standing>, board': seq<Standing>)
    requires IsBoard(events, board) && IsBoard(events, board')
    ensures board == board'
  {
    var s, s' := EntriesOf(board), EntriesOf(board');
    forall e ensures e in s <==> e in s' {
      if e in s { MemberAcross(events, board, board', e); }
      if e in s' { MemberAcross(events, board', board, e); }
    }
    Ranked(s);
    Ranked(s');
    SortedUnique(NotAfter, s, s');
    forall i | 0 <= i < |board| ensures board[i] == board'[i] {
      assert s[i] == s'[i];
    }
  }

  /** Whatever order the same events arrive in, and however the map is walked, the board is the same. */
  lemma BoardIsAFunctionOfTheBag(events: seq<Event>, events': seq<Event>, board: seq<Standing>, board': seq<Standing>)
    requires multiset(events) == multiset(events') && IsBoard(events, board) && IsBoard(events', board')
    ensures board == board'
  {
    forall i | 0 <= i < |board'| ensures IsEntry(events, board'[i].entry) {
      SameBag(events', events, board'[i].entry);
    }
    forall a ensures Appears(events, a) <==> Appears(events', a) {
      forall x ensures x in events <==> x in events' {
        assert x in multiset(events) <==> x in multiset(events');
      }
    }
    BoardUnique(events, board, board');
  }

  // ── the same board as the SQL ───────────────────────────────────────────────

  // The events the live query's predicates admit, as its caller would hand them over.
  function Admitted(table: seq<Standings.Account>, es: seq<Standings.Scoring>, admin: bool, bracket: NullId): seq<Event> {
    if es == [] then []
    else
      var before, e := Admitted(table, es[..|es| - 1], admin, bracket), es[|es| - 1];
      if e.account.Id? && Standings.Exists(table, e.account.id)
         && Standings.Admits(admin, bracket, Standings.Find(table, e.account.id))
      then before + [Event(e.account.id, e.value, e.date)] else before
  }

  predicate Plain(es: seq<Standings.Scoring>) {
    forall i :: 0 <= i < |es| ==> es[i].value != 0 && es[i].date >= ZERO
  }

  lemma {:induction false} AdmittedMeans(table: seq<Standings.Account>, es: seq<Standings.Scoring>, admin: bool, bracket: NullId, a: int)
    requires Plain(es)
    ensures var kept := Standings.Exists(table, a) && Standings.Admits(admin, bracket, Standings.Find(table, a));
            var events := Admitted(table, es, admin, bracket);
            && (Appears(events, a) <==> kept && Standings.Scores(es, a))
            && (kept && Standings.Scores(es, a) ==>
                  Sum(events, a) == Standings.Sum(es, a) && IsLast(events, a, Standings.Last(es, a)))
            && (!(kept && Standings.Scores(es, a)) ==> Sum(events, a) == 0)
            && (!Standings.Scores(es, a) ==> Standings.Sum(es, a) == 0)
  {
    if es != [] {
      var init, e := es[..|es| - 1], es[|es| - 1];
      AdmittedMeans(table, init, admin, bracket, a);
      assert es == init + [e];
      Standings.SnocScoring(init, e, a);
      if e.account.Id? {
        var ev := Event(e.account.id, e.value, e.date);
        SnocEvent(Admitted(table, init, admin, bracket), ev, a);
        if Standings.Scores(init, a) {
          if Appears(Admitted(table, init, admin, bracket), a) {
            SnocLast(Admitted(table, init, admin, bracket), ev, a, Standings.Last(init, a));
          }
        } else {
          SnocLast(Admitted(table, init, admin, bracket), ev, a, ZERO);
        }
      }
    }
  }

  // A standings row without the account's columns.
  function Strip(r: Standings.Entry): Entry { Entry(r.account, r.score, r.last) }

  function Placed(rows: seq<Standings.Entry>): (b: seq<Standing>)
    ensures |b| == |rows| && forall i :: 0 <= i < |b| ==> b[i] == Standing(Strip(rows[i]), i + 1)
  {
    seq(|rows|, i requires 0 <= i < |rows| => Standing(Strip(rows[i]), i + 1))
  }

  lemma LegsArePlain(w: Standings.World, l: Standings.Ledger)
    requires forall i :: 0 <= i < |l.solves| ==> l.solves[i].date >= ZERO
    requires forall i :: 0 <= i < |l.awards| ==> l.awards[i].date >= ZERO
    ensures Plain(Standings.LiveScoring(w, l))
  {
    LegIsPlain(l.solves);
    LegIsPlain(l.awards);
  }

  lemma {:induction false} LegIsPlain(rows: seq<Standings.Event>)
    requires forall i :: 0 <= i < |rows| ==> rows[i].date >= ZERO
    ensures Plain(Standings.TeamLeg(rows)) && Plain(Standings.UserLeg(rows))
  {
    if rows != [] { LegIsPlain(rows[..|rows| - 1]); }
  }

  /** On the events the live query admits, the Go board is the query's board: accounts, scores, instants and places. */
  lemma {:induction false} GoBoardIsTheSqlBoard(w: Standings.World, l: Standings.Ledger, admin: bool, bracket: NullId, board: seq<Standing>)
    requires Standings.UniqueIds(Standings.Table(w))
    requires forall i :: 0 <= i < |l.solves| ==> l.solves[i].date >= ZERO
    requires forall i :: 0 <= i < |l.awards| ==> l.awards[i].date >= ZERO
    requires IsBoard(Admitted(Standings.Table(w), Standings.LiveScoring(w, l), admin, bracket), board)
    ensures board == Placed(Standings.Top(w, l, admin, bracket, 0))
  {
    LegsArePlain(w, l);
    SqlIsBoard(w, Standings.Table(w), Standings.LiveScoring(w, l), admin, bracket);
    BoardUnique(Admitted(Standings.Table(w), Standings.LiveScoring(w, l), admin, bracket), board,
                Placed(Standings.Top(w, l, admin, bracket, 0)));
  }

  lemma {:induction false} RowIsEntry(w: Standings.World, table: seq<Standings.Account>, es: seq<Standings.Scoring>, admin: bool, bracket: NullId, r: Standings.Entry)
    requires Standings.UniqueIds(table) && Plain(es)
    requires r in Standings.TopRows(w, table, es, admin, bracket)
    ensures IsEntry(Admitted(table, es, admin, bracket), Strip(r))
  {
    Standings.TopRowsAre(w, table, es, admin, bracket);
    var k :| && 0 <= k < |table| && table[k].id == r.account && Standings.Scores(es, table[k].id)
             && Standings.Admits(admin, bracket, table[k])
             && r == Standings.EntryOf(table[k], Standings.NameOf(w, table[k].bracket), es);
    Standings.FindUnique(table, k);
    AdmittedMeans(table, es, admin, bracket, r.account);
  }

  lemma EntryHasRow(w: Standings.World, table: seq<Standings.Account>, es: seq<Standings.Scoring>, admin: bool, bracket: NullId, a: int)
      returns (r: Standings.Entry)
    requires Standings.UniqueIds(table) && Plain(es)
    requires Appears(Admitted(table, es, admin, bracket), a)
    ensures r in Standings.TopRows(w, table, es, admin, bracket) && r.account == a
  {
    Standings.TopRowsAre(w, table, es, admin, bracket);
    AdmittedMeans(table, es, admin, bracket, a);
    var acc := Standings.Find(table, a);
    var k :| 0 <= k < |table| && table[k] == acc;
    r := Standings.EntryOf(table[k], Standings.NameOf(w, table[k].bracket), es);
  }

  lemma {:induction false} SqlIsBoard(w: Standings.World, table: seq<Standings.Account>, es: seq<Standings.Scoring>, admin: bool, bracket: NullId)
    requires Standings.UniqueIds(table) && Plain(es)
    ensures IsBoard(Admitted(table, es, admin, bracket),
                    Placed(Sort(Standings.BoardOrder, Standings.TopRows(w, table, es, admin, bracket))))
  {
    var rows := Standings.TopRows(w, table, es, admin, bracket);
    var sorted, events := Sort(Standings.BoardOrder, rows), Admitted(table, es, admin, bracket);
    assert TotalPreorder(Standings.BoardOrder);
    SortKeeps(Standings.BoardOrder, rows);
    forall i | 0 <= i < |sorted| ensures IsEntry(events, Strip(sorted[i])) {
      assert sorted[i] in rows;
      RowIsEntry(w, table, es, admin, bracket, sorted[i]);
    }
    forall a | Appears(events, a) ensures exists i :: 0 <= i < |sorted| && Strip(sorted[i]).account == a {
      var r := EntryHasRow(w, table, es, admin, bracket, a);
      assert r in sorted;
      var i :| 0 <= i < |sorted| && sorted[i] == r;
      assert Strip(sorted[i]).account == a;
    }
    StrippedOrder(w, table, es, admin, bracket);
  }

  lemma {:induction false} StrippedOrder(w: Standings.World, table: seq<Standings.Account>, es: seq<Standings.Scoring>, admin: bool, bracket: NullId)
    requires Standings.UniqueIds(table)
    ensures var sorted := Sort(Standings.BoardOrder, Standings.TopRows(w, table, es, admin, bracket));
            forall i, j :: 0 <= i < j < |sorted| ==> Less(Strip(sorted[i]), Strip(sorted[j]))
  {
    Standings.TopRowsAre(w, table, es, admin, bracket);
    Standings.SortDistinct(Standings.TopRows(w, table, es, admin, bracket));
  }
}
