/**
 * The solve list of a challenge, page by page.
 *
 * The cursor is the last row a page read, shown or not. A page is short exactly when it is the tail.
 */
module SolvePages {
  import opened Prelude
  import opened Sorting

  // A row of `solves` joined to its account: `shown` is false for a hidden or banned solver.
  datatype Solve = Solve(id: int, date: int, name: string, value: int, shown: bool)

  datatype Entry = Entry(name: string, value: int, date: int)

  datatype Cutoff = Live | Frozen(at: int)

  datatype Cursor = Start | After(date: int, id: int)

  // NoSolve is the row of NULLs a listed challenge has when nothing matches.
  datatype QueryRow = NoSolve | Found(solve: Solve)

  datatype Page = Page(rows: seq<Entry>, next: Cursor)

  datatype Error = NotFound

  // ORDER BY date, id.
  predicate Order(a: Solve, b: Solve) {
    a.date < b.date || (a.date == b.date && a.id <= b.id)
  }

  predicate Within(cutoff: Cutoff, s: Solve) { cutoff.Live? || s.date < cutoff.at }

  predicate Past(c: Cursor, s: Solve) {
    c.Start? || s.date > c.date || (s.date == c.date && s.id > c.id)
  }

  function Matching(cutoff: Cutoff, c: Cursor): Solve -> bool {
    (s: Solve) => Within(cutoff, s) && Past(c, s)
  }

  function Take(rows: seq<Solve>, lim: nat): seq<Solve> {
    if |rows| <= lim then rows else rows[..lim]
  }

  function AsRows(rows: seq<Solve>): (r: seq<QueryRow>)
    ensures |r| == |rows| && forall i :: 0 <= i < |r| ==> r[i] == Found(rows[i])
  {
    seq(|rows|, i requires 0 <= i < |rows| => Found(rows[i]))
  }

  // ListChallengeSolves: no row for an unlisted challenge, a row of NULLs when no solve matches.
  function Query(listed: bool, solves: seq<Solve>, cutoff: Cutoff, c: Cursor, lim: nat): seq<QueryRow> {
    var rows := Sort(Order, Filter(Matching(cutoff, c), solves));
    if !listed || lim == 0 then []
    else if rows == [] then [NoSolve]
    else AsRows(Take(rows, lim))
  }

  function EntryOf(s: Solve): Entry { Entry(s.name, s.value, s.date) }

  // What the caller sees of these rows.
  function Shown(rows: seq<Solve>): seq<Entry> {
    if rows == [] then []
    else
      var before, last := Shown(rows[..|rows| - 1]), rows[|rows| - 1];
      if last.shown then before + [EntryOf(last)] else before
  }

  method Solves(listed: bool, solves: seq<Solve>, cutoff: Cutoff, c: Cursor, lim: nat) returns (r: Result<Page, Error>)
    requires lim >= 1
    ensures r.Err? <==> !listed
    ensures r.Ok? ==> r.value == PageOf(solves, cutoff, c, lim)
  {
    var rows := Query(listed, solves, cutoff, c, lim);
    if |rows| == 0 { return Err(NotFound); }
    ghost var read := Take(Sort(Order, Filter(Matching(cutoff, c), solves)), lim);
    var out: seq<Entry> := [];
    for i := 0 to |rows|
      invariant rows[0].NoSolve? ==> out == []
      invariant rows[0].Found? ==> out == Shown(read[..i])
    {
      if rows[i].NoSolve? || !rows[i].solve.shown {
        if rows[0].Found? { assert read[..i + 1][..i] == read[..i]; }
        continue;
      }
      assert read[..i + 1][..i] == read[..i];
      out := out + [EntryOf(rows[i].solve)];
    }
    assert read[..|read|] == read;
    var last := rows[|rows| - 1];
    var next := Start; // nil
    if |rows| == lim && last.Found? { next := After(last.solve.date, last.solve.id); }
    r := Ok(Page(out, next));
  }

  // The page of a listed challenge.
  function PageOf(solves: seq<Solve>, cutoff: Cutoff, c: Cursor, lim: nat): Page {
    var rows := Take(Sort(Order, Filter(Matching(cutoff, c), solves)), lim);
    Page(Shown(rows), if rows != [] && |rows| == lim then After(rows[lim - 1].date, rows[lim - 1].id) else Start)
  }

  // ── the walk ────────────────────────────────────────────────────────────────

  // The list a reader should see: every shown solve before the cutoff, oldest first.
  function Listing(solves: seq<Solve>, cutoff: Cutoff): seq<Entry> {
    Shown(Ranked(solves, cutoff))
  }

  function Ranked(solves: seq<Solve>, cutoff: Cutoff): seq<Solve> {
    Sort(Order, Filter(s => Within(cutoff, s), solves))
  }

  function Upto(c: Cursor): Solve -> bool { (s: Solve) => !Past(c, s) }

  function Beyond(c: Cursor): Solve -> bool { (s: Solve) => Past(c, s) }

  ghost predicate UniqueIds(solves: seq<Solve>) {
    forall i, j :: 0 <= i < j < |solves| ==> solves[i].id != solves[j].id
  }

  lemma {:induction false} FilterTwice(p: Solve -> bool, q: Solve -> bool, r: Solve -> bool, s: seq<Solve>)
    requires forall x :: r(x) == (p(x) && q(x))
    ensures Filter(q, Filter(p, s)) == Filter(r, s)
  {
    if s != [] {
      FilterTwice(p, q, r, s[1..]);
      if p(s[0]) { assert ([s[0]] + Filter(p, s[1..]))[1..] == Filter(p, s[1..]); }
    }
  }

  // In a sorted list the rows up to a cursor come first, and the rest after.
  lemma {:induction false} SplitAtCursor(rows: seq<Solve>, c: Cursor)
    requires Sorted(Order, rows)
    ensures rows == Filter(Upto(c), rows) + Filter(Beyond(c), rows)
  {
    if rows != [] {
      SplitAtCursor(rows[1..], c);
      assert rows == [rows[0]] + rows[1..];
      if Past(c, rows[0]) {
        forall s | s in rows[1..] ensures Past(c, s) {
          var k :| 0 <= k < |rows[1..]| && rows[1..][k] == s;
          assert Order(rows[0], rows[k + 1]);
        }
        FilterNone(Upto(c), rows[1..]);
      }
    }
  }

  // What the query matches is the part of the whole list past the cursor.
  lemma {:induction false} MatchedIsTheRest(solves: seq<Solve>, cutoff: Cutoff, c: Cursor)
    ensures Sort(Order, Filter(Matching(cutoff, c), solves)) == Filter(Beyond(c), Ranked(solves, cutoff))
    ensures Ranked(solves, cutoff) == Filter(Upto(c), Ranked(solves, cutoff)) + Filter(Beyond(c), Ranked(solves, cutoff))
  {
    assert TotalPreorder(Order);
    var within := Filter(s => Within(cutoff, s), solves);
    FilterTwice(s => Within(cutoff, s), Beyond(c), Matching(cutoff, c), solves);
    FilterSort(Order, Beyond(c), within);
    SortKeeps(Order, within);
    SplitAtCursor(Ranked(solves, cutoff), c);
  }

  lemma {:induction false} ShownAppend(a: seq<Solve>, b: seq<Solve>)
    ensures Shown(a + b) == Shown(a) + Shown(b)
  {
    if b == [] {
      assert a + b == a;
    } else {
      ShownAppend(a, b[..|b| - 1]);
      assert (a + b)[..|a + b| - 1] == a + b[..|b| - 1];
    }
  }

  // A reader following cursors while solves land: what it has been shown, and where it is.
  datatype Reader = Reader(solves: seq<Solve>, cursor: Cursor, got: seq<Entry>, done: bool)

  datatype Event = Append(solve: Solve) | Fetch

  function Do(r: Reader, e: Event, cutoff: Cutoff, lim: nat): Reader
    requires lim >= 1
  {
    match e
    case Append(s) => r.(solves := r.solves + [s])
    case Fetch =>
      if r.done then r
      else
        var page := PageOf(r.solves, cutoff, r.cursor, lim);
        if page.next == Start then r.(got := r.got + page.rows, done := true)
        else r.(got := r.got + page.rows, cursor := page.next)
  }

  function Run(r: Reader, events: seq<Event>, cutoff: Cutoff, lim: nat): Reader
    requires lim >= 1
    decreases |events|
  {
    if events == [] then r else Run(Do(r, events[0], cutoff, lim), events[1..], cutoff, lim)
  }

  // A shown solve lands before the cutoff where an open reader has already been.
  predicate Behind(r: Reader, e: Event, cutoff: Cutoff) {
    e.Append? && !r.done && Within(cutoff, e.solve) && !Past(r.cursor, e.solve) && e.solve.shown
  }

  function OneMissed(r: Reader, e: Event, cutoff: Cutoff): seq<Entry> {
    if Behind(r, e, cutoff) then [EntryOf(e.solve)] else []
  }

  // The entries of the solves that land so during a run, in the order they land.
  function Missed(r: Reader, events: seq<Event>, cutoff: Cutoff, lim: nat): seq<Entry>
    requires lim >= 1
  {
    MissedSince(r, events, [], cutoff, lim)
  }

  function MissedSince(r: Reader, events: seq<Event>, missed: seq<Entry>, cutoff: Cutoff, lim: nat): seq<Entry>
    requires lim >= 1
    decreases |events|
  {
    if events == [] then missed
    else MissedSince(Do(r, events[0], cutoff, lim), events[1..], missed + OneMissed(r, events[0], cutoff), cutoff, lim)
  }

  // The part of the list up to the reader's cursor.
  function Seen(r: Reader, cutoff: Cutoff): seq<Entry> {
    Shown(Filter(Upto(r.cursor), Ranked(r.solves, cutoff)))
  }

  // What an open reader was shown, with what it missed, is the list up to its cursor.
  ghost predicate Accounts(r: Reader, missed: seq<Entry>, cutoff: Cutoff) {
    && multiset(Seen(r, cutoff)) == multiset(r.got) + multiset(missed)
    && (missed == [] ==> Seen(r, cutoff) == r.got)
  }

  // Reading on: the page is the next stretch of the list, and moves the cursor to its end.
  lemma ReadOn(solves: seq<Solve>, cutoff: Cutoff, c: Cursor, lim: nat)
    requires lim >= 1 && UniqueIds(solves)
    ensures var page, all := PageOf(solves, cutoff, c, lim), Ranked(solves, cutoff);
            var before := Shown(Filter(Upto(c), all));
            if page.next == Start then before + page.rows == Shown(all)
            else before + page.rows == Shown(Filter(Upto(page.next), all))
  {
    var all := Ranked(solves, cutoff);
    var rest := Filter(Beyond(c), all);
    MatchedIsTheRest(solves, cutoff, c);
    var page, read := PageOf(solves, cutoff, c, lim), Take(rest, lim);
    ShownAppend(Filter(Upto(c), all), read);
    if page.next == Start {
      assert read == rest;
    } else {
      CursorMoves(solves, cutoff, c, lim);
      assert read == rest[..lim];
    }
  }

  lemma CursorMoves(solves: seq<Solve>, cutoff: Cutoff, c: Cursor, lim: nat)
    requires lim >= 1 && UniqueIds(solves) && PageOf(solves, cutoff, c, lim).next != Start
    ensures var all := Ranked(solves, cutoff);
            var rest, next := Filter(Beyond(c), all), PageOf(solves, cutoff, c, lim).next;
            && |rest| >= lim
            && Filter(Upto(next), all) == Filter(Upto(c), all) + rest[..lim]
            && Filter(Beyond(next), all) == rest[lim..]
  {
    var all := Ranked(solves, cutoff);
    var seen, rest := Filter(Upto(c), all), Filter(Beyond(c), all);
    MatchedIsTheRest(solves, cutoff, c);
    var next := PageOf(solves, cutoff, c, lim).next;
    RankedIsStrict(solves, cutoff);
    var n := |seen| + lim;
    assert all[n - 1] == rest[lim - 1];
    NextCut(all, n);
    assert all[..n] == seen + rest[..lim] && all[n..] == rest[lim..];
  }

  // The cursor of the n-th row cuts the list after it.
  lemma {:induction false} NextCut(all: seq<Solve>, n: nat)
    requires Sorted(Order, all) && UniqueIds(all) && 1 <= n <= |all|
    ensures var next := After(all[n - 1].date, all[n - 1].id);
            Filter(Upto(next), all) == all[..n] && Filter(Beyond(next), all) == all[n..]
  {
    var next := After(all[n - 1].date, all[n - 1].id);
    var a, b := all[..n], all[n..];
    forall x | x in a ensures Upto(next)(x) && !Beyond(next)(x) {}
    forall x | x in b ensures !Upto(next)(x) && Beyond(next)(x) {}
    assert all == a + b;
    FilterAppend(Upto(next), a, b);
    FilterAll(Upto(next), a);
    FilterNone(Upto(next), b);
    FilterAppend(Beyond(next), a, b);
    FilterNone(Beyond(next), a);
    FilterAll(Beyond(next), b);
  }

  // ORDER BY date, id with unique ids: no two rows are peers.
  lemma RankedIsStrict(solves: seq<Solve>, cutoff: Cutoff)
    requires UniqueIds(solves)
    ensures Sorted(Order, Ranked(solves, cutoff)) && UniqueIds(Ranked(solves, cutoff))
  {
    assert TotalPreorder(Order);
    var within := Filter(s => Within(cutoff, s), solves);
    FilterDistinctBy(s => Within(cutoff, s), (s: Solve) => s.id, solves);
    SortKeeps(Order, within);
    SortDistinctBy(Order, (s: Solve) => s.id, within);
  }

  lemma {:induction false} ShownInsert(x: Solve, rows: seq<Solve>)
    ensures multiset(Shown(Insert(Order, x, rows))) == multiset(Shown([x])) + multiset(Shown(rows))
  {
    ShownAppend([x], rows);
    if rows != [] && !Order(x, rows[0]) {
      ShownInsert(x, rows[1..]);
      ShownAppend([rows[0]], Insert(Order, x, rows[1..]));
      ShownAppend([rows[0]], rows[1..]);
      assert rows == [rows[0]] + rows[1..];
    }
  }

  lemma {:induction false} ShownSort(rows: seq<Solve>)
    ensures multiset(Shown(Sort(Order, rows))) == multiset(Shown(rows))
  {
    if rows != [] {
      ShownSort(rows[1..]);
      ShownInsert(rows[0], Sort(Order, rows[1..]));
      ShownAppend([rows[0]], rows[1..]);
      assert rows == [rows[0]] + rows[1..];
    }
  }

  lemma {:induction false} ShownFilters(rows: seq<Solve>)
    ensures Shown(Filter((s: Solve) => s.shown, rows)) == Shown(rows)
  {
    if rows != [] {
      ShownFilters(rows[1..]);
      assert rows == [rows[0]] + rows[1..];
      ShownAppend([rows[0]], rows[1..]);
      ShownAppend([rows[0]], Filter((s: Solve) => s.shown, rows[1..]));
    }
  }

  // Of the list up to the cursor only the shown rows count, in whatever order they landed.
  lemma {:induction false} SeenIs(r: Reader, cutoff: Cutoff)
    ensures Seen(r, cutoff) == Shown(Sort(Order, Due(r, cutoff)))
    ensures multiset(Seen(r, cutoff)) == multiset(Shown(Due(r, cutoff)))
  {
    assert TotalPreorder(Order);
    var within := Filter(s => Within(cutoff, s), r.solves);
    var upto := Filter(Upto(r.cursor), within);
    FilterSort(Order, Upto(r.cursor), within);
    FilterSort(Order, (s: Solve) => s.shown, upto);
    ShownFilters(Sort(Order, upto));
    ShownSort(Due(r, cutoff));
  }

  function Due(r: Reader, cutoff: Cutoff): seq<Solve> {
    Filter((s: Solve) => s.shown, Filter(Upto(r.cursor), Filter(s => Within(cutoff, s), r.solves)))
  }

  lemma {:induction false} DueOneMore(r: Reader, s: Solve, cutoff: Cutoff)
    requires !r.done
    ensures Due(r.(solves := r.solves + [s]), cutoff) == Due(r, cutoff) + if Behind(r, Append(s), cutoff) then [s] else []
  {
    var p: Solve -> bool := x => Within(cutoff, x);
    FilterAppend(p, r.solves, [s]);
    FilterAppend(Upto(r.cursor), Filter(p, r.solves), Filter(p, [s]));
    FilterAppend((x: Solve) => x.shown, Filter(Upto(r.cursor), Filter(p, r.solves)), Filter(Upto(r.cursor), Filter(p, [s])));
  }

  lemma {:induction false} AppendAccounts(r: Reader, s: Solve, missed: seq<Entry>, cutoff: Cutoff)
    requires !r.done && Accounts(r, missed, cutoff)
    ensures Accounts(r.(solves := r.solves + [s]), missed + OneMissed(r, Append(s), cutoff), cutoff)
  {
    SeenIs(r, cutoff);
    SeenIs(r.(solves := r.solves + [s]), cutoff);
    DueOneMore(r, s, cutoff);
    if Behind(r, Append(s), cutoff) {
      ShownAppend(Due(r, cutoff), [s]);
      assert [s][..0] == [] && Shown([s]) == [EntryOf(s)];
    } else {
      assert Due(r, cutoff) + [] == Due(r, cutoff) && missed + [] == missed;
    }
  }

  // One event keeps the account, or closes it.
  lemma {:induction false} StepAccounts(r: Reader, e: Event, missed: seq<Entry>, cutoff: Cutoff, lim: nat)
    requires lim >= 1 && !r.done && Accounts(r, missed, cutoff) && UniqueIds(r.solves)
    ensures var next, missed' := Do(r, e, cutoff, lim), missed + OneMissed(r, e, cutoff);
            if next.done then e == Fetch && Settled(Listing(r.solves, cutoff), next.got, missed') else Accounts(next, missed', cutoff)
  {
    match e {
      case Append(s) => AppendAccounts(r, s, missed, cutoff);
      case Fetch =>
        assert missed + [] == missed;
        ReadOn(r.solves, cutoff, r.cursor, lim);
        SettledAtEnd(r, missed, PageOf(r.solves, cutoff, r.cursor, lim).rows, cutoff);
    }
  }

  lemma SettledAtEnd(r: Reader, missed: seq<Entry>, rows: seq<Entry>, cutoff: Cutoff)
    requires Accounts(r, missed, cutoff)
    ensures Settled(Seen(r, cutoff) + rows, r.got + rows, missed)
  {
    if missed != [] { assert |multiset(Seen(r, cutoff))| == |multiset(r.got)| + |missed|; }
  }

  // What was got and what was missed make up the list, and nothing else is wrong with it.
  ghost predicate Settled(all: seq<Entry>, got: seq<Entry>, missed: seq<Entry>) {
    multiset(all) == multiset(got) + multiset(missed) && (got == all <==> missed == [])
  }

  ghost predicate UniqueThroughout(r: Reader, events: seq<Event>, cutoff: Cutoff, lim: nat)
    requires lim >= 1
    decreases |events|
  {
    UniqueIds(r.solves) && (events == [] || UniqueThroughout(Do(r, events[0], cutoff, lim), events[1..], cutoff, lim))
  }

  // The k-th event ends the walk, with the listing of that table got and missed between them.
  ghost predicate Closes(r: Reader, events: seq<Event>, k: nat, missed: seq<Entry>, cutoff: Cutoff, lim: nat)
    requires lim >= 1
  {
    && k < |events| && EndedBy(r, events, k, cutoff, lim)
    && Settled(Listing(Run(r, events[..k], cutoff, lim).solves, cutoff), Run(r, events, cutoff, lim).got, missed)
  }

  lemma {:induction false} ClosesNow(r: Reader, events: seq<Event>, missed: seq<Entry>, cutoff: Cutoff, lim: nat)
    requires lim >= 1 && !r.done && events != [] && Do(r, events[0], cutoff, lim).done
    requires Accounts(r, missed, cutoff) && UniqueIds(r.solves)
    ensures Closes(r, events, 0, MissedSince(r, events, missed, cutoff, lim), cutoff, lim)
  {
    StepAccounts(r, events[0], missed, cutoff, lim);
    DoneStays(Do(r, events[0], cutoff, lim), events[1..], missed + OneMissed(r, events[0], cutoff), cutoff, lim);
    assert events[..1] == [events[0]] && events[..1][1..] == [];
  }

  lemma {:induction false} ClosesLater(r: Reader, events: seq<Event>, k: nat, missed: seq<Entry>, cutoff: Cutoff, lim: nat)
    requires lim >= 1 && events != [] && Closes(Do(r, events[0], cutoff, lim), events[1..], k, missed, cutoff, lim)
    ensures Closes(r, events, k + 1, missed, cutoff, lim)
  {
    assert events[..k + 1][1..] == events[1..][..k] && events[..k + 2][1..] == events[1..][..k + 1];
  }

  lemma {:induction false} WalkAccounts(r: Reader, events: seq<Event>, missed: seq<Entry>, cutoff: Cutoff, lim: nat) returns (k: nat)
    requires lim >= 1 && !r.done && Run(r, events, cutoff, lim).done
    requires Accounts(r, missed, cutoff) && UniqueThroughout(r, events, cutoff, lim)
    ensures Closes(r, events, k, MissedSince(r, events, missed, cutoff, lim), cutoff, lim)
    decreases |events|
  {
    var next := Do(r, events[0], cutoff, lim);
    if next.done {
      k := 0;
      ClosesNow(r, events, missed, cutoff, lim);
    } else {
      StepAccounts(r, events[0], missed, cutoff, lim);
      var j := WalkAccounts(next, events[1..], missed + OneMissed(r, events[0], cutoff), cutoff, lim);
      k := j + 1;
      ClosesLater(r, events, j, MissedSince(r, events, missed, cutoff, lim), cutoff, lim);
    }
  }

  /**
   * Following cursors while solves land: one fetch ends the walk. What the reader was shown, with the shown
   * solves that landed behind its cursor, is the listing of the table as that fetch found it; and the reader
   * has that listing, once and oldest first, exactly when no shown solve landed so.
   */
  lemma {:induction false} WalkIsComplete(solves: seq<Solve>, events: seq<Event>, cutoff: Cutoff, lim: nat) returns (k: nat)
    requires lim >= 1 && Run(From(solves), events, cutoff, lim).done && UniqueThroughout(From(solves), events, cutoff, lim)
    ensures k < |events| && EndedBy(From(solves), events, k, cutoff, lim)
    ensures Settled(Listing(Run(From(solves), events[..k], cutoff, lim).solves, cutoff),
                    Run(From(solves), events, cutoff, lim).got, Missed(From(solves), events, cutoff, lim))
  {
    FilterNone(Upto(Start), Ranked(solves, cutoff));
    k := WalkAccounts(From(solves), events, [], cutoff, lim);
  }

  // A reader at the top of the list.
  function From(solves: seq<Solve>): Reader { Reader(solves, Start, [], false) }

  // The k-th event is the fetch that told the reader there is no more.
  ghost predicate EndedBy(r: Reader, events: seq<Event>, k: nat, cutoff: Cutoff, lim: nat)
    requires lim >= 1 && k < |events|
  {
    events[k] == Fetch && !Run(r, events[..k], cutoff, lim).done && Run(r, events[..k + 1], cutoff, lim).done
  }

  lemma {:induction false} DoneStays(r: Reader, events: seq<Event>, missed: seq<Entry>, cutoff: Cutoff, lim: nat)
    requires lim >= 1 && r.done
    ensures Run(r, events, cutoff, lim).done && Run(r, events, cutoff, lim).got == r.got
    ensures MissedSince(r, events, missed, cutoff, lim) == missed
    decreases |events|
  {
    if events != [] {
      assert missed + [] == missed;
      DoneStays(Do(r, events[0], cutoff, lim), events[1..], missed, cutoff, lim);
    }
  }

  // ── the end of the walk ─────────────────────────────────────────────────────

  // The rows past the reader's cursor.
  function Left(r: Reader, cutoff: Cutoff): nat { |Filter(Beyond(r.cursor), Ranked(r.solves, cutoff))| }

  // The rows a run's fetches ask for: a limit each.
  function Asked(events: seq<Event>, lim: nat): nat {
    if events == [] then 0 else (if events[0].Fetch? then lim else 0) + Asked(events[1..], lim)
  }

  // The solves that land before the cutoff.
  function Landings(events: seq<Event>, cutoff: Cutoff): nat {
    if events == [] then 0
    else (if events[0].Append? && Within(cutoff, events[0].solve) then 1 else 0) + Landings(events[1..], cutoff)
  }

  lemma LeftIsMatched(r: Reader, cutoff: Cutoff)
    ensures Left(r, cutoff) == |Filter(Matching(cutoff, r.cursor), r.solves)|
  {
    MatchedIsTheRest(r.solves, cutoff, r.cursor);
    assert TotalPreorder(Order);
    SortKeeps(Order, Filter(Matching(cutoff, r.cursor), r.solves));
  }

  lemma AppendAddsOne(r: Reader, s: Solve, cutoff: Cutoff)
    ensures var grown := Left(r.(solves := r.solves + [s]), cutoff);
            grown == Left(r, cutoff) + (if Within(cutoff, s) && Past(r.cursor, s) then 1 else 0)
  {
    LeftIsMatched(r, cutoff);
    LeftIsMatched(r.(solves := r.solves + [s]), cutoff);
    FilterAppend(Matching(cutoff, r.cursor), r.solves, [s]);
  }

  // A fetch ends the walk exactly when less than a page is left, and takes a whole page otherwise.
  lemma FetchTakesAPage(r: Reader, cutoff: Cutoff, lim: nat)
    requires lim >= 1 && !r.done && UniqueIds(r.solves)
    ensures var next := Do(r, Fetch, cutoff, lim);
            if Left(r, cutoff) < lim then next.done else !next.done && Left(next, cutoff) == Left(r, cutoff) - lim
  {
    MatchedIsTheRest(r.solves, cutoff, r.cursor);
    if Left(r, cutoff) >= lim { CursorMoves(r.solves, cutoff, r.cursor, lim); }
  }

  /**
   * Following cursors ends, whatever lands in between: the walk is over once its pages have asked for more
   * rows than were left or have landed.
   */
  lemma {:induction false} WalkEnds(r: Reader, events: seq<Event>, cutoff: Cutoff, lim: nat)
    requires lim >= 1 && UniqueThroughout(r, events, cutoff, lim)
    requires r.done || Asked(events, lim) > Left(r, cutoff) + Landings(events, cutoff)
    ensures Run(r, events, cutoff, lim).done
    decreases |events|
  {
    if r.done {
      DoneStays(r, events, [], cutoff, lim);
    } else if events != [] {
      var next := Do(r, events[0], cutoff, lim);
      match events[0] {
        case Append(s) => AppendAddsOne(r, s, cutoff);
        case Fetch => FetchTakesAPage(r, cutoff, lim);
      }
      WalkEnds(next, events[1..], cutoff, lim);
    }
  }

  /** Solves landing behind the freeze never delay the end: it comes with the fetch it would come with anyway. */
  lemma {:induction false} LaterSolvesDoNotDelay(r: Reader, events: seq<Event>, cutoff: Cutoff, lim: nat)
    requires lim >= 1 && UniqueThroughout(r, events, cutoff, lim) && Landings(events, cutoff) == 0
    ensures Run(r, events, cutoff, lim).done <==> r.done || Asked(events, lim) > Left(r, cutoff)
    decreases |events|
  {
    if r.done {
      DoneStays(r, events, [], cutoff, lim);
    } else if events != [] {
      var next := Do(r, events[0], cutoff, lim);
      match events[0] {
        case Append(s) => AppendAddsOne(r, s, cutoff);
        case Fetch => FetchTakesAPage(r, cutoff, lim);
      }
      LaterSolvesDoNotDelay(next, events[1..], cutoff, lim);
    }
  }

  /**
   * The whole promise: the walk from the top ends, at a fetch, and what was got is the listing of the table as
   * that fetch found it exactly when no shown solve landed behind the reader.
   */
  lemma WalkEndsWithTheListing(solves: seq<Solve>, events: seq<Event>, cutoff: Cutoff, lim: nat) returns (k: nat)
    requires lim >= 1 && UniqueThroughout(From(solves), events, cutoff, lim)
    requires Asked(events, lim) > |Ranked(solves, cutoff)| + Landings(events, cutoff)
    ensures k < |events| && EndedBy(From(solves), events, k, cutoff, lim)
    ensures Settled(Listing(Run(From(solves), events[..k], cutoff, lim).solves, cutoff),
                    Run(From(solves), events, cutoff, lim).got, Missed(From(solves), events, cutoff, lim))
  {
    FilterAll(Beyond(Start), Ranked(solves, cutoff));
    WalkEnds(From(solves), events, cutoff, lim);
    k := WalkIsComplete(solves, events, cutoff, lim);
  }

  lemma {:induction false} NoneLandsBehind(r: Reader, events: seq<Event>, cutoff: Cutoff, lim: nat)
    requires lim >= 1 && Landings(events, cutoff) == 0
    ensures Missed(r, events, cutoff, lim) == []
    decreases |events|
  {
    if events != [] {
      assert [] + OneMissed(r, events[0], cutoff) == [];
      NoneLandsBehind(Do(r, events[0], cutoff, lim), events[1..], cutoff, lim);
    }
  }

  lemma {:induction false} BehindIsUnranked(solves: seq<Solve>, s: Solve, cutoff: Cutoff)
    requires !Within(cutoff, s)
    ensures Ranked(solves + [s], cutoff) == Ranked(solves, cutoff)
  {
    var p: Solve -> bool := x => Within(cutoff, x);
    FilterAppend(p, solves, [s]);
    assert Filter(p, solves) + [] == Filter(p, solves);
  }

  lemma {:induction false} RankingStands(r: Reader, events: seq<Event>, k: nat, cutoff: Cutoff, lim: nat)
    requires lim >= 1 && k <= |events| && Landings(events, cutoff) == 0
    ensures Ranked(Run(r, events[..k], cutoff, lim).solves, cutoff) == Ranked(r.solves, cutoff)
    decreases |events|
  {
    if k > 0 {
      var next := Do(r, events[0], cutoff, lim);
      if events[0].Append? { BehindIsUnranked(r.solves, events[0].solve, cutoff); }
      RankingStands(next, events[1..], k - 1, cutoff, lim);
      assert events[..k][1..] == events[1..][..k - 1];
    }
  }

  /** Behind a freeze the landing order does not matter: the walk ends with the listing it started from. */
  lemma {:induction false} FrozenWalk(solves: seq<Solve>, events: seq<Event>, cutoff: Cutoff, lim: nat)
    requires lim >= 1 && Landings(events, cutoff) == 0
    requires UniqueThroughout(From(solves), events, cutoff, lim)
    requires Asked(events, lim) > |Ranked(solves, cutoff)|
    ensures var r := Run(From(solves), events, cutoff, lim);
            r.done && r.got == Listing(solves, cutoff)
  {
    var r := From(solves);
    NoneLandsBehind(r, events, cutoff, lim);
    var k := WalkEndsWithTheListing(solves, events, cutoff, lim);
    RankingStands(r, events, k, cutoff, lim);
    FilterAll(Beyond(Start), Ranked(solves, cutoff));
    WalkEnds(r, events, cutoff, lim);
  }

  /** On a table nobody writes to the walk ends, whatever the limit, hidden pages or exact multiples. */
  method Walk(solves: seq<Solve>, cutoff: Cutoff, lim: nat) returns (got: seq<Entry>)
    requires lim >= 1 && UniqueIds(solves)
    ensures got == Listing(solves, cutoff)
  {
    var c := Start;
    got := [];
    FilterNone(Upto(Start), Ranked(solves, cutoff));
    while true
      invariant got == Shown(Filter(Upto(c), Ranked(solves, cutoff)))
      decreases |Filter(Beyond(c), Ranked(solves, cutoff))|
    {
      var r := Solves(true, solves, cutoff, c, lim);
      ReadOn(solves, cutoff, c, lim);
      got := got + r.value.rows;
      if r.value.next == Start { return; }
      CursorMoves(solves, cutoff, c, lim);
      c := r.value.next;
    }
  }

  // A row at or behind the cursor never matches again, whatever lands or is fetched after it.
  lemma {:induction false} CursorOnlyAdvances(r: Reader, events: seq<Event>, cutoff: Cutoff, lim: nat, s: Solve)
    requires lim >= 1 && !r.cursor.Start? && !Past(r.cursor, s)
    ensures !Run(r, events, cutoff, lim).cursor.Start? && !Past(Run(r, events, cutoff, lim).cursor, s)
    decreases |events|
  {
    if events != [] {
      var r' := Do(r, events[0], cutoff, lim);
      if r'.cursor != r.cursor {
        MatchedIsTheRest(r.solves, cutoff, r.cursor);
        FilterMembers(Beyond(r.cursor), Ranked(r.solves, cutoff));
        var rest := Filter(Beyond(r.cursor), Ranked(r.solves, cutoff));
        assert rest[lim - 1] in rest;
      }
      CursorOnlyAdvances(r', events[1..], cutoff, lim, s);
    }
  }

  lemma {:induction false} MissedStays(r: Reader, events: seq<Event>, missed: seq<Entry>, e: Entry, cutoff: Cutoff, lim: nat)
    requires lim >= 1 && e in missed
    ensures e in MissedSince(r, events, missed, cutoff, lim)
    decreases |events|
  {
    if events != [] {
      MissedStays(Do(r, events[0], cutoff, lim), events[1..], missed + OneMissed(r, events[0], cutoff), e, cutoff, lim);
    }
  }

  /**
   * And that happens: a date is a transaction's start, so a solve can commit with a date behind a reader's
   * cursor. No later page holds it, and a shown one before the cutoff is among the missed.
   */
  lemma {:induction false} LandingBehindIsMissed(r: Reader, s: Solve, events: seq<Event>, cutoff: Cutoff, lim: nat)
    requires lim >= 1 && !r.cursor.Start? && !Past(r.cursor, s)
    ensures var r' := Run(Do(r, Append(s), cutoff, lim), events, cutoff, lim);
            s !in Take(Sort(Order, Filter(Matching(cutoff, r'.cursor), r'.solves)), lim)
    ensures Within(cutoff, s) && s.shown && !r.done ==> EntryOf(s) in Missed(r, [Append(s)] + events, cutoff, lim)
  {
    var r1 := Do(r, Append(s), cutoff, lim);
    assert ([Append(s)] + events)[1..] == events;
    if Behind(r, Append(s), cutoff) { MissedStays(r1, events, [] + [EntryOf(s)], EntryOf(s), cutoff, lim); }
    CursorOnlyAdvances(r1, events, cutoff, lim, s);
    var r' := Run(r1, events, cutoff, lim);
    assert TotalPreorder(Order);
    FilterMembers(Matching(cutoff, r'.cursor), r'.solves);
    SortKeeps(Order, Filter(Matching(cutoff, r'.cursor), r'.solves));
    var rows := Sort(Order, Filter(Matching(cutoff, r'.cursor), r'.solves));
    assert s !in rows;
    assert forall x :: x in Take(rows, lim) ==> x in rows;
  }

  lemma {:induction false} MissedJoined(r: Reader, a: seq<Event>, b: seq<Event>, missed: seq<Entry>, cutoff: Cutoff, lim: nat)
    requires lim >= 1
    ensures MissedSince(r, a + b, missed, cutoff, lim)
         == MissedSince(Run(r, a, cutoff, lim), b, MissedSince(r, a, missed, cutoff, lim), cutoff, lim)
    decreases |a|
  {
    if a == [] {
      assert a + b == b;
    } else {
      assert (a + b)[0] == a[0] && (a + b)[1..] == a[1..] + b;
      MissedJoined(Do(r, a[0], cutoff, lim), a[1..], b, missed + OneMissed(r, a[0], cutoff), cutoff, lim);
    }
  }

  /** One such landing, whatever comes before and after it, and the walk does not end with the listing. */
  lemma {:induction false} LandingBehindSpoilsTheWalk(solves: seq<Solve>, before: seq<Event>, s: Solve, after: seq<Event>, cutoff: Cutoff, lim: nat)
      returns (k: nat)
    requires lim >= 1 && Behind(Run(From(solves), before, cutoff, lim), Append(s), cutoff)
    requires var events := before + ([Append(s)] + after);
             UniqueThroughout(From(solves), events, cutoff, lim) && Run(From(solves), events, cutoff, lim).done
    ensures var events := before + ([Append(s)] + after);
            && k < |events| && EndedBy(From(solves), events, k, cutoff, lim)
            && Run(From(solves), events, cutoff, lim).got != Listing(Run(From(solves), events[..k], cutoff, lim).solves, cutoff)
  {
    var events := before + ([Append(s)] + after);
    var r, m := Run(From(solves), before, cutoff, lim), Missed(From(solves), before, cutoff, lim);
    MissedJoined(From(solves), before, [Append(s)] + after, [], cutoff, lim);
    assert ([Append(s)] + after)[1..] == after;
    MissedStays(Do(r, Append(s), cutoff, lim), after, m + [EntryOf(s)], EntryOf(s), cutoff, lim);
    k := WalkIsComplete(solves, events, cutoff, lim);
  }
}
