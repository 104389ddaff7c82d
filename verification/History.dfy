/**
 * One account's score over time: a window sum over the same ledger the scoreboard sums, and why the two
 * agree at every instant.
 */
module History {
  import opened Prelude
  import opened Sorting
  import opened Standings

  datatype Cutoff = Live | Before(at: int)

  datatype Delta = Delta(date: int, value: int)

  datatype Point = Point(date: int, delta: int, cumulative: int)

  predicate Within(cutoff: Cutoff, date: int) {
    cutoff.Live? || date < cutoff.at
  }

  // The subject's row is missing, or hidden, or banned: its events are left out unless an admin asks.
  predicate Readable(w: World, a: int, admin: bool) {
    admin || (Exists(Table(w), a) && !Find(Table(w), a).hidden && !Find(Table(w), a).banned)
  }

  function Leg(w: World, rows: seq<Event>, a: int, cutoff: Cutoff): seq<Delta> {
    if rows == [] then []
    else
      var e, before := rows[|rows| - 1], Leg(w, rows[..|rows| - 1], a, cutoff);
      if e.value != 0 && (if w.teamMode then e.team else Id(e.user)) == Id(a) && Within(cutoff, e.date)
      then before + [Delta(e.date, e.value)] else before
  }

  function Events(w: World, l: Ledger, a: int, admin: bool, cutoff: Cutoff): seq<Delta> {
    if Readable(w, a, admin) then Leg(w, l.solves, a, cutoff) + Leg(w, l.awards, a, cutoff) else []
  }

  // ORDER BY date, value.
  predicate EventOrder(x: Delta, y: Delta) {
    x.date < y.date || (x.date == y.date && x.value <= y.value)
  }

  function Total(es: seq<Delta>): int {
    if es == [] then 0 else es[0].value + Total(es[1..])
  }

  // sum(value) OVER (ORDER BY date, value): the default frame ends with the row's last peer.
  function Window(es: seq<Delta>, x: Delta): int {
    Total(Filter(y => EventOrder(y, x), es))
  }

  function Points(es: seq<Delta>, rows: seq<Delta>): (r: seq<Point>)
    ensures |r| == |rows|
    ensures forall i :: 0 <= i < |r| ==> r[i] == Point(rows[i].date, rows[i].value, Window(es, rows[i]))
  {
    if rows == [] then [] else [Point(rows[0].date, rows[0].value, Window(es, rows[0]))] + Points(es, rows[1..])
  }

  function GetScoreHistory(w: World, l: Ledger, a: int, admin: bool, cutoff: Cutoff): seq<Point> {
    var es := Events(w, l, a, admin, cutoff);
    Points(es, Sort(EventOrder, es))
  }

  // ── the window and the scoreboard ───────────────────────────────────────────

  lemma EventOrderIsTotal()
    ensures TotalPreorder(EventOrder)
  {
  }

  lemma {:induction false} TotalAppend(es: seq<Delta>, fs: seq<Delta>)
    ensures Total(es + fs) == Total(es) + Total(fs)
  {
    if es == [] {
      assert es + fs == fs;
    } else {
      TotalAppend(es[1..], fs);
      assert (es + fs)[1..] == es[1..] + fs;
    }
  }

  lemma {:induction false} FilterSame(p: Delta -> bool, q: Delta -> bool, es: seq<Delta>)
    requires forall x :: x in es ==> p(x) == q(x)
    ensures Filter(p, es) == Filter(q, es)
  {
    if es != [] {
      assert es[0] in es;
      FilterSame(p, q, es[1..]);
    }
  }

  lemma {:induction false} SumAppend(es: seq<Scoring>, fs: seq<Scoring>, a: int)
    ensures Sum(es + fs, a) == Sum(es, a) + Sum(fs, a)
    ensures Scores(es + fs, a) <==> Scores(es, a) || Scores(fs, a)
  {
    if fs == [] {
      assert es + fs == es;
    } else {
      var init, e := fs[..|fs| - 1], fs[|fs| - 1];
      SumAppend(es, init, a);
      assert es + fs == (es + init) + [e] && fs == init + [e];
      SnocScoring(es + init, e, a);
      SnocScoring(init, e, a);
    }
  }

  // One leg of the board as of `t` is the account's part of the unclamped leg, filtered by date.
  lemma {:induction false} LegMatches(w: World, rows: seq<Event>, a: int, cutoff: Cutoff, t: int)
    requires cutoff.Live? || t <= cutoff.at
    ensures Sum(AsOfLeg(w, rows, t), a) == Total(Filter(Dated(t), Leg(w, rows, a, cutoff)))
    ensures Scores(AsOfLeg(w, rows, t), a) <==> Filter(Dated(t), Leg(w, rows, a, cutoff)) != []
  {
    if rows != [] {
      var init, e := rows[..|rows| - 1], rows[|rows| - 1];
      LegMatches(w, init, a, cutoff, t);
      var s := Scoring(if w.teamMode then e.team else Id(e.user), e.value, e.date);
      if e.value != 0 && e.date < t { SnocScoring(AsOfLeg(w, init, t), s, a); }
      if e.value != 0 && s.account == Id(a) && Within(cutoff, e.date) {
        SnocDelta(Leg(w, init, a, cutoff), Delta(e.date, e.value), t);
      }
    }
  }

  lemma {:induction false} SnocDelta(es: seq<Delta>, x: Delta, t: int)
    ensures Total(Filter(Dated(t), es + [x])) == Total(Filter(Dated(t), es)) + (if x.date < t then x.value else 0)
    ensures Filter(Dated(t), es + [x]) != [] <==> Filter(Dated(t), es) != [] || x.date < t
  {
    FilterAppend(Dated(t), es, [x]);
    TotalAppend(Filter(Dated(t), es), Filter(Dated(t), [x]));
  }

  function Dated(t: int): Delta -> bool { (x: Delta) => x.date < t }

  lemma {:induction false} ScoreIsTotal(w: World, l: Ledger, a: int, admin: bool, cutoff: Cutoff, t: int)
    requires Readable(w, a, admin) && (cutoff.Live? || t <= cutoff.at)
    ensures var es, score := Events(w, l, a, admin, cutoff), AsOfScoring(w, l, t);
            && Sum(score, a) == Total(Filter(Dated(t), es))
            && (Scores(score, a) <==> Filter(Dated(t), es) != [])
  {
    LegMatches(w, l.solves, a, cutoff, t);
    LegMatches(w, l.awards, a, cutoff, t);
    SumAppend(AsOfLeg(w, l.solves, t), AsOfLeg(w, l.awards, t), a);
    FilterAppend(Dated(t), Leg(w, l.solves, a, cutoff), Leg(w, l.awards, a, cutoff));
    TotalAppend(Filter(Dated(t), Leg(w, l.solves, a, cutoff)), Filter(Dated(t), Leg(w, l.awards, a, cutoff)));
  }

  // The last sorted row dated before `t`: everything dated before `t` is in its window, and nothing else.
  lemma {:induction false} LastRowsWindow(es: seq<Delta>, i: nat, t: int)
    requires i < |Sort(EventOrder, es)| && Sort(EventOrder, es)[i].date < t
    requires i + 1 < |Sort(EventOrder, es)| ==> Sort(EventOrder, es)[i + 1].date >= t
    ensures Window(es, Sort(EventOrder, es)[i]) == Total(Filter(Dated(t), es))
  {
    var rows := Sort(EventOrder, es);
    EventOrderIsTotal();
    SortKeeps(EventOrder, es);
    forall x | x in es ensures EventOrder(x, rows[i]) == (x.date < t) {
      assert x in rows;
      var k :| 0 <= k < |rows| && rows[k] == x;
      assert k < i ==> EventOrder(rows[k], rows[i]);
      assert k > i + 1 ==> EventOrder(rows[i + 1], rows[k]);
    }
    FilterSame(y => EventOrder(y, rows[i]), Dated(t), es);
  }

  /** The last row of the history dated before `t`. */
  ghost predicate LastBefore(h: seq<Point>, t: int, i: nat) {
    && i < |h| && h[i].date < t
    && forall k :: i < k < |h| ==> h[k].date >= t
  }

  /**
   * Replay: at every instant, ties included, the running total on the last row before it is the score
   * the scoreboard shows as of that instant; with no row before it the account is not on that board.
   */
  lemma {:induction false} ReplayAgrees(w: World, l: Ledger, a: int, admin: bool, cutoff: Cutoff, t: int)
    requires Readable(w, a, admin) && (cutoff.Live? || t <= cutoff.at)
    ensures var h := GetScoreHistory(w, l, a, admin, cutoff);
            && (forall i: nat :: LastBefore(h, t, i) ==> h[i].cumulative == Sum(AsOfScoring(w, l, t), a))
            && (Scores(AsOfScoring(w, l, t), a) <==> exists i: nat :: i < |h| && h[i].date < t)
  {
    var es := Events(w, l, a, admin, cutoff);
    var h, rows := GetScoreHistory(w, l, a, admin, cutoff), Sort(EventOrder, es);
    EventOrderIsTotal();
    SortKeeps(EventOrder, es);
    ScoreIsTotal(w, l, a, admin, cutoff, t);
    forall i: nat | LastBefore(h, t, i) ensures h[i].cumulative == Sum(AsOfScoring(w, l, t), a) {
      assert i + 1 < |h| ==> h[i + 1].date >= t;
      LastRowsWindow(es, i, t);
    }
    DatedInHistory(es, rows, t);
    assert forall i :: 0 <= i < |h| ==> h[i].date == rows[i].date;
  }

  lemma {:induction false} DatedInHistory(es: seq<Delta>, rows: seq<Delta>, t: int)
    requires forall x :: x in rows <==> x in es
    ensures Filter(Dated(t), es) != [] <==> exists i: nat :: i < |rows| && rows[i].date < t
  {
    FilterMembers(Dated(t), es);
    if Filter(Dated(t), es) != [] {
      var x := Filter(Dated(t), es)[0];
      assert x in rows;
      var i :| 0 <= i < |rows| && rows[i] == x;
      assert rows[i].date < t;
    }
    if i: nat :| i < |rows| && rows[i].date < t {
      assert rows[i] in es && rows[i] in Filter(Dated(t), es);
    }
  }

  /** The same, read off the boards themselves: the row AsOf returns carries the replayed total. */
  lemma ReplayAgreesWithTheBoard(w: World, l: Ledger, admin: bool, cutoff: Cutoff, t: int, bracket: NullId, r: Entry, i: nat)
    requires UniqueIds(Table(w)) && (cutoff.Live? || t <= cutoff.at)
    requires r in AsOf(w, l, t, admin, bracket, 0)
    requires LastBefore(GetScoreHistory(w, l, r.account, admin, cutoff), t, i)
    ensures GetScoreHistory(w, l, r.account, admin, cutoff)[i].cumulative == r.score
  {
    var es := AsOfScoring(w, l, t);
    GroupsScore(es);
    AsOfRowsAre(Table(w), es, Groups(es), admin, bracket);
    assert TotalPreorder(BoardOrder);
    SortKeeps(BoardOrder, AsOfRows(Table(w), es, Groups(es), admin, bracket));
    ReplayAgrees(w, l, r.account, admin, cutoff, t);
  }

  // ── the freeze ──────────────────────────────────────────────────────────────

  lemma {:induction false} LegCut(w: World, rows: seq<Event>, a: int, at: int)
    ensures Leg(w, rows, a, Before(at)) == Filter(Dated(at), Leg(w, rows, a, Live))
  {
    if rows != [] {
      var init, e := rows[..|rows| - 1], rows[|rows| - 1];
      LegCut(w, init, a, at);
      FilterAppend(Dated(at), Leg(w, init, a, Live), [Delta(e.date, e.value)]);
    }
  }

  lemma {:induction false} FilterOnce(p: Delta -> bool, q: Delta -> bool, es: seq<Delta>)
    requires forall x :: x in es && q(x) ==> p(x)
    ensures Filter(q, Filter(p, es)) == Filter(q, es)
  {
    if es != [] {
      assert es[0] in es;
      FilterOnce(p, q, es[1..]);
      if p(es[0]) { assert ([es[0]] + Filter(p, es[1..]))[1..] == Filter(p, es[1..]); }
    }
  }

  // In a sorted list the early rows come first.
  lemma {:induction false} EarlyIsAPrefix(rows: seq<Delta>, at: int)
    requires Sorted(EventOrder, rows)
    ensures Filter(Dated(at), rows) <= rows
  {
    if rows != [] {
      EarlyIsAPrefix(rows[1..], at);
      if rows[0].date >= at {
        forall x | x in rows[1..] ensures !Dated(at)(x) {
          var k :| 0 <= k < |rows[1..]| && rows[1..][k] == x;
          assert rows[k + 1] == x && EventOrder(rows[0], rows[k + 1]);
        }
        FilterMembers(Dated(at), rows[1..]);
        FilterNone(Dated(at), rows[1..]);
      }
    }
  }

  // What is dated behind the cutoff is in no window before it.
  lemma {:induction false} CutWindow(live: seq<Delta>, at: int, x: Delta)
    requires x.date < at
    ensures Window(Filter(Dated(at), live), x) == Window(live, x)
  {
    FilterOnce(Dated(at), y => EventOrder(y, x), live);
  }

  // The cutoff leaves out exactly the late events.
  lemma CutEvents(w: World, l: Ledger, a: int, admin: bool, at: int)
    ensures Events(w, l, a, admin, Before(at)) == Filter(Dated(at), Events(w, l, a, admin, Live))
  {
    if Readable(w, a, admin) {
      LegCut(w, l.solves, a, at);
      LegCut(w, l.awards, a, at);
      FilterAppend(Dated(at), Leg(w, l.solves, a, Live), Leg(w, l.awards, a, Live));
    }
  }

  /** A frozen history is the first rows of the live one, totals included. */
  lemma FrozenHistoryIsAPrefix(w: World, l: Ledger, a: int, admin: bool, at: int)
    ensures GetScoreHistory(w, l, a, admin, Before(at)) <= GetScoreHistory(w, l, a, admin, Live)
  {
    var live, cut := Events(w, l, a, admin, Live), Events(w, l, a, admin, Before(at));
    CutEvents(w, l, a, admin, at);
    EventOrderIsTotal();
    FilterSort(EventOrder, Dated(at), live);
    SortKeeps(EventOrder, live);
    EarlyIsAPrefix(Sort(EventOrder, live), at);
    var rows := Sort(EventOrder, cut);
    FilterMembers(Dated(at), Sort(EventOrder, live));
    forall i | 0 <= i < |rows| ensures Window(cut, rows[i]) == Window(live, rows[i]) {
      assert rows[i] in rows;
      CutWindow(live, at, rows[i]);
    }
  }
}
