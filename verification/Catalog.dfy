/**
 * The challenge board and the detail page, live or frozen at a cutoff.
 *
 * A frozen viewer's prices and solve counts are recomputed from the solves dated before the cutoff;
 * `solved` and the prerequisite gate are not clamped, so a player's own solves always show.
 */
module Catalog {
  import opened Prelude
  import opened Decay
  import opened Submit
  import Prereq

  // Unrecognized is a `requirements` value prereq.Parse refuses.
  datatype Visibility = Hidden | Masked | Preview | Unrecognized

  // A row of `challenges`. `modeKnown` is false for a flag_mode ParseMode refuses.
  datatype Item = Item(id: int, name: string, listed: bool, curve: Curve, stored: int, prereqs: seq<int>,
                       visibility: Visibility, description: string, nextId: NullId, modeKnown: bool)

  datatype Note = Note(challenge: int, key: string, value: string)

  datatype Row = Row(challenge: int, solve: Solve)

  // The tables the two queries read. `items` is in board order.
  datatype Tables = Tables(items: seq<Item>, notes: seq<Note>, solves: seq<Row>)

  datatype Cutoff = Live | Frozen(at: int)

  datatype BoardRow = BoardRow(item: Item, value: int, count: int, solved: bool, met: bool)

  datatype Listing = Listing(id: int, name: string, value: int, count: int, solved: bool, locked: bool,
                             annotations: map<string, string>)

  datatype Page = Page(summary: Listing, description: string, nextId: NullId)

  // Raised is the query's own failure: the frozen price can leave int64.
  datatype Error = Raised | Corrupt(id: int) | NotFound

  // ── what the queries compute ────────────────────────────────────────────────

  predicate Before(cutoff: Cutoff, date: int) {
    cutoff.Live? || date < cutoff.at
  }

  function Counted(cfg: Cfg, solves: seq<Row>, c: int, cutoff: Cutoff): nat {
    if solves == [] then 0
    else
      var last := solves[|solves| - 1];
      var one := last.challenge == c && Before(cutoff, last.solve.date) && Shown(cfg, last.solve.actor);
      Counted(cfg, solves[..|solves| - 1], c, cutoff) + (if one then 1 else 0)
  }

  // The solve belongs to the viewer's account.
  predicate Mine(cfg: Cfg, viewer: Actor, a: Actor) {
    if cfg.teams then viewer.team.Id? && a.team == viewer.team else a.user == viewer.user
  }

  predicate HasSolved(cfg: Cfg, solves: seq<Row>, viewer: Actor, c: int) {
    exists i :: 0 <= i < |solves| && solves[i].challenge == c && Mine(cfg, viewer, solves[i].solve.actor)
  }

  predicate PrereqsMet(cfg: Cfg, solves: seq<Row>, viewer: Actor, item: Item) {
    forall p :: p in item.prereqs ==> HasSolved(cfg, solves, viewer, p)
  }

  function ShownValue(cfg: Cfg, solves: seq<Row>, item: Item, cutoff: Cutoff): Option<int> {
    if cutoff.Live? || item.curve.kind == Static then Some(item.stored)
    else SqlValue(item.curve, Counted(cfg, solves, item.id, cutoff))
  }

  function RowOf(cfg: Cfg, solves: seq<Row>, viewer: Actor, item: Item, cutoff: Cutoff): Option<BoardRow> {
    match ShownValue(cfg, solves, item, cutoff)
    case None => None
    case Some(v) =>
      Some(BoardRow(item, v, Counted(cfg, solves, item.id, cutoff), HasSolved(cfg, solves, viewer, item.id),
                    PrereqsMet(cfg, solves, viewer, item)))
  }

  // ListChallenges: every listed challenge in board order; one failing expression fails the query.
  function BoardRows(cfg: Cfg, items: seq<Item>, solves: seq<Row>, viewer: Actor, cutoff: Cutoff): Option<seq<BoardRow>> {
    if items == [] then Some([])
    else
      var rest := BoardRows(cfg, items[1..], solves, viewer, cutoff);
      if !items[0].listed || rest.None? then rest
      else
        match RowOf(cfg, solves, viewer, items[0], cutoff)
        case None => None
        case Some(r) => Some([r] + rest.value)
  }

  // ── the board ───────────────────────────────────────────────────────────────

  const LOCKED_NAME := "???"

  // One challenge's annotations; UNIQUE(challenge, key) makes their order immaterial.
  function NotesOf(notes: seq<Note>, c: int): map<string, string> {
    if notes == [] then map[]
    else
      var last := notes[|notes| - 1];
      var before := NotesOf(notes[..|notes| - 1], c);
      if last.challenge == c then before[last.key := last.value] else before
  }

  method ListAnnotations(notes: seq<Note>) returns (out: map<int, map<string, string>>)
    ensures forall c :: NotesOf(notes, c) == if c in out then out[c] else map[]
  {
    out := map[];
    for i := 0 to |notes|
      invariant forall c :: NotesOf(notes[..i], c) == if c in out then out[c] else map[]
    {
      assert notes[..i + 1][..i] == notes[..i];
      var r := notes[i];
      var m := if r.challenge in out then out[r.challenge] else map[];
      out := out[r.challenge := m[r.key := r.value]];
    }
    assert notes[..|notes|] == notes;
  }

  // What the gate makes of a row: an entry, no entry, or an unreadable requirements column.
  datatype Gate = Open | Stub(name: string) | Withheld | Unreadable

  function GateOf(r: BoardRow): Gate {
    if r.met then Open
    else
      match r.item.visibility
      case Unrecognized => Unreadable
      case Hidden => Withheld
      case Masked => Stub(LOCKED_NAME)
      case Preview => Stub(r.item.name)
  }

  function Entry(r: BoardRow, notes: map<string, string>): Listing
    requires GateOf(r).Open? || GateOf(r).Stub?
  {
    match GateOf(r)
    case Open => Listing(r.item.id, r.item.name, r.value, r.count, r.solved, false, notes)
    case Stub(name) => Listing(r.item.id, name, r.value, r.count, r.solved, true, map[])
  }

  predicate Appears(r: BoardRow) { GateOf(r).Open? || GateOf(r).Stub? }

  function Prepend(out: seq<Listing>, r: Result<seq<Listing>, Error>): Result<seq<Listing>, Error> {
    match r
    case Ok(rest) => Ok(out + rest)
    case Err(e) => Err(e)
  }

  // The entries of the rows in board order, or the first row whose requirements do not parse.
  function Entries(rows: seq<BoardRow>, notes: seq<Note>): Result<seq<Listing>, Error> {
    if rows == [] then Ok([])
    else
      var rest := Entries(rows[1..], notes);
      match GateOf(rows[0])
      case Unreadable => Err(Corrupt(rows[0].item.id))
      case Withheld => rest
      case _ => Prepend([Entry(rows[0], NotesOf(notes, rows[0].item.id))], rest)
  }

  function Board(cfg: Cfg, t: Tables, viewer: Actor, cutoff: Cutoff): Result<seq<Listing>, Error> {
    match BoardRows(cfg, t.items, t.solves, viewer, cutoff)
    case None => Err(Raised)
    case Some(rows) => Entries(rows, t.notes)
  }

  lemma PrependTwice(a: seq<Listing>, b: seq<Listing>, r: Result<seq<Listing>, Error>)
    ensures Prepend(a, Prepend(b, r)) == Prepend(a + b, r)
    ensures Prepend([], r) == r
  {
    if r.Ok? { assert a + (b + r.value) == a + b + r.value && [] + r.value == r.value; }
  }

  method List(cfg: Cfg, t: Tables, viewer: Actor, cutoff: Cutoff) returns (r: Result<seq<Listing>, Error>)
    ensures r == Board(cfg, t, viewer, cutoff)
  {
    var query := BoardRows(cfg, t.items, t.solves, viewer, cutoff);
    if query.None? { return Err(Raised); }
    var rows := query.value;
    var notes := ListAnnotations(t.notes);
    var out: seq<Listing> := [];
    PrependTwice([], [], Entries(rows, t.notes));
    assert rows[0..] == rows;
    for i := 0 to |rows|
      invariant Entries(rows, t.notes) == Prepend(out, Entries(rows[i..], t.notes))
    {
      var row := rows[i];
      assert rows[i..][1..] == rows[i + 1..];
      var item := Listing(row.item.id, row.item.name, row.value, row.count, row.solved, false,
                          if row.item.id in notes then notes[row.item.id] else map[]);
      if !row.met {
        if row.item.visibility == Unrecognized { return Err(Corrupt(row.item.id)); }
        if row.item.visibility == Hidden { continue; }
        item := item.(locked := true, annotations := map[]);
        if row.item.visibility == Masked { item := item.(name := LOCKED_NAME); }
      }
      PrependTwice(out, [item], Entries(rows[i + 1..], t.notes));
      out := out + [item];
    }
    assert rows[|rows|..] == [] && out + [] == out;
    r := Ok(out);
  }

  // ── the detail page ─────────────────────────────────────────────────────────

  predicate Lists(items: seq<Item>, c: int) {
    exists i :: 0 <= i < |items| && items[i].id == c && items[i].listed
  }

  function ItemOf(items: seq<Item>, c: int): (item: Item)
    requires Lists(items, c)
    ensures item in items && item.id == c && item.listed
  {
    if items[0].id == c && items[0].listed then items[0] else ItemOf(items[1..], c)
  }

  // The rows of one challenge, in table order: what ListChallengeAnnotations reads.
  function RowsUnder(notes: seq<Note>, c: int): seq<Note> {
    if notes == [] then []
    else RowsUnder(notes[..|notes| - 1], c) + (if notes[|notes| - 1].challenge == c then [notes[|notes| - 1]] else [])
  }

  function Detail(cfg: Cfg, t: Tables, viewer: Actor, c: int, cutoff: Cutoff): Result<Page, Error> {
    if !Lists(t.items, c) then Err(NotFound)
    else
      var item := ItemOf(t.items, c);
      match RowOf(cfg, t.solves, viewer, item, cutoff)
      case None => Err(Raised)
      case Some(r) =>
        if !item.modeKnown then Err(Corrupt(c))
        else
          match GateOf(r)
          case Unreadable => Err(Corrupt(c))
          case Withheld => Err(NotFound)
          case Stub(name) => Ok(Page(Listing(c, name, r.value, r.count, r.solved, true, map[]), "", Null))
          case Open =>
            Ok(Page(Listing(c, item.name, r.value, r.count, r.solved, false, NotesOf(RowsUnder(t.notes, c), c)),
                    item.description, item.nextId))
  }

  lemma {:induction false} OwnNotes(notes: seq<Note>, c: int)
    ensures NotesOf(RowsUnder(notes, c), c) == NotesOf(notes, c)
    ensures forall i :: 0 <= i < |RowsUnder(notes, c)| ==> RowsUnder(notes, c)[i].challenge == c
  {
    if notes != [] {
      var last, init := notes[|notes| - 1], notes[..|notes| - 1];
      OwnNotes(init, c);
      var under := RowsUnder(notes, c);
      if last.challenge == c {
        assert under == RowsUnder(init, c) + [last];
        assert under[|under| - 1] == last && under[..|under| - 1] == RowsUnder(init, c);
      } else {
        assert under == RowsUnder(init, c);
      }
    }
  }

  /** One challenge's page, as the viewer may see it. */
  method View(cfg: Cfg, t: Tables, viewer: Actor, c: int, cutoff: Cutoff) returns (r: Result<Page, Error>)
    ensures r == Detail(cfg, t, viewer, c, cutoff)
  {
    if !Lists(t.items, c) { return Err(NotFound); }
    var found := RowOf(cfg, t.solves, viewer, ItemOf(t.items, c), cutoff);
    if found.None? { return Err(Raised); }
    var row := found.value;
    if !row.item.modeKnown { return Err(Corrupt(c)); }
    if !row.met {
      if row.item.visibility == Unrecognized { return Err(Corrupt(c)); }
      if row.item.visibility == Hidden { return Err(NotFound); }
      var name := row.item.name;
      if row.item.visibility == Masked { name := LOCKED_NAME; }
      return Ok(Page(Listing(c, name, row.value, row.count, row.solved, true, map[]), "", Null));
    }
    OwnNotes(t.notes, c);
    var notes := RowsUnder(t.notes, c);
    var annotations: map<string, string> := map[];
    for i := 0 to |notes|
      invariant annotations == NotesOf(notes[..i], c)
    {
      assert notes[..i + 1][..i] == notes[..i];
      annotations := annotations[notes[i].key := notes[i].value];
    }
    assert notes[..|notes|] == notes;
    r := Ok(Page(Listing(c, row.item.name, row.value, row.count, row.solved, false, annotations),
                 row.item.description, row.item.nextId));
  }

  // ── the board and the detail page agree ─────────────────────────────────────

  ghost predicate UniqueIds(items: seq<Item>) {
    forall i, j :: 0 <= i < j < |items| ==> items[i].id != items[j].id
  }

  // The rows the query returns are those of the listed challenges.
  lemma {:induction false} RowsAre(cfg: Cfg, items: seq<Item>, solves: seq<Row>, viewer: Actor, cutoff: Cutoff)
    requires BoardRows(cfg, items, solves, viewer, cutoff).Some?
    ensures var rows := BoardRows(cfg, items, solves, viewer, cutoff).value;
            && (forall r :: r in rows ==>
                  r.item in items && r.item.listed && RowOf(cfg, solves, viewer, r.item, cutoff) == Some(r))
            && (forall item :: item in items && item.listed ==>
                  RowOf(cfg, solves, viewer, item, cutoff).Some? && RowOf(cfg, solves, viewer, item, cutoff).value in rows)
  {
    if items != [] {
      RowsAre(cfg, items[1..], solves, viewer, cutoff);
      assert items == [items[0]] + items[1..];
    }
  }

  lemma {:induction false} EntriesAre(rows: seq<BoardRow>, notes: seq<Note>)
    requires Entries(rows, notes).Ok?
    ensures forall r :: r in rows ==> GateOf(r) != Unreadable
    ensures forall r :: r in rows && Appears(r) ==> Entry(r, NotesOf(notes, r.item.id)) in Entries(rows, notes).value
    ensures forall e :: e in Entries(rows, notes).value ==>
              exists r :: r in rows && Appears(r) && e == Entry(r, NotesOf(notes, r.item.id))
  {
    if rows != [] {
      EntriesAre(rows[1..], notes);
      assert rows == [rows[0]] + rows[1..];
      assert GateOf(rows[0]) != Unreadable;
      if Appears(rows[0]) {
        var e := Entry(rows[0], NotesOf(notes, rows[0].item.id));
        assert Entries(rows, notes).value == [e] + Entries(rows[1..], notes).value;
      }
    }
  }

  /**
   * Whoever is looking, live or frozen: an entry is on the board exactly when its detail page exists,
   * and both show the same name, price, count, solved flag, lock and annotations. A locked page
   * carries no description, next challenge or annotations.
   */
  lemma BoardAndDetailAgree(cfg: Cfg, t: Tables, viewer: Actor, c: int, cutoff: Cutoff, e: Listing)
    requires UniqueIds(t.items) && forall item :: item in t.items ==> item.modeKnown
    requires Board(cfg, t, viewer, cutoff).Ok? && e.id == c
    ensures var d := Detail(cfg, t, viewer, c, cutoff);
            && (e in Board(cfg, t, viewer, cutoff).value <==> d.Ok? && d.value.summary == e)
            && (d.Err? ==> d.error == NotFound)
            && (d.Ok? && d.value.summary.locked ==>
                  d.value.description == "" && d.value.nextId == Null && d.value.summary.annotations == map[])
  {
    var rows := BoardRows(cfg, t.items, t.solves, viewer, cutoff).value;
    RowsAre(cfg, t.items, t.solves, viewer, cutoff);
    EntriesAre(rows, t.notes);
    OwnNotes(t.notes, c);
    if Lists(t.items, c) {
      var item := ItemOf(t.items, c);
      var r := RowOf(cfg, t.solves, viewer, item, cutoff).value;
      assert GateOf(r) != Unreadable;
      forall r' | r' in rows && r'.item.id == c ensures r' == r {
        assert r'.item == item;
      }
    }
  }

  // ── the submit gate ─────────────────────────────────────────────────────────

  datatype Verdict = Allowed | LockedOut | Unknown | Broken

  function SolvedBy(cfg: Cfg, solves: seq<Row>, viewer: Actor): set<int> {
    set i | 0 <= i < |solves| && Mine(cfg, viewer, solves[i].solve.actor) :: solves[i].challenge
  }

  lemma GateIsTheBoards(cfg: Cfg, solves: seq<Row>, viewer: Actor, item: Item)
    ensures Prereq.Met(SolvedBy(cfg, solves, viewer), item.prereqs) <==> PrereqsMet(cfg, solves, viewer, item)
  {
    var solved := SolvedBy(cfg, solves, viewer);
    forall p ensures p in solved <==> HasSolved(cfg, solves, viewer, p) {
      if p in solved {
        var i :| 0 <= i < |solves| && Mine(cfg, viewer, solves[i].solve.actor) && solves[i].challenge == p;
      }
    }
    if PrereqsMet(cfg, solves, viewer, item) {
      forall p | p in item.prereqs ensures p in solved { assert HasSolved(cfg, solves, viewer, p); }
    }
    if Prereq.Met(solved, item.prereqs) {
      forall p | p in item.prereqs ensures HasSolved(cfg, solves, viewer, p) { assert p in solved; }
    }
  }

  // What `Submit` decides before it looks at the flag.
  method SubmitGate(cfg: Cfg, t: Tables, viewer: Actor, c: int) returns (v: Verdict)
    ensures v == Broken <==> Lists(t.items, c) && ItemOf(t.items, c).visibility == Unrecognized
    ensures v == Allowed <==> && Lists(t.items, c) && ItemOf(t.items, c).visibility != Unrecognized
                              && PrereqsMet(cfg, t.solves, viewer, ItemOf(t.items, c))
    ensures v == Unknown ==> Detail(cfg, t, viewer, c, Live) in {Err(NotFound), Err(Corrupt(c))}
    ensures v == LockedOut ==> Detail(cfg, t, viewer, c, Live).Ok? ==> Detail(cfg, t, viewer, c, Live).value.summary.locked
    ensures v == Allowed ==> Detail(cfg, t, viewer, c, Live).Ok? ==> !Detail(cfg, t, viewer, c, Live).value.summary.locked
  {
    if !Lists(t.items, c) { return Unknown; }
    var item := ItemOf(t.items, c);
    if item.visibility == Unrecognized { return Broken; }
    var solved := SolvedBy(cfg, t.solves, viewer);
    var met := Prereq.PrereqsMet(solved, item.prereqs);
    GateIsTheBoards(cfg, t.solves, viewer, item);
    if met { return Allowed; }
    v := if item.visibility == Hidden then Unknown else LockedOut;
  }

  // ── what a solve after the freeze does ──────────────────────────────────────

  function Recalc(item: Item, v: int): Item { item.(stored := v) }

  // The stored price of one challenge after the UPDATE; static ones are not touched.
  function Reprice(items: seq<Item>, c: int, v: int): seq<Item> {
    if items == [] then []
    else
      var one := items[0];
      [if one.id == c && one.curve.kind != Static then Recalc(one, v) else one] + Reprice(items[1..], c, v)
  }

  /** One correct submission: the solve is appended and its challenge repriced, or all of it rolls back. */
  function Play(cfg: Cfg, t: Tables, row: Row): Tables {
    if !Lists(t.items, row.challenge) then t
    else
      var item := ItemOf(t.items, row.challenge);
      var solves := t.solves + [row];
      if item.curve.kind == Static then t.(solves := solves)
      else
        match SqlValue(item.curve, Counted(cfg, solves, row.challenge, Live))
        case None => t
        case Some(v) => t.(items := Reprice(t.items, row.challenge, v), solves := solves)
  }

  function PlayAll(cfg: Cfg, t: Tables, rows: seq<Row>): Tables
    decreases |rows|
  {
    if rows == [] then t else PlayAll(cfg, Play(cfg, t, rows[0]), rows[1..])
  }

  // Equal but for the stored price of decaying challenges.
  ghost predicate SameButPrices(items: seq<Item>, items': seq<Item>) {
    && |items| == |items'|
    && forall i :: 0 <= i < |items| ==>
         items'[i] == items[i] || (items[i].curve.kind != Static && items'[i] == Recalc(items[i], items'[i].stored))
  }

  lemma {:induction false} RepriceSame(items: seq<Item>, c: int, v: int)
    ensures SameButPrices(items, Reprice(items, c, v))
  {
    if items != [] {
      RepriceSame(items[1..], c, v);
      var after := Reprice(items[1..], c, v);
      assert forall i :: 1 <= i < |items| ==> items[i] == items[1..][i - 1] && Reprice(items, c, v)[i] == after[i - 1];
    }
  }

  // By another account, at or after the freeze.
  ghost predicate Late(cfg: Cfg, viewer: Actor, at: int, row: Row) {
    row.solve.date >= at && !Mine(cfg, viewer, row.solve.actor)
  }

  // For this viewer and cutoff, the two tables of solves look the same.
  ghost predicate LooksSame(cfg: Cfg, viewer: Actor, at: int, solves: seq<Row>, solves': seq<Row>) {
    forall c :: && Counted(cfg, solves', c, Frozen(at)) == Counted(cfg, solves, c, Frozen(at))
                && HasSolved(cfg, solves', viewer, c) == HasSolved(cfg, solves, viewer, c)
  }

  lemma LateSolveIsUnseen(cfg: Cfg, viewer: Actor, at: int, solves: seq<Row>, row: Row)
    requires Late(cfg, viewer, at, row)
    ensures LooksSame(cfg, viewer, at, solves, solves + [row])
  {
  }

  lemma {:induction false} PlayAllUnseen(cfg: Cfg, viewer: Actor, at: int, t: Tables, rows: seq<Row>)
    requires forall i :: 0 <= i < |rows| ==> Late(cfg, viewer, at, rows[i])
    ensures var t' := PlayAll(cfg, t, rows);
            SameButPrices(t.items, t'.items) && t'.notes == t.notes && LooksSame(cfg, viewer, at, t.solves, t'.solves)
    decreases |rows|
  {
    if rows != [] {
      var t1 := Play(cfg, t, rows[0]);
      LateSolveIsUnseen(cfg, viewer, at, t.solves, rows[0]);
      assert SameButPrices(t.items, t1.items) by {
        if t1.items != t.items {
          var v :| t1.items == Reprice(t.items, rows[0].challenge, v);
          RepriceSame(t.items, rows[0].challenge, v);
        }
      }
      PlayAllUnseen(cfg, viewer, at, t1, rows[1..]);
    }
  }

  // What a row shows, as opposed to the stored columns it was read from.
  ghost predicate RowsMatch(r: Option<BoardRow>, r': Option<BoardRow>) {
    match (r, r')
    case (None, None) => true
    case (Some(a), Some(b)) => b == a.(item := b.item) && b.item == Recalc(a.item, b.item.stored)
    case _ => false
  }

  ghost predicate AllMatch(rs: Option<seq<BoardRow>>, rs': Option<seq<BoardRow>>) {
    match (rs, rs')
    case (None, None) => true
    case (Some(a), Some(b)) => |a| == |b| && forall i :: 0 <= i < |a| ==> RowsMatch(Some(a[i]), Some(b[i]))
    case _ => false
  }

  lemma {:induction false} FrozenRows(cfg: Cfg, viewer: Actor, at: int, items: seq<Item>, items': seq<Item>, solves: seq<Row>, solves': seq<Row>)
    requires SameButPrices(items, items') && LooksSame(cfg, viewer, at, solves, solves')
    ensures AllMatch(BoardRows(cfg, items, solves, viewer, Frozen(at)), BoardRows(cfg, items', solves', viewer, Frozen(at)))
  {
    if items != [] {
      FrozenRows(cfg, viewer, at, items[1..], items'[1..], solves, solves');
    }
  }

  lemma {:induction false} MatchingEntries(rows: seq<BoardRow>, rows': seq<BoardRow>, notes: seq<Note>)
    requires AllMatch(Some(rows), Some(rows'))
    ensures Entries(rows', notes) == Entries(rows, notes)
  {
    if rows != [] {
      assert RowsMatch(Some(rows[0]), Some(rows'[0]));
      assert forall i :: 0 <= i < |rows| - 1 ==> rows[1..][i] == rows[i + 1] && rows'[1..][i] == rows'[i + 1];
      MatchingEntries(rows[1..], rows'[1..], notes);
    }
  }

  lemma {:induction false} SameItem(items: seq<Item>, items': seq<Item>, c: int)
    requires SameButPrices(items, items')
    ensures Lists(items', c) == Lists(items, c)
    ensures Lists(items, c) ==>
              var item, item' := ItemOf(items, c), ItemOf(items', c);
              item' == item || (item.curve.kind != Static && item' == Recalc(item, item'.stored))
  {
    if items != [] {
      SameItem(items[1..], items'[1..], c);
      assert items == [items[0]] + items[1..] && items' == [items'[0]] + items'[1..];
    }
  }

  lemma FrozenBoard(cfg: Cfg, viewer: Actor, at: int, t: Tables, t': Tables)
    requires SameButPrices(t.items, t'.items) && t'.notes == t.notes && LooksSame(cfg, viewer, at, t.solves, t'.solves)
    ensures Board(cfg, t', viewer, Frozen(at)) == Board(cfg, t, viewer, Frozen(at))
  {
    FrozenRows(cfg, viewer, at, t.items, t'.items, t.solves, t'.solves);
    var b := BoardRows(cfg, t.items, t.solves, viewer, Frozen(at));
    var b' := BoardRows(cfg, t'.items, t'.solves, viewer, Frozen(at));
    if b.Some? { MatchingEntries(b.value, b'.value, t.notes); }
  }

  lemma FrozenDetail(cfg: Cfg, viewer: Actor, at: int, t: Tables, t': Tables, c: int)
    requires SameButPrices(t.items, t'.items) && t'.notes == t.notes && LooksSame(cfg, viewer, at, t.solves, t'.solves)
    ensures Detail(cfg, t', viewer, c, Frozen(at)) == Detail(cfg, t, viewer, c, Frozen(at))
  {
    SameItem(t.items, t'.items, c);
  }

  /**
   * Freeze: whatever other accounts solve from the cutoff on, each solve repricing its challenge, a
   * viewer frozen at the cutoff gets the same board and the same detail pages, entry for entry.
   */
  lemma {:induction false} FreezeHidesLaterSolves(cfg: Cfg, viewer: Actor, at: int, t: Tables, rows: seq<Row>, c: int)
    requires forall i :: 0 <= i < |rows| ==> Late(cfg, viewer, at, rows[i])
    ensures Board(cfg, PlayAll(cfg, t, rows), viewer, Frozen(at)) == Board(cfg, t, viewer, Frozen(at))
    ensures Detail(cfg, PlayAll(cfg, t, rows), viewer, c, Frozen(at)) == Detail(cfg, t, viewer, c, Frozen(at))
  {
    PlayAllUnseen(cfg, viewer, at, t, rows);
    FrozenBoard(cfg, viewer, at, t, PlayAll(cfg, t, rows));
    FrozenDetail(cfg, viewer, at, t, PlayAll(cfg, t, rows), c);
  }

  lemma {:induction false} Repriced(items: seq<Item>, c: int, v: int)
    requires Lists(items, c) && ItemOf(items, c).curve.kind != Static
    ensures Lists(Reprice(items, c, v), c) && ItemOf(Reprice(items, c, v), c) == Recalc(ItemOf(items, c), v)
  {
    var items' := Reprice(items, c, v);
    assert items == [items[0]] + items[1..] && items'[1..] == Reprice(items[1..], c, v);
    if items[0].id == c && items[0].listed {
      assert items'[0].id == c && items'[0].listed;
    } else {
      Repriced(items[1..], c, v);
      assert items' == [items'[0]] + items'[1..];
    }
  }

  // The price the board shows of a listed challenge.
  function PriceShown(cfg: Cfg, t: Tables, c: int, cutoff: Cutoff): Option<int>
    requires Lists(t.items, c)
  {
    ShownValue(cfg, t.solves, ItemOf(t.items, c), cutoff)
  }

  /**
   * What the freeze hides: a visible account's late solve of a decaying challenge. The price a frozen viewer
   * sees stays; the live one falls, on a linear curve exactly after the first solve and above the floor, and
   * on a logarithmic one exactly when the parabola's next step overflows the rounding.
   */
  lemma {:induction false} LivePriceMoves(cfg: Cfg, viewer: Actor, at: int, t: Tables, row: Row)
    requires Late(cfg, viewer, at, row) && Shown(cfg, row.solve.actor) && Play(cfg, t, row) != t
    requires var item := ItemOf(t.items, row.challenge);
             && Valid(item.curve) && item.curve.kind != Static
             && item.stored == Price(item.curve, Counted(cfg, t.solves, row.challenge, Live))
    ensures var t', c := Play(cfg, t, row), row.challenge;
            var curve, n := ItemOf(t.items, c).curve, Counted(cfg, t.solves, c, Live);
            && Lists(t'.items, c)
            && PriceShown(cfg, t', c, Frozen(at)) == PriceShown(cfg, t, c, Frozen(at))
            && PriceShown(cfg, t, c, Live) == Some(Price(curve, n)) && PriceShown(cfg, t', c, Live) == Some(Price(curve, n + 1))
            && (curve.kind == Linear ==> (Price(curve, n + 1) < Price(curve, n) <==> n >= 1 && Price(curve, n) > curve.minimum))
            && (curve.kind == Logarithmic ==> (Price(curve, n + 1) < Price(curve, n) <==> DropRises(curve, n)))
  {
    var t', c := Play(cfg, t, row), row.challenge;
    var curve, n := ItemOf(t.items, c).curve, Counted(cfg, t.solves, c, Live);
    SqlIsThePrice(curve, n + 1);
    Repriced(t.items, c, Price(curve, n + 1));
    assert t'.solves == t.solves + [row] && Counted(cfg, t'.solves, c, Live) == n + 1;
    LateSolveIsUnseen(cfg, viewer, at, t.solves, row);
    if curve.kind == Linear {
      LinearFallsIff(curve, n);
    } else {
      LogFallsIff(curve, n);
    }
  }

  /** The viewer's own solve shows at once, frozen or not. */
  lemma OwnSolveShows(cfg: Cfg, viewer: Actor, t: Tables, row: Row, cutoff: Cutoff)
    requires Mine(cfg, viewer, row.solve.actor) && Play(cfg, t, row) != t
    ensures var t' := Play(cfg, t, row);
            && HasSolved(cfg, t'.solves, viewer, row.challenge)
            && Lists(t'.items, row.challenge)
            && (RowOf(cfg, t'.solves, viewer, ItemOf(t'.items, row.challenge), cutoff).Some? ==>
                  RowOf(cfg, t'.solves, viewer, ItemOf(t'.items, row.challenge), cutoff).value.solved)
  {
    var t' := Play(cfg, t, row);
    assert t'.solves == t.solves + [row] && t'.solves[|t.solves|] == row;
    if t'.items != t.items {
      var v :| t'.items == Reprice(t.items, row.challenge, v);
      RepriceSame(t.items, row.challenge, v);
    }
    SameItem(t.items, t'.items, row.challenge);
  }

  // ── the frozen price and the stored one ─────────────────────────────────────

  // One challenge's solves, in commit order.
  function SolvesOf(solves: seq<Row>, c: int, cutoff: Cutoff): seq<Solve> {
    if solves == [] then []
    else
      var last := solves[|solves| - 1];
      SolvesOf(solves[..|solves| - 1], c, cutoff)
      + (if last.challenge == c && Before(cutoff, last.solve.date) then [last.solve] else [])
  }

  lemma {:induction false} CountedIsShownCount(cfg: Cfg, solves: seq<Row>, c: int, cutoff: Cutoff)
    ensures Counted(cfg, solves, c, cutoff) == ShownCount(cfg, SolvesOf(solves, c, cutoff))
  {
    if solves != [] {
      var init, last := solves[..|solves| - 1], solves[|solves| - 1];
      CountedIsShownCount(cfg, init, c, cutoff);
      assert SolvesOf(init, c, cutoff) + [] == SolvesOf(init, c, cutoff);
    }
  }

  /** The frozen price is what the write path stores over the solves dated before the cutoff, hidden ones left out. */
  lemma {:induction false} FrozenPriceIsTheTruncatedLedgers(cfg: Cfg, ch: Challenge, item: Item, solves: seq<Row>, at: int)
    requires item.curve == ch.curve && item.curve.kind != Static
    requires ShownValue(cfg, solves, item, Frozen(at)).Some?
    ensures ShownValue(cfg, solves, item, Frozen(at)).value == PriceOf(cfg, ch, SolvesOf(solves, item.id, Frozen(at)))
  {
    CountedIsShownCount(cfg, solves, item.id, Frozen(at));
    SqlIsThePrice(item.curve, Counted(cfg, solves, item.id, Frozen(at)));
  }

  lemma {:induction false} AllBefore(solves: seq<Row>, c: int, at: int)
    requires forall i :: 0 <= i < |solves| ==> solves[i].solve.date < at
    ensures SolvesOf(solves, c, Frozen(at)) == SolvesOf(solves, c, Live)
  {
    if solves != [] { AllBefore(solves[..|solves| - 1], c, at); }
  }

  /**
   * Before anything falls behind the cutoff the frozen page is the live one: on a ledger the
   * submissions keep, the recomputed price is the stored price.
   */
  lemma {:induction false} FrozenMeetsLive(cfg: Cfg, ch: Challenge, l: Ledger, item: Item, solves: seq<Row>, at: int)
    requires LedgerOk(cfg, ch, l) && item.curve == ch.curve && item.stored == l.value
    requires l.solves == SolvesOf(solves, item.id, Live)
    requires forall i :: 0 <= i < |solves| ==> solves[i].solve.date < at
    requires ShownValue(cfg, solves, item, Frozen(at)).Some?
    ensures ShownValue(cfg, solves, item, Frozen(at)) == ShownValue(cfg, solves, item, Live)
  {
    AllBefore(solves, item.id, at);
    if item.curve.kind != Static { FrozenPriceIsTheTruncatedLedgers(cfg, ch, item, solves, at); }
  }
}
