/**
 * Prerequisites: the gate on a submission, the search for a cycle, and what a cycle means for players.
 *
 * Challenge ids are only ever compared, so they are a type parameter here.
 */
module Prereq {
  import opened Prelude

  // ── the gate ────────────────────────────────────────────────────────────────

  // What the board asks of each prerequisite, and the submit path has to agree with.
  ghost predicate Met<T>(solved: set<T>, prereqs: seq<T>) {
    forall p :: p in prereqs ==> p in solved
  }

  method Dedupe<T(==)>(ids: seq<T>) returns (out: seq<T>)
    ensures Distinct(out)
    ensures forall x :: x in out <==> x in ids
  {
    out := [];
    var seen: set<T> := {};
    for i := 0 to |ids|
      invariant Distinct(out)
      invariant forall x :: x in out <==> x in ids[..i]
      invariant forall x :: x in seen <==> x in out
    {
      assert ids[..i + 1] == ids[..i] + [ids[i]];
      if ids[i] !in seen {
        seen := seen + {ids[i]};
        out := out + [ids[i]];
      }
    }
    assert ids[..|ids|] == ids;
  }

  // count(DISTINCT challenge_id) over the account's solves of the listed challenges.
  function CountSolved<T>(solved: set<T>, ids: seq<T>): nat {
    |set x | x in ids && x in solved|
  }

  lemma CountDecides<T>(solved: set<T>, ids: seq<T>)
    requires Distinct(ids)
    ensures CountSolved(solved, ids) == |ids| <==> Met(solved, ids)
  {
    var all, have := Elements(ids), set x | x in ids && x in solved;
    ElementsSize(ids);
    SubsetSize(have, all);
    if Met(solved, ids) { assert have == all; }
    if |have| == |all| {
      forall p | p in ids ensures p in solved { assert p in all; }
    }
  }

  /** Counting distinct solved ids against the deduplicated list decides exactly the board's condition. */
  method PrereqsMet<T(==)>(solved: set<T>, prereqs: seq<T>) returns (met: bool)
    ensures met <==> Met(solved, prereqs)
  {
    var ids := Dedupe(prereqs);
    if |ids| == 0 { return true; }
    var have := CountSolved(solved, ids);
    CountDecides(solved, ids);
    met := have == |ids|;
  }

  // ── the cycle search ────────────────────────────────────────────────────────

  predicate Edge<T(==)>(edges: map<T, seq<T>>, a: T, b: T) {
    a in edges && b in edges[a]
  }

  ghost predicate Walks<T>(edges: map<T, seq<T>>, p: seq<T>) {
    forall i :: 0 <= i < |p| - 1 ==> Edge(edges, p[i], p[i + 1])
  }

  /** `p` leaves `start` and comes back to it. */
  ghost predicate Cycle<T>(edges: map<T, seq<T>>, start: T, p: seq<T>) {
    && |p| >= 2 && p[0] == start && p[|p| - 1] == start
    && Walks(edges, p)
  }

  ghost predicate OnCycle<T(!new)>(edges: map<T, seq<T>>, start: T) {
    exists p :: Cycle(edges, start, p)
  }

  function Next<T(==)>(edges: map<T, seq<T>>, a: T): seq<T> {
    if a in edges then edges[a] else []
  }

  function Targets<T>(edges: map<T, seq<T>>): set<T> {
    set a, b | a in edges && b in edges[a] :: b
  }

  // Every way on from `v` has been looked at, and none of them is `start`.
  ghost predicate Explored<T>(edges: map<T, seq<T>>, start: T, visited: set<T>, v: T) {
    forall b :: b in Next(edges, v) ==> b != start && b in visited
  }

  // `before` is the path to `from`: the recursion's stack.
  method Walk<T(==)>(edges: map<T, seq<T>>, start: T, from: T, before: seq<T>, visited: set<T>)
      returns (found: Option<seq<T>>, visited': set<T>)
    requires Walks(edges, before + [from]) && (before + [from])[0] == start && Distinct(before + [from])
    requires forall x :: x in before + [from] && x != start ==> x in visited
    ensures visited <= visited'
    ensures found.Some? ==> Cycle(edges, start, found.value) && Distinct(found.value[1..])
    ensures found.None? ==> forall v :: v == from || v in visited' - visited ==> Explored(edges, start, visited', v)
    decreases |Targets(edges) - visited|
  {
    var path := before + [from];
    visited' := visited;
    var next := Next(edges, from);
    for i := 0 to |next|
      invariant visited <= visited'
      invariant forall b :: b in next[..i] ==> b != start && b in visited'
      invariant forall v :: v in visited' - visited ==> Explored(edges, start, visited', v)
    {
      var n := next[i];
      assert next[..i + 1] == next[..i] + [n];
      assert Edge(edges, from, n);
      if n == start {
        assert Cycle(edges, start, path + [start]);
        assert (path + [start])[1..] == path[1..] + [start];
        return Some(path + [start]), visited';
      }
      if n !in visited' {
        var seen := visited' + {n};
        assert n in Targets(edges);
        SubsetSize(Targets(edges) - seen, Targets(edges) - visited);
        ghost var was := visited';
        found, visited' := Walk(edges, start, n, path, seen);
        if found.Some? { return; }
        forall v | v in visited' - visited ensures Explored(edges, start, visited', v) {
          assert v in was - visited ==> Explored(edges, start, was, v);
        }
      }
    }
    assert next[..|next|] == next;
    found := None;
  }

  // From an explored start, a path never comes back to it.
  lemma {:induction false} ExploredIsClosed<T>(edges: map<T, seq<T>>, start: T, visited: set<T>, p: seq<T>, k: nat)
    requires forall v :: v == start || v in visited ==> Explored(edges, start, visited, v)
    requires |p| > 0 && p[0] == start && Walks(edges, p) && 0 < k < |p|
    ensures p[k] in visited && p[k] != start
  {
    if k > 1 { ExploredIsClosed(edges, start, visited, p, k - 1); }
    assert Edge(edges, p[k - 1], p[k - 1 + 1]);
    assert Explored(edges, start, visited, p[k - 1]);
  }

  /** The search finds a cycle through `start` exactly when there is one, and the one it finds is simple. */
  method FindCycle<T(==, !new)>(edges: map<T, seq<T>>, start: T) returns (cycle: Option<seq<T>>)
    ensures cycle.Some? <==> OnCycle(edges, start)
    ensures cycle.Some? ==> Cycle(edges, start, cycle.value) && Distinct(cycle.value[1..])
  {
    var visited;
    cycle, visited := Walk(edges, start, start, [], {});
    if cycle.None? {
      forall p | |p| >= 2 && p[0] == start && Walks(edges, p) ensures p[|p| - 1] != start {
        ExploredIsClosed(edges, start, visited, p, |p| - 1);
      }
    }
  }

  // ── what a cycle means ──────────────────────────────────────────────────────

  // One account's correct submissions: a challenge is solved only once its prerequisites are.
  ghost function Attempt<T>(edges: map<T, seq<T>>, solved: set<T>, c: T): set<T> {
    if c in edges && Met(solved, edges[c]) then solved + {c} else solved
  }

  ghost function Attempts<T>(edges: map<T, seq<T>>, solved: set<T>, cs: seq<T>): set<T>
    decreases |cs|
  {
    if cs == [] then solved else Attempts(edges, Attempt(edges, solved, cs[0]), cs[1..])
  }

  /** A challenge on a cycle nobody has broken into cannot be solved, whatever is attempted. */
  lemma {:induction false} CycleNeverUnlocks<T>(edges: map<T, seq<T>>, start: T, p: seq<T>, solved: set<T>, cs: seq<T>)
    requires Cycle(edges, start, p) && forall i :: 0 <= i < |p| ==> p[i] !in solved
    ensures forall i :: 0 <= i < |p| ==> p[i] !in Attempts(edges, solved, cs)
    decreases |cs|
  {
    if cs != [] {
      var solved' := Attempt(edges, solved, cs[0]);
      forall i | 0 <= i < |p| ensures p[i] !in solved' {
        var k := if i == |p| - 1 then 0 else i;
        assert p[k] == p[i];
        assert Edge(edges, p[k], p[k + 1]);
      }
      CycleNeverUnlocks(edges, start, p, solved', cs[1..]);
    }
  }

  /** Prerequisites name existing challenges: what SetChallengeRequirements checks. */
  ghost predicate NoDangling<T>(edges: map<T, seq<T>>) {
    forall a, b :: a in edges && b in edges[a] ==> b in edges
  }

  // In a path longer than there are challenges, one comes twice.
  lemma Repeats<T>(p: seq<T>, nodes: set<T>) returns (i: nat, j: nat)
    requires |p| > |nodes| && forall k :: 0 <= k < |p| ==> p[k] in nodes
    ensures i < j < |p| && p[i] == p[j]
  {
    if Distinct(p) {
      ElementsSize(p);
      SubsetSize(Elements(p), nodes);
    }
    i, j :| 0 <= i < j < |p| && p[i] == p[j];
  }

  lemma SliceIsCycle<T(!new)>(edges: map<T, seq<T>>, p: seq<T>, i: nat, j: nat)
    requires Walks(edges, p) && i < j < |p| && p[i] == p[j]
    ensures OnCycle(edges, p[i])
  {
    var q := p[i..j + 1];
    forall k | 0 <= k < |q| - 1 ensures Edge(edges, q[k], q[k + 1]) {
      assert Edge(edges, p[i + k], p[i + k + 1]);
    }
    assert Cycle(edges, p[i], q);
  }

  // If every unsolved challenge waits for another unsolved one, a path of them goes on for ever.
  lemma {:induction false} WaitingPath<T(!new)>(edges: map<T, seq<T>>, solved: set<T>, c: T, n: nat) returns (p: seq<T>)
    requires NoDangling(edges) && c in edges && c !in solved
    requires forall a :: a in edges && a !in solved ==> !Met(solved, edges[a])
    ensures |p| == n + 1 && p[0] == c && Walks(edges, p)
    ensures forall k :: 0 <= k < |p| ==> p[k] in edges
  {
    if n == 0 { return [c]; }
    var b :| b in edges[c] && b !in solved;
    var rest := WaitingPath(edges, solved, b, n - 1);
    p := [c] + rest;
    forall k | 0 <= k < |p| - 1 ensures Edge(edges, p[k], p[k + 1]) {
      assert k > 0 ==> Edge(edges, rest[k - 1], rest[k - 1 + 1]);
    }
  }

  // With no cycle, some unsolved challenge is open.
  lemma SomethingIsOpen<T(!new)>(edges: map<T, seq<T>>, solved: set<T>, c: T) returns (open: T)
    requires NoDangling(edges) && (forall a :: !OnCycle(edges, a)) && c in edges && c !in solved
    ensures open in edges && open !in solved && Met(solved, edges[open])
  {
    if forall a :: a in edges && a !in solved ==> !Met(solved, edges[a]) {
      var p := WaitingPath(edges, solved, c, |edges.Keys|);
      var i, j := Repeats(p, edges.Keys);
      SliceIsCycle(edges, p, i, j);
    }
    open :| open in edges && open !in solved && Met(solved, edges[open]);
  }

  lemma {:induction false} SolveAll<T(!new)>(edges: map<T, seq<T>>, solved: set<T>) returns (cs: seq<T>)
    requires NoDangling(edges) && forall a :: !OnCycle(edges, a)
    ensures forall a :: a in edges ==> a in Attempts(edges, solved, cs)
    decreases |edges.Keys - solved|
  {
    if exists c :: c in edges && c !in solved {
      var c :| c in edges && c !in solved;
      var open := SomethingIsOpen(edges, solved, c);
      assert edges.Keys - solved == (edges.Keys - (solved + {open})) + {open};
      var rest := SolveAll(edges, solved + {open});
      cs := [open] + rest;
    } else {
      cs := [];
    }
  }

  ghost predicate SolvesAll<T>(edges: map<T, seq<T>>, cs: seq<T>) {
    forall a :: a in edges ==> a in Attempts(edges, {}, cs)
  }

  lemma CycleBlocksTheBoard<T(!new)>(edges: map<T, seq<T>>, a: T, cs: seq<T>)
    requires OnCycle(edges, a)
    ensures !SolvesAll(edges, cs)
  {
    var p :| Cycle(edges, a, p);
    CycleNeverUnlocks(edges, a, p, {}, cs);
    assert Edge(edges, p[0], p[0 + 1]);
    assert a in edges;
  }

  /**
   * The warning says exactly what it should: over existing challenges, an account starting from
   * nothing can solve the whole board in some order if and only if no challenge is on a cycle.
   */
  lemma BoardIsSolvableIff<T(!new)>(edges: map<T, seq<T>>)
    requires NoDangling(edges)
    ensures (exists cs :: SolvesAll(edges, cs)) <==> forall a :: !OnCycle(edges, a)
  {
    if forall a :: !OnCycle(edges, a) {
      var cs := SolveAll(edges, {});
      assert SolvesAll(edges, cs);
    } else {
      var a :| OnCycle(edges, a);
      forall cs ensures !SolvesAll(edges, cs) { CycleBlocksTheBoard(edges, a, cs); }
    }
  }
}
