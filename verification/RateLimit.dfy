/**
 * The fixed-window limiter: a counter row per bucket and window, bumped before an attempt and given back
 * when the attempt turns out legitimate.
 */
module RateLimit {

  // The primary key of rate_limits.
  datatype Slot = Slot(bucket: string, start: int)

  datatype Op = Bump | Refund

  // time.Truncate; a window that is not positive leaves the time alone.
  function Truncate(now: int, window: int): int {
    if window <= 0 then now else now - now % window
  }

  // What a row holds after these operations landed on it, from no row at all.
  function Counter(ops: seq<Op>): nat {
    if ops == [] then 0
    else
      var n := Counter(ops[..|ops| - 1]);
      if ops[|ops| - 1] == Bump then n + 1 else if n > 0 then n - 1 else 0
  }

  class Limiter {
    const limit: int
    const window: int
    // The table; and for the proof, what has landed on each row.
    var rows: map<Slot, nat>
    ghost var log: map<Slot, seq<Op>>

    ghost predicate Valid()
      reads this
    {
      && (forall k :: k in rows ==> k in log && rows[k] == Counter(log[k]))
      && (forall k :: k in log ==> k in rows)
    }

    constructor (limit: int, window: int)
      ensures Valid() && this.limit == limit && this.window == window && rows == map[] && log == map[]
    {
      this.limit, this.window := limit, window;
      rows, log := map[], map[];
    }

    ghost function Landed(k: Slot): seq<Op>
      reads this
    {
      if k in log then log[k] else []
    }

    /** Bumps the slot's row, making it if need be, and allows while the count is within the limit. */
    method Allow(bucket: string, now: int) returns (ok: bool)
      requires Valid()
      modifies this
      ensures Valid()
      ensures var k := Slot(bucket, Truncate(now, window));
              log == old(log)[k := old(Landed(k)) + [Bump]] && ok == Allowed(limit, old(Landed(k)))
    {
      var k := Slot(bucket, Truncate(now, window));
      var n := (if k in rows then rows[k] else 0) + 1;
      assert (Landed(k) + [Bump])[..|Landed(k)|] == Landed(k);
      log := log[k := Landed(k) + [Bump]];
      rows := rows[k := n];
      ok := n <= limit;
    }

    /** Gives a bump back; on a slot without a row it does nothing. */
    method GiveBack(bucket: string, now: int)
      requires Valid()
      modifies this
      ensures Valid()
      ensures var k := Slot(bucket, Truncate(now, window));
              log == if k in old(log) then old(log)[k := old(log)[k] + [Refund]] else old(log)
    {
      var k := Slot(bucket, Truncate(now, window));
      if k in rows {
        assert (log[k] + [Refund])[..|log[k]|] == log[k];
        log := log[k := log[k] + [Refund]];
        rows := rows[k := if rows[k] > 0 then rows[k] - 1 else 0];
      }
    }
  }

  // The answer a bump gets after `before` has landed.
  predicate Allowed(limit: int, before: seq<Op>) { Counter(before) + 1 <= limit }

  // ── what a slot's history adds up to ────────────────────────────────────────

  function Refunds(ops: seq<Op>): nat {
    if ops == [] then 0 else Refunds(ops[..|ops| - 1]) + (if ops[|ops| - 1] == Refund then 1 else 0)
  }

  // How many bumps were answered yes.
  function Granted(limit: int, ops: seq<Op>): nat {
    if ops == [] then 0
    else
      var before := ops[..|ops| - 1];
      Granted(limit, before) + (if ops[|ops| - 1] == Bump && Allowed(limit, before) then 1 else 0)
  }

  // Bumps less refunds.
  function Excess(ops: seq<Op>): int {
    if ops == [] then 0 else Excess(ops[..|ops| - 1]) + (if ops[|ops| - 1] == Bump then 1 else -1)
  }

  /** In any window, however bumps and refunds fall, at most the limit plus the refunds landed are allowed. */
  lemma {:induction false} GrantsAreBounded(limit: nat, ops: seq<Op>)
    ensures Granted(limit, ops) <= limit + Refunds(ops)
    ensures Granted(limit, ops) <= Counter(ops) + Refunds(ops)
  {
    if ops != [] { GrantsAreBounded(limit, ops[..|ops| - 1]); }
  }

  /** With no refund, exactly the first `limit` attempts of a window are allowed. */
  lemma {:induction false} WithoutRefundsExactlyTheLimit(limit: nat, ops: seq<Op>)
    requires forall i :: 0 <= i < |ops| ==> ops[i] == Bump
    ensures Counter(ops) == |ops| && Granted(limit, ops) == if |ops| < limit then |ops| else limit
  {
    if ops != [] { WithoutRefundsExactlyTheLimit(limit, ops[..|ops| - 1]); }
  }

  lemma {:induction false} ExcessSplit(ops: seq<Op>, k: nat)
    requires k < |ops|
    ensures Excess(ops[k..]) == Excess(ops[k..|ops| - 1]) + (if ops[|ops| - 1] == Bump then 1 else -1)
  {
    assert ops[k..][..|ops| - k - 1] == ops[k..|ops| - 1];
  }

  /** The counter is the largest excess of bumps over refunds of any suffix, the empty one included. */
  lemma {:induction false} CounterIsTheLargestSuffix(ops: seq<Op>)
    ensures forall k :: 0 <= k <= |ops| ==> Excess(ops[k..]) <= Counter(ops)
    ensures exists k :: 0 <= k <= |ops| && Excess(ops[k..]) == Counter(ops)
  {
    if ops == [] {
      assert Excess(ops[0..]) == 0;
    } else {
      var n := |ops| - 1;
      var init := ops[..n];
      CounterIsTheLargestSuffix(init);
      assert ops[|ops|..] == [];
      forall k | 0 <= k <= |ops| ensures Excess(ops[k..]) <= Counter(ops) {
        if k < |ops| {
          ExcessSplit(ops, k);
          assert ops[k..n] == init[k..];
        }
      }
      var k :| 0 <= k <= n && Excess(init[k..]) == Counter(init);
      ExcessSplit(ops, k);
      assert ops[k..n] == init[k..];
      if ops[n] == Refund && Counter(init) == 0 { assert Excess(ops[|ops|..]) == Counter(ops); }
      else { assert Excess(ops[k..]) == Counter(ops); }
    }
  }
}
