/**
 * Uploading a challenge's instance pool, and attributing a flag to the account it was issued to.
 */
module Pool {
  import opened Prelude

  type Bytes = seq<bv8>

  const WIDTH := 32

  // An uploaded entry; its hash is a [32]byte.
  datatype NewInstance = NewInstance(hash: Bytes, artifact: NullId, vars: string)

  // A row of challenge_instances.
  datatype Instance = Instance(id: int, challenge: int, hash: Bytes, artifact: NullId, vars: string, generation: int)

  // A row of flag_issues.
  datatype Issue = Issue(challenge: int, account: int, instance: int)

  datatype File = File(id: int, challenge: int)

  datatype Refusal = Empty | Repeats(index: nat) | BadVars(index: nat) | NoChallenge | ForeignArtifact(id: int)

  datatype Outcome = Outcome(generation: int, inserted: nat, idempotent: bool)

  predicate NoRepeats(up: seq<NewInstance>) {
    forall i, j :: 0 <= i < j < |up| ==> up[i].hash != up[j].hash
  }

  predicate Fixed(up: seq<NewInstance>) {
    forall i :: 0 <= i < |up| ==> |up[i].hash| == WIDTH
  }

  // ── is it the same pool? ────────────────────────────────────────────────────

  method SameHashSet(newest: seq<Bytes>, up: seq<NewInstance>) returns (same: bool)
    ensures same <==> && |newest| == |up|
                      && (forall i :: 0 <= i < |newest| ==> |newest[i]| == WIDTH)
                      && forall i :: 0 <= i < |up| ==> up[i].hash in newest
  {
    if |newest| != |up| { return false; }
    var hashes: set<Bytes> := {};
    for i := 0 to |newest|
      invariant forall j :: 0 <= j < i ==> |newest[j]| == WIDTH
      invariant forall h :: h in hashes <==> h in newest[..i]
    {
      if |newest[i]| != WIDTH { return false; }
      assert newest[..i + 1] == newest[..i] + [newest[i]];
      hashes := hashes + {newest[i]};
    }
    assert newest[..|newest|] == newest;
    for i := 0 to |up|
      invariant forall j :: 0 <= j < i ==> up[j].hash in newest
    {
      if up[i].hash !in hashes { return false; }
    }
    same := true;
  }

  function HashesOf(up: seq<NewInstance>): (r: seq<Bytes>)
    ensures |r| == |up| && forall i :: 0 <= i < |r| ==> r[i] == up[i].hash
  {
    seq(|up|, i requires 0 <= i < |up| => up[i].hash)
  }

  /**
   * The one-directional membership loop decides set equality, by counting: the upload repeats nothing,
   * so as many hashes found among as few rows leaves no row over.
   */
  lemma SameHashSetIsSetEquality(newest: seq<Bytes>, up: seq<NewInstance>)
    requires NoRepeats(up) && Fixed(up)
    requires forall i, j :: 0 <= i < j < |newest| ==> newest[i] != newest[j]
    ensures (&& |newest| == |up|
             && (forall i :: 0 <= i < |newest| ==> |newest[i]| == WIDTH)
             && forall i :: 0 <= i < |up| ==> up[i].hash in newest)
       <==> Elements(newest) == Elements(HashesOf(up))
  {
    var hs := HashesOf(up);
    ElementsSize(hs);
    ElementsSize(newest);
    if |newest| == |up| && forall i :: 0 <= i < |up| ==> up[i].hash in newest {
      SubsetSize(Elements(hs), Elements(newest));
    }
    if Elements(newest) == Elements(hs) {
      forall i | 0 <= i < |newest| ensures |newest[i]| == WIDTH {
        assert newest[i] in Elements(newest);
        var k :| 0 <= k < |hs| && hs[k] == newest[i];
      }
      forall i | 0 <= i < |up| ensures up[i].hash in newest {
        assert hs[i] in Elements(hs);
      }
    }
  }

  // ── generations ─────────────────────────────────────────────────────────────

  // COALESCE(MAX(generation), 0).
  function Newest(pool: seq<Instance>, c: int): int {
    if pool == [] then 0
    else
      var before, last := Newest(pool[..|pool| - 1], c), pool[|pool| - 1];
      if last.challenge == c && last.generation > before then last.generation else before
  }

  // The hashes of one generation, in table order.
  function HashesIn(pool: seq<Instance>, c: int, g: int): seq<Bytes> {
    if pool == [] then []
    else
      var before, last := HashesIn(pool[..|pool| - 1], c, g), pool[|pool| - 1];
      if last.challenge == c && last.generation == g then before + [last.hash] else before
  }

  // A row as the INSERT makes it: no vars become an empty object, and artifact 0 stands for none.
  function RowOf(u: NewInstance, c: int, g: int, id: int): Instance {
    Instance(id, c, u.hash, if u.artifact == Id(0) then Null else u.artifact, if u.vars == "" then "{}" else u.vars, g)
  }

  function Rows(up: seq<NewInstance>, c: int, g: int, firstId: int): (r: seq<Instance>)
    ensures |r| == |up|
    ensures forall i :: 0 <= i < |r| ==> r[i] == RowOf(up[i], c, g, firstId + i)
  {
    seq(|up|, i requires 0 <= i < |up| => RowOf(up[i], c, g, firstId + i))
  }

  /** Generations of a challenge are 1, 2, … up to the newest, none empty. */
  ghost predicate Contiguous(pool: seq<Instance>, c: int) {
    && (forall k :: 0 <= k < |pool| && pool[k].challenge == c ==> 1 <= pool[k].generation <= Newest(pool, c))
    && (forall g :: 1 <= g <= Newest(pool, c) ==> InUse(pool, c, g))
  }

  ghost predicate InUse(pool: seq<Instance>, c: int, g: int) {
    exists k :: 0 <= k < |pool| && pool[k].challenge == c && pool[k].generation == g
  }

  /** UNIQUE(challenge_id, value_hash, generation), and ids. */
  ghost predicate Keys(pool: seq<Instance>) {
    forall j, k :: 0 <= j < k < |pool| ==>
      && pool[j].id != pool[k].id
      && (pool[j].challenge == pool[k].challenge && pool[j].generation == pool[k].generation ==> pool[j].hash != pool[k].hash)
  }

  ghost predicate PoolOk(pool: seq<Instance>, nextId: int) {
    && Keys(pool)
    && (forall k :: 0 <= k < |pool| ==> pool[k].id < nextId && |pool[k].hash| == WIDTH)
    && (forall c :: Contiguous(pool, c))
  }

  lemma {:induction false} NewestIsMax(pool: seq<Instance>, c: int)
    ensures Newest(pool, c) >= 0
    ensures forall k :: 0 <= k < |pool| && pool[k].challenge == c ==> pool[k].generation <= Newest(pool, c)
    ensures Newest(pool, c) == 0 || InUse(pool, c, Newest(pool, c))
  {
    if pool != [] {
      var init, last := pool[..|pool| - 1], pool[|pool| - 1];
      NewestIsMax(init, c);
      assert forall k :: 0 <= k < |init| ==> pool[k] == init[k];
      if Newest(pool, c) != 0 {
        if Newest(pool, c) == Newest(init, c) {
          var k :| 0 <= k < |init| && init[k].challenge == c && init[k].generation == Newest(init, c);
          assert pool[k].generation == Newest(pool, c);
        } else {
          assert pool[|pool| - 1].generation == Newest(pool, c);
        }
      }
    }
  }

  lemma {:induction false} HashesInMembers(pool: seq<Instance>, c: int, g: int)
    ensures forall h :: h in HashesIn(pool, c, g) <==>
              exists k :: 0 <= k < |pool| && pool[k].challenge == c && pool[k].generation == g && pool[k].hash == h
  {
    if pool != [] {
      var init, last := pool[..|pool| - 1], pool[|pool| - 1];
      HashesInMembers(init, c, g);
      forall h ensures h in HashesIn(pool, c, g) <==>
          exists k :: 0 <= k < |pool| && pool[k].challenge == c && pool[k].generation == g && pool[k].hash == h {
        if k :| 0 <= k < |pool| && pool[k].challenge == c && pool[k].generation == g && pool[k].hash == h {
          assert k < |init| ==> init[k] == pool[k];
        }
        if k :| 0 <= k < |init| && init[k].challenge == c && init[k].generation == g && init[k].hash == h {
          assert pool[k] == init[k];
        }
        if last.challenge == c && last.generation == g && last.hash == h { assert pool[|pool| - 1] == last; }
      }
    }
  }

  lemma {:induction false} NewestAppend(a: seq<Instance>, b: seq<Instance>, c: int)
    ensures Newest(a + b, c) == if Newest(b, c) > Newest(a, c) then Newest(b, c) else Newest(a, c)
  {
    NewestIsMax(a, c);
    if b == [] {
      assert a + b == a;
    } else {
      NewestAppend(a, b[..|b| - 1], c);
      assert (a + b)[..|a + b| - 1] == a + b[..|b| - 1];
    }
  }

  lemma {:induction false} HashesInAppend(a: seq<Instance>, b: seq<Instance>, c: int, g: int)
    ensures HashesIn(a + b, c, g) == HashesIn(a, c, g) + HashesIn(b, c, g)
  {
    if b == [] {
      assert a + b == a;
    } else {
      HashesInAppend(a, b[..|b| - 1], c, g);
      assert (a + b)[..|a + b| - 1] == a + b[..|b| - 1];
    }
  }

  lemma {:induction false} UploadedRows(up: seq<NewInstance>, c: int, g: int, firstId: int, d: int)
    requires g >= 1
    ensures Newest(Rows(up, c, g, firstId), d) == if d == c && up != [] then g else 0
    ensures HashesIn(Rows(up, c, g, firstId), c, g) == HashesOf(up)
  {
    var rows := Rows(up, c, g, firstId);
    if up != [] {
      var init := up[..|up| - 1];
      UploadedRows(init, c, g, firstId, d);
      assert rows[..|rows| - 1] == Rows(init, c, g, firstId);
      assert HashesOf(up) == HashesOf(init) + [up[|up| - 1].hash];
    }
  }

  lemma {:induction false} NoneBeyondNewest(pool: seq<Instance>, c: int, g: int)
    requires g > Newest(pool, c)
    ensures HashesIn(pool, c, g) == []
  {
    NewestIsMax(pool, c);
    HashesInMembers(pool, c, g);
    if |HashesIn(pool, c, g)| > 0 { assert HashesIn(pool, c, g)[0] in HashesIn(pool, c, g); }
  }

  lemma {:induction false} OneGenerationIsDistinct(pool: seq<Instance>, c: int, g: int)
    requires Keys(pool)
    ensures forall i, j :: 0 <= i < j < |HashesIn(pool, c, g)| ==> HashesIn(pool, c, g)[i] != HashesIn(pool, c, g)[j]
  {
    if pool != [] {
      var init, last := pool[..|pool| - 1], pool[|pool| - 1];
      OneGenerationIsDistinct(init, c, g);
      HashesInMembers(init, c, g);
      if last.challenge == c && last.generation == g {
        var hs := HashesIn(init, c, g);
        forall i | 0 <= i < |hs| ensures hs[i] != last.hash {
          assert hs[i] in hs;
          var k :| 0 <= k < |init| && init[k].challenge == c && init[k].generation == g && init[k].hash == hs[i];
          assert pool[k] == init[k] && pool[|pool| - 1] == last;
        }
      }
    }
  }

  // The new generation holds exactly the upload.
  lemma UploadIsNewest(pool: seq<Instance>, nextId: int, up: seq<NewInstance>, c: int)
    requires up != []
    ensures var g := Newest(pool, c) + 1;
            var pool' := pool + Rows(up, c, g, nextId);
            Newest(pool', c) == g && HashesIn(pool', c, g) == HashesOf(up)
  {
    var g := Newest(pool, c) + 1;
    var rows := Rows(up, c, g, nextId);
    NewestIsMax(pool, c);
    UploadedRows(up, c, g, nextId, c);
    NewestAppend(pool, rows, c);
    HashesInAppend(pool, rows, c, g);
    NoneBeyondNewest(pool, c, g);
  }

  lemma {:induction false} UploadKeepsPool(pool: seq<Instance>, nextId: int, up: seq<NewInstance>, c: int)
    requires PoolOk(pool, nextId) && up != [] && NoRepeats(up) && Fixed(up)
    ensures PoolOk(pool + Rows(up, c, Newest(pool, c) + 1, nextId), nextId + |up|)
  {
    UploadKeepsKeys(pool, nextId, up, c);
    var pool' := pool + Rows(up, c, Newest(pool, c) + 1, nextId);
    forall d ensures Contiguous(pool', d) {
      UploadKeepsContiguous(pool, nextId, up, c, d);
    }
  }

  lemma {:induction false} UploadKeepsKeys(pool: seq<Instance>, nextId: int, up: seq<NewInstance>, c: int)
    requires PoolOk(pool, nextId) && NoRepeats(up) && Fixed(up)
    ensures var pool' := pool + Rows(up, c, Newest(pool, c) + 1, nextId);
            && Keys(pool')
            && forall k :: 0 <= k < |pool'| ==> pool'[k].id < nextId + |up| && |pool'[k].hash| == WIDTH
  {
    NewestIsMax(pool, c);
  }

  lemma {:induction false} UploadKeepsContiguous(pool: seq<Instance>, nextId: int, up: seq<NewInstance>, c: int, d: int)
    requires PoolOk(pool, nextId) && up != []
    ensures Contiguous(pool + Rows(up, c, Newest(pool, c) + 1, nextId), d)
  {
    var g := Newest(pool, c) + 1;
    var rows := Rows(up, c, g, nextId);
    var pool' := pool + rows;
    assert Contiguous(pool, d);
    NewestIsMax(pool, c);
    NewestIsMax(pool', d);
    UploadedRows(up, c, g, nextId, d);
    NewestAppend(pool, rows, d);
    forall h | 1 <= h <= Newest(pool', d) ensures InUse(pool', d, h) {
      if h <= Newest(pool, d) {
        assert InUse(pool, d, h);
        var k :| 0 <= k < |pool| && pool[k].challenge == d && pool[k].generation == h;
        assert pool'[k] == pool[k];
      } else {
        assert pool'[|pool|] == rows[0];
      }
    }
  }

  // ── the service ─────────────────────────────────────────────────────────────

  // The instance an issue row holds is a row of the same challenge's pool.
  ghost predicate Backed(pool: seq<Instance>, i: Issue) {
    exists k :: 0 <= k < |pool| && pool[k].id == i.instance && pool[k].challenge == i.challenge
  }

  ghost predicate IssuesOk(pool: seq<Instance>, issues: seq<Issue>) {
    && (forall i :: 0 <= i < |issues| ==> Backed(pool, issues[i]))
    && (forall i, j :: 0 <= i < j < |issues| ==>
          && issues[i].instance != issues[j].instance
          && (issues[i].challenge != issues[j].challenge || issues[i].account != issues[j].account))
  }

  // The first entry refused before anything is read: a hash met before, or vars that are not JSON.
  predicate RefusedAt(up: seq<NewInstance>, json: string -> bool, i: nat) {
    i < |up| && ((exists k :: 0 <= k < i && up[k].hash == up[i].hash) || (up[i].vars != "" && !json(up[i].vars)))
  }

  predicate ForeignIn(files: set<File>, c: int, up: seq<NewInstance>, a: int) {
    (exists i :: 0 <= i < |up| && up[i].artifact == Id(a)) && File(a, c) !in files
  }

  /**
   * What an accepted upload did: the newest generation is now exactly its hashes. Either it already was,
   * and nothing changed, or the upload is a generation of its own, one past the newest.
   */
  ghost predicate Landed(was: seq<Instance>, wasNext: int, pool: seq<Instance>, next: int, c: int, up: seq<NewInstance>, out: Outcome) {
    && out.generation == Newest(pool, c)
    && Elements(HashesIn(pool, c, Newest(pool, c))) == Elements(HashesOf(up))
    && (out.idempotent <==> Elements(HashesIn(was, c, Newest(was, c))) == Elements(HashesOf(up)))
    && (if out.idempotent then pool == was && next == wasNext && out.inserted == 0
        else && out.inserted == |up|
             && out.generation == Newest(was, c) + 1
             && pool == was + Rows(up, c, out.generation, wasNext)
             && next == wasNext + |up|)
  }

  // Why an upload is turned away.
  ghost predicate Refuses(challenges: set<int>, files: set<File>, c: int, up: seq<NewInstance>, json: string -> bool) {
    up == [] || (exists i: nat :: RefusedAt(up, json, i)) || c !in challenges || exists a :: ForeignIn(files, c, up, a)
  }

  class PoolService {
    var challenges: set<int>
    var files: set<File>
    var pool: seq<Instance>
    var issues: seq<Issue>
    var nextId: int

    ghost predicate Valid()
      reads this
    {
      PoolOk(pool, nextId) && IssuesOk(pool, issues)
    }

    method CheckBatch(up: seq<NewInstance>, json: string -> bool) returns (r: Option<Refusal>)
      ensures r == None <==> forall i: nat :: !RefusedAt(up, json, i)
      ensures r == None ==> NoRepeats(up)
      ensures r.Some? ==> && (r.value.Repeats? || r.value.BadVars?)
                          && RefusedAt(up, json, r.value.index)
                          && (forall i: nat :: i < r.value.index ==> !RefusedAt(up, json, i))
                          && (r.value.Repeats? <==> exists k :: 0 <= k < r.value.index && up[k].hash == up[r.value.index].hash)
    {
      var seen: set<Bytes> := {};
      for i := 0 to |up|
        invariant forall k: nat :: k < i ==> !RefusedAt(up, json, k)
        invariant forall h :: h in seen <==> exists k :: 0 <= k < i && up[k].hash == h
        invariant NoRepeats(up[..i])
      {
        if up[i].hash in seen {
          assert RefusedAt(up, json, i);
          return Some(Repeats(i));
        }
        seen := seen + {up[i].hash};
        if up[i].vars != "" && !json(up[i].vars) {
          assert RefusedAt(up, json, i);
          return Some(BadVars(i));
        }
      }
      assert up[..|up|] == up;
      r := None;
    }

    method ValidateArtifacts(c: int, up: seq<NewInstance>) returns (r: Option<int>)
      ensures r == None <==> forall a :: !ForeignIn(files, c, up, a)
      ensures r.Some? ==> ForeignIn(files, c, up, r.value)
    {
      var want: set<NullId> := {};
      for i := 0 to |up|
        invariant forall a :: a in want <==> a.Id? && exists k :: 0 <= k < i && up[k].artifact == a
      {
        if up[i].artifact.Id? { want := want + {up[i].artifact}; }
      }
      var foreign := set a | a in want && File(a.id, c) !in files;
      if foreign != {} {
        var a :| a in foreign;
        assert ForeignIn(files, c, up, a.id);
        return Some(a.id);
      }
      forall a ensures !ForeignIn(files, c, up, a) {
        assert Id(a) in want ==> Id(a) !in foreign;
      }
      r := None;
    }

    /**
     * A new set of hashes lands whole, in a generation of its own one past the newest; the newest set
     * again writes nothing; a refusal writes nothing. What was issued stays issued.
     */
    method ReplacePool(c: int, up: seq<NewInstance>, json: string -> bool) returns (r: Result<Outcome, Refusal>)
      requires Valid() && Fixed(up)
      modifies this`pool, this`nextId
      ensures Valid() && old(pool) <= pool
      ensures r.Err? <==> Refuses(challenges, files, c, up, json)
      ensures r.Err? ==> pool == old(pool) && nextId == old(nextId)
      ensures r.Ok? ==> Landed(old(pool), old(nextId), pool, nextId, c, up, r.value)
    {
      if |up| == 0 { return Err(Empty); }
      var bad := CheckBatch(up, json);
      if bad.Some? { return Err(bad.value); }
      if c !in challenges { return Err(NoChallenge); }
      var foreign := ValidateArtifacts(c, up);
      if foreign.Some? { return Err(ForeignArtifact(foreign.value)); }
      var out := Land(c, up);
      r := Ok(out);
    }

    method Land(c: int, up: seq<NewInstance>) returns (out: Outcome)
      requires Valid() && up != [] && NoRepeats(up) && Fixed(up)
      modifies this`pool, this`nextId
      ensures Valid() && old(pool) <= pool
      ensures Landed(old(pool), old(nextId), pool, nextId, c, up, out)
    {
      var newest := HashesIn(pool, c, Newest(pool, c));
      OneGenerationIsDistinct(pool, c, Newest(pool, c));
      SameHashSetIsSetEquality(newest, up);
      var same := SameHashSet(newest, up);
      var next := Newest(pool, c) + 1;
      if same { return Outcome(next - 1, 0, true); }
      UploadIsNewest(pool, nextId, up, c);
      UploadKeepsPool(pool, nextId, up, c);
      UploadKeepsIssues(pool, issues, Rows(up, c, next, nextId));
      pool := pool + Rows(up, c, next, nextId);
      nextId := nextId + |up|;
      out := Outcome(next, |up|, false);
    }

    /**
     * Pushing the same pool again, in any order: it is accepted exactly when the first push was, changes
     * nothing and reports the same generation.
     */
    method PushTwice(c: int, up: seq<NewInstance>, again: seq<NewInstance>, json: string -> bool)
        returns (first: Result<Outcome, Refusal>, second: Result<Outcome, Refusal>)
      requires Valid() && Fixed(up) && Fixed(again)
      requires multiset(again) == multiset(up)
      modifies this`pool, this`nextId
      ensures Valid()
      ensures first.Ok? <==> second.Ok?
      ensures first.Err? ==> pool == old(pool)
      ensures first.Ok? ==>
                && second.value.idempotent && second.value.inserted == 0
                && second.value.generation == first.value.generation
                && pool == if first.value.idempotent then old(pool)
                           else old(pool) + Rows(up, c, first.value.generation, old(nextId))
    {
      SameRefusals(challenges, files, c, up, again, json);
      SameRefusals(challenges, files, c, again, up, json);
      first := ReplacePool(c, up, json);
      SameElements(up, again);
      second := ReplacePool(c, again, json);
    }
  }

  lemma SameElements(up: seq<NewInstance>, again: seq<NewInstance>)
    requires multiset(again) == multiset(up)
    ensures Elements(HashesOf(up)) == Elements(HashesOf(again))
  {
    forall h ensures h in HashesOf(up) <==> h in HashesOf(again) {
      if h in HashesOf(up) { HashesAcross(up, again, h); }
      if h in HashesOf(again) { HashesAcross(again, up, h); }
    }
  }

  // What refuses one order of an upload refuses every order of it.
  lemma SameRefusals(challenges: set<int>, files: set<File>, c: int, up: seq<NewInstance>, again: seq<NewInstance>, json: string -> bool)
    requires multiset(again) == multiset(up)
    ensures Refuses(challenges, files, c, up, json) ==> Refuses(challenges, files, c, again, json)
  {
    assert |up| == |multiset(up)| == |multiset(again)| == |again|;
    forall u | u in up ensures u in again { assert u in multiset(up); }
    if i: nat :| RefusedAt(up, json, i) {
      assert up[i] in up;
      var k :| 0 <= k < |again| && again[k] == up[i];
      if up[i].vars != "" && !json(up[i].vars) {
        assert RefusedAt(again, json, k);
      } else {
        RepeatsAcross(up, again, json, i);
      }
    }
    if a :| ForeignIn(files, c, up, a) {
      var i :| 0 <= i < |up| && up[i].artifact == Id(a);
      assert up[i] in up;
      var k :| 0 <= k < |again| && again[k] == up[i];
      assert ForeignIn(files, c, again, a);
    }
  }

  // By counting: the two have the same hashes in as many places, so if one repeats a hash the other does.
  lemma RepeatsAcross(up: seq<NewInstance>, again: seq<NewInstance>, json: string -> bool, i: nat)
    requires multiset(again) == multiset(up) && |again| == |up|
    requires i < |up| && exists k :: 0 <= k < i && up[k].hash == up[i].hash
    ensures exists j: nat :: RefusedAt(again, json, j)
  {
    var k :| 0 <= k < i && up[k].hash == up[i].hash;
    assert HashesOf(up)[k] == HashesOf(up)[i];
    SameElements(up, again);
    ElementsSize(HashesOf(up));
    ElementsSize(HashesOf(again));
    var m, n :| 0 <= m < n < |again| && HashesOf(again)[m] == HashesOf(again)[n];
    assert RefusedAt(again, json, n);
  }

  lemma HashesAcross(up: seq<NewInstance>, again: seq<NewInstance>, h: Bytes)
    requires multiset(again) == multiset(up) && h in HashesOf(up)
    ensures h in HashesOf(again)
  {
    var i :| 0 <= i < |up| && HashesOf(up)[i] == h;
    assert up[i] in multiset(up);
    assert up[i] in again;
    var k :| 0 <= k < |again| && again[k] == up[i];
    assert HashesOf(again)[k] == h;
  }

  lemma UploadKeepsIssues(pool: seq<Instance>, issues: seq<Issue>, rows: seq<Instance>)
    requires IssuesOk(pool, issues)
    ensures IssuesOk(pool + rows, issues)
  {
    var pool' := pool + rows;
    forall i | 0 <= i < |issues| ensures Backed(pool', issues[i]) {
      assert Backed(pool, issues[i]);
      var k :| 0 <= k < |pool| && pool[k].id == issues[i].instance && pool[k].challenge == issues[i].challenge;
      assert pool'[k] == pool[k];
    }
  }

  // ── attribution ─────────────────────────────────────────────────────────────

  // LEFT JOIN flag_issues: the account an instance was issued to.
  function OwnerOf(issues: seq<Issue>, id: int): NullId {
    if issues == [] then Null
    else if issues[|issues| - 1].instance == id then Id(issues[|issues| - 1].account)
    else OwnerOf(issues[..|issues| - 1], id)
  }

  datatype Hit = NoHit | Hit(instance: Instance, owner: NullId)

  // ORDER BY (account_id IS NULL), generation DESC: issued rows first, then the newest.
  predicate Ahead(a: Hit, b: Hit)
    requires a.Hit? && b.Hit?
  {
    (a.owner.Id? && b.owner.Null?) || (a.owner.Id? == b.owner.Id? && a.instance.generation > b.instance.generation)
  }

  predicate Matches(i: Instance, c: int, h: Bytes) { i.challenge == c && i.hash == h }

  function LookupInstanceByHash(pool: seq<Instance>, issues: seq<Issue>, c: int, h: Bytes): Hit {
    if pool == [] then NoHit
    else
      var before, last := LookupInstanceByHash(pool[..|pool| - 1], issues, c, h), pool[|pool| - 1];
      if !Matches(last, c, h) then before
      else
        var hit := Hit(last, OwnerOf(issues, last.id));
        if before.NoHit? || Ahead(hit, before) then hit else before
  }

  lemma {:induction false} OwnerIs(issues: seq<Issue>, id: int)
    requires forall i, j :: 0 <= i < j < |issues| ==> issues[i].instance != issues[j].instance
    ensures OwnerOf(issues, id).Null? <==> forall i :: 0 <= i < |issues| ==> issues[i].instance != id
    ensures forall i :: 0 <= i < |issues| && issues[i].instance == id ==> OwnerOf(issues, id) == Id(issues[i].account)
  {
    if issues != [] { OwnerIs(issues[..|issues| - 1], id); }
  }

  // The hit is a matching row, and no matching row is ahead of it.
  lemma {:induction false} LookupIsFirst(pool: seq<Instance>, issues: seq<Issue>, c: int, h: Bytes)
    ensures var hit := LookupInstanceByHash(pool, issues, c, h);
            && (hit.NoHit? <==> forall k :: 0 <= k < |pool| ==> !Matches(pool[k], c, h))
            && (hit.Hit? ==> && hit.instance in pool && Matches(hit.instance, c, h)
                             && hit.owner == OwnerOf(issues, hit.instance.id))
            && (hit.Hit? ==> forall k :: 0 <= k < |pool| && Matches(pool[k], c, h) ==>
                  !Ahead(Hit(pool[k], OwnerOf(issues, pool[k].id)), hit))
  {
    if pool != [] {
      LookupIsFirst(pool[..|pool| - 1], issues, c, h);
      assert forall k :: 0 <= k < |pool| - 1 ==> pool[k] == pool[..|pool| - 1][k];
    }
  }

  /** A flag that was ever issued is never found unattributed, however many generations repeat its hash. */
  lemma {:induction false} IssuedIsAttributed(pool: seq<Instance>, issues: seq<Issue>, k: nat, i: nat)
    requires IssuesOk(pool, issues) && k < |pool| && i < |issues| && issues[i].instance == pool[k].id
    ensures var hit := LookupInstanceByHash(pool, issues, pool[k].challenge, pool[k].hash);
            hit.Hit? && hit.owner.Id?
  {
    OwnerIs(issues, pool[k].id);
    LookupIsFirst(pool, issues, pool[k].challenge, pool[k].hash);
  }

  // The same hash, issued again from a newer generation.
  ghost predicate ReissuedNewer(pool: seq<Instance>, issues: seq<Issue>, k: nat)
    requires k < |pool|
  {
    exists j :: && 0 <= j < |pool| && Matches(pool[j], pool[k].challenge, pool[k].hash)
                && pool[j].generation > pool[k].generation && OwnerOf(issues, pool[j].id).Id?
  }

  /**
   * It is attributed to the account holding instance `k` exactly when the same hash has not been
   * issued again from a newer generation.
   */
  lemma {:induction false} AttributedToHolderIff(pool: seq<Instance>, issues: seq<Issue>, k: nat, i: nat)
    requires Keys(pool) && IssuesOk(pool, issues) && k < |pool| && i < |issues|
    requires issues[i].instance == pool[k].id
    ensures issues[i].challenge == pool[k].challenge
    ensures LookupInstanceByHash(pool, issues, pool[k].challenge, pool[k].hash) == Hit(pool[k], Id(issues[i].account))
       <==> !ReissuedNewer(pool, issues, k)
    ensures var hit := LookupInstanceByHash(pool, issues, pool[k].challenge, pool[k].hash);
            ReissuedNewer(pool, issues, k) ==> hit.Hit? && hit.owner != Id(issues[i].account)
  {
    var c, h := pool[k].challenge, pool[k].hash;
    var hit := LookupInstanceByHash(pool, issues, c, h);
    OwnerIs(issues, pool[k].id);
    LookupIsFirst(pool, issues, c, h);
    assert Backed(pool, issues[i]);
    var m :| 0 <= m < |pool| && pool[m] == hit.instance;
    if hit.instance.id != pool[k].id && hit.owner.Id? {
      OwnerIs(issues, hit.instance.id);
      var n :| 0 <= n < |issues| && issues[n].instance == hit.instance.id;
      assert issues[n].challenge == issues[i].challenge ==> issues[n].account != issues[i].account;
    }
  }

  function Digest(x: bv8): Bytes { seq(WIDTH, i => x) }

  // Generation 1 holds one flag, and generation 2 repeats it beside a new one.
  function Repeated(): seq<Instance> {
    [Instance(1, 7, Digest(1), Null, "{}", 1), Instance(2, 7, Digest(1), Null, "{}", 2), Instance(3, 7, Digest(2), Null, "{}", 2)]
  }

  // The tables between calls.
  datatype Stock = Stock(pool: seq<Instance>, issues: seq<Issue>, nextId: int)

  // One accepted upload, which is not the pool already there.
  ghost predicate Uploads(s: Stock, c: int, up: seq<NewInstance>, s': Stock) {
    && up != [] && NoRepeats(up) && Fixed(up) && s'.issues == s.issues
    && Landed(s.pool, s.nextId, s'.pool, s'.nextId, c, up, Outcome(Newest(s.pool, c) + 1, |up|, false))
  }

  predicate IsFree(s: Stock, c: int, i: Instance) {
    i in s.pool && i.challenge == c && forall n :: 0 <= n < |s.issues| ==> s.issues[n].instance != i.id
  }

  // One first view: the account gets the newest free instance of lowest id.
  ghost predicate Assigns(s: Stock, c: int, account: int, i: Instance, s': Stock) {
    && (forall n :: 0 <= n < |s.issues| ==> s.issues[n].challenge != c || s.issues[n].account != account)
    && IsFree(s, c, i)
    && (forall j :: IsFree(s, c, j) ==> i.generation > j.generation || (i.generation == j.generation && i.id <= j.id))
    && s' == s.(issues := s.issues + [Issue(c, account, i.id)])
  }

  function Plain(x: bv8): NewInstance { NewInstance(Digest(x), Null, "") }

  // An upload over a pool with other hashes in its newest generation.
  lemma {:induction false} FreshUpload(s: Stock, c: int, up: seq<NewInstance>, pool: seq<Instance>, h: Bytes)
    requires up != [] && NoRepeats(up) && Fixed(up) && pool == s.pool + Rows(up, c, Newest(s.pool, c) + 1, s.nextId)
    requires h in HashesOf(up) && h !in HashesIn(s.pool, c, Newest(s.pool, c))
    ensures Uploads(s, c, up, Stock(pool, s.issues, s.nextId + |up|))
  {
    UploadIsNewest(s.pool, s.nextId, up, c);
    assert h in Elements(HashesOf(up)) && h !in Elements(HashesIn(s.pool, c, Newest(s.pool, c)));
  }

  lemma FirstUpload()
    ensures Uploads(Stock([], [], 1), 7, [Plain(1)], Stock(Repeated()[..1], [], 2))
  {
    var up, rows := [Plain(1)], Rows([Plain(1)], 7, 1, 1);
    assert rows[0] == Repeated()[0];
    assert Repeated()[..1] == [Repeated()[0]] == rows == [] + rows;
    assert HashesOf(up)[0] == Digest(1);
    FreshUpload(Stock([], [], 1), 7, up, Repeated()[..1], Digest(1));
  }

  lemma SecondUpload(issues: seq<Issue>)
    ensures Uploads(Stock(Repeated()[..1], issues, 2), 7, [Plain(1), Plain(2)], Stock(Repeated(), issues, 4))
  {
    var was, up := Repeated()[..1], [Plain(1), Plain(2)];
    assert was == [Repeated()[0]] && was[..0] == [];
    assert Newest(was, 7) == 1 && HashesIn(was, 7, 1) == [Digest(1)];
    assert was + Rows(up, 7, 2, 2) == Repeated();
    assert Digest(1)[0] != Digest(2)[0] && HashesOf(up)[1] == Digest(2);
    FreshUpload(Stock(was, issues, 2), 7, up, Repeated(), Digest(2));
  }

  /**
   * And that can happen. A pool of one flag is uploaded and issued to account 100; an upload repeats the flag
   * beside a new one; the next account to look is issued the repeated instance. The first account's own flag
   * is then attributed to the second.
   */
  lemma OwnFlagCanBeMisattributed() returns (a: Stock, b: Stock, c: Stock, d: Stock)
    ensures Uploads(Stock([], [], 1), 7, [Plain(1)], a) && Assigns(a, 7, 100, Repeated()[0], b)
    ensures Uploads(b, 7, [Plain(1), Plain(2)], c) && Assigns(c, 7, 200, Repeated()[1], d)
    ensures PoolOk(d.pool, d.nextId) && IssuesOk(d.pool, d.issues)
    ensures Issue(7, 100, 1) in d.issues && LookupInstanceByHash(d.pool, d.issues, 7, Digest(1)) == Hit(Repeated()[1], Id(200))
  {
    var one, two := [Issue(7, 100, 1)], [Issue(7, 100, 1), Issue(7, 200, 2)];
    a, b := Stock(Repeated()[..1], [], 2), Stock(Repeated()[..1], one, 2);
    c, d := Stock(Repeated(), one, 4), Stock(Repeated(), two, 4);
    FirstUpload();
    SecondUpload(one);
    BothAssigns();
    RepeatedIsOk();
    RepeatedIssuesOk(two);
    assert two[0] == Issue(7, 100, 1);
    RepeatedLookup(two);
  }

  lemma {:induction false} RepeatedIssuesOk(issues: seq<Issue>)
    requires issues == [Issue(7, 100, 1), Issue(7, 200, 2)]
    ensures IssuesOk(Repeated(), issues) && OwnerOf(issues, 1) == Id(100) && OwnerOf(issues, 2) == Id(200)
  {
    assert issues[..1] == [issues[0]] && issues[..1][..0] == [];
    assert Backed(Repeated(), issues[0]) by { assert Repeated()[0].id == 1; }
    assert Backed(Repeated(), issues[1]) by { assert Repeated()[1].id == 2; }
  }

  lemma BothAssigns()
    ensures Assigns(Stock(Repeated()[..1], [], 2), 7, 100, Repeated()[0], Stock(Repeated()[..1], [Issue(7, 100, 1)], 2))
    ensures var one, two := [Issue(7, 100, 1)], [Issue(7, 100, 1), Issue(7, 200, 2)];
            Assigns(Stock(Repeated(), one, 4), 7, 200, Repeated()[1], Stock(Repeated(), two, 4))
  {
    var a, c := Stock(Repeated()[..1], [], 2), Stock(Repeated(), [Issue(7, 100, 1)], 4);
    assert a.pool == [Repeated()[0]] && a.pool[0] == Repeated()[0] && c.pool[1] == Repeated()[1];
    assert a.issues + [Issue(7, 100, 1)] == c.issues && c.issues + [Issue(7, 200, 2)] == [Issue(7, 100, 1), Issue(7, 200, 2)];
    forall j | IsFree(c, 7, j) ensures j == Repeated()[1] || j == Repeated()[2] { assert c.issues[0].instance == 1; }
  }

  lemma {:induction false} RepeatedLookup(issues: seq<Issue>)
    requires OwnerOf(issues, 1) == Id(100) && OwnerOf(issues, 2) == Id(200)
    ensures LookupInstanceByHash(Repeated(), issues, 7, Digest(1)) == Hit(Repeated()[1], Id(200))
  {
    var pool := Repeated();
    assert Digest(1)[0] != Digest(2)[0];
    LookupIsFirst(pool, issues, 7, Digest(1));
    assert Matches(pool[0], 7, Digest(1)) && Matches(pool[1], 7, Digest(1)) && !Matches(pool[2], 7, Digest(1));
  }

  lemma RepeatedIsOk()
    ensures PoolOk(Repeated(), 4)
  {
    assert Digest(1)[0] != Digest(2)[0];
    RepeatedIsContiguous();
  }

  lemma RepeatedIsContiguous()
    ensures forall c :: Contiguous(Repeated(), c)
  {
    var pool := Repeated();
    forall c ensures Contiguous(pool, c) {
      NewestIsMax(pool, c);
      if c == 7 {
        assert pool[0].challenge == 7 && pool[1].challenge == 7;
        assert InUse(pool, 7, 1) && InUse(pool, 7, 2);
      }
    }
  }
}
