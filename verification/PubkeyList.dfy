/** Bringing the published list of user keys in line with a fresh snapshot, in batches. */
module PubkeyList {

  const BATCH_SIZE := 100

  type Key = string

  /** The elements of `xs` that are in `keep`, or that are not, in order. */
  function Filter(xs: seq<Key>, keep: seq<Key>, wanted: bool): (r: seq<Key>)
  {
    if xs == [] then []
    else Filter(xs[..|xs| - 1], keep, wanted)
         + (if (xs[|xs| - 1] in keep) == wanted then [xs[|xs| - 1]] else [])
  }

  /** `lRem` with count zero: every occurrence goes. */
  function RemoveAll(xs: seq<Key>, key: Key): (r: seq<Key>)
  {
    Filter(xs, [key], false)
  }

  ghost predicate Distinct(xs: seq<Key>)
  {
    forall i, j :: 0 <= i < j < |xs| ==> xs[i] != xs[j]
  }

  /** What a synchronisation should leave: the old list cut down to the new keys, then the new
  keys it lacked. */
  function Synced(current: seq<Key>, latest: seq<Key>): (r: seq<Key>)
  {
    Filter(current, latest, true) + Filter(latest, current, false)
  }

  // ----------------------------------------------------------------- filter lemmas

  lemma {:induction false} FilterMembers(xs: seq<Key>, keep: seq<Key>, wanted: bool, k: Key)
    ensures k in Filter(xs, keep, wanted) <==> k in xs && (k in keep) == wanted
  {
    if xs == [] {
    } else {
      FilterMembers(xs[..|xs| - 1], keep, wanted, k);
      assert xs == xs[..|xs| - 1] + [xs[|xs| - 1]];
    }
  }

  lemma {:induction false} FilterConcat(a: seq<Key>, b: seq<Key>, keep: seq<Key>, wanted: bool)
    ensures Filter(a + b, keep, wanted) == Filter(a, keep, wanted) + Filter(b, keep, wanted)
  {
    if b == [] {
      assert a + b == a;
    } else {
      assert (a + b)[..|a + b| - 1] == a + b[..|b| - 1];
      FilterConcat(a, b[..|b| - 1], keep, wanted);
    }
  }

  lemma {:induction false} FilterDistinct(xs: seq<Key>, keep: seq<Key>, wanted: bool)
    requires Distinct(xs)
    ensures Distinct(Filter(xs, keep, wanted))
  {
    if xs == [] {
    } else {
      var rest, last := xs[..|xs| - 1], xs[|xs| - 1];
      FilterDistinct(rest, keep, wanted);
      FilterMembers(rest, keep, wanted, last);
    }
  }

  /** Dropping the members of `a` and then those of `b` drops the members of both. */
  lemma {:induction false} FilterTwice(xs: seq<Key>, a: seq<Key>, b: seq<Key>)
    ensures Filter(Filter(xs, a, false), b, false) == Filter(xs, a + b, false)
  {
    if xs == [] {
    } else {
      var rest, last := xs[..|xs| - 1], xs[|xs| - 1];
      FilterTwice(rest, a, b);
      FilterConcat(Filter(rest, a, false), if last in a then [] else [last], b, false);
    }
  }

  /** Filters with the same verdict on every element agree. */
  lemma {:induction false} FilterAgrees(xs: seq<Key>, a: seq<Key>, wantedA: bool, b: seq<Key>, wantedB: bool)
    requires forall k :: k in xs ==> ((k in a) == wantedA <==> (k in b) == wantedB)
    ensures Filter(xs, a, wantedA) == Filter(xs, b, wantedB)
  {
    if xs == [] {
    } else {
      FilterAgrees(xs[..|xs| - 1], a, wantedA, b, wantedB);
    }
  }

  // ------------------------------------------------------------------- the methods

  /** Consecutive slices of at most `size` elements. */
  method Chunks(xs: seq<Key>, size: nat) returns (r: seq<seq<Key>>)
    requires size > 0
    ensures Flatten(r) == xs
    ensures forall i :: 0 <= i < |r| ==> 0 < |r[i]| <= size
    ensures forall i :: 0 <= i < |r| - 1 ==> |r[i]| == size
  {
    r := [];
    var i := 0;
    while i < |xs|
      invariant 0 <= i <= |xs| && Flatten(r) == xs[..i]
      invariant forall j :: 0 <= j < |r| ==> 0 < |r[j]| <= size
      invariant i < |xs| ==> forall j :: 0 <= j < |r| ==> |r[j]| == size
      invariant forall j :: 0 <= j < |r| - 1 ==> |r[j]| == size
    {
      var end := if i + size < |xs| then i + size else |xs|;
      assert (r + [xs[i..end]])[..|r|] == r;
      r := r + [xs[i..end]];
      i := end;
    }
    assert xs[..i] == xs;
  }

  function Flatten(xss: seq<seq<Key>>): (r: seq<Key>)
  {
    if xss == [] then [] else Flatten(xss[..|xss| - 1]) + xss[|xss| - 1]
  }

  class KeyList {
    var keys: seq<Key>

    constructor ()
      ensures keys == []
    {
      keys := [];
    }

    /** One removal batch. The removals are issued together; whatever their order, they commute. */
    method RemoveBatch(batch: seq<Key>)
      modifies this
      ensures keys == Filter(old(keys), batch, false)
    {
      FilterNone(keys);
      for i := 0 to |batch|
        invariant keys == Filter(old(keys), batch[..i], false)
      {
        FilterTwice(old(keys), batch[..i], [batch[i]]);
        assert batch[..i + 1] == batch[..i] + [batch[i]];
        keys := RemoveAll(keys, batch[i]);
      }
      assert batch[..|batch|] == batch;
    }

    method RemoveInBatches(batches: seq<seq<Key>>)
      modifies this
      ensures keys == Filter(old(keys), Flatten(batches), false)
    {
      hide Filter, Flatten;
      FlattenNone();
      FilterNone(keys);
      for i := 0 to |batches|
        invariant keys == Filter(old(keys), Flatten(batches[..i]), false)
      {
        FilterTwice(old(keys), Flatten(batches[..i]), batches[i]);
        FlattenStep(batches, i);
        RemoveBatch(batches[i]);
      }
      assert batches[..|batches|] == batches;
    }

    method AppendInBatches(batches: seq<seq<Key>>)
      modifies this
      ensures keys == old(keys) + Flatten(batches)
    {
      hide Flatten;
      FlattenNone();
      for i := 0 to |batches|
        invariant keys == old(keys) + Flatten(batches[..i])
      {
        FlattenStep(batches, i);
        keys := keys + batches[i];
      }
      assert batches[..|batches|] == batches;
    }

    /** `syncPubKeys`: for any starting list and any fresh keys the batches leave exactly the
    synchronised list. */
    method SyncPubKeys(latest: seq<Key>)
      modifies this
      ensures keys == Synced(old(keys), latest)
    {
      hide Filter, Flatten;
      var current := keys;
      var keysToAdd := Filter(latest, current, false);
      var keysToRemove := Filter(current, latest, false);
      var removals := Chunks(keysToRemove, BATCH_SIZE);
      RemoveInBatches(removals);
      RemovingTheRest(current, latest);
      var additions := Chunks(keysToAdd, BATCH_SIZE);
      AppendInBatches(additions);
    }
  }

  lemma {:induction false} FlattenNone()
    ensures Flatten([]) == []
  {}

  lemma {:induction false} FlattenStep(xss: seq<seq<Key>>, i: nat)
    requires i < |xss|
    ensures Flatten(xss[..i + 1]) == Flatten(xss[..i]) + xss[i]
  {
    assert xss[..i + 1][..i] == xss[..i];
  }

  lemma {:induction false} FilterNone(xs: seq<Key>)
    ensures Filter(xs, [], false) == xs
  {
    if xs == [] {
    } else {
      FilterNone(xs[..|xs| - 1]);
      assert xs == xs[..|xs| - 1] + [xs[|xs| - 1]];
    }
  }

  /** Dropping what is not fresh keeps what is. */
  lemma {:induction false} RemovingTheRest(current: seq<Key>, latest: seq<Key>)
    ensures Filter(current, Filter(current, latest, false), false) == Filter(current, latest, true)
  {
    forall k | k in current
      ensures (k in Filter(current, latest, false)) == false <==> (k in latest) == true
    {
      FilterMembers(current, latest, false, k);
    }
    FilterAgrees(current, Filter(current, latest, false), false, latest, true);
  }

  // --------------------------------------------------------- what synchronising means

  /** The synchronised list holds exactly the fresh keys. */
  lemma {:induction false} SyncedMembers(current: seq<Key>, latest: seq<Key>, k: Key)
    ensures k in Synced(current, latest) <==> k in latest
  {
    FilterMembers(current, latest, true, k);
    FilterMembers(latest, current, false, k);
  }

  /** A list without repeats stays without repeats. */
  lemma {:induction false} SyncedDistinct(current: seq<Key>, latest: seq<Key>)
    requires Distinct(current) && Distinct(latest)
    ensures Distinct(Synced(current, latest))
  {
    FilterDistinct(current, latest, true);
    FilterDistinct(latest, current, false);
    var a, b := Filter(current, latest, true), Filter(latest, current, false);
    forall i, j | 0 <= i < |a| && 0 <= j < |b| ensures a[i] != b[j] {
      FilterMembers(current, latest, true, a[i]);
      FilterMembers(latest, current, false, b[j]);
    }
  }

  /** Synchronising twice with the same snapshot changes nothing the second time. */
  lemma {:induction false} SyncedIsStable(current: seq<Key>, latest: seq<Key>)
    ensures Synced(Synced(current, latest), latest) == Synced(current, latest)
  {
    var once := Synced(current, latest);
    forall k | k in once ensures (k in latest) == true <==> (k in []) == false {
      SyncedMembers(current, latest, k);
    }
    FilterAgrees(once, latest, true, [], false);
    FilterNone(once);
    forall k | k in latest ensures (k in once) == false <==> (k in []) == true {
      SyncedMembers(current, latest, k);
    }
    FilterAgrees(latest, once, false, [], true);
    FilterNothing(latest);
  }

  lemma {:induction false} FilterNothing(xs: seq<Key>)
    ensures Filter(xs, [], true) == []
  {
    if xs == [] {
    } else {
      FilterNothing(xs[..|xs| - 1]);
    }
  }
}
