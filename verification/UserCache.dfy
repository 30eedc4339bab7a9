/** The user-account cache: stream and sync deliveries, each a read followed by a guarded write. */
module UserCache {
  import opened Wrappers

  /** The slot at the head of a stored value, as `parseInt` reads it. */
  datatype Slot = Number(n: nat) | Unreadable

  datatype Entry = Entry(slot: Slot, data: string)

  datatype Delivery = Delivery(key: string, slot: nat, data: string)

  type Store = map<string, Entry>

  function Lookup(store: Store, key: string): (r: Option<Entry>)
  {
    if key in store then Some(store[key]) else None
  }

  function Stored(d: Delivery): (r: Entry)
  {
    Entry(Number(d.slot), d.data)
  }

  /** The guard: nothing stored, nothing readable stored, or nothing newer stored. */
  predicate Accepts(seen: Option<Entry>, d: Delivery)
  {
    seen.None? || seen.value.slot.Unreadable? || d.slot >= seen.value.slot.n
  }

  // ----------------------------------------------------------- serial deliveries

  function Put(store: Store, d: Delivery): (r: Store)
  {
    if Accepts(Lookup(store, d.key), d) then store[d.key := Stored(d)] else store
  }

  function PutAll(store: Store, ds: seq<Delivery>): (r: Store)
  {
    if ds == [] then store else Put(PutAll(store, ds[..|ds| - 1]), ds[|ds| - 1])
  }

  /** `ds[m]` is the last among the deliveries for its key that have the greatest slot. */
  ghost predicate LastOfGreatest(ds: seq<Delivery>, m: nat)
  {
    && m < |ds|
    && (forall i :: 0 <= i < |ds| && ds[i].key == ds[m].key ==> ds[i].slot <= ds[m].slot)
    && (forall i :: m < i < |ds| && ds[i].key == ds[m].key ==> ds[i].slot < ds[m].slot)
  }

  /** What is stored for `key` is the last of its deliveries with the greatest slot. */
  ghost predicate HoldsLastOfGreatest(store: Store, ds: seq<Delivery>, key: string)
  {
    exists m :: 0 <= m < |ds| && LastOfGreatest(ds, m) && ds[m].key == key && Lookup(store, key) == Some(Stored(ds[m]))
  }

  /** Serial deliveries leave, for every key delivered, the last one of the greatest slot. */
  lemma {:induction false} SerialKeepsLastOfGreatest(ds: seq<Delivery>, key: string) returns (m: nat)
    requires exists i :: 0 <= i < |ds| && ds[i].key == key
    ensures LastOfGreatest(ds, m) && ds[m].key == key
    ensures Lookup(PutAll(map[], ds), key) == Some(Stored(ds[m]))
  {
    var rest, last := ds[..|ds| - 1], ds[|ds| - 1];
    if i :| 0 <= i < |rest| && rest[i].key == key {
      m := SerialKeepsLastOfGreatest(rest, key);
      assert rest[m] == ds[m];
      assert forall j :: 0 <= j < |rest| ==> ds[j] == rest[j];
      if last.key == key && last.slot >= ds[m].slot {
        m := |ds| - 1;
      }
    } else {
      assert forall j :: 0 <= j < |rest| ==> ds[j] == rest[j];
      UndeliveredIsAbsent(rest, key);
      m := |ds| - 1;
    }
  }

  lemma {:induction false} UndeliveredIsAbsent(ds: seq<Delivery>, key: string)
    requires forall i :: 0 <= i < |ds| ==> ds[i].key != key
    ensures key !in PutAll(map[], ds)
  {
    if ds == [] {
    } else {
      UndeliveredIsAbsent(ds[..|ds| - 1], key);
    }
  }

  class Cache {
    var store: Store
    var lastReceivedSlot: nat

    constructor ()
      ensures store == map[]
    {
      store, lastReceivedSlot := map[], 0;
    }

    /** One delivery with nothing in between: no other key is touched. */
    method Handle(d: Delivery)
      modifies this
      ensures store == Put(old(store), d) && lastReceivedSlot == d.slot
      ensures forall k :: k != d.key ==> Lookup(store, k) == Lookup(old(store), k)
    {
      lastReceivedSlot := d.slot;
      var existing := Lookup(store, d.key);
      if existing.None? {
        store := store[d.key := Stored(d)];
        return;
      }
      if existing.value.slot.Unreadable? || d.slot >= existing.value.slot.n {
        store := store[d.key := Stored(d)];
      }
    }

    /** Serial deliveries into an empty cache: every key delivered holds the last delivery of its
    greatest slot, and no other key is stored. */
    method HandleAll(ds: seq<Delivery>)
      requires store == map[]
      modifies this
      ensures forall i :: 0 <= i < |ds| ==> HoldsLastOfGreatest(store, ds, ds[i].key)
      ensures forall k :: k in store ==> exists i :: 0 <= i < |ds| && ds[i].key == k
    {
      for i := 0 to |ds|
        invariant store == PutAll(map[], ds[..i])
      {
        assert ds[..i + 1][..i] == ds[..i];
        Handle(ds[i]);
      }
      assert ds[..|ds|] == ds;
      forall i | 0 <= i < |ds| ensures HoldsLastOfGreatest(store, ds, ds[i].key) {
        var m := SerialKeepsLastOfGreatest(ds, ds[i].key);
      }
      forall k | k in store ensures exists i :: 0 <= i < |ds| && ds[i].key == k {
        if forall i :: 0 <= i < |ds| ==> ds[i].key != k {
          UndeliveredIsAbsent(ds, k);
        }
      }
    }
  }

  // ------------------------------------------------------- interleaved deliveries

  /** A delivery in flight: not yet read, read but not yet written, finished. `writes` is how many
  stores its key had seen when it read. */
  datatype Phase = Ready | Waiting(seen: Option<Entry>, writes: nat) | Finished

  datatype Flight = Flight(d: Delivery, phase: Phase)

  /** `writes` counts the stores to each key; the program does not keep it. */
  datatype State = State(store: Store, writes: map<string, nat>, flights: seq<Flight>)

  datatype Event = Arrive(d: Delivery) | Read(id: nat) | Write(id: nat) | Expire(key: string)

  function Writes(s: State, key: string): (r: nat)
  {
    if key in s.writes then s.writes[key] else 0
  }

  function Step(s: State, e: Event): (r: State)
  {
    match e
    case Arrive(d) => s.(flights := s.flights + [Flight(d, Ready)])
    case Expire(key) => s.(store := s.store - {key})
    case Read(id) =>
      if id < |s.flights| && s.flights[id].phase.Ready? then
        var f := s.flights[id];
        s.(flights := s.flights[id := f.(phase := Waiting(Lookup(s.store, f.d.key), Writes(s, f.d.key)))])
      else s
    case Write(id) =>
      if id < |s.flights| && s.flights[id].phase.Waiting? then
        var f := s.flights[id];
        var t := s.(flights := s.flights[id := f.(phase := Finished)]);
        if Accepts(f.phase.seen, f.d) then
          t.(store := s.store[f.d.key := Stored(f.d)], writes := s.writes[f.d.key := Writes(s, f.d.key) + 1])
        else t
      else s
  }

  function Run(s: State, es: seq<Event>): (r: State)
    decreases |es|
  {
    if es == [] then s else Step(Run(s, es[..|es| - 1]), es[|es| - 1])
  }

  /** A waiting delivery whose key has had no store since it read sees what is stored, unless
  that has expired. */
  ghost predicate Inv(s: State)
  {
    forall i :: 0 <= i < |s.flights| && s.flights[i].phase.Waiting? ==>
      var f := s.flights[i];
      f.phase.writes <= Writes(s, f.d.key)
      && (f.phase.writes == Writes(s, f.d.key) ==>
            Lookup(s.store, f.d.key).None? || Lookup(s.store, f.d.key) == f.phase.seen)
  }

  lemma {:induction false} StepKeepsInv(s: State, e: Event)
    requires Inv(s)
    ensures Inv(Step(s, e))
  {
    var t := Step(s, e);
    forall i | 0 <= i < |t.flights| && t.flights[i].phase.Waiting?
      ensures var f := t.flights[i];
              f.phase.writes <= Writes(t, f.d.key)
              && (f.phase.writes == Writes(t, f.d.key) ==>
                    Lookup(t.store, f.d.key).None? || Lookup(t.store, f.d.key) == f.phase.seen)
    {
      if i < |s.flights| && s.flights[i] == t.flights[i] {
        assert s.flights[i].phase.Waiting?;
      }
    }
  }

  /** If the event writes `key`, no store to it fell between the event's read and its write. */
  predicate Undisturbed(s: State, e: Event, key: string)
  {
    e.Write? && e.id < |s.flights| && s.flights[e.id].phase.Waiting? && s.flights[e.id].d.key == key ==>
      s.flights[e.id].phase.writes == Writes(s, key)
  }

  predicate AllUndisturbed(s: State, es: seq<Event>, key: string)
    decreases |es|
  {
    es != [] ==> AllUndisturbed(s, es[..|es| - 1], key) && Undisturbed(Run(s, es[..|es| - 1]), es[|es| - 1], key)
  }

  /** The slot stored for `key` goes down. */
  predicate Lowers(before: State, after: State, key: string)
  {
    && key in before.store && before.store[key].slot.Number?
    && key in after.store && after.store[key].slot.Number?
    && after.store[key].slot.n < before.store[key].slot.n
  }

  /** An event lowers a stored slot exactly when it is the write of an older delivery that passed
  its guard on an earlier reading, and then another store came in between. */
  lemma {:induction false} LowersExactlyWhen(s: State, e: Event, key: string)
    requires Inv(s)
    ensures Lowers(s, Step(s, e), key) <==>
              && e.Write? && e.id < |s.flights| && s.flights[e.id].phase.Waiting?
              && s.flights[e.id].d.key == key && Accepts(s.flights[e.id].phase.seen, s.flights[e.id].d)
              && key in s.store && s.store[key].slot.Number?
              && s.store[key].slot.n > s.flights[e.id].d.slot
    ensures Lowers(s, Step(s, e), key) ==> !Undisturbed(s, e, key)
  {
  }

  lemma {:induction false} RunKeepsInv(s: State, es: seq<Event>)
    requires Inv(s)
    ensures Inv(Run(s, es))
    decreases |es|
  {
    if es == [] {
    } else {
      RunKeepsInv(s, es[..|es| - 1]);
      StepKeepsInv(Run(s, es[..|es| - 1]), es[|es| - 1]);
    }
  }

  predicate NeverExpires(es: seq<Event>, key: string)
  {
    forall i :: 0 <= i < |es| ==> es[i] != Expire(key)
  }

  /** Across any run in which `key` does not expire and no write to it is disturbed, whatever
  happens to other keys, the slot stored for it, once readable, never goes down. */
  lemma {:induction false} SlotNeverDecreases(s: State, es: seq<Event>, key: string)
    requires Inv(s) && AllUndisturbed(s, es, key) && NeverExpires(es, key)
    requires key in s.store && s.store[key].slot.Number?
    ensures var t := Run(s, es);
            key in t.store && t.store[key].slot.Number? && s.store[key].slot.n <= t.store[key].slot.n
    decreases |es|
  {
    if es == [] {
    } else {
      var mid, last := Run(s, es[..|es| - 1]), es[|es| - 1];
      SlotNeverDecreases(s, es[..|es| - 1], key);
      RunKeepsInv(s, es[..|es| - 1]);
      LowersExactlyWhen(mid, last, key);
    }
  }

  /** Two deliveries that both read before either writes: the older one, written last, stays. */
  lemma {:induction false} RaceLowersSlot()
    ensures var newer, older := Delivery("user", 7, "new"), Delivery("user", 5, "old");
            var s := State(map[], map[], [Flight(newer, Ready), Flight(older, Ready)]);
            && Inv(s)
            && Lowers(Run(s, [Read(0), Read(1), Write(0)]), Run(s, [Read(0), Read(1), Write(0), Write(1)]), "user")
  {
    var newer, older := Delivery("user", 7, "new"), Delivery("user", 5, "old");
    var s := State(map[], map[], [Flight(newer, Ready), Flight(older, Ready)]);
    var e1, e2, e3 := [Read(0)], [Read(0), Read(1)], [Read(0), Read(1), Write(0)];
    var e4 := [Read(0), Read(1), Write(0), Write(1)];
    assert e4[..3] == e3 && e3[..2] == e2 && e2[..1] == e1 && e1[..0] == [];
    assert Run(s, []) == s;
    assert Run(s, e1) == Step(s, Read(0));
    assert Run(s, e2) == Step(Run(s, e1), Read(1));
    assert Run(s, e3) == Step(Run(s, e2), Write(0));
    assert Run(s, e4) == Step(Run(s, e3), Write(1));
  }

  /** A read and its write with nothing in between are one serial delivery. */
  lemma {:induction false} AdjacentIsSerial(s: State, id: nat)
    requires id < |s.flights| && s.flights[id].phase.Ready?
    ensures Step(Step(s, Read(id)), Write(id)).store == Put(s.store, s.flights[id].d)
  {
  }
}
