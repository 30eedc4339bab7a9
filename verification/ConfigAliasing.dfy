/** What a merge does to the defaults it was given. Only objects are copied: an array of the
defaults that meets an array of the data is overwritten in place. */
module ConfigAliasing {
  import opened ConfigMerge
  import opened ConfigLayers

  /** The default `x` after the value `v` was merged over it. An object, and an array that meets
  an object, is copied one level deep, so its own arrays are reached; an array that meets an
  array is the result itself. */
  function DefaultsAfter(x: Json, v: Json): (r: Json)
    decreases v
  {
    match v
    case Obj(m) => (
      match x
      case Obj(base) =>
        Obj(map k | k in base :: if k in m then DefaultsAfter(base[k], m[k]) else base[k])
      case Arr(items) =>
        Arr(seq(|items|, i requires 0 <= i < |items| =>
          if Digits(i) in m then DefaultsAfter(items[i], m[Digits(i)]) else items[i]))
      case _ => x)
    case Arr(vs) => if x.Arr? then Arr(MergeItems(x.items, vs)) else x
    case _ => x
  }

  // ----------------------------------------------------------------- decimal index keys

  function Number(s: string): (r: int)
  {
    if s == "" then 0 else 10 * Number(s[..|s| - 1]) + (s[|s| - 1] as int - '0' as int)
  }

  lemma {:induction false} NumberOfDigits(n: nat)
    ensures Number(Digits(n)) == n
  {
    var s := Digits(n);
    if n < 10 {
      assert s[..0] == "";
    } else {
      assert s[..|s| - 1] == Digits(n / 10);
      NumberOfDigits(n / 10);
    }
  }

  lemma {:induction false} DigitsInjective(m: nat, n: nat)
    requires Digits(m) == Digits(n)
    ensures m == n
  {
    NumberOfDigits(m);
    NumberOfDigits(n);
  }

  /** Every element of an array is found under its own index, and nothing else is. */
  lemma {:induction false} IndexMapAt(items: seq<Json>, from: nat, i: nat)
    requires i < |items|
    ensures Digits(from + i) in IndexMap(items, from) && IndexMap(items, from)[Digits(from + i)] == items[i]
    decreases i
  {
    hide Digits;
    if i > 0 {
      IndexMapAt(items[1..], from + 1, i - 1);
      if Digits(from) == Digits(from + i) {
        DigitsInjective(from, from + i);
      }
    }
  }

  lemma {:induction false} IndexMapKey(items: seq<Json>, from: nat, k: string) returns (i: nat)
    requires k in IndexMap(items, from)
    ensures i < |items| && k == Digits(from + i)
    decreases |items|
  {
    hide Digits;
    if k == Digits(from) {
      i := 0;
    } else {
      i := IndexMapKey(items[1..], from + 1, k);
      i := i + 1;
    }
  }

  // ------------------------------------------------------------ data that is already there

  /** Merging the field value `v` over `x` would change nothing. */
  predicate FieldHolds(x: Json, v: Json)
    decreases v
  {
    match v
    case Obj(m) => x.Obj? && forall k :: k in m && m[k] != Null ==> k in x.fields && FieldHolds(x.fields[k], m[k])
    case Arr(vs) => x.Arr? && |vs| <= |x.items| && forall i :: 0 <= i < |vs| ==> ItemHolds(x.items[i], vs[i])
    case _ => x == v
  }

  /** The same for an array element: a null only over an object, arrays and scalars only equal. */
  predicate ItemHolds(x: Json, v: Json)
    decreases v
  {
    match v
    case Null => x.Obj?
    case Obj(m) => x.Obj? && forall k :: k in m && m[k] != Null ==> k in x.fields && FieldHolds(x.fields[k], m[k])
    case _ => x == v
  }

  lemma {:induction false} FieldFixed(x: Json, v: Json)
    ensures MergeField(x, v) == x <==> FieldHolds(x, v)
    decreases v, 1
  {
    if v.Obj? {
      hide Merge, FieldHolds;
      ObjectFixed(x, v);
    } else if v.Arr? {
      hide MergeItems;
      if x.Arr? {
        ItemsFixed(x.items, v.items);
      }
    }
  }

  lemma {:induction false} ObjectFixed(x: Json, v: Json)
    requires v.Obj?
    ensures Merge(x, v) == x <==> FieldHolds(x, v)
    decreases v, 0
  {
    if x.Obj? {
      hide Merge, MergeField;
      var m := v.fields;
      forall k | k in m && m[k] != Null
        ensures At(x.fields, k) == MergeField(At(x.fields, k), m[k]) <==> FieldHolds(At(x.fields, k), m[k])
      {
        FieldFixed(At(x.fields, k), m[k]);
      }
      ObjectFixedByKey(x, v);
      forall k | k in m && m[k] != Null
        ensures (k in x.fields && FieldHolds(x.fields[k], m[k]))
           <==> (k in x.fields && MergeField(x.fields[k], m[k]) == x.fields[k])
      {
      }
    }
  }

  lemma {:induction false} ObjectFixedByKey(x: Json, v: Json)
    requires x.Obj? && v.Obj?
    ensures Merge(x, v) == x <==>
              forall k :: k in v.fields && v.fields[k] != Null ==>
                k in x.fields && MergeField(x.fields[k], v.fields[k]) == x.fields[k]
  {
    hide Merge, MergeField;
    var r := Merge(x, v);
    SpreadObject(x);
    forall k
      ensures if k in v.fields && v.fields[k] != Null
              then k in r.fields && r.fields[k] == MergeField(At(x.fields, k), v.fields[k])
              else (k in r.fields <==> k in x.fields) && At(r.fields, k) == At(x.fields, k)
    {
      MergeAt(x, v, k);
    }
    if forall k :: k in v.fields && v.fields[k] != Null ==>
         k in x.fields && MergeField(x.fields[k], v.fields[k]) == x.fields[k] {
      assert r.fields == x.fields;
    }
  }

  lemma {:induction false} ItemsFixed(xs: seq<Json>, vs: seq<Json>)
    ensures MergeItems(xs, vs) == xs <==> |vs| <= |xs| && forall i :: 0 <= i < |vs| ==> ItemHolds(xs[i], vs[i])
    decreases vs, 0
  {
    hide MergeItem, MergeItems, ItemHolds;
    var r := MergeItems(xs, vs);
    if |vs| <= |xs| {
      forall i | 0 <= i < |xs|
        ensures r[i] == if i < |vs| then MergeItem(xs[i], vs[i]) else xs[i]
        ensures i < |vs| ==> (MergeItem(xs[i], vs[i]) == xs[i] <==> ItemHolds(xs[i], vs[i]))
      {
        MergeItemsAt(xs, vs, i);
        if i < |vs| { ItemFixed(xs[i], vs[i]); }
      }
    }
  }

  lemma {:induction false} ItemFixed(x: Json, v: Json)
    ensures MergeItem(x, v) == x <==> ItemHolds(x, v)
    decreases v, 1
  {
    if v.Obj? {
      hide Merge;
      if x.Obj? {
        ObjectFixed(x, v);
      }
    } else if v.Null? {
      hide Merge;
      MergeNothing(OrEmpty(x), Null);
    }
  }

  // --------------------------------------------------------------- untouched defaults

  /** Every array of the defaults that meets an array of the data already holds it. */
  predicate Untouched(x: Json, v: Json)
    decreases v
  {
    match v
    case Obj(m) =>
      && (x.Obj? ==> forall k :: k in m && k in x.fields ==> Untouched(x.fields[k], m[k]))
      && (x.Arr? ==> forall i :: 0 <= i < |x.items| && Digits(i) in m ==> Untouched(x.items[i], m[Digits(i)]))
    case Arr(_) => x.Arr? ==> FieldHolds(x, v)
    case _ => true
  }

  /** A merge leaves the defaults as they were exactly when they are untouched by the data. */
  lemma {:induction false} DefaultsKeptExactlyWhen(x: Json, v: Json)
    ensures DefaultsAfter(x, v) == x <==> Untouched(x, v)
    decreases v
  {
    match v
    case Obj(m) =>
      if x.Obj? {
        KeptByKey(x, m);
        forall k | k in m && k in x.fields
          ensures DefaultsAfter(x.fields[k], m[k]) == x.fields[k] <==> Untouched(x.fields[k], m[k])
        {
          DefaultsKeptExactlyWhen(x.fields[k], m[k]);
        }
      } else if x.Arr? {
        KeptByIndex(x, m);
        forall i | 0 <= i < |x.items| && Digits(i) in m
          ensures DefaultsAfter(x.items[i], m[Digits(i)]) == x.items[i] <==> Untouched(x.items[i], m[Digits(i)])
        {
          DefaultsKeptExactlyWhen(x.items[i], m[Digits(i)]);
        }
      }
    case Arr(vs) =>
      if x.Arr? { ItemsFixed(x.items, vs); }
    case _ =>
  }

  lemma {:induction false} KeptByKey(x: Json, m: map<string, Json>)
    requires x.Obj?
    ensures DefaultsAfter(x, Obj(m)) == x <==>
              forall k :: k in m && k in x.fields ==> DefaultsAfter(x.fields[k], m[k]) == x.fields[k]
  {
    var r := DefaultsAfter(x, Obj(m));
    assert forall k :: k in x.fields ==>
      k in r.fields && r.fields[k] == if k in m then DefaultsAfter(x.fields[k], m[k]) else x.fields[k];
    if forall k :: k in m && k in x.fields ==> DefaultsAfter(x.fields[k], m[k]) == x.fields[k] {
      assert r.fields == x.fields;
    }
  }

  lemma {:induction false} KeptByIndex(x: Json, m: map<string, Json>)
    requires x.Arr?
    ensures DefaultsAfter(x, Obj(m)) == x <==>
              forall i :: 0 <= i < |x.items| && Digits(i) in m ==> DefaultsAfter(x.items[i], m[Digits(i)]) == x.items[i]
  {
    var r := DefaultsAfter(x, Obj(m));
    assert |r.items| == |x.items|;
    assert forall i :: 0 <= i < |x.items| ==>
      r.items[i] == if Digits(i) in m then DefaultsAfter(x.items[i], m[Digits(i)]) else x.items[i];
    if forall i :: 0 <= i < |x.items| && Digits(i) in m ==> DefaultsAfter(x.items[i], m[Digits(i)]) == x.items[i] {
      assert r.items == x.items;
    }
  }

  /** No later load can tell that `a` was loaded before, exactly when the defaults are untouched
  by it. */
  lemma {:induction false} LaterLoadsExactlyWhen(d: Json, a: Json)
    requires d.Obj? && a.Obj?
    ensures (forall b :: Merge(DefaultsAfter(d, a), b) == Merge(d, b)) <==> Untouched(d, a)
  {
    hide Merge, Untouched, DefaultsAfter;
    DefaultsKeptExactlyWhen(d, a);
    var after := DefaultsAfter(d, a);
    AfterIsObject(d, a);
    MergeEmptyIsIdentity(d);
    MergeEmptyIsIdentity(after);
    if forall b :: Merge(after, b) == Merge(d, b) {
      assert Merge(after, Obj(map[])) == Merge(d, Obj(map[]));
    }
  }

  lemma {:induction false} AfterIsObject(d: Json, a: Json)
    requires d.Obj? && a.Obj?
    ensures DefaultsAfter(d, a).Obj?
  {
  }

  /** Loading the same data again over the overwritten defaults gives the same result, for any
  defaults and any data. */
  lemma {:induction false} ReloadIsStable(d: Json, a: Json)
    requires a.Obj?
    ensures Merge(DefaultsAfter(d, a), a) == Merge(d, a)
    decreases a, 0
  {
    hide Merge, MergeField, DefaultsAfter, Spread;
    var after := DefaultsAfter(d, a);
    var l, r := Merge(after, a), Merge(d, a);
    forall k
      ensures k in l.fields <==> k in r.fields
      ensures k in l.fields ==> l.fields[k] == r.fields[k]
    {
      MergeAt(d, a, k);
      MergeAt(after, a, k);
      SpreadAfter(d, a, k);
      if k in a.fields && k in Spread(d) {
        FieldReload(Spread(d)[k], a.fields[k]);
      }
    }
    assert l.fields == r.fields;
  }

  /** Seen through `{ ...x }` the defaults keep their keys, and each value is merged by itself. */
  lemma {:induction false} SpreadAfter(d: Json, a: Json, k: string)
    requires a.Obj?
    ensures var before, after := Spread(d), Spread(DefaultsAfter(d, a));
            && (k in after <==> k in before)
            && (k in before ==> after[k] == if k in a.fields then DefaultsAfter(before[k], a.fields[k]) else before[k])
  {
    if d.Arr? {
      SpreadAfterArray(d, a, k);
    } else if d.Str? {
      SpreadAfterString(d, a, k);
    }
  }

  lemma {:induction false} SpreadAfterArray(d: Json, a: Json, k: string)
    requires d.Arr? && a.Obj?
    ensures var before, after := Spread(d), Spread(DefaultsAfter(d, a));
            && (k in after <==> k in before)
            && (k in before ==> after[k] == if k in a.fields then DefaultsAfter(before[k], a.fields[k]) else before[k])
  {
    hide IndexMap, Digits;
    var after := DefaultsAfter(d, a).items;
    assert |after| == |d.items|;
    if k in Spread(d) {
      var i := IndexMapKey(d.items, 0, k);
      IndexMapAt(d.items, 0, i);
      IndexMapAt(after, 0, i);
    } else if k in Spread(DefaultsAfter(d, a)) {
      var i := IndexMapKey(after, 0, k);
      IndexMapAt(d.items, 0, i);
    }
  }

  lemma {:induction false} SpreadAfterString(d: Json, a: Json, k: string)
    requires d.Str? && a.Obj?
    ensures DefaultsAfter(d, a) == d
    ensures k in Spread(d) && k in a.fields ==> DefaultsAfter(Spread(d)[k], a.fields[k]) == Spread(d)[k]
  {
    hide IndexMap;
    if k in Spread(d) {
      var items := seq(|d.s|, i requires 0 <= i < |d.s| => Str([d.s[i]]));
      var i := IndexMapKey(items, 0, k);
      IndexMapAt(items, 0, i);
    }
  }

  lemma {:induction false} FieldReload(x: Json, v: Json)
    ensures MergeField(DefaultsAfter(x, v), v) == MergeField(x, v)
    ensures v == Null ==> DefaultsAfter(x, v) == x
    decreases v, 1
  {
    hide Merge, MergeItems;
    if v.Obj? {
      ReloadIsStable(x, v);
    } else if v.Arr? && x.Arr? {
      ItemsAreIdempotent(x.items, v.items);
    }
  }

  /** Defaults that are not untouched: the array the first load left behind is seen by a second. */
  lemma {:induction false} SecondLoadSeesFirst()
    ensures var d := Obj(map["k" := Arr([])]); var a := Obj(map["k" := Arr([Num(1.0)])]); var b := Obj(map[]);
            Merge(DefaultsAfter(d, a), b) != Merge(d, b)
  {
    var d := Obj(map["k" := Arr([])]);
    var a := Obj(map["k" := Arr([Num(1.0)])]);
    assert MergeItems([], [Num(1.0)]) == [Num(1.0)];
    assert DefaultsAfter(d, a).fields["k"] == Arr([Num(1.0)]);
    assert Merge(DefaultsAfter(d, a), Obj(map[])).fields["k"] == Arr([Num(1.0)]);
    assert Merge(d, Obj(map[])).fields["k"] == Arr([]);
  }
}
