/** Layering configurations: when merging two layers one after the other is merging their merge. */
module ConfigLayers {
  import opened ConfigMerge

  /** A layer first merged over nothing merges the same. */
  lemma {:induction false} MergeAbsorbs(d: Json, a: Json)
    ensures Merge(d, Merge(Obj(map[]), a)) == Merge(d, a)
    decreases a, 0
  {
    var n := Merge(Obj(map[]), a);
    if a.Obj? {
      var l, r := Merge(d, n), Merge(d, a);
      forall k | k in l.fields.Keys + r.fields.Keys
        ensures k in l.fields && k in r.fields && l.fields[k] == r.fields[k]
      {
        if k in a.fields && a.fields[k] != Null {
          FieldAbsorbs(At(Spread(d), k), a.fields[k]);
        }
      }
      assert l.fields == r.fields;
    } else {
      assert n.fields == map[];
      assert Merge(d, n).fields == Spread(d);
    }
  }

  lemma {:induction false} FieldAbsorbs(x: Json, v: Json)
    requires v != Null
    ensures MergeField(Null, v) != Null && MergeField(x, MergeField(Null, v)) == MergeField(x, v)
    decreases v, 1
  {
    if v.Obj? {
      hide Merge;
      MergeAbsorbs(x, v);
      MergeNullBase(v);
    } else if v.Arr? {
      hide Merge;
      ItemsAbsorb(if x.Arr? then x.items else [], v.items);
    }
  }

  lemma {:induction false} MergeNullBase(v: Json)
    ensures Merge(Null, v) == Merge(Obj(map[]), v)
  {
  }

  lemma {:induction false} ItemsAbsorb(xs: seq<Json>, items: seq<Json>)
    ensures MergeItems(xs, MergeItems([], items)) == MergeItems(xs, items)
    decreases items, 0
  {
    hide Merge;
    if items == [] {
    } else {
      ItemsAbsorb(Rest(xs), items[1..]);
      var n := MergeItems([], items);
      assert n[1..] == MergeItems([], items[1..]);
      if items[0].Obj? || items[0].Null? {
        MergeAbsorbs(OrEmpty(Head(xs)), items[0]);
      }
    }
  }

  // ---------------------------------------------------------------------- the condition

  /** `v` may be layered over `u`: an object over an object, an array over an array, all the way
  down; a scalar over anything; and anything over or under nothing. */
  predicate LayersOk(u: Json, v: Json)
    decreases v
  {
    u.Null? ||
    match v
    case Obj(n) => u.Obj? && forall k :: k in u.fields && k in n ==> LayersOk(u.fields[k], n[k])
    case Arr(vs) => u.Arr? && forall i :: 0 <= i < |u.items| && i < |vs| ==> ItemOk(u.items[i], vs[i])
    case _ => true
  }

  /** In an array a null counts as an object without keys. */
  predicate ItemOk(u: Json, v: Json)
    decreases v
  {
    u.Null? ||
    match v
    case Null => u.Obj?
    case Obj(n) => u.Obj? && forall k :: k in u.fields && k in n ==> LayersOk(u.fields[k], n[k])
    case _ => true
  }

  /** Two layers may be merged with each other first exactly when they fit each other; the
  defaults they go over do not matter. */
  lemma {:induction false} LayersExactlyWhen(a: Json, b: Json)
    requires a.Obj? && b.Obj?
    ensures (forall d :: Merge(Merge(d, a), b) == Merge(d, Merge(a, b))) <==> LayersOk(a, b)
  {
    hide Merge, LayersOk;
    if LayersOk(a, b) {
      forall d ensures Merge(Merge(d, a), b) == Merge(d, Merge(a, b)) {
        MergeAssociates(d, a, b);
      }
    } else {
      var d := ObjectsDiffer(a, b);
    }
  }

  // -------------------------------------------------------------------------- sufficient

  /** Layering is associative on layers that fit, over any defaults. */
  lemma {:induction false} MergeAssociates(d: Json, a: Json, b: Json)
    requires a.Obj? && b.Obj? && LayersOk(a, b)
    ensures Merge(Merge(d, a), b) == Merge(d, Merge(a, b))
    decreases b, 1
  {
    hide MergeField, LayersOk;
    var l, r := Merge(Merge(d, a), b), Merge(d, Merge(a, b));
    forall k
      ensures k in l.fields <==> k in r.fields
      ensures k in l.fields ==> l.fields[k] == r.fields[k]
    {
      KeyAssociates(Spread(d), a.fields, b.fields, k, d, a, b);
    }
    assert l.fields == r.fields;
  }

  lemma {:induction false} KeyAssociates(base: map<string, Json>, m: map<string, Json>, n: map<string, Json>, k: string,
                                         d: Json, a: Json, b: Json)
    requires a == Obj(m) && b == Obj(n) && base == Spread(d) && LayersOk(a, b)
    ensures var l, r := Merge(Merge(d, a), b).fields, Merge(d, Merge(a, b)).fields;
            (k in l <==> k in r) && (k in l ==> l[k] == r[k])
    decreases b, 0
  {
    hide Merge, MergeField, Spread;
    SpreadObject(a);
    SpreadObject(Merge(d, a));
    NeverNull(At(m, k), At(n, k));
    MergeAt(d, a, k);
    MergeAt(Merge(d, a), b, k);
    MergeAt(a, b, k);
    MergeAt(d, Merge(a, b), k);
    if k in n && n[k] != Null {
      if k in m && m[k] != Null {
        FieldAssociates(At(base, k), m[k], n[k]);
      } else {
        FieldAbsorbs(At(base, k), n[k]);
      }
    }
  }

  /** One key of a merge. */
  lemma {:induction false} MergeAt(x: Json, v: Json, k: string)
    requires v.Obj?
    ensures var base, r := Spread(x), Merge(x, v).fields;
            if k in v.fields && v.fields[k] != Null then k in r && r[k] == MergeField(At(base, k), v.fields[k])
            else (k in r <==> k in base) && At(r, k) == At(base, k)
  {
    hide Spread, MergeField;
  }

  lemma {:induction false} SpreadObject(x: Json)
    requires x.Obj?
    ensures Spread(x) == x.fields
  {
  }

  lemma {:induction false} NeverNull(x: Json, v: Json)
    ensures v != Null ==> MergeField(x, v) != Null
  {
  }

  lemma {:induction false} FieldAssociates(x: Json, u: Json, v: Json)
    requires u != Null && v != Null && LayersOk(u, v)
    ensures MergeField(MergeField(x, u), v) == MergeField(x, MergeField(u, v))
    decreases v, 2
  {
    hide Merge, MergeItems;
    if v.Obj? {
      MergeAssociates(x, u, v);
    } else if v.Arr? {
      ItemsAssociate(if x.Arr? then x.items else [], u.items, v.items);
    }
  }

  lemma {:induction false} ItemsAssociate(xs: seq<Json>, us: seq<Json>, vs: seq<Json>)
    requires forall i :: 0 <= i < |us| && i < |vs| ==> ItemOk(us[i], vs[i])
    ensures MergeItems(MergeItems(xs, us), vs) == MergeItems(xs, MergeItems(us, vs))
    decreases vs, 0
  {
    hide Merge, MergeItem, ItemOk;
    if vs == [] {
    } else if us == [] {
      ItemsAbsorb(xs, vs);
    } else {
      ItemsAssociate(Rest(xs), us[1..], vs[1..]);
      var l, r := MergeItems(xs, us), MergeItems(us, vs);
      assert l[1..] == MergeItems(Rest(xs), us[1..]) && r[1..] == MergeItems(us[1..], vs[1..]);
      ItemAssociates(Head(xs), us[0], vs[0]);
    }
  }

  lemma {:induction false} ItemAssociates(x: Json, u: Json, v: Json)
    requires ItemOk(u, v)
    ensures MergeItem(MergeItem(x, u), v) == MergeItem(x, MergeItem(u, v))
    decreases v, 2
  {
    hide Merge;
    if v.Obj? || v.Null? {
      var y := OrEmpty(x);
      if u.Null? {
        MergeAbsorbs(y, v);
        MergeNothing(y, v);
      } else if v.Null? {
        MergeNothing(y, u);
        MergeNothing(u, v);
      } else {
        MergeAssociates(y, u, v);
      }
    }
  }

  /** A null over anything spreads it, and changes nothing for what is merged on top or below. */
  lemma {:induction false} MergeNothing(x: Json, v: Json)
    ensures x.Obj? ==> Merge(x, Null) == x
    ensures Merge(Merge(x, Null), v) == Merge(x, v)
    ensures Merge(Merge(x, v), Null) == Merge(x, v)
  {
  }

  // --------------------------------------------------------------------------- necessary

  lemma {:induction false} LongerThanAll(s: set<string>) returns (n: nat)
    ensures forall t :: t in s ==> |t| < n
    decreases s
  {
    if s == {} {
      n := 0;
    } else {
      var t :| t in s;
      n := LongerThanAll(s - {t});
      n := if |t| < n then n else |t| + 1;
    }
  }

  /** A default with a key that `f` has not: whatever is merged over it differs from `f`. */
  lemma {:induction false} FreshKeyShows(f: Json, g: Json) returns (x: Json)
    requires f.Obj?
    ensures x.Obj? && Merge(x, g) != f
  {
    var n := LongerThanAll(f.fields.Keys);
    var k := seq(n, _ => 'k');
    x := Obj(map[k := Null]);
    assert k !in f.fields;
    assert k in Merge(x, g).fields;
  }

  /** Defaults over which two layers that do not fit merge differently. */
  lemma {:induction false} ObjectsDiffer(a: Json, b: Json) returns (x: Json)
    requires a.Obj? && b.Obj? && !LayersOk(a, b)
    ensures x.Obj? && Merge(Merge(x, a), b) != Merge(x, Merge(a, b))
    decreases b, 1
  {
    var k :| k in a.fields && k in b.fields && !LayersOk(a.fields[k], b.fields[k]);
    var y := FieldsDiffer(a.fields[k], b.fields[k]);
    x := Obj(map[k := y]);
    KeyOfBoth(x, a, b, k);
  }

  lemma {:induction false} KeyOfBoth(x: Json, a: Json, b: Json, k: string)
    requires x.Obj? && a.Obj? && b.Obj? && k in x.fields && k in a.fields && k in b.fields
    requires a.fields[k] != Null && b.fields[k] != Null
    ensures var l, r := Merge(Merge(x, a), b).fields, Merge(x, Merge(a, b)).fields;
            && k in l && l[k] == MergeField(MergeField(x.fields[k], a.fields[k]), b.fields[k])
            && k in r && r[k] == MergeField(x.fields[k], MergeField(a.fields[k], b.fields[k]))
  {
    hide MergeField;
    NeverNull(a.fields[k], b.fields[k]);
  }

  lemma {:induction false} FieldsDiffer(u: Json, v: Json) returns (x: Json)
    requires !LayersOk(u, v)
    ensures u != Null && v != Null
    ensures MergeField(MergeField(x, u), v) != MergeField(x, MergeField(u, v))
    decreases v, 2
  {
    if v.Obj? {
      hide Merge, MergeItems;
      if u.Obj? {
        x := ObjectsDiffer(u, v);
      } else {
        x := FreshKeyShows(MergeField(MergeField(Null, u), v), MergeField(u, v));
      }
    } else {
      hide Merge, MergeItems;
      if u.Arr? {
        var i :| 0 <= i < |u.items| && i < |v.items| && !ItemOk(u.items[i], v.items[i]);
        var y := ItemsDiffer(u.items[i], v.items[i]);
        x := Arr(seq(i + 1, _ => y));
        IndexOfBoth(x.items, u.items, v.items, i);
      } else {
        x := Arr(seq(|v.items| + 1, _ => Null));
      }
    }
  }

  lemma {:induction false} IndexOfBoth(xs: seq<Json>, us: seq<Json>, vs: seq<Json>, i: nat)
    requires i < |xs| && i < |us| && i < |vs|
    ensures var l, r := MergeItems(MergeItems(xs, us), vs), MergeItems(xs, MergeItems(us, vs));
            && i < |l| && l[i] == MergeItem(MergeItem(xs[i], us[i]), vs[i])
            && i < |r| && r[i] == MergeItem(xs[i], MergeItem(us[i], vs[i]))
  {
    hide MergeItem, MergeItems;
    MergeItemsAt(xs, us, i);
    MergeItemsAt(MergeItems(xs, us), vs, i);
    MergeItemsAt(us, vs, i);
    MergeItemsAt(xs, MergeItems(us, vs), i);
  }

  lemma {:induction false} ItemsDiffer(u: Json, v: Json) returns (x: Json)
    requires !ItemOk(u, v)
    ensures MergeItem(MergeItem(x, u), v) != MergeItem(x, MergeItem(u, v))
    decreases v, 2
  {
    hide Merge;
    if v.Obj? && u.Obj? {
      x := ObjectsDiffer(u, v);
    } else {
      x := FreshKeyShows(MergeItem(u, v), MergeItem(u, v));
    }
  }

  /** Layers that do not fit: a scalar between two objects. */
  lemma {:induction false} ScalarBetweenObjects()
    ensures var d := Obj(map["k" := Obj(map["x" := Num(1.0)])]); var a := Obj(map["k" := Num(5.0)]);
            var b := Obj(map["k" := Obj(map[])]);
            Merge(Merge(d, a), b) != Merge(d, Merge(a, b))
  {
    var d := Obj(map["k" := Obj(map["x" := Num(1.0)])]);
    var a := Obj(map["k" := Num(5.0)]);
    var b := Obj(map["k" := Obj(map[])]);
    assert Merge(Merge(d, a), b).fields["k"] == Merge(Num(5.0), Obj(map[]));
    assert "x" !in Merge(Num(5.0), Obj(map[])).fields;
    assert Merge(d, Merge(a, b)).fields["k"] == Merge(d.fields["k"], Merge(Num(5.0), Obj(map[])));
    assert "x" in Merge(d.fields["k"], Merge(Num(5.0), Obj(map[]))).fields;
  }
}
