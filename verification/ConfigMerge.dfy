/** The keeper's deep merge of a configuration over defaults: objects merge key by key, arrays
index by index, nulls in objects are skipped. */
module ConfigMerge {
  import opened Wrappers

  datatype Json =
    | Null
    | Bool(b: bool)
    | Num(n: real)
    | Str(s: string)
    | Arr(items: seq<Json>)
    | Obj(fields: map<string, Json>)

  predicate Falsy(x: Json)
  {
    x == Null || x == Bool(false) || x == Num(0.0) || x == Str("")
  }

  /** `x || {}` */
  function OrEmpty(x: Json): (r: Json)
  {
    if Falsy(x) then Obj(map[]) else x
  }

  function Digits(n: nat): (r: string)
  {
    if n < 10 then [('0' as int + n) as char] else Digits(n / 10) + [('0' as int + n % 10) as char]
  }

  function IndexMap(items: seq<Json>, from: nat): (r: map<string, Json>)
  {
    if items == [] then map[] else IndexMap(items[1..], from + 1)[Digits(from) := items[0]]
  }

  /** `{ ...x }`: arrays and strings spread into index keys, other scalars into nothing. */
  function Spread(x: Json): (r: map<string, Json>)
  {
    match x
    case Obj(m) => m
    case Arr(items) => IndexMap(items, 0)
    case Str(s) => IndexMap(seq(|s|, i requires 0 <= i < |s| => Str([s[i]])), 0)
    case _ => map[]
  }

  function At(m: map<string, Json>, k: string): (r: Json)
  {
    if k in m then m[k] else Null
  }

  function Rest(items: seq<Json>): (r: seq<Json>)
  {
    if items == [] then [] else items[1..]
  }

  function Head(items: seq<Json>): (r: Json)
  {
    if items == [] then Null else items[0]
  }

  /** `mergeDefaults` as a function of the two trees. */
  function Merge(defaults: Json, data: Json): (r: Json)
    ensures r.Obj?
    decreases data, 0
  {
    var base := Spread(defaults);
    if !data.Obj? then Obj(base)
    else
      var m := data.fields;
      Obj(map k | k in base.Keys + m.Keys && (k in base || m[k] != Null) ::
            if k in m && m[k] != Null then MergeField(At(base, k), m[k]) else base[k])
  }

  /** What one key's value becomes. */
  function MergeField(current: Json, value: Json): (r: Json)
    decreases value, 1
  {
    match value
    case Obj(_) => Merge(current, value)
    case Arr(items) => Arr(MergeItems(if current.Arr? then current.items else [], items))
    case _ => value
  }

  /** Index by index; what the data's array does not reach keeps its place. */
  function MergeItems(current: seq<Json>, items: seq<Json>): (r: seq<Json>)
    ensures |r| == if |current| < |items| then |items| else |current|
    decreases items, 0
  {
    if items == [] then current
    else [MergeItem(Head(current), items[0])] + MergeItems(Rest(current), items[1..])
  }

  /** A null element counts as an object without keys. */
  function MergeItem(existing: Json, item: Json): (r: Json)
    decreases item, 1
  {
    if item.Obj? || item.Null? then Merge(OrEmpty(existing), item) else item
  }

  // ----------------------------------------------------------------- the code's loops

  /** The result after the keys in `done` have been visited. */
  function Visited(base: map<string, Json>, m: map<string, Json>, done: set<string>): (r: map<string, Json>)
  {
    map k | k in base.Keys + m.Keys && (k in base || (k in done && m[k] != Null)) ::
      if k in m && k in done && m[k] != Null then MergeField(At(base, k), m[k]) else base[k]
  }

  lemma {:induction false} VisitKey(base: map<string, Json>, m: map<string, Json>, done: set<string>, key: string)
    requires key in m && key !in done
    ensures At(Visited(base, m, done), key) == At(base, key)
    ensures m[key] == Null ==> Visited(base, m, done + {key}) == Visited(base, m, done)
    ensures m[key] != Null ==>
              Visited(base, m, done + {key}) == Visited(base, m, done)[key := MergeField(At(base, key), m[key])]
  {
    hide MergeField;
  }

  lemma {:induction false} VisitedAll(defaults: Json, data: Json)
    requires data.Obj?
    ensures Visited(Spread(defaults), data.fields, {}) == Spread(defaults)
    ensures Obj(Visited(Spread(defaults), data.fields, data.fields.Keys)) == Merge(defaults, data)
  {
    hide MergeField, Spread;
    assert Visited(Spread(defaults), data.fields, data.fields.Keys) == Merge(defaults, data).fields;
  }

  /** The recursive procedure, looping over the data's keys. */
  method MergeDefaults(defaults: Json, data: Json) returns (r: Json)
    ensures r == Merge(defaults, data)
    decreases data, 0
  {
    hide Merge, Visited, MergeItems, Spread;
    var result := Spread(defaults);
    if data.Obj? {
      ghost var base := result;
      var m := data.fields;
      VisitedAll(defaults, data);
      var left := m.Keys;
      assert m.Keys - left == {};
      while left != {}
        invariant left <= m.Keys
        invariant result == Visited(base, m, m.Keys - left)
        decreases left
      {
        var key :| key in left;
        VisitKey(base, m, m.Keys - left, key);
        assert m.Keys - left + {key} == m.Keys - (left - {key});
        left := left - {key};
        var value := m[key];
        if value.Obj? {
          var merged := MergeDefaults(At(result, key), value);
          result := result[key := merged];
        } else if value.Arr? {
          var current := At(result, key);
          var items := MergeArrays(if current.Arr? then current.items else [], value.items);
          result := result[key := Arr(items)];
        } else if value != Null {
          result := result[key := value];
        }
      }
      assert m.Keys - left == m.Keys;
    } else {
      NoKeys(defaults, data);
    }
    return Obj(result);
  }

  lemma {:induction false} NoKeys(defaults: Json, data: Json)
    requires !data.Obj?
    ensures Merge(defaults, data) == Obj(Spread(defaults))
  {
  }

  /** The index loop over an array value. */
  method MergeArrays(current: seq<Json>, items: seq<Json>) returns (r: seq<Json>)
    ensures r == MergeItems(current, items)
    decreases items, 0
  {
    hide Merge, MergeItems;
    r := current;
    var i := 0;
    MergeNoItems(current);
    assert items[..0] == [];
    while i < |items|
      invariant 0 <= i <= |items|
      invariant r == MergeItems(current, items[..i])
    {
      assert items[..i + 1] == items[..i] + [items[i]];
      MergeItemsSnoc(current, items[..i], items[i]);
      var existing := if i < |r| then r[i] else Null;
      var x := items[i];
      if x.Obj? || x.Null? {
        x := MergeDefaults(OrEmpty(existing), items[i]);
      }
      r := if i < |r| then r[i := x] else r + [x];
      i := i + 1;
    }
    assert items[..i] == items;
  }

  lemma {:induction false} MergeNoItems(current: seq<Json>)
    ensures MergeItems(current, []) == current
  {
  }

  lemma {:induction false} MergeItemsSnoc(current: seq<Json>, items: seq<Json>, item: Json)
    ensures var r, n := MergeItems(current, items), |items|;
            MergeItems(current, items + [item])
            == if n < |r| then r[n := MergeItem(r[n], item)] else r + [MergeItem(Null, item)]
  {
    hide MergeItem;
    if items == [] {
      assert (items + [item])[1..] == [];
    } else {
      assert (items + [item])[1..] == items[1..] + [item];
      MergeItemsSnoc(Rest(current), items[1..], item);
    }
  }

  // --------------------------------------------------------------------------- laws

  /** Merging nothing changes nothing. */
  lemma {:induction false} MergeEmptyIsIdentity(defaults: Json)
    requires defaults.Obj?
    ensures Merge(defaults, Obj(map[])) == defaults
  {
    assert Merge(defaults, Obj(map[])).fields == defaults.fields;
  }

  /** Merging the same data twice is merging it once, for any trees at all. */
  lemma {:induction false} MergeIsIdempotent(d: Json, a: Json)
    ensures Merge(Merge(d, a), a) == Merge(d, a)
    decreases a, 0
  {
    if a.Obj? {
      var once, twice := Merge(d, a), Merge(Merge(d, a), a);
      forall k | k in twice.fields
        ensures k in once.fields && once.fields[k] == twice.fields[k]
      {
        if k in a.fields && a.fields[k] != Null {
          FieldIsIdempotent(At(Spread(d), k), a.fields[k]);
        }
      }
      assert twice.fields == once.fields;
    }
  }

  lemma {:induction false} FieldIsIdempotent(current: Json, v: Json)
    ensures MergeField(MergeField(current, v), v) == MergeField(current, v)
    decreases v, 1
  {
    if v.Obj? {
      MergeIsIdempotent(current, v);
    } else if v.Arr? {
      ItemsAreIdempotent(if current.Arr? then current.items else [], v.items);
    }
  }

  lemma {:induction false} ItemsAreIdempotent(current: seq<Json>, items: seq<Json>)
    ensures MergeItems(MergeItems(current, items), items) == MergeItems(current, items)
    decreases items, 0
  {
    if items == [] {
    } else {
      ItemsAreIdempotent(Rest(current), items[1..]);
      var once := MergeItems(current, items);
      assert once[1..] == MergeItems(Rest(current), items[1..]);
      if items[0].Obj? || items[0].Null? {
        MergeIsIdempotent(OrEmpty(Head(current)), items[0]);
      }
    }
  }

  // -------------------------------------------------------------- who wins at each place

  datatype Step = Key(k: string) | Index(i: nat)

  /** The value at a path of object keys and array indices. */
  function Get(v: Json, p: seq<Step>): (r: Option<Json>)
  {
    if p == [] then Some(v)
    else
      match p[0]
      case Key(k) => if v.Obj? && k in v.fields then Get(v.fields[k], p[1..]) else None
      case Index(i) => if v.Arr? && i < |v.items| then Get(v.items[i], p[1..]) else None
  }

  predicate Scalar(v: Json)
  {
    v.Bool? || v.Num? || v.Str?
  }

  lemma {:induction false} MergeItemsAt(current: seq<Json>, items: seq<Json>, i: nat)
    requires i < |MergeItems(current, items)|
    ensures MergeItems(current, items)[i]
         == if i < |items| then MergeItem(if i < |current| then current[i] else Null, items[i]) else current[i]
  {
    hide MergeItem;
    if items != [] && i > 0 {
      MergeItemsAt(Rest(current), items[1..], i - 1);
    }
  }

  /** Wherever the data holds a scalar, so does the result, at the same path. */
  lemma {:induction false} DataWins(d: Json, a: Json, p: seq<Step>)
    requires a.Obj? && Get(a, p).Some? && Scalar(Get(a, p).value)
    ensures Get(Merge(d, a), p) == Get(a, p)
    decreases |p|, 0
  {
    hide MergeField, Spread;
    FieldWins(At(Spread(d), p[0].k), a.fields[p[0].k], p[1..]);
  }

  lemma {:induction false} FieldWins(current: Json, v: Json, p: seq<Step>)
    requires Get(v, p).Some? && Scalar(Get(v, p).value)
    ensures Get(MergeField(current, v), p) == Get(v, p)
    decreases |p|, 1
  {
    hide Merge, MergeItems, MergeItem;
    if v.Obj? {
      DataWins(current, v, p);
    } else if v.Arr? {
      var cur := if current.Arr? then current.items else [];
      var i := p[0].i;
      MergeItemsAt(cur, v.items, i);
      ItemWins(if i < |cur| then cur[i] else Null, v.items[i], p[1..]);
    }
  }

  lemma {:induction false} ItemWins(existing: Json, item: Json, p: seq<Step>)
    requires Get(item, p).Some? && Scalar(Get(item, p).value)
    ensures Get(MergeItem(existing, item), p) == Get(item, p)
    decreases |p|, 1
  {
    hide Merge;
    if item.Obj? { DataWins(OrEmpty(existing), item, p); }
  }

  /** The data says nothing about this path: a key is missing or null on the way, or an array
  ends before the index. */
  predicate Silent(a: Json, p: seq<Step>)
    decreases |p|
  {
    && p != []
    && match a
       case Obj(m) =>
         p[0].Key? && (p[0].k !in m || m[p[0].k] == Null || Silent(m[p[0].k], p[1..]))
       case Arr(items) =>
         p[0].Index? && (p[0].i >= |items|
           || (items[p[0].i].Obj? && Silent(items[p[0].i], p[1..]))
           || (items[p[0].i].Null? && |p| > 1 && p[1].Key?))
       case _ => false
  }

  /** Where the data is silent the default survives. */
  lemma {:induction false} DefaultSurvives(d: Json, a: Json, p: seq<Step>)
    requires d.Obj? && a.Obj? && Get(d, p).Some? && Silent(a, p)
    ensures Get(Merge(d, a), p) == Get(d, p)
    decreases |p|, 0
  {
    hide MergeField;
    var k := p[0].k;
    if k in a.fields && a.fields[k] != Null {
      FieldSurvives(d.fields[k], a.fields[k], p[1..]);
    }
  }

  lemma {:induction false} FieldSurvives(x: Json, v: Json, p: seq<Step>)
    requires Get(x, p).Some? && Silent(v, p)
    ensures Get(MergeField(x, v), p) == Get(x, p)
    decreases |p|, 1
  {
    hide Merge, MergeItems, MergeItem;
    if v.Obj? {
      DefaultSurvives(x, v, p);
    } else {
      var i := p[0].i;
      MergeItemsAt(x.items, v.items, i);
      if i < |v.items| {
        ItemSurvives(x.items[i], v.items[i], p[1..]);
      }
    }
  }

  lemma {:induction false} ItemSurvives(x: Json, item: Json, p: seq<Step>)
    requires Get(x, p).Some? && p != [] && p[0].Key?
    requires item.Null? || (item.Obj? && Silent(item, p))
    ensures Get(MergeItem(x, item), p) == Get(x, p)
    decreases |p|, 1
  {
    if item.Obj? {
      hide Merge;
      DefaultSurvives(x, item, p);
    }
  }
}
