/**
 * The `attrs` template tag: turns the template context into a string of HTML
 * attributes, skipping the context's built-in names and writing the `_` of
 * htmx keys (`hx_get`) as `-` (`hx-get`). Values are inserted as they are,
 * unescaped; each value is modelled by its `str()` text.
 */
module AttrsTag {
  import opened Wrappers
  import opened Strings

  /** One level of a template context: keys in insertion order, each once. */
  type Dict = seq<(string, string)>

  ghost predicate DistinctKeys(d: Dict) {
    forall i, j :: 0 <= i < j < |d| ==> d[i].0 != d[j].0
  }

  function Find(d: Dict, k: string): (r: Option<nat>)
    ensures r.Some? ==> r.value < |d| && d[r.value].0 == k
    ensures r.None? ==> forall j :: 0 <= j < |d| ==> d[j].0 != k
    decreases |d|
  {
    if d == [] then None
    else if d[0].0 == k then Some(0)
    else match Find(d[1..], k)
      case None => None
      case Some(i) => Some(i + 1)
  }

  /** `flat[k] = v`: an existing key keeps its place, a new one goes last. */
  function Put(flat: Dict, k: string, v: string): Dict {
    match Find(flat, k)
    case Some(i) => flat[i := (k, v)]
    case None => flat + [(k, v)]
  }

  /** `flat.update(d)`. */
  function Update(flat: Dict, d: Dict): Dict
    decreases |d|
  {
    if d == [] then flat else Update(Put(flat, d[0].0, d[0].1), d[1..])
  }

  /** `Context.flatten()`: every level merged into one dictionary, later levels winning. */
  function Flatten(dicts: seq<Dict>): Dict
    decreases |dicts|
  {
    if dicts == [] then [] else Update(Flatten(dicts[..|dicts| - 1]), dicts[|dicts| - 1])
  }

  /** The keys `attrs` never emits (the first three are the context's built-ins). */
  const Excluded: seq<string> := ["True", "False", "None", "content", "element"]

  /** `key.replace("_", "-")` when the key contains `hx_`, else the key. */
  function AttrName(key: string): string {
    if Contains(key, "hx_") then ReplaceChar(key, '_', '-') else key
  }

  /** The `(name, value)` pairs `attrs` emits, in context order. */
  function Emitted(items: Dict): (r: Dict)
    decreases |items|
  {
    if items == [] then []
    else if items[0].0 in Excluded then Emitted(items[1..])
    else [(AttrName(items[0].0), items[0].1)] + Emitted(items[1..])
  }

  /** ` name="value"` for each pair. */
  function Render(pairs: Dict): string
    decreases |pairs|
  {
    if pairs == [] then "" else " " + pairs[0].0 + "=\"" + pairs[0].1 + "\"" + Render(pairs[1..])
  }

  /** The number of items whose key is not excluded. */
  function KeptCount(items: Dict): nat
    decreases |items|
  {
    if items == [] then 0 else (if items[0].0 in Excluded then 0 else 1) + KeptCount(items[1..])
  }

  lemma {:induction false} EmittedAppend(items: Dict, x: (string, string))
    ensures Emitted(items + [x]) == Emitted(items) + Emitted([x])
    decreases |items|
  {
    if items == [] {
      assert items + [x] == [x];
    } else {
      assert (items + [x])[1..] == items[1..] + [x];
      EmittedAppend(items[1..], x);
    }
  }

  lemma {:induction false} RenderAppend(a: Dict, b: Dict)
    ensures Render(a + b) == Render(a) + Render(b)
    decreases |a|
  {
    if a == [] {
      assert a + b == b;
    } else {
      assert (a + b)[1..] == a[1..] + b;
      RenderAppend(a[1..], b);
    }
  }

  lemma EmittedStep(items: Dict, i: nat)
    requires i < |items|
    ensures Render(Emitted(items[..i + 1])) == Render(Emitted(items[..i])) + Render(Emitted([items[i]]))
  {
    assert items[..i + 1] == items[..i] + [items[i]];
    EmittedAppend(items[..i], items[i]);
    RenderAppend(Emitted(items[..i]), Emitted([items[i]]));
  }

  /** `attrs(context)`: the loop over `context.flatten().items()` building `result`. */
  method Attrs(context: seq<Dict>) returns (result: string)
    ensures result == Render(Emitted(Flatten(context)))
  {
    var items := Flatten(context);
    result := "";
    var i := 0;
    while i < |items|
      invariant 0 <= i <= |items|
      invariant result == Render(Emitted(items[..i]))
    {
      var key := items[i].0;
      var value := items[i].1;
      var piece := "";
      if key !in Excluded {
        if Contains(key, "hx_") {
          key := ReplaceChar(key, '_', '-');
        }
        piece := " " + key + "=\"" + value + "\"";
      }
      assert piece == Render(Emitted([items[i]]));
      EmittedStep(items, i);
      result := result + piece;
      i := i + 1;
    }
    assert items[..i] == items;
  }

  /** No excluded name is ever emitted, one attribute is emitted per kept key,
      and each emitted pair is a kept item under its attribute name. */
  lemma EmittedShape(items: Dict)
    ensures |Emitted(items)| == KeptCount(items)
    ensures forall i :: 0 <= i < |Emitted(items)| ==> Emitted(items)[i].0 !in Excluded
    ensures forall i :: 0 <= i < |Emitted(items)| ==>
      exists j :: 0 <= j < |items| && items[j].0 !in Excluded
        && Emitted(items)[i] == (AttrName(items[j].0), items[j].1)
  {
    EmittedCount(items);
    forall i | 0 <= i < |Emitted(items)|
      ensures Emitted(items)[i].0 !in Excluded
      ensures exists j :: 0 <= j < |items| && items[j].0 !in Excluded
                          && Emitted(items)[i] == (AttrName(items[j].0), items[j].1)
    {
      var j := EmittedFrom(items, i);
      AttrNameNotExcluded(items[j].0);
    }
  }

  lemma {:induction false} EmittedCount(items: Dict)
    ensures |Emitted(items)| == KeptCount(items)
    decreases |items|
  {
    if items != [] {
      EmittedCount(items[1..]);
    }
  }

  /** The item that emitted pair `i` comes from. */
  lemma {:induction false} EmittedFrom(items: Dict, i: nat) returns (j: nat)
    requires i < |Emitted(items)|
    ensures j < |items| && items[j].0 !in Excluded && Emitted(items)[i] == (AttrName(items[j].0), items[j].1)
    decreases |items|
  {
    if items[0].0 in Excluded {
      var k := EmittedFrom(items[1..], i);
      j := k + 1;
    } else if i == 0 {
      j := 0;
    } else {
      var k := EmittedFrom(items[1..], i - 1);
      j := k + 1;
    }
  }

  /** A kept key never turns into an excluded name when it is renamed. */
  lemma AttrNameNotExcluded(key: string)
    requires key !in Excluded
    ensures AttrName(key) !in Excluded
  {
    if Contains(key, "hx_") {
      ContainsAt(key, "hx_");
      var i :| OccursAt(key, "hx_", i);
      var r := ReplaceChar(key, '_', '-');
      assert key[i] == key[i..i + 3][0] == 'h';
      assert key[i + 1] == key[i..i + 3][1] == 'x';
      assert key[i + 2] == key[i..i + 3][2] == '_';
      assert r[i] == 'h' && r[i + 1] == 'x' && r[i + 2] == '-';
      assert r[i + 2] == '-';
      assert forall x :: x in Excluded ==> '-' !in x;
    }
  }

  /** An htmx key loses all its underscores to hyphens; any other key is kept as written. */
  lemma AttrNameRewrite(key: string)
    ensures Contains(key, "hx_") ==>
      |AttrName(key)| == |key| &&
      forall j :: 0 <= j < |key| ==> AttrName(key)[j] == (if key[j] == '_' then '-' else key[j])
    ensures !Contains(key, "hx_") ==> AttrName(key) == key
  {
  }

  /** An empty context gives the empty string. */
  lemma AttrsOfEmpty()
    ensures Render(Emitted(Flatten([]))) == ""
  {
  }

  /** After `flat.update(d)` the keys are the old ones plus those of `d`, and
      each key of `d` has its value from `d`, the last occurrence winning. */
  lemma {:induction false} UpdateLookup(flat: Dict, d: Dict, k: string)
    ensures Find(d, k).Some? ==>
      Find(Update(flat, d), k).Some? &&
      Update(flat, d)[Find(Update(flat, d), k).value].1 == LastValue(d, k)
    ensures Find(d, k).None? ==> Find(Update(flat, d), k) == Find(flat, k)
    ensures Find(d, k).None? && Find(flat, k).Some? ==>
      Update(flat, d)[Find(flat, k).value] == flat[Find(flat, k).value]
    decreases |d|
  {
    if d != [] {
      var f1 := Put(flat, d[0].0, d[0].1);
      assert Update(flat, d) == Update(f1, d[1..]);
      PutLookup(flat, d[0].0, d[0].1, k);
      UpdateLookup(f1, d[1..], k);
      if Find(d[1..], k).None? && d[0].0 == k {
        assert LastValue(d, k) == d[0].1;
        assert Find(Update(flat, d), k) == Find(f1, k);
      }
    }
  }

  /** The value of the last occurrence of `k` in `d` (the one `update` keeps). */
  function LastValue(d: Dict, k: string): string
    decreases |d|
  {
    if d == [] then ""
    else if Find(d[1..], k).Some? then LastValue(d[1..], k)
    else if d[0].0 == k then d[0].1
    else ""
  }

  lemma PutLookup(flat: Dict, k: string, v: string, k': string)
    ensures k' == k ==> Find(Put(flat, k, v), k').Some? && Put(flat, k, v)[Find(Put(flat, k, v), k').value].1 == v
    ensures k' != k ==> Find(Put(flat, k, v), k') == Find(flat, k')
    ensures k' != k && Find(flat, k').Some? ==>
      Put(flat, k, v)[Find(flat, k').value] == flat[Find(flat, k').value]
  {
    match Find(flat, k)
    case Some(i) => FindUpdate(flat, i, (k, v), k');
    case None => FindAppend(flat, (k, v), k');
  }

  lemma FindUpdate(d: Dict, i: nat, e: (string, string), k: string)
    requires i < |d| && d[i].0 == e.0
    ensures Find(d[i := e], k) == Find(d, k)
    decreases |d|
  {
    if d[0].0 != k {
      if i == 0 {
        assert d[i := e][1..] == d[1..];
      } else {
        assert d[i := e][1..] == d[1..][i - 1 := e];
        FindUpdate(d[1..], i - 1, e, k);
      }
    }
  }

  lemma FindAppend(d: Dict, e: (string, string), k: string)
    requires Find(d, e.0).None?
    ensures Find(d + [e], k) == if k == e.0 then Some(|d|) else Find(d, k)
    decreases |d|
  {
    if d != [] {
      assert (d + [e])[1..] == d[1..] + [e];
      FindAppend(d[1..], e, k);
    }
  }

  lemma PutDistinct(flat: Dict, k: string, v: string)
    requires DistinctKeys(flat)
    ensures DistinctKeys(Put(flat, k, v))
  {
  }

  /** `Context.flatten()` yields a dictionary: no key appears twice. */
  lemma {:induction false} FlattenDistinct(dicts: seq<Dict>)
    ensures DistinctKeys(Flatten(dicts))
    decreases |dicts|
  {
    if dicts != [] {
      FlattenDistinct(dicts[..|dicts| - 1]);
      UpdateDistinct(Flatten(dicts[..|dicts| - 1]), dicts[|dicts| - 1]);
    }
  }

  lemma {:induction false} UpdateDistinct(flat: Dict, d: Dict)
    requires DistinctKeys(flat)
    ensures DistinctKeys(Update(flat, d))
    decreases |d|
  {
    if d != [] {
      PutDistinct(flat, d[0].0, d[0].1);
      UpdateDistinct(Put(flat, d[0].0, d[0].1), d[1..]);
    }
  }
}
