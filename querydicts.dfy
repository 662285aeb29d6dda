/**
 * Django's QueryDict: a dictionary from each key to the non-empty list of its
 * values, keys kept in the order they were first added. It is built from a
 * query string with `parse_qsl` and `appendlist`, and written back with
 * `urlencode`.
 */
module QueryDicts {
  import opened Wrappers
  import opened UrlCoding

  datatype QueryDict = QueryDict(entries: seq<(string, seq<string>)>)

  const Empty := QueryDict([])

  /** Keys are distinct and every key has at least one value. */
  ghost predicate Valid(q: QueryDict) {
    && (forall i, j :: 0 <= i < j < |q.entries| ==> q.entries[i].0 != q.entries[j].0)
    && (forall i :: 0 <= i < |q.entries| ==> q.entries[i].1 != [])
  }

  /** Where `k` is among the entries, if it is. */
  function IndexOf(es: seq<(string, seq<string>)>, k: string): (r: Option<nat>)
    ensures r.Some? ==> r.value < |es| && es[r.value].0 == k && forall j :: 0 <= j < r.value ==> es[j].0 != k
    ensures r.None? ==> forall j :: 0 <= j < |es| ==> es[j].0 != k
    decreases |es|
  {
    if es == [] then None
    else if es[0].0 == k then Some(0)
    else match IndexOf(es[1..], k)
      case None => None
      case Some(i) => Some(i + 1)
  }

  /** `k in q`. */
  predicate Has(q: QueryDict, k: string) {
    IndexOf(q.entries, k).Some?
  }

  /** `q.getlist(k)`: all values of `k`, or `[]`. */
  function GetList(q: QueryDict, k: string): seq<string> {
    match IndexOf(q.entries, k)
    case Some(i) => q.entries[i].1
    case None => []
  }

  /** `q[k]`: the last value of `k`; `None` where Django raises MultiValueDictKeyError. */
  function Get(q: QueryDict, k: string): (r: Option<string>)
    ensures r.Some? <==> GetList(q, k) != []
    ensures r.Some? ==> r.value == GetList(q, k)[|GetList(q, k)| - 1]
  {
    var vs := GetList(q, k);
    if vs == [] then None else Some(vs[|vs| - 1])
  }

  /** `q.get(k, default)`. */
  function GetOr(q: QueryDict, k: string, default: string): (r: string)
    ensures Get(q, k).Some? ==> r == Get(q, k).value
    ensures Get(q, k).None? ==> r == default
  {
    Get(q, k).GetOr(default)
  }

  /** `q.items()`: each key with its last value, in key order. */
  function Items(q: QueryDict): (r: seq<(string, string)>)
    ensures |r| == |q.entries|
    ensures forall i :: 0 <= i < |r| ==> r[i].0 == q.entries[i].0
  {
    seq(|q.entries|, i requires 0 <= i < |q.entries| =>
      var vs := q.entries[i].1;
      (q.entries[i].0, if vs == [] then "" else vs[|vs| - 1]))
  }

  /** `q[k] = v`: `k` now has the single value `v`, in its old place if it had one, else last. */
  function SetItem(q: QueryDict, k: string, v: string): (r: QueryDict)
  {
    match IndexOf(q.entries, k)
    case Some(i) => QueryDict(q.entries[i := (k, [v])])
    case None => QueryDict(q.entries + [(k, [v])])
  }

  /** `q.appendlist(k, v)`. */
  function AppendList(q: QueryDict, k: string, v: string): (r: QueryDict)
  {
    match IndexOf(q.entries, k)
    case Some(i) => QueryDict(q.entries[i := (k, q.entries[i].1 + [v])])
    case None => QueryDict(q.entries + [(k, [v])])
  }

  /** After `q[k] = v`, `k` maps to exactly `[v]`, every other key keeps all
      its values, and the keys are the old ones plus `k`. */
  lemma SetItemEffect(q: QueryDict, k: string, v: string)
    requires Valid(q)
    ensures Valid(SetItem(q, k, v))
    ensures GetList(SetItem(q, k, v), k) == [v] && Get(SetItem(q, k, v), k) == Some(v)
    ensures forall k' :: k' != k ==> GetList(SetItem(q, k, v), k') == GetList(q, k')
    ensures forall k' :: Has(SetItem(q, k, v), k') <==> Has(q, k') || k' == k
  {
    var r := SetItem(q, k, v);
    match IndexOf(q.entries, k)
    case Some(i) =>
      forall k' | k' != k ensures GetList(r, k') == GetList(q, k') {
        IndexOfUpdate(q.entries, i, (k, [v]), k');
      }
      forall k' ensures Has(r, k') <==> Has(q, k') || k' == k {
        IndexOfUpdate(q.entries, i, (k, [v]), k');
      }
      IndexOfUpdate(q.entries, i, (k, [v]), k);
    case None =>
      forall k' ensures GetList(r, k') == (if k' == k then [v] else GetList(q, k')) {
        IndexOfAppend(q.entries, (k, [v]), k');
      }
      forall k' ensures Has(r, k') <==> Has(q, k') || k' == k {
        IndexOfAppend(q.entries, (k, [v]), k');
      }
  }

  /** Replacing an entry by one with the same key moves no key. */
  lemma IndexOfUpdate(es: seq<(string, seq<string>)>, i: nat, e: (string, seq<string>), k: string)
    requires i < |es| && es[i].0 == e.0
    ensures IndexOf(es[i := e], k) == IndexOf(es, k)
    decreases |es|
  {
    if es[0].0 != k {
      if i == 0 {
        assert es[i := e][1..] == es[1..];
      } else {
        assert es[i := e][1..] == es[1..][i - 1 := e];
        IndexOfUpdate(es[1..], i - 1, e, k);
      }
    }
  }

  /** Appending an entry leaves earlier keys where they are. */
  lemma IndexOfAppend(es: seq<(string, seq<string>)>, e: (string, seq<string>), k: string)
    requires IndexOf(es, e.0).None?
    ensures IndexOf(es + [e], k) == if k == e.0 then Some(|es|) else IndexOf(es, k)
    decreases |es|
  {
    if es != [] {
      assert (es + [e])[1..] == es[1..] + [e];
      IndexOfAppend(es[1..], e, k);
    }
  }

  /** Each `(key, value)` pair added with `appendlist`, left to right. */
  function AppendAll(q: QueryDict, pairs: seq<(string, string)>): QueryDict
    decreases |pairs|
  {
    if pairs == [] then q else AppendAll(AppendList(q, pairs[0].0, pairs[0].1), pairs[1..])
  }

  /** `QueryDict(qs)`: `parse_qsl(qs, keep_blank_values=True)`, each pair added with `appendlist`. */
  function Parse(qs: string): QueryDict {
    AppendAll(Empty, ParseQsl(qs))
  }

  /** The pairs `(k, v)` for each value `v` of `k`, in order. */
  function Pairs(k: string, vs: seq<string>): (ps: seq<(string, string)>)
    ensures |ps| == |vs|
    ensures forall i :: 0 <= i < |vs| ==> ps[i] == (k, vs[i])
  {
    seq(|vs|, i requires 0 <= i < |vs| => (k, vs[i]))
  }

  /** Every `(key, value)` pair, key by key, as `q.lists()` lists them. */
  function Flatten(es: seq<(string, seq<string>)>): seq<(string, string)>
    decreases |es|
  {
    if es == [] then [] else Flatten(es[..|es| - 1]) + Pairs(es[|es| - 1].0, es[|es| - 1].1)
  }

  /** `q.urlencode()`: `quote_plus(k)=quote_plus(v)` for every value of every key, joined by `&`. */
  function UrlEncode(q: QueryDict): string {
    EncodePairs(Flatten(q.entries))
  }

  lemma {:induction false} AppendAllConcat(q: QueryDict, a: seq<(string, string)>, b: seq<(string, string)>)
    ensures AppendAll(q, a + b) == AppendAll(AppendAll(q, a), b)
    decreases |a|
  {
    if a == [] {
      assert a + b == b;
    } else {
      assert (a + b)[1..] == a[1..] + b;
      AppendAllConcat(AppendList(q, a[0].0, a[0].1), a[1..], b);
    }
  }

  /** Appending all values of a new key adds that key last with those values. */
  lemma {:induction false} AppendAllPairs(q: QueryDict, k: string, vs: seq<string>)
    requires IndexOf(q.entries, k).None? && vs != []
    ensures AppendAll(q, Pairs(k, vs)) == QueryDict(q.entries + [(k, vs)])
    decreases |vs|
  {
    var n := |vs|;
    if n == 1 {
      assert Pairs(k, vs) == [(k, vs[0])];
      assert vs == [vs[0]];
    } else {
      var init := vs[..n - 1];
      assert Pairs(k, vs) == Pairs(k, init) + [(k, vs[n - 1])];
      AppendAllConcat(q, Pairs(k, init), [(k, vs[n - 1])]);
      AppendAllPairs(q, k, init);
      var es := q.entries + [(k, init)];
      IndexOfAppend(q.entries, (k, init), k);
      assert es[|q.entries| := (k, init + [vs[n - 1]])] == q.entries + [(k, vs)] by {
        assert init + [vs[n - 1]] == vs;
      }
    }
  }

  /** A prefix of a valid dictionary's entries is valid and lacks the later keys. */
  lemma PrefixMissingLast(q: QueryDict)
    requires Valid(q) && q.entries != []
    ensures Valid(QueryDict(q.entries[..|q.entries| - 1]))
    ensures IndexOf(q.entries[..|q.entries| - 1], q.entries[|q.entries| - 1].0).None?
  {
  }

  /** Rebuilding a dictionary from its pairs gives it back. */
  lemma {:induction false} AppendAllFlatten(q: QueryDict)
    requires Valid(q)
    ensures AppendAll(Empty, Flatten(q.entries)) == q
    decreases |q.entries|
  {
    var es := q.entries;
    if es != [] {
      var init := QueryDict(es[..|es| - 1]);
      var last := es[|es| - 1];
      PrefixMissingLast(q);
      AppendAllFlatten(init);
      AppendAllConcat(Empty, Flatten(init.entries), Pairs(last.0, last.1));
      AppendAllPairs(init, last.0, last.1);
      assert init.entries + [last] == es;
    }
  }

  /** `QueryDict(q.urlencode()) == q`: encoding loses nothing, not even key order. */
  lemma ParseUrlEncode(q: QueryDict)
    requires Valid(q)
    ensures Parse(UrlEncode(q)) == q
  {
    ParseQslEncodePairs(Flatten(q.entries));
    AppendAllFlatten(q);
  }

  /** After `q.appendlist(k, v)`, `k` has its old values followed by `v`,
      every other key keeps its values, and the keys are the old ones plus `k`. */
  lemma AppendListEffect(q: QueryDict, k: string, v: string)
    requires Valid(q)
    ensures Valid(AppendList(q, k, v))
    ensures GetList(AppendList(q, k, v), k) == GetList(q, k) + [v]
    ensures forall k' :: k' != k ==> GetList(AppendList(q, k, v), k') == GetList(q, k')
    ensures forall k' :: Has(AppendList(q, k, v), k') <==> Has(q, k') || k' == k
  {
    var r := AppendList(q, k, v);
    match IndexOf(q.entries, k)
    case Some(i) =>
      var e := (k, q.entries[i].1 + [v]);
      forall k' ensures GetList(r, k') == (if k' == k then GetList(q, k) + [v] else GetList(q, k')) {
        IndexOfUpdate(q.entries, i, e, k');
      }
      forall k' ensures Has(r, k') <==> Has(q, k') || k' == k {
        IndexOfUpdate(q.entries, i, e, k');
      }
    case None =>
      forall k' ensures GetList(r, k') == (if k' == k then [v] else GetList(q, k')) {
        IndexOfAppend(q.entries, (k, [v]), k');
      }
      forall k' ensures Has(r, k') <==> Has(q, k') || k' == k {
        IndexOfAppend(q.entries, (k, [v]), k');
      }
  }

  lemma {:induction false} AppendAllValid(q: QueryDict, pairs: seq<(string, string)>)
    requires Valid(q)
    ensures Valid(AppendAll(q, pairs))
    decreases |pairs|
  {
    if pairs != [] {
      AppendListEffect(q, pairs[0].0, pairs[0].1);
      AppendAllValid(AppendList(q, pairs[0].0, pairs[0].1), pairs[1..]);
    }
  }

  /** Every dictionary parsed from a query string is valid. */
  lemma ParseValid(qs: string)
    ensures Valid(Parse(qs))
  {
    AppendAllValid(Empty, ParseQsl(qs));
  }
}
