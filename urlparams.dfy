/**
 * Client-side string helpers of the table script: `removeURLParameter`
 * (query-string surgery) and the `td_<id>_<col>_<width>` cell id of a clicked
 * table cell.
 */
module TableScriptStrings {
  import opened Wrappers
  import opened Strings
  import UrlCoding

  /** The pairs of `pars` that do not start with `prefix`, in order. */
  function KeepPars(pars: seq<string>, prefix: string): (kept: seq<string>)
    ensures |kept| <= |pars|
    decreases |pars|
  {
    if pars == [] then []
    else if StartsWith(pars[0], prefix) then KeepPars(pars[1..], prefix)
    else [pars[0]] + KeepPars(pars[1..], prefix)
  }

  /** Exactly the pairs that do not start with `prefix` are kept. */
  lemma {:induction false} KeepParsMembers(pars: seq<string>, prefix: string)
    ensures forall x :: x in KeepPars(pars, prefix) <==> x in pars && !StartsWith(x, prefix)
    decreases |pars|
  {
    if pars != [] {
      KeepParsMembers(pars[1..], prefix);
      assert pars == [pars[0]] + pars[1..];
    }
  }

  /** The URL `removeURLParameter(url, parameter)` returns. */
  function RemovedParameter(url: string, parameter: string): string {
    var urlparts := Split(url, {'?'});
    if |urlparts| >= 2 then
      var prefix := UrlCoding.EncodeURIComponent(parameter) + "=";
      var pars := KeepPars(Split(urlparts[1], {'&', ';'}), prefix);
      urlparts[0] + (if |pars| > 0 then "?" + Join(pars, '&') else "")
    else url
  }

  lemma KeepParsAppend(pars: seq<string>, i: nat, prefix: string)
    requires i < |pars|
    ensures KeepPars(pars[i..], prefix)
      == (if StartsWith(pars[i], prefix) then [] else [pars[i]]) + KeepPars(pars[i + 1..], prefix)
  {
    assert pars[i..][1..] == pars[i + 1..];
  }

  /** One step of the reverse loop: splicing out pair `i` when it matches. */
  lemma SpliceStep(pars: seq<string>, pars0: seq<string>, i: nat, prefix: string)
    requires i < |pars0| && pars == pars0[..i + 1] + KeepPars(pars0[i + 1..], prefix)
    ensures i < |pars| && pars[i] == pars0[i]
    ensures StartsWith(pars0[i], prefix) ==> pars[..i] + pars[i + 1..] == pars0[..i] + KeepPars(pars0[i..], prefix)
    ensures !StartsWith(pars0[i], prefix) ==> pars == pars0[..i] + KeepPars(pars0[i..], prefix)
  {
    var k := KeepPars(pars0[i + 1..], prefix);
    assert pars0[i..][1..] == pars0[i + 1..];
    assert pars0[..i + 1] == pars0[..i] + [pars0[i]];
    assert pars == pars0[..i] + [pars0[i]] + k;
    if StartsWith(pars0[i], prefix) {
      assert KeepPars(pars0[i..], prefix) == k;
      assert pars[..i] == pars0[..i];
      assert pars[i + 1..] == k;
    } else {
      assert KeepPars(pars0[i..], prefix) == [pars0[i]] + k;
    }
  }

  /** `removeURLParameter`: the reverse loop that splices matching pairs out of `pars`. */
  method RemoveURLParameter(url: string, parameter: string) returns (r: string)
    ensures r == RemovedParameter(url, parameter)
  {
    var urlparts := Split(url, {'?'});
    if |urlparts| >= 2 {
      var prefix := UrlCoding.EncodeURIComponent(parameter) + "=";
      var pars := Split(urlparts[1], {'&', ';'});
      ghost var pars0 := pars;
      var i := |pars|;
      while i > 0
        invariant 0 <= i <= |pars0|
        invariant pars == pars0[..i] + KeepPars(pars0[i..], prefix)
      {
        SpliceStep(pars, pars0, i - 1, prefix);
        if StartsWith(pars[i - 1], prefix) {
          pars := pars[..i - 1] + pars[i..];
        }
        i := i - 1;
      }
      assert pars0[..0] == [] && pars0[0..] == pars0;
      assert pars == KeepPars(pars0, prefix);
      r := urlparts[0] + (if |pars| > 0 then "?" + Join(pars, '&') else "");
    } else {
      r := url;
    }
  }

  /** A URL without `?` comes back unchanged. */
  lemma NoQueryUnchanged(url: string, parameter: string)
    requires '?' !in url
    ensures RemovedParameter(url, parameter) == url
  {
    assert Avoids(url, {'?'});
    SplitAvoiding(url, {'?'});
  }

  /** Only the text between the first and a second `?` is the query: whatever
      follows a second `?` is dropped from the result. */
  lemma {:induction false} SecondQueryDropped(a: string, b: string, rest: string, parameter: string)
    requires Avoids(a, {'?'}) && Avoids(b, {'?'})
    ensures RemovedParameter(a + "?" + b + "?" + rest, parameter) == RemovedParameter(a + "?" + b, parameter)
  {
    SplitPrefix(a, b + "?" + rest, '?', {'?'});
    assert a + "?" + b + "?" + rest == a + ['?'] + (b + "?" + rest);
    SplitPrefix(b, rest, '?', {'?'});
    assert b + "?" + rest == b + ['?'] + rest;
    SplitPrefix(a, b, '?', {'?'});
    SplitAvoiding(b, {'?'});
    assert a + "?" + b == a + ['?'] + b;
  }

  lemma {:induction false} KeepParsNone(pars: seq<string>, prefix: string)
    requires forall i :: 0 <= i < |pars| ==> !StartsWith(pars[i], prefix)
    ensures KeepPars(pars, prefix) == pars
    decreases |pars|
  {
    if pars != [] {
      KeepParsNone(pars[1..], prefix);
    }
  }

  lemma {:induction false} KeepParsAvoid(pars: seq<string>, prefix: string, cs: set<char>)
    requires forall i :: 0 <= i < |pars| ==> Avoids(pars[i], cs)
    ensures forall i :: 0 <= i < |KeepPars(pars, prefix)| ==> Avoids(KeepPars(pars, prefix)[i], cs)
  {
    KeepParsMembers(pars, prefix);
    forall i | 0 <= i < |KeepPars(pars, prefix)| ensures Avoids(KeepPars(pars, prefix)[i], cs) {
      var x := KeepPars(pars, prefix)[i];
      assert x in pars;
    }
  }

  /** `base?query` splits at its one `?`. */
  lemma QuerySplit(base: string, query: string)
    requires Avoids(base, {'?'}) && Avoids(query, {'?'})
    ensures Split(base + "?" + query, {'?'}) == [base, query]
  {
    SplitPrefix(base, query, '?', {'?'});
    SplitAvoiding(query, {'?'});
    assert base + "?" + query == base + ['?'] + query;
  }

  /** Pairs free of `?`, `&` and `;` join into a query free of `?` that splits back into them. */
  lemma JoinedPairs(kept: seq<string>)
    requires |kept| > 0
    requires forall i :: 0 <= i < |kept| ==> Avoids(kept[i], {'?', '&', ';'})
    ensures Avoids(Join(kept, '&'), {'?'}) && Split(Join(kept, '&'), {'&', ';'}) == kept
  {
    forall i | 0 <= i < |kept| ensures Avoids(kept[i], {'?'}) && Avoids(kept[i], {'&', ';'}) {
      assert Avoids(kept[i], {'?', '&', ';'});
    }
    JoinAvoids(kept, '&', {'?'});
    SplitJoin(kept, '&', {'&', ';'});
  }

  /** A URL whose query pairs are already free of the parameter is left as it is. */
  lemma {:induction false} CleanQueryUnchanged(base: string, kept: seq<string>, parameter: string)
    requires Avoids(base, {'?'}) && |kept| > 0
    requires forall i :: 0 <= i < |kept| ==> Avoids(kept[i], {'?', '&', ';'})
    requires forall i :: 0 <= i < |kept| ==> !StartsWith(kept[i], UrlCoding.EncodeURIComponent(parameter) + "=")
    ensures RemovedParameter(base + "?" + Join(kept, '&'), parameter) == base + "?" + Join(kept, '&')
  {
    JoinedPairs(kept);
    QuerySplit(base, Join(kept, '&'));
    KeepParsNone(kept, UrlCoding.EncodeURIComponent(parameter) + "=");
  }

  /** Removing a parameter twice removes nothing more. */
  lemma RemoveIdempotent(url: string, parameter: string)
    ensures RemovedParameter(RemovedParameter(url, parameter), parameter) == RemovedParameter(url, parameter)
  {
    if |Split(url, {'?'})| >= 2 {
      var base, kept := RemovedParts(url, parameter);
      if |kept| == 0 {
        NoQueryUnchanged(base, parameter);
      } else {
        CleanQueryUnchanged(base, kept, parameter);
      }
    }
  }

  /** A URL with a query loses the parameter's pairs and keeps a base and
      pairs free of `?`, `&`, `;` and of the parameter. */
  lemma RemovedParts(url: string, parameter: string) returns (base: string, kept: seq<string>)
    requires |Split(url, {'?'})| >= 2
    ensures Avoids(base, {'?'})
    ensures forall i :: 0 <= i < |kept| ==> Avoids(kept[i], {'?', '&', ';'})
    ensures forall i :: 0 <= i < |kept| ==> !StartsWith(kept[i], UrlCoding.EncodeURIComponent(parameter) + "=")
    ensures RemovedParameter(url, parameter) == if |kept| > 0 then base + "?" + Join(kept, '&') else base
  {
    var urlparts := Split(url, {'?'});
    var prefix := UrlCoding.EncodeURIComponent(parameter) + "=";
    base := urlparts[0];
    var query := urlparts[1];
    assert Avoids(base, {'?'}) && Avoids(query, {'?'});
    var pars := Split(query, {'&', ';'});
    SplitKeepsAvoid(query, {'&', ';'}, {'?'});
    forall i | 0 <= i < |pars| ensures Avoids(pars[i], {'?', '&', ';'}) {
      assert Avoids(pars[i], {'?'});
    }
    kept := KeepPars(pars, prefix);
    KeepParsAvoid(pars, prefix, {'?', '&', ';'});
    KeepParsMembers(pars, prefix);
    forall i | 0 <= i < |kept| ensures !StartsWith(kept[i], prefix) {
      assert kept[i] in kept;
    }
  }

  /** The id a clicked editable cell is given: `td_<id>_<col>_<width>`. */
  function CellIdOf(id: string, col: nat, width: int): string {
    "td_" + id + "_" + NatToString(col) + "_" + IntToString(width)
  }

  /** The cell id `tableClick` builds for the cell at position `cellIndex` of a
      row whose id is `rowId`: the row id loses its first three characters
      (`tr_`), and the while loop over previous siblings counts `cellIndex` of them. */
  method CellId(rowId: string, cellIndex: nat, outerWidth: int) returns (tdId: string)
    ensures tdId == CellIdOf(SliceFrom(rowId, 3), cellIndex, outerWidth)
  {
    var id := SliceFrom(rowId, 3);
    var col := 0;
    var previous: int := cellIndex - 1;
    while previous >= 0
      invariant -1 <= previous < cellIndex
      invariant col + previous + 1 == cellIndex
      decreases previous + 1
    {
      previous := previous - 1;
      col := col + 1;
    }
    tdId := "td" + "_" + id + "_" + NatToString(col) + "_" + IntToString(outerWidth);
  }

  /** For a row id free of `_`, splitting the cell id on `_` gives back
      `td`, the row id, the column and the width, so the server reads the
      record at index 1 and the column at index 2. */
  lemma CellIdSplit(id: string, col: nat, width: int)
    requires Avoids(id, {'_'})
    ensures Split(CellIdOf(id, col, width), {'_'}) == ["td", id, NatToString(col), IntToString(width)]
    ensures ParseInt(Split(CellIdOf(id, col, width), {'_'})[2]) == Some(col)
  {
    var c := NatToString(col);
    var w := IntToString(width);
    IntTextAvoidsUnderscore(col);
    IntTextAvoidsUnderscore(width);
    assert Avoids("td", {'_'});
    var parts := ["td", id, c, w];
    forall i | 0 <= i < |parts| ensures Avoids(parts[i], {'_'}) { }
    SplitJoin(parts, '_', {'_'});
    JoinFour("td", id, c, w);
    assert "td_" == "td" + "_";
    ParseIntOfIntToString(col);
  }

  lemma IntTextAvoidsUnderscore(i: int)
    ensures Avoids(IntToString(i), {'_'})
  {
    var w := IntToString(i);
    if i >= 0 {
      forall j | 0 <= j < |w| ensures w[j] != '_' { assert IsDigit(w[j]); }
    } else {
      var d := NatToString(-i);
      forall j | 0 <= j < |w| ensures w[j] != '_' {
        if j > 0 { assert w[j] == d[j - 1] && IsDigit(d[j - 1]); }
      }
    }
  }

  lemma JoinFour(a: string, b: string, c: string, d: string)
    ensures Join([a, b, c, d], '_') == a + "_" + b + "_" + c + "_" + d
  {
    assert [a, b, c, d][1..] == [b, c, d];
    assert [b, c, d][1..] == [c, d];
    assert [c, d][1..] == [d];
    assert Join([d], '_') == d;
    assert Join([c, d], '_') == c + ['_'] + d;
    assert Join([b, c, d], '_') == b + ['_'] + (c + ['_'] + d);
    assert Join([a, b, c, d], '_') == a + ['_'] + (b + ['_'] + (c + ['_'] + d));
  }
}
