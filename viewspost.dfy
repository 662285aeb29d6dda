/**
 * The POST handler of the table view: an inline cell change, the column
 * form, and actions on the selected rows, of which export is answered with
 * a redirect to a plain GET that returns the file.
 */
module TablesProPost {
  import opened Wrappers
  import opened Strings
  import opened UrlCoding
  import opened QueryDicts
  import opened TablesProViews

  datatype PostAction =
    | CellChanged(pk: string, column: string, target: string)
    | ColumnsSaved(columns: seq<string>)  // save_columns, then the table data re-rendered
    | ExportRedirect(url: string)         // client redirect
    | CustomAction(action: string)        // handle_action; by default a client refresh

  /** The keys whose value is `on`, in order: the columns ticked in the column form. */
  function OnKeys(items: seq<(string, string)>): seq<string>
    decreases |items|
  {
    if items == [] then []
    else
      var n := |items| - 1;
      OnKeys(items[..n]) + (if items[n].1 == "on" then [items[n].0] else [])
  }

  /** A key is saved exactly when one of the items gives it the value `on`. */
  lemma {:induction false} OnKeysMembers(items: seq<(string, string)>)
    ensures forall k :: k in OnKeys(items) <==> exists i :: 0 <= i < |items| && items[i] == (k, "on")
    decreases |items|
  {
    if items != [] {
      var n := |items| - 1;
      OnKeysMembers(items[..n]);
      forall k ensures k in OnKeys(items) <==> exists i :: 0 <= i < |items| && items[i] == (k, "on") {
        if k in OnKeys(items[..n]) {
          var i :| 0 <= i < n && items[..n][i] == (k, "on");
          assert items[i] == (k, "on");
        }
        if exists i :: 0 <= i < |items| && items[i] == (k, "on") {
          var i :| 0 <= i < |items| && items[i] == (k, "on");
          if i < n {
            assert items[..n][i] == (k, "on");
          }
        }
      }
    }
  }

  /** The `columns_save` loop over `request.POST.items()`. */
  method ColumnsToSave(post: QueryDict) returns (columns: seq<string>)
    ensures columns == OnKeys(Items(post))
  {
    var items := Items(post);
    columns := [];
    for i := 0 to |items|
      invariant columns == OnKeys(items[..i])
    {
      assert items[..i + 1][..i] == items[..i];
      if items[i].1 == "on" {
        columns := columns + [items[i].0];
      }
    }
    assert items[..|items|] == items;
  }

  /** The rows an action applies to: `all` (and no ids) when `select_all` was
      posted, else the posted `select-checkbox` values. */
  datatype Selection = Selection(subset: string, ids: seq<string>, objects: Result<RecordSet, Error>)

  function SelectionOf(cfg: ViewConfig, req: Request): Selection {
    if Has(req.post, "select_all") then Selection("all", [], FilteredQuerySet(cfg, req, false))
    else
      var ids := GetList(req.post, "select-checkbox");
      Selection("selected", ids, Ok(WithIds(ids)))
  }

  /** The export format: the second `_`-separated field of the trigger name, or `csv`. */
  function ExportFormat(triggerName: string): string {
    var bits := Split(triggerName, {'_'});
    if |bits| > 1 then bits[1] else "csv"
  }

  /** The format is the text between the first and the second `_`, and
      `csv` when the name has no `_`. */
  lemma ExportFormatOf(a: string, b: string, rest: string)
    requires Avoids(a, {'_'}) && Avoids(b, {'_'})
    requires rest == "" || rest[0] == '_'
    ensures ExportFormat(a + "_" + b + rest) == b
  {
    assert a + "_" + b + rest == a + ['_'] + (b + rest);
    SplitPrefix(a, b + rest, '_', {'_'});
    if rest == "" {
      assert b + rest == b;
      SplitAvoiding(b, {'_'});
    } else {
      assert b + rest == b + ['_'] + rest[1..];
      SplitPrefix(b, rest[1..], '_', {'_'});
    }
  }

  lemma ExportFormatDefault(name: string)
    requires Avoids(name, {'_'})
    ensures ExportFormat(name) == "csv"
  {
    SplitAvoiding(name, {'_'});
  }

  /** The export parameters the redirect ends with. */
  function ExportQuery(format: string, subset: string): string {
    "_export=" + format + "&_subset=" + subset
  }

  /** The redirect target: the path and the posted query, an `&` when the
      query holds more than its `?`, then the export parameters. */
  function ExportUrl(path: string, query: string, format: string, subset: string): string {
    path + query + (if |query| > 1 then "&" else "") + ExportQuery(format, subset)
  }

  /** The target of an htmx POST when it names a table cell (`td_…`). */
  function CellTarget(h: Htmx): Option<string> {
    if h.isHtmx && h.target.Some? && h.target.value != "" && Contains(h.target.value, "td_")
    then h.target else None
  }

  /** Whether the handler gets as far as choosing the selection. */
  predicate ReachesSelection(req: Request) {
    CellTarget(req.htmx).None? && !Has(req.post, "columns_save")
  }

  /** Whether the handler gets as far as storing `selected_ids` in the session. */
  predicate WritesSession(cfg: ViewConfig, req: Request) {
    ReachesSelection(req) && SelectionOf(cfg, req).objects.Ok? &&
    req.htmx.triggerName.Some? && Contains(req.htmx.triggerName.value, "export")
  }

  /** `post`, with `visible` what `visible_columns` returns for the request. */
  function PostDecision(cfg: ViewConfig, req: Request, visible: seq<string>): Result<PostAction, Error> {
    match CellTarget(req.htmx)
    case Some(target) =>
      SplitOfUnderscored(target, "td_", 2);
      var bits := Split(target, {'_'});
      (match CellColumn(bits, visible)
       case Err(e) => Err(e)
       case Ok(c) => Ok(CellChanged(bits[1], c, target)))
    case None =>
      if Has(req.post, "columns_save") then Ok(ColumnsSaved(OnKeys(Items(req.post))))
      else
        var sel := SelectionOf(cfg, req);
        match sel.objects
        case Err(e) => Err(e)
        case Ok(_) =>
          match req.htmx.triggerName
          // `"export" in None` raises TypeError
          case None => Err(NoneTypeError)
          case Some(name) =>
            if Contains(name, "export") then
              match Get(req.post, "query")
              case None => Err(MissingKey("query"))
              case Some(query) => Ok(ExportRedirect(ExportUrl(req.path, query, ExportFormat(name), sel.subset)))
            else Ok(CustomAction(name))
  }

  /** The view object between the steps of a POST. */
  class TableView {
    const cfg: ViewConfig
    var selectedIds: Option<seq<string>>
    var selectedObjects: Option<RecordSet>

    constructor (config: ViewConfig)
      ensures cfg == config && selectedIds.None? && selectedObjects.None?
    {
      cfg := config;
      selectedIds := None;
      selectedObjects := None;
    }

    /** `post`: the column form saves the ticked columns through the session
        helper; an export stores the selected ids in the session before it
        reads the posted query, so a missing query still leaves them stored. */
    method Post(req: Request, visible: seq<string>, session: Session) returns (r: Result<PostAction, Error>)
      modifies this, session
      ensures r == PostDecision(cfg, req, visible)
      ensures session.calls == old(session.calls) +
        (if r.Ok? && r.value.ColumnsSaved? then [SaveColumns(r.value.columns)] else [])
      ensures session.selectedIds ==
        if WritesSession(cfg, req) then Some(SelectionOf(cfg, req).ids) else old(session.selectedIds)
      ensures ReachesSelection(req) ==>
        selectedIds == Some(SelectionOf(cfg, req).ids) &&
        selectedObjects == match SelectionOf(cfg, req).objects
          case Ok(o) => Some(o)
          case Err(_) => old(selectedObjects)
      ensures !ReachesSelection(req) ==>
        selectedIds == old(selectedIds) && selectedObjects == old(selectedObjects)
    {
      var h := req.htmx;
      var cell := CellTarget(h);
      if cell.Some? {
        var target := cell.value;
        SplitOfUnderscored(target, "td_", 2);
        var bits := Split(target, {'_'});
        var column := CellColumn(bits, visible);
        if column.Err? {
          return Err(column.error);
        }
        return Ok(CellChanged(bits[1], column.value, target));
      }
      if Has(req.post, "columns_save") {
        var columnList := ColumnsToSave(req.post);
        session.calls := session.calls + [SaveColumns(columnList)];
        return Ok(ColumnsSaved(columnList));
      }
      var subset: string;
      if Has(req.post, "select_all") {
        subset := "all";
        selectedIds := Some([]);
        var objects := FilteredQuerySet(cfg, req, false);
        if objects.Err? {
          return Err(objects.error);
        }
        selectedObjects := Some(objects.value);
      } else {
        subset := "selected";
        var ids := GetList(req.post, "select-checkbox");
        selectedIds := Some(ids);
        selectedObjects := Some(WithIds(ids));
      }
      if h.triggerName.None? {
        return Err(NoneTypeError);
      }
      var name := h.triggerName.value;
      if Contains(name, "export") {
        session.selectedIds := selectedIds;
        var format := ExportFormat(name);
        var query := Get(req.post, "query");
        if query.None? {
          return Err(MissingKey("query"));
        }
        var url := req.path + query.value;
        if |query.value| > 1 {
          url := url + "&";
        }
        assert url == req.path + query.value + (if |query.value| > 1 then "&" else "");
        url := url + ExportQuery(format, subset);
        assert subset == SelectionOf(cfg, req).subset;
        return Ok(ExportRedirect(url));
      }
      return Ok(CustomAction(name));
    }
  }

  /** Every character of `s` is left alone by `quote_plus`. */
  predicate Safe(s: string) {
    forall i :: 0 <= i < |s| ==> QuoteSafe(s[i] as int)
  }

  lemma EncodePairsEmpty(pairs: seq<(string, string)>)
    ensures EncodePairs(pairs) == "" <==> pairs == []
  {
    if pairs != [] {
      ParseFieldEncodeField(pairs[0]);
      JoinStarts(EncodeFields(pairs), '&');
    }
  }

  /** A pair of safe strings encodes as written. */
  lemma SafeField(name: string, value: string)
    requires Safe(name) && Safe(value)
    ensures EncodeField((name, value)) == name + "=" + value
  {
    QuotePlusSafe(name);
    QuotePlusSafe(value);
  }

  /** The parameter names and subsets the export uses are all safe. */
  lemma KeysSafe()
    ensures Safe("_export") && Safe("_subset") && Safe("all") && Safe("selected")
  {
  }

  /** Two pairs appended to an encoding follow an `&` unless nothing precedes them. */
  lemma EncodeTwoMore(ps: seq<(string, string)>, p1: (string, string), p2: (string, string))
    ensures var e := EncodePairs(ps);
      EncodePairs(ps + [p1, p2]) ==
      e + (if |"?" + e| > 1 then "&" else "") + (EncodeField(p1) + "&" + EncodeField(p2))
  {
    var e, f1, f2 := EncodePairs(ps), EncodeField(p1), EncodeField(p2);
    EncodePairsAppend(ps, p1);
    EncodePairsAppend(ps + [p1], p2);
    assert ps + [p1] + [p2] == ps + [p1, p2];
    EncodePairsEmpty(ps);
    if ps == [] {
      assert EncodePairs(ps + [p1, p2]) == f1 + "&" + f2;
      assert e + "" == [];
    } else {
      assert EncodePairs(ps + [p1, p2]) == e + "&" + f1 + "&" + f2;
      Regroup(e, "&", f1, "&", f2);
    }
  }

  lemma Regroup(a: string, b: string, c: string, d: string, e: string)
    ensures a + b + c + d + e == a + b + (c + d + e)
  {
  }

  /** Two safe pairs written out as `k1=v1&k2=v2` are their encoding. */
  lemma TwoFields(k1: string, v1: string, k2: string, v2: string, t1: string, t2: string)
    requires Safe(k1) && Safe(v1) && Safe(k2) && Safe(v2)
    requires t1 == k1 + "=" && t2 == "&" + k2 + "="
    ensures t1 + v1 + t2 + v2 == EncodeField((k1, v1)) + "&" + EncodeField((k2, v2))
  {
    SafeField(k1, v1);
    SafeField(k2, v2);
  }

  /** The export parameters are the encoding of the two pairs. */
  lemma ExportQueryFields(format: string, subset: string)
    requires Safe(format) && Safe(subset)
    ensures ExportQuery(format, subset) ==
      EncodeField(("_export", format)) + "&" + EncodeField(("_subset", subset))
  {
    KeysSafe();
    assert "_export=" == "_export" + "=";
    assert "&_subset=" == "&" + "_subset" + "=";
    TwoFields("_export", format, "_subset", subset, "_export=", "&_subset=");
  }

  /** Parsing a dictionary's encoding with two more pairs gives the
      dictionary with the two values appended. */
  lemma RedirectQueryParse(q: QueryDict, k1: string, v1: string, k2: string, v2: string)
    requires Valid(q)
    ensures Parse(EncodePairs(Flatten(q.entries) + [(k1, v1), (k2, v2)])) ==
      AppendList(AppendList(q, k1, v1), k2, v2)
  {
    var ps := Flatten(q.entries);
    var tail := [(k1, v1), (k2, v2)];
    ParseQslEncodePairs(ps + tail);
    assert Parse(EncodePairs(ps + tail)) == AppendAll(Empty, ps + tail);
    AppendAllConcat(Empty, ps, tail);
    AppendAllFlatten(q);
    assert AppendAll(Empty, ps + tail) == AppendAll(q, tail);
    var q1 := AppendList(q, k1, v1);
    assert tail[1..] == [(k2, v2)] && tail[1..][1..] == [];
    assert AppendAll(q, tail) == AppendAll(q1, tail[1..]);
    assert AppendAll(q1, tail[1..]) == AppendAll(AppendList(q1, k2, v2), []);
  }

  /** A path and a query string, neither holding `?`, split back apart. */
  lemma SplitAtQuestion(path: string, rest: string)
    requires Avoids(path, {'?'}) && Avoids(rest, {'?'})
    ensures Split(path + ['?'] + rest, {'?'}) == [path, rest]
  {
    SplitPrefix(path, rest, '?', {'?'});
    SplitAvoiding(rest, {'?'});
  }

  /** Two values appended under two different keys are the last values of
      those keys, and every other key keeps its values. */
  lemma AppendTwoEffect(q: QueryDict, k1: string, v1: string, k2: string, v2: string)
    requires Valid(q) && k1 != k2
    ensures var g := AppendList(AppendList(q, k1, v1), k2, v2);
      Get(g, k1) == Some(v1) && Get(g, k2) == Some(v2) &&
      forall k :: k != k1 && k != k2 ==> GetList(g, k) == GetList(q, k)
  {
    var q1 := AppendList(q, k1, v1);
    AppendListEffect(q, k1, v1);
    AppendListEffect(q1, k2, v2);
  }

  lemma UrlShape(path: string, e: string, sep: string, params: string)
    ensures path + ("?" + e) + sep + params == path + ['?'] + (e + sep + params)
  {
  }

  /** A URL built from the path, the encoded query and two more fields
      splits back into the path and a query holding both fields last. */
  lemma UrlParseTwo(path: string, q: QueryDict, k1: string, v1: string, k2: string, v2: string, tail: string)
    requires Avoids(path, {'?'}) && Valid(q) && k1 != k2
    requires tail == EncodeField((k1, v1)) + "&" + EncodeField((k2, v2))
    ensures var e := UrlEncode(q);
      var parts := Split(path + ("?" + e) + (if |"?" + e| > 1 then "&" else "") + tail, {'?'});
      |parts| == 2 && parts[0] == path &&
      var g := Parse(parts[1]);
      Get(g, k1) == Some(v1) && Get(g, k2) == Some(v2) &&
      forall k :: k != k1 && k != k2 ==> GetList(g, k) == GetList(q, k)
  {
    var e := UrlEncode(q);
    var sep := if |"?" + e| > 1 then "&" else "";
    var ps := Flatten(q.entries) + [(k1, v1), (k2, v2)];
    var rest := e + sep + tail;
    EncodeTwoMore(Flatten(q.entries), (k1, v1), (k2, v2));
    assert rest == EncodePairs(ps);
    RedirectQueryParse(q, k1, v1, k2, v2);
    UrlShape(path, e, sep, tail);
    EncodePairsNoQuestion(ps);
    SplitAtQuestion(path, rest);
    AppendTwoEffect(q, k1, v1, k2, v2);
  }

  /** The redirect URL splits back into the path and a query string holding
      the posted parameters followed by `_export` and `_subset`. */
  lemma ExportUrlParse(path: string, q: QueryDict, format: string, subset: string)
    requires Avoids(path, {'?'}) && Valid(q) && Safe(format) && Safe(subset)
    ensures var parts := Split(ExportUrl(path, "?" + UrlEncode(q), format, subset), {'?'});
      |parts| == 2 && parts[0] == path &&
      var g := Parse(parts[1]);
      Get(g, "_export") == Some(format) && Get(g, "_subset") == Some(subset) &&
      forall k :: k != "_export" && k != "_subset" ==> GetList(g, k) == GetList(q, k)
  {
    ExportQueryFields(format, subset);
    assert "_export"[1] != "_subset"[1];
    UrlParseTwo(path, q, "_export", format, "_subset", subset, ExportQuery(format, subset));
  }

  /** The POSTed export comes back as a GET whose `_export` is the format
      and whose `_subset` is the POST's subset, every other parameter as
      the posted query had it. */
  lemma ExportRedirectRoundTrip(cfg: ViewConfig, req: Request, visible: seq<string>, q: QueryDict)
    requires ReachesSelection(req) && SelectionOf(cfg, req).objects.Ok?
    requires req.htmx.triggerName.Some? && Contains(req.htmx.triggerName.value, "export")
    requires Get(req.post, "query") == Some("?" + UrlEncode(q)) && Valid(q)
    requires Avoids(req.path, {'?'}) && Safe(ExportFormat(req.htmx.triggerName.value))
    ensures var r := PostDecision(cfg, req, visible);
      r.Ok? && r.value.ExportRedirect? &&
      var parts := Split(r.value.url, {'?'});
      |parts| == 2 && parts[0] == req.path &&
      var g := Parse(parts[1]);
      Get(g, "_export") == Some(ExportFormat(req.htmx.triggerName.value)) &&
      Get(g, "_subset") == Some(SelectionOf(cfg, req).subset) &&
      forall k :: k != "_export" && k != "_subset" ==> GetList(g, k) == GetList(q, k)
  {
    var format := ExportFormat(req.htmx.triggerName.value);
    var subset := SelectionOf(cfg, req).subset;
    KeysSafe();
    assert PostDecision(cfg, req, visible) ==
      Ok(ExportRedirect(ExportUrl(req.path, "?" + UrlEncode(q), format, subset)));
    ExportUrlParse(req.path, q, format, subset);
  }

  /** …and that GET, made without htmx, exports in that format to
      `Export.<format>`: the session's ids for `selected`, the filtered
      records for `all` when the filterset is usable. */
  lemma ExportGetPlan(cfg: ViewConfig, path: string, g: QueryDict, format: string, subset: string,
                      visible: seq<string>, sessionIds: Option<seq<string>>, filterUsable: bool,
                      columns: seq<(string, bool)>)
    requires Get(g, "_export") == Some(format) && Get(g, "_subset") == Some(subset)
    ensures var req := Request(Htmx(false, None, None, None, None), path, g, Empty);
      var out := GetView(cfg, req, visible, sessionIds, filterUsable, columns);
      out.Export? && out.plan.format == format && out.plan.filename == "Export." + format &&
      (subset == "selected" ==> out.plan.records == WithIds(sessionIds.GetOr([]))) &&
      (subset == "all" ==> out.plan.records == if filterUsable then FilteredBy(g) else AllRecords)
  {
  }

  /** An export with `select_all` stores no ids, so a follow-up view using
      `SelectedMixin` falls back to the filterset over its GET data. */
  lemma SelectAllExportClearsIds(cfg: ViewConfig, req: Request, get: QueryDict, hasFilterset: bool)
    requires WritesSession(cfg, req) && Has(req.post, "select_all")
    ensures SelectionOf(cfg, req).ids == []
    ensures SelectedRecords(true, Some(SelectionOf(cfg, req).ids), hasFilterset, get) ==
      Ok(if hasFilterset then FilteredBy(get) else AllRecords)
  {
  }
}
