/**
 * The request handling of the table view: the htmx GET classifier, the
 * parameter plumbing around it and the plain-GET export. The ORM, the
 * filtersets and the `tables_pro.utils` helpers are opaque here: record sets
 * are descriptions (`RecordSet`), helper calls are values (`UtilCall`), and
 * what `visible_columns` returns is a parameter.
 */
module TablesProViews {
  import opened Wrappers
  import opened Strings
  import opened UrlCoding
  import opened QueryDicts

  /** The htmx headers of a request as django-htmx exposes them: `isHtmx` is
      the truth of `request.htmx`; a missing header is `None`. */
  datatype Htmx = Htmx(
    isHtmx: bool,
    trigger: Option<string>,
    triggerName: Option<string>,
    target: Option<string>,
    currentUrl: Option<string>)

  datatype Request = Request(htmx: Htmx, path: string, get: QueryDict, post: QueryDict)

  /** The exceptions that escape the view code. */
  datatype Error =
    | BadHtmxGet                   // ValueError("Bad htmx get request")
    | InvalidLiteral(text: string) // ValueError raised by int()
    | NoneTypeError                // TypeError: None used as a string or called
    | NoneAttributeError           // AttributeError: a string method called on None
    | IndexOutOfRange              // IndexError
    | MissingKey(key: string)      // KeyError (MultiValueDictKeyError)
    | NoModel                      // ValueError("Model must be specified for SelectedMixin")

  /** A queryset, described by how it was obtained. */
  datatype RecordSet =
    | AllRecords
    | WithIds(ids: seq<string>)
    | FilteredBy(query: QueryDict)

  /** A call into the session helpers of `tables_pro.utils`. */
  datatype UtilCall =
    | SaveColumns(columns: seq<string>)
    | SetColumn(column: string, checked: bool)
    | SavePerPage(rows: Option<string>)

  /** What the view reads of its own and its table class's configuration. */
  datatype ViewConfig = ViewConfig(
    baseColumns: seq<string>,
    defaultColumns: Option<seq<string>>,
    hasFilterset: bool,
    exportFormat: string,
    exportName: string)

  /** `Meta.default_columns` when the table class defines it, else the keys of `base_columns`. */
  function DefaultColumns(cfg: ViewConfig): seq<string> {
    match cfg.defaultColumns
    case Some(d) => d
    case None => cfg.baseColumns
  }

  /** `str(v)` of a header value. */
  function Text(v: Option<string>): string {
    match v
    case Some(s) => s
    case None => "None"
  }

  /** `xs[n]` with Python's negative indexing; `None` where it raises IndexError. */
  function PyIndex<T>(xs: seq<T>, n: int): (r: Option<T>)
    ensures r.Some? <==> -|xs| <= n < |xs|
    ensures 0 <= n < |xs| ==> r == Some(xs[n])
    ensures -|xs| <= n < 0 ==> r == Some(xs[|xs| + n])
  {
    if 0 <= n < |xs| then Some(xs[n])
    else if -|xs| <= n < 0 then Some(xs[|xs| + n])
    else None
  }

  /** `_update_parameter`: the request's path and its GET data with `key` set to `value`. */
  function UpdateParameter(req: Request, key: string, value: string): string {
    req.path + "?" + UrlEncode(SetItem(req.get, key, value))
  }

  /** The query of the new URL reads back as the GET data with `key` mapped
      to `value` alone, every other parameter unchanged. */
  lemma UpdateParameterEffect(req: Request, key: string, value: string)
    requires Valid(req.get)
    ensures var url := UpdateParameter(req, key, value);
      var qd := Parse(url[|req.path| + 1..]);
      url[..|req.path| + 1] == req.path + "?" &&
      qd == SetItem(req.get, key, value) &&
      Get(qd, key) == Some(value) &&
      (forall k :: k != key ==> GetList(qd, k) == GetList(req.get, k)) &&
      (forall k :: Has(qd, k) <==> Has(req.get, k) || k == key)
  {
    var url := UpdateParameter(req, key, value);
    var q := SetItem(req.get, key, value);
    assert url[|req.path| + 1..] == UrlEncode(q);
    SetItemEffect(req.get, key, value);
    ParseUrlEncode(q);
  }

  /** A trigger containing a pattern with `_` splits on `_` into at least two parts. */
  lemma SplitOfUnderscored(t: string, p: string, j: nat)
    requires Contains(t, p) && j < |p| && p[j] == '_'
    ensures |Split(t, {'_'})| >= 2
  {
    ContainsChar(t, p, j);
    var i :| 0 <= i < |t| && t[i] == p[j];
    SplitHasSep(t, {'_'}, i);
  }

  /** The column a cell id names: `visible[int(bits[2])]`. */
  function CellColumn(bits: seq<string>, visible: seq<string>): Result<string, Error> {
    if |bits| < 3 then Err(IndexOutOfRange)
    else match ParseInt(bits[2])
      case None => Err(InvalidLiteral(bits[2]))
      case Some(n) =>
        match PyIndex(visible, n)
        case None => Err(IndexOutOfRange)
        case Some(c) => Ok(c)
  }

  /** What `get_htmx` does, one constructor per branch. */
  datatype GetAction =
    | RenderSized                                   // size_query: whole block re-rendered
    | RefreshTableData                              // table_data: table data re-rendered
    | ShowFilter                                    // filter modal
    | FilterFormChanged                             // filter_form: table data re-rendered
    | ToggleColumn(column: string, checked: bool)   // set_column, then table data re-rendered
    | SetRows(rows: Option<string>, url: string)    // save_per_page, then client redirect
    | ResetColumns(columns: seq<string>)            // save_columns, then client refresh
    | RenderRows                                    // infinite scroll: more rows
    | RowClicked(pk: string, target: Option<string>, currentUrl: Option<string>)
    | CellClicked(pk: string, column: string, target: Option<string>)
    | FilterChanged(url: string)                    // client redirect

  /** The substrings looked for in the trigger, in order, by branches 4 to 9. */
  const TriggerKeys: seq<string> := ["id_col", "id_row", "default", "tr_", "td_", "id_"]

  /** Whether branch `b` (0 to 9) of `get_htmx` would be taken on its own test. */
  predicate Matches(cfg: ViewConfig, h: Htmx, b: nat) {
    if b == 0 then h.trigger == Some("size_query")
    else if b == 1 then h.trigger == Some("table_data")
    else if b == 2 then h.triggerName == Some("filter") && cfg.hasFilterset
    else if b == 3 then h.triggerName == Some("filter_form")
    else if b < 10 then h.trigger.Some? && Contains(h.trigger.value, TriggerKeys[b - 4])
    else false
  }

  /** The branch `get_htmx` takes: the first whose test passes. */
  function Selected(cfg: ViewConfig, h: Htmx, from: nat): (r: Option<nat>)
    requires from <= 10
    ensures r.Some? ==>
      from <= r.value < 10 && Matches(cfg, h, r.value) &&
      forall b :: from <= b < r.value ==> !Matches(cfg, h, b)
    ensures r.None? ==> forall b :: from <= b < 10 ==> !Matches(cfg, h, b)
    decreases 10 - from
  {
    if from == 10 then None
    else if Matches(cfg, h, from) then Some(from)
    else Selected(cfg, h, from + 1)
  }

  /** The branch an action comes from. */
  function BranchOf(a: GetAction): nat {
    match a
    case RenderSized => 0
    case RefreshTableData => 1
    case ShowFilter => 2
    case FilterFormChanged => 3
    case ToggleColumn(_, _) => 4
    case SetRows(_, _) => 5
    case ResetColumns(_) => 6
    case RenderRows => 7
    case RowClicked(_, _, _) => 7
    case CellClicked(_, _, _) => 8
    case FilterChanged(_) => 9
  }

  /** `get_htmx`, with `visible` what `visible_columns` returns for the request. */
  function Classify(cfg: ViewConfig, req: Request, visible: seq<string>): Result<GetAction, Error> {
    var h := req.htmx;
    if h.trigger == Some("size_query") then Ok(RenderSized)
    else if h.trigger == Some("table_data") then Ok(RefreshTableData)
    else if h.triggerName == Some("filter") && cfg.hasFilterset then Ok(ShowFilter)
    else if h.triggerName == Some("filter_form") then Ok(FilterFormChanged)
    else match h.trigger
      // `"id_col" in None` raises TypeError
      case None => Err(NoneTypeError)
      case Some(t) => ClassifyTrigger(cfg, req, visible, t)
  }

  /** Branches 4 to 9 of `get_htmx`, on the trigger `t`. */
  function ClassifyTrigger(cfg: ViewConfig, req: Request, visible: seq<string>, t: string): Result<GetAction, Error> {
    var h := req.htmx;
    if Contains(t, "id_col") then
      match h.triggerName
      case None => Err(NoneTypeError)
      case Some(n) => Ok(ToggleColumn(SliceFrom(n, 4), Has(req.get, n)))
    else if Contains(t, "id_row") then
      Ok(SetRows(h.triggerName, UpdateParameter(req, "per_page", Text(h.triggerName))))
    else if Contains(t, "default") then
      Ok(ResetColumns(DefaultColumns(cfg)))
    else if Contains(t, "tr_") then
      if Has(req.get, "_scroll") then Ok(RenderRows)
      else
        SplitOfUnderscored(t, "tr_", 2);
        Ok(RowClicked(Split(t, {'_'})[1], h.target, h.currentUrl))
    else if Contains(t, "td_") then
      SplitOfUnderscored(t, "td_", 2);
      var bits := Split(t, {'_'});
      match CellColumn(bits, visible)
      case Err(e) => Err(e)
      case Ok(c) => Ok(CellClicked(bits[1], c, h.target))
    else if Contains(t, "id_") then
      match h.triggerName
      // `query_dict[None] = …` then `None.encode` in `urlencode`
      case None => Err(NoneAttributeError)
      case Some(n) => Ok(FilterChanged(UpdateParameter(req, n, GetOr(req.get, n, ""))))
    else Err(BadHtmxGet)
  }

  /** The branches are tried in a fixed order and the first match wins: a
      successful action comes from the selected branch, an error only from
      branches 4, 8 and 9 (a missing trigger name or a bad cell id), and a
      request no branch matches raises `ValueError` (or, with no trigger at
      all, the TypeError of the first substring test). */
  lemma ClassifyFirstMatch(cfg: ViewConfig, req: Request, visible: seq<string>)
    ensures AgreesWith(Classify(cfg, req, visible), Selected(cfg, req.htmx, 0),
                       if req.htmx.trigger.None? then NoneTypeError else BadHtmxGet)
  {
    var h := req.htmx;
    SelectedSteps(cfg, h);
    if !Matches(cfg, h, 0) && !Matches(cfg, h, 1) && !Matches(cfg, h, 2) && !Matches(cfg, h, 3) {
      if h.trigger.None? {
        assert forall b :: 4 <= b < 10 ==> !Matches(cfg, h, b);
      } else {
        TriggerFirstMatch(cfg, req, visible, h.trigger.value);
      }
    }
  }

  /** `r` is what the selected branch `sel` can give: an action of that
      branch, or an error only from branch 4, 8 or 9; with no branch
      selected, the error `unmatched`. */
  predicate AgreesWith(r: Result<GetAction, Error>, sel: Option<nat>, unmatched: Error) {
    match sel
    case Some(b) =>
      (r.Ok? ==> BranchOf(r.value) == b) &&
      (r.Err? ==> (b == 4 || b == 8 || b == 9))
    case None => r == Err(unmatched)
  }

  /** The same for branches 4 to 9, on a trigger `t`. */
  lemma TriggerFirstMatch(cfg: ViewConfig, req: Request, visible: seq<string>, t: string)
    requires req.htmx.trigger == Some(t)
    ensures AgreesWith(ClassifyTrigger(cfg, req, visible, t), Selected(cfg, req.htmx, 4), BadHtmxGet)
  {
    var h := req.htmx;
    SelectedFromTrigger(cfg, h, t);
    var r := ClassifyTrigger(cfg, req, visible, t);
    if Contains(t, "id_col") {
      assert r.Ok? ==> r.value.ToggleColumn?;
    } else if Contains(t, "id_row") {
      assert r.Ok? && r.value.SetRows?;
    } else if Contains(t, "default") {
      assert r.Ok? && r.value.ResetColumns?;
    } else if Contains(t, "tr_") {
      assert r.Ok? && (r.value.RenderRows? || r.value.RowClicked?);
    } else if Contains(t, "td_") {
      assert r.Ok? ==> r.value.CellClicked?;
    } else if Contains(t, "id_") {
      assert r.Ok? ==> r.value.FilterChanged?;
    }
  }

  /** From branch 4 on, the branch taken is the first trigger key `t` contains. */
  lemma SelectedFromTrigger(cfg: ViewConfig, h: Htmx, t: string)
    requires h.trigger == Some(t)
    ensures Selected(cfg, h, 4) ==
      if Contains(t, "id_col") then Some(4)
      else if Contains(t, "id_row") then Some(5)
      else if Contains(t, "default") then Some(6)
      else if Contains(t, "tr_") then Some(7)
      else if Contains(t, "td_") then Some(8)
      else if Contains(t, "id_") then Some(9)
      else None
  {
    SelectedSteps(cfg, h);
    assert Matches(cfg, h, 4) == Contains(t, "id_col");
    assert Matches(cfg, h, 5) == Contains(t, "id_row");
    assert Matches(cfg, h, 6) == Contains(t, "default");
    assert Matches(cfg, h, 7) == Contains(t, "tr_");
    assert Matches(cfg, h, 8) == Contains(t, "td_");
    assert Matches(cfg, h, 9) == Contains(t, "id_");
  }

  /** `Selected` unrolled: each branch in turn. */
  lemma SelectedSteps(cfg: ViewConfig, h: Htmx)
    ensures forall k :: 0 <= k < 10 ==>
      Selected(cfg, h, k) == if Matches(cfg, h, k) then Some(k) else Selected(cfg, h, k + 1)
    ensures Selected(cfg, h, 10) == None
  {
  }

  /** A column toggle names the column by `trigger_name[4:]` and is checked
      exactly when the trigger name is a GET key; "default" restores the
      configured default columns whatever was saved; a bad cell id is an
      IndexError or ValueError. */
  lemma ClassifyBranches(cfg: ViewConfig, req: Request, visible: seq<string>)
    ensures var h := req.htmx;
      Selected(cfg, h, 0) == Some(4) && h.triggerName.Some? ==>
        Classify(cfg, req, visible) ==
          Ok(ToggleColumn(SliceFrom(h.triggerName.value, 4), Has(req.get, h.triggerName.value)))
    ensures Selected(cfg, req.htmx, 0) == Some(6) ==>
      Classify(cfg, req, visible) == Ok(ResetColumns(DefaultColumns(cfg)))
    ensures var h := req.htmx;
      Selected(cfg, h, 0) == Some(8) ==>
        match Classify(cfg, req, visible)
        case Ok(a) => a.CellClicked? && a.target == h.target
        case Err(e) => e == IndexOutOfRange || e.InvalidLiteral?
  {
    var h := req.htmx;
    SelectedSteps(cfg, h);
    if h.trigger.Some? {
      var t := h.trigger.value;
      assert Matches(cfg, h, 4) == Contains(t, "id_col");
      assert Matches(cfg, h, 5) == Contains(t, "id_row");
      assert Matches(cfg, h, 6) == Contains(t, "default");
      assert Matches(cfg, h, 7) == Contains(t, "tr_");
      assert Matches(cfg, h, 8) == Contains(t, "td_");
    }
  }

  /** `query_dict`: the current URL's query, parsed only when splitting the
      URL on `?` gives exactly two parts. */
  function QueryDictOf(h: Htmx): Result<QueryDict, Error> {
    match h.currentUrl
    case None => Err(NoneAttributeError)
    case Some(url) =>
      var bits := Split(url, {'?'});
      if |bits| == 2 then Ok(Parse(bits[1])) else Ok(Empty)
  }

  /** A current URL made of a path and an encoded dictionary gives that dictionary
      back; a URL with no `?` or with two gives an empty one. */
  lemma QueryDictOfUrl(h: Htmx, path: string, q: QueryDict)
    requires Valid(q) && Avoids(path, {'?'}) && h.currentUrl == Some(path + "?" + UrlEncode(q))
    ensures QueryDictOf(h) == Ok(q)
  {
    EncodePairsNoQuestion(Flatten(q.entries));
    SplitPrefix(path, UrlEncode(q), '?', {'?'});
    assert path + "?" + UrlEncode(q) == path + ['?'] + UrlEncode(q);
    SplitAvoiding(UrlEncode(q), {'?'});
    ParseUrlEncode(q);
  }

  lemma QueryDictOfNoQuery(h: Htmx, url: string)
    requires h.currentUrl == Some(url)
    requires Avoids(url, {'?'}) || (exists i, j :: 0 <= i < j < |url| && url[i] == '?' && url[j] == '?')
    ensures QueryDictOf(h) == Ok(Empty)
  {
    if Avoids(url, {'?'}) {
      SplitAvoiding(url, {'?'});
    } else {
      var i, j :| 0 <= i < j < |url| && url[i] == '?' && url[j] == '?';
      SplitTwoSeps(url, {'?'}, i, j);
    }
  }

  /** A string with two separators splits into at least three parts. */
  lemma {:induction false} SplitTwoSeps(s: string, seps: set<char>, i: nat, j: nat)
    requires i < j < |s| && s[i] in seps && s[j] in seps
    ensures |Split(s, seps)| >= 3
    decreases |s|
  {
    if s[0] in seps {
      if i == 0 {
        SplitHasSep(s[1..], seps, j - 1);
      } else {
        SplitTwoSeps(s[1..], seps, i - 1, j - 1);
      }
    } else {
      SplitTwoSeps(s[1..], seps, i - 1, j - 1);
    }
  }

  /** The page step of `filtered_query_set(next=True)`: a missing `page`
      becomes `"2"`, an existing one `page + 1`. */
  function NextPage(q: QueryDict): Result<QueryDict, Error> {
    if !Has(q, "page") then Ok(SetItem(q, "page", "2"))
    else match Get(q, "page")
      case None => Err(MissingKey("page"))
      case Some(p) =>
        match ParseInt(p)
        case None => Err(InvalidLiteral(p))
        case Some(n) => Ok(SetItem(q, "page", IntToString(n + 1)))
  }

  lemma NextPageEffect(q: QueryDict)
    requires Valid(q)
    ensures !Has(q, "page") ==> NextPage(q).Ok? && Get(NextPage(q).value, "page") == Some("2")
    ensures Has(q, "page") && ParseInt(Get(q, "page").value).Some? ==>
      NextPage(q).Ok? && Get(NextPage(q).value, "page").Some? &&
      ParseInt(Get(NextPage(q).value, "page").value) == Some(ParseInt(Get(q, "page").value).value + 1)
    ensures Has(q, "page") && ParseInt(Get(q, "page").value).None? ==>
      NextPage(q) == Err(InvalidLiteral(Get(q, "page").value))
    ensures NextPage(q).Ok? ==>
      Valid(NextPage(q).value) &&
      forall k :: k != "page" ==> GetList(NextPage(q).value, k) == GetList(q, k)
  {
    if !Has(q, "page") {
      SetItemEffect(q, "page", "2");
    } else {
      assert q.entries[IndexOf(q.entries, "page").value].1 != [];
      var p := Get(q, "page").value;
      if ParseInt(p).Some? {
        var n := ParseInt(p).value;
        SetItemEffect(q, "page", IntToString(n + 1));
        ParseIntOfIntToString(n + 1);
      }
    }
  }

  /** `filtered_query_set`: the filterset applied to the current URL's query. */
  function FilteredQuerySet(cfg: ViewConfig, req: Request, next: bool): Result<RecordSet, Error> {
    match QueryDictOf(req.htmx)
    case Err(e) => Err(e)
    case Ok(qd) =>
      var qd' := if next then NextPage(qd) else Ok(qd);
      match qd'
      case Err(e) => Err(e)
      case Ok(q) =>
        // calling `filterset_class` when it is None raises TypeError
        if cfg.hasFilterset then Ok(FilteredBy(q)) else Err(NoneTypeError)
  }

  /** `get_export_filename`. */
  function ExportFilename(exportName: string, exportFormat: string): string {
    exportName + "." + exportFormat
  }

  /** The file name's extension is the format, whenever the format has no dot. */
  lemma ExportFilenameExtension(exportName: string, exportFormat: string)
    requires '.' !in exportFormat
    ensures AfterLast(ExportFilename(exportName, exportFormat), '.') == exportFormat
  {
    AfterLastOf(exportName, exportFormat, '.');
    assert exportName + "." + exportFormat == exportName + ['.'] + exportFormat;
  }

  /** The keys of the hidden columns. */
  function Hidden(columns: seq<(string, bool)>): (r: seq<string>)
    ensures forall k :: k in r <==> exists i :: 0 <= i < |columns| && columns[i] == (k, false)
    decreases |columns|
  {
    if columns == [] then []
    else
      var rest := Hidden(columns[1..]);
      assert forall i :: 1 <= i < |columns| ==> columns[i] == columns[1..][i - 1];
      if !columns[0].1 then [columns[0].0] + rest else rest
  }

  /** The exclude list of an export: every hidden column, then `selection`. */
  function ExportExcludes(columns: seq<(string, bool)>): (r: seq<string>)
    ensures |r| >= 1 && r[|r| - 1] == "selection"
    ensures forall k :: k in r[..|r| - 1] <==> exists i :: 0 <= i < |columns| && columns[i] == (k, false)
  {
    var h := Hidden(columns);
    assert (h + ["selection"])[..|h|] == h;
    h + ["selection"]
  }

  /** What a non-htmx GET with `_export` does: write `records` as `format`
      to `filename`, without the `exclude` columns. */
  datatype ExportPlan = ExportPlan(format: string, records: RecordSet, filename: string, exclude: seq<string>)

  datatype GetOutcome =
    | HtmxAction(action: Result<GetAction, Error>)
    | Export(plan: ExportPlan)
    | RenderPage

  /** `get`: `sessionIds` is the session's `selected_ids`, `filterUsable`
      whether the filterset is unbound, valid or not strict, `visible` what
      `visible_columns` returns and `columns` each column key with its
      visibility after the table is prepared. */
  function GetView(cfg: ViewConfig, req: Request, visible: seq<string>, sessionIds: Option<seq<string>>,
                   filterUsable: bool, columns: seq<(string, bool)>): GetOutcome {
    if req.htmx.isHtmx then HtmxAction(Classify(cfg, req, visible))
    else if Has(req.get, "_export") then
      var format := GetOr(req.get, "_export", cfg.exportFormat);
      var records :=
        match Get(req.get, "_subset")
        case Some("selected") => WithIds(sessionIds.GetOr([]))
        case Some("all") => if filterUsable then FilteredBy(req.get) else AllRecords
        case _ => AllRecords;
      Export(ExportPlan(format, records, "Export." + format, ExportExcludes(columns)))
    else RenderPage
  }

  /** `SelectedMixin.get_query_set`: the session's ids when there are any,
      else the filterset over GET when one is configured, else every record. */
  function SelectedRecords(hasModel: bool, sessionIds: Option<seq<string>>, hasFilterset: bool,
                           get: QueryDict): (r: Result<RecordSet, Error>)
    ensures !hasModel <==> r == Err(NoModel)
    ensures hasModel && sessionIds.Some? && sessionIds.value != [] ==> r == Ok(WithIds(sessionIds.value))
    ensures hasModel && (sessionIds.None? || sessionIds.value == []) ==>
      r == Ok(if hasFilterset then FilteredBy(get) else AllRecords)
  {
    if !hasModel then Err(NoModel)
    else
      var ids := sessionIds.GetOr([]);
      if ids != [] then Ok(WithIds(ids))
      else if hasFilterset then Ok(FilteredBy(get))
      else Ok(AllRecords)
  }

  /** The session as the view code touches it: the one key it writes itself
      (`selected_ids`) and the calls it makes to the session helpers. */
  class Session {
    var selectedIds: Option<seq<string>>
    var calls: seq<UtilCall>

    constructor (ids: Option<seq<string>>)
      ensures selectedIds == ids && calls == []
    {
      selectedIds := ids;
      calls := [];
    }
  }
}
