/**
 * What the table view adds to a django-tables2 table before rendering it:
 * the click target, which columns are shown, the editable columns and the
 * per-column filter fields of the header filter style; and the column
 * states the column menu lists.
 */
module TablesProTable {
  import opened Wrappers
  import opened TablesProViews

  /** `TablesProView.FilterStyle`. */
  datatype FilterStyle = NoFilter | Toolbar | Modal | Header

  /** A bound column: its key, its verbose name (`""` when it has none) and whether it is shown. */
  datatype Column = Column(key: string, verboseName: string, visible: bool)

  /** The filterset given to the table: the keys it can filter on, and its style. */
  datatype FilterSet = FilterSet(baseFilters: seq<string>, style: FilterStyle)

  /** The view attributes that `preprocess_table` copies onto the table. */
  datatype TableSettings = TableSettings(
    infiniteScroll: bool,
    infiniteLoad: bool,
    stickyHeader: bool,
    clickMethod: string,
    clickUrlName: string,
    clickTarget: string,
    filterStyle: FilterStyle)

  function Keys(cols: seq<Column>): (ks: seq<string>)
    ensures |ks| == |cols| && forall i :: 0 <= i < |cols| ==> ks[i] == cols[i].key
  {
    seq(|cols|, i requires 0 <= i < |cols| => cols[i].key)
  }

  /** Where the column `k` is, if there is one. */
  function ColumnIndex(cols: seq<Column>, k: string): (r: Option<nat>)
    ensures r.Some? ==> r.value < |cols| && cols[r.value].key == k && forall j :: 0 <= j < r.value ==> cols[j].key != k
    ensures r.None? ==> forall j :: 0 <= j < |cols| ==> cols[j].key != k
    decreases |cols|
  {
    if cols == [] then None
    else if cols[0].key == k then Some(0)
    else match ColumnIndex(cols[1..], k)
      case None => None
      case Some(i) => Some(i + 1)
  }

  /** `table.columns.columns[k].visible`. */
  function IsVisible(cols: seq<Column>, k: string): bool {
    match ColumnIndex(cols, k)
    case Some(i) => cols[i].visible
    case None => false
  }

  /** `base_columns[k].verbose_name`. */
  function VerboseOf(cols: seq<Column>, k: string): string {
    match ColumnIndex(cols, k)
    case Some(i) => cols[i].verboseName
    case None => ""
  }

  /** `reverse(...)[:-2]`: the URL reversed with `pk=0`, less its final `0/`. */
  function DropLastTwo(s: string): (r: string)
    ensures |s| >= 2 ==> r + s[|s| - 2..] == s
    ensures |s| < 2 ==> r == ""
  {
    if |s| >= 2 then s[..|s| - 2] else ""
  }

  /** The click URL and whether a primary key is to be appended to it.
      `reverseNoPk` and `reversePk` are what `reverse` gives for the URL name
      without and with `pk=0`, `None` where it raises NoReverseMatch. */
  function ClickUrl(urlName: string, reverseNoPk: Option<string>, reversePk: Option<string>): (r: (string, bool))
    ensures urlName == "" ==> r == ("", false)
    ensures urlName != "" && reverseNoPk.Some? ==> r == (reverseNoPk.value, false)
    ensures urlName != "" && reverseNoPk.None? && reversePk.Some? ==>
      r == (DropLastTwo(reversePk.value), true) &&
      (|reversePk.value| >= 2 ==> r.0 + reversePk.value[|reversePk.value| - 2..] == reversePk.value)
    ensures r.1 <==> urlName != "" && reverseNoPk.None? && reversePk.Some?
    ensures urlName != "" && reverseNoPk.None? && reversePk.None? ==> r == ("", false)
  {
    if urlName == "" then ("", false)
    else match reverseNoPk
      case Some(u) => (u, false)
      case None =>
        match reversePk
        case Some(u) => (DropLastTwo(u), true)
        case None => ("", false)
  }

  /** A detail URL reversed as `<prefix>0/` leaves the prefix, to which the
      row's primary key is appended. */
  lemma ClickUrlOfDetail(urlName: string, prefix: string)
    requires urlName != ""
    ensures ClickUrl(urlName, None, Some(prefix + "0/")) == (prefix, true)
  {
    var u := prefix + "0/";
    assert u[..|u| - 2] == prefix;
  }

  /** The columns shown: the saved columns, or when none are saved the defaults. */
  function ChosenColumns(cfg: ViewConfig, saved: seq<string>): seq<string> {
    if saved == [] then DefaultColumns(cfg) else saved
  }

  /** One `show(k) if k in columns else hide(k)` step, for a column with a verbose name. */
  function ShowOrHide(c: Column, shown: seq<string>): Column {
    if c.verboseName != "" then c.(visible := c.key in shown) else c
  }

  function Shown(cols: seq<Column>, shown: seq<string>): seq<Column> {
    seq(|cols|, i requires 0 <= i < |cols| => ShowOrHide(cols[i], shown))
  }

  /** Showing and hiding keeps every column where it was. */
  lemma {:induction false} ShownIndex(cols: seq<Column>, shown: seq<string>, k: string)
    ensures ColumnIndex(Shown(cols, shown), k) == ColumnIndex(cols, k)
    decreases |cols|
  {
    if cols != [] {
      assert Shown(cols, shown)[1..] == Shown(cols[1..], shown);
      ShownIndex(cols[1..], shown, k);
    }
  }

  /** Showing and hiding changes no key. */
  lemma ShownKeys(cols: seq<Column>, shown: seq<string>)
    ensures Keys(Shown(cols, shown)) == Keys(cols)
  {
  }

  /** After showing and hiding, a column with a verbose name is visible
      exactly when it is among the chosen columns; one without keeps its
      visibility; no verbose name changes. */
  lemma ShownVisible(cols: seq<Column>, shown: seq<string>, k: string)
    requires k in Keys(cols)
    ensures VerboseOf(cols, k) != "" ==> (IsVisible(Shown(cols, shown), k) <==> k in shown)
    ensures VerboseOf(cols, k) == "" ==> IsVisible(Shown(cols, shown), k) == IsVisible(cols, k)
    ensures VerboseOf(Shown(cols, shown), k) == VerboseOf(cols, k)
  {
    ShownIndex(cols, shown, k);
    var i :| 0 <= i < |cols| && Keys(cols)[i] == k;
    assert ColumnIndex(cols, k).Some?;
  }

  /** The keys of `sequence` whose columns are visible, in order. */
  function VisibleKeys(sequence: seq<string>, cols: seq<Column>): seq<string>
    decreases |sequence|
  {
    if sequence == [] then []
    else
      var n := |sequence| - 1;
      VisibleKeys(sequence[..n], cols) + (if IsVisible(cols, sequence[n]) then [sequence[n]] else [])
  }

  /** `header_fields`: for each visible column, in `sequence` order, its
      filter field (named by its key), or `None` when it cannot be filtered. */
  function HeaderFields(sequence: seq<string>, cols: seq<Column>, filters: seq<string>): seq<Option<string>>
    decreases |sequence|
  {
    if sequence == [] then []
    else
      var n := |sequence| - 1;
      var k := sequence[n];
      HeaderFields(sequence[..n], cols, filters) +
        (if IsVisible(cols, k) then [if k in filters then Some(k) else None] else [])
  }

  /** A key is listed exactly when it is in the sequence and its column is visible. */
  lemma {:induction false} VisibleKeysMembers(sequence: seq<string>, cols: seq<Column>)
    ensures forall k :: k in VisibleKeys(sequence, cols) <==> k in sequence && IsVisible(cols, k)
    decreases |sequence|
  {
    if sequence != [] {
      var n := |sequence| - 1;
      VisibleKeysMembers(sequence[..n], cols);
      assert sequence == sequence[..n] + [sequence[n]];
      forall k ensures k in sequence <==> k in sequence[..n] || k == sequence[n] {
        if k in sequence {
          var i :| 0 <= i < |sequence| && sequence[i] == k;
          if i < n {
            assert sequence[..n][i] == k;
          }
        }
      }
    }
  }

  /** The header fields line up with the visible columns: one per visible
      column, `None` exactly where that column has no filter, else its own. */
  lemma {:induction false} HeaderFieldsAligned(sequence: seq<string>, cols: seq<Column>, filters: seq<string>)
    ensures var vk := VisibleKeys(sequence, cols);
      var fs := HeaderFields(sequence, cols, filters);
      |fs| == |vk| &&
      forall j :: 0 <= j < |fs| ==> fs[j] == if vk[j] in filters then Some(vk[j]) else None
    decreases |sequence|
  {
    if sequence != [] {
      var n := |sequence| - 1;
      HeaderFieldsAligned(sequence[..n], cols, filters);
    }
  }

  /** The keys of `sequence` whose columns have a verbose name, in order. */
  function Labelled(sequence: seq<string>, cols: seq<Column>): seq<string>
    decreases |sequence|
  {
    if sequence == [] then []
    else
      var n := |sequence| - 1;
      Labelled(sequence[..n], cols) + (if VerboseOf(cols, sequence[n]) != "" then [sequence[n]] else [])
  }

  /** `column_states`: `(key, verbose name, saved)` for each column with a verbose name. */
  function ColumnStatesOf(sequence: seq<string>, cols: seq<Column>, saved: seq<string>): seq<(string, string, bool)>
    decreases |sequence|
  {
    if sequence == [] then []
    else
      var n := |sequence| - 1;
      var k := sequence[n];
      ColumnStatesOf(sequence[..n], cols, saved) +
        (if VerboseOf(cols, k) != "" then [(k, VerboseOf(cols, k), k in saved)] else [])
  }

  /** The menu lists each column with a verbose name once, in `sequence`
      order, ticked exactly when it is saved. */
  lemma {:induction false} ColumnStatesShape(sequence: seq<string>, cols: seq<Column>, saved: seq<string>)
    ensures var lk := Labelled(sequence, cols);
      var st := ColumnStatesOf(sequence, cols, saved);
      |st| == |lk| &&
      forall j :: 0 <= j < |st| ==> st[j] == (lk[j], VerboseOf(cols, lk[j]), lk[j] in saved)
    decreases |sequence|
  {
    if sequence != [] {
      var n := |sequence| - 1;
      ColumnStatesShape(sequence[..n], cols, saved);
    }
  }

  /** A key is listed exactly when it is in the sequence and has a verbose name. */
  lemma {:induction false} LabelledMembers(sequence: seq<string>, cols: seq<Column>)
    ensures forall k :: k in Labelled(sequence, cols) <==> k in sequence && VerboseOf(cols, k) != ""
    decreases |sequence|
  {
    if sequence != [] {
      var n := |sequence| - 1;
      LabelledMembers(sequence[..n], cols);
      assert sequence == sequence[..n] + [sequence[n]];
      forall k ensures k in sequence <==> k in sequence[..n] || k == sequence[n] {
        if k in sequence {
          var i :| 0 <= i < |sequence| && sequence[i] == k;
          if i < n {
            assert sequence[..n][i] == k;
          }
        }
      }
    }
  }

  /** Everything of a table that `preprocess_table` may change. */
  datatype TableState = TableState(
    columns: seq<Column>,
    filter: Option<FilterSet>,
    infiniteScroll: bool,
    infiniteLoad: bool,
    stickyHeader: bool,
    clickMethod: string,
    url: string,
    pk: bool,
    target: string,
    editableColumns: seq<string>,
    headerFields: Option<seq<Option<string>>>)

  /** The view's attributes, the filter given, and the click URL. */
  function Configured(st: TableState, settings: TableSettings, f: Option<FilterSet>,
                      reverseNoPk: Option<string>, reversePk: Option<string>): TableState
  {
    var click := ClickUrl(settings.clickUrlName, reverseNoPk, reversePk);
    st.(filter := f, infiniteScroll := settings.infiniteScroll,
      infiniteLoad := settings.infiniteLoad, stickyHeader := settings.stickyHeader,
      clickMethod := settings.clickMethod, url := click.0, pk := click.1, target := settings.clickTarget)
  }

  /** The filter `f` with the view's style and, for the header style, the header fields. */
  function Styled(st: TableState, sequence: seq<string>, style: FilterStyle, f: FilterSet): TableState {
    st.(filter := Some(f.(style := style)),
      headerFields := if style == Header then Some(HeaderFields(sequence, st.columns, f.baseFilters))
                      else st.headerFields)
  }

  /** A django-tables2 table as the view sees it. */
  class Table {
    const sequence: seq<string>
    const metaEditable: Option<seq<string>>  // `Meta.editable_columns`, if defined
    var columns: seq<Column>
    var filter: Option<FilterSet>
    var infiniteScroll: bool
    var infiniteLoad: bool
    var stickyHeader: bool
    var clickMethod: string  // `table.method`
    var url: string
    var pk: bool
    var target: string
    var editableColumns: seq<string>
    var headerFields: Option<seq<Option<string>>>

    /** Column keys are distinct and `sequence` orders keys of columns. */
    ghost predicate Valid()
      reads this`columns
    {
      && (forall i, j :: 0 <= i < j < |columns| ==> columns[i].key != columns[j].key)
      && (forall k :: k in sequence ==> k in Keys(columns))
    }

    function State(): TableState
      reads this
    {
      TableState(columns, filter, infiniteScroll, infiniteLoad, stickyHeader, clickMethod, url, pk,
                 target, editableColumns, headerFields)
    }

    constructor (sequence: seq<string>, columns: seq<Column>, metaEditable: Option<seq<string>>)
      requires forall i, j :: 0 <= i < j < |columns| ==> columns[i].key != columns[j].key
      requires forall k :: k in sequence ==> k in Keys(columns)
      ensures Valid()
      ensures this.sequence == sequence && this.metaEditable == metaEditable
      ensures State() == TableState(columns, None, false, false, false, "get", "", false, "", [], None)
    {
      this.sequence := sequence;
      this.columns := columns;
      this.metaEditable := metaEditable;
      filter := None;
      infiniteScroll, infiniteLoad, stickyHeader := false, false, false;
      clickMethod, url, pk, target := "get", "", false, "";
      editableColumns := [];
      headerFields := None;
    }

    /** Replaces everything `preprocess_table` may change. */
    method Set(st: TableState)
      modifies this
      ensures State() == st
    {
      columns, filter, infiniteScroll, infiniteLoad, stickyHeader, clickMethod := st.columns, st.filter,
        st.infiniteScroll, st.infiniteLoad, st.stickyHeader, st.clickMethod;
      url, pk, target, editableColumns, headerFields := st.url, st.pk, st.target, st.editableColumns, st.headerFields;
    }
  }

  /** The show/hide loop over `base_columns`. */
  method ShowHide(cols: seq<Column>, shown: seq<string>) returns (r: seq<Column>)
    ensures r == Shown(cols, shown)
  {
    r := cols;
    for i := 0 to |r|
      invariant |r| == |cols|
      invariant forall j :: 0 <= j < i ==> r[j] == ShowOrHide(cols[j], shown)
      invariant forall j :: i <= j < |r| ==> r[j] == cols[j]
    {
      if r[i].verboseName != "" {
        r := r[i := r[i].(visible := r[i].key in shown)];
      }
    }
  }

  /** The header-filter loop over `table.sequence`. */
  method BuildHeaderFields(sequence: seq<string>, cols: seq<Column>, filters: seq<string>)
    returns (fields: seq<Option<string>>)
    ensures fields == HeaderFields(sequence, cols, filters)
  {
    fields := [];
    for i := 0 to |sequence|
      invariant fields == HeaderFields(sequence[..i], cols, filters)
    {
      assert sequence[..i + 1][..i] == sequence[..i];
      var k := sequence[i];
      if IsVisible(cols, k) {
        if k in filters {
          fields := fields + [Some(k)];
        } else {
          fields := fields + [None];
        }
      }
    }
    assert sequence[..|sequence|] == sequence;
  }

  /** `column_states`: `saved` is what `load_columns` returns for the request.
      Every key of the sequence names a column; `base_columns[key]` raises
      KeyError for any other key. */
  method ColumnStates(table: Table, saved: seq<string>) returns (states: seq<(string, string, bool)>)
    requires table.Valid()
    ensures states == ColumnStatesOf(table.sequence, table.columns, saved)
  {
    var sequence := table.sequence;
    states := [];
    for i := 0 to |sequence|
      invariant states == ColumnStatesOf(sequence[..i], table.columns, saved)
    {
      assert sequence[..i + 1][..i] == sequence[..i];
      var key := sequence[i];
      var verbose := VerboseOf(table.columns, key);
      if verbose != "" {
        states := states + [(key, verbose, key in saved)];
      }
    }
    assert sequence[..|sequence|] == sequence;
  }

  /** The table state `preprocess_table` leaves, step by step: the view's
      attributes and the click URL, the chosen columns shown, the editable
      columns, then the filter's style and, for the header style, the
      header fields. */
  function Preprocessed(st: TableState, sequence: seq<string>, metaEditable: Option<seq<string>>,
                        cfg: ViewConfig, settings: TableSettings, filter: Option<FilterSet>,
                        saved: seq<string>, reverseNoPk: Option<string>, reversePk: Option<string>): TableState
  {
    var configured := Configured(st, settings, filter, reverseNoPk, reversePk);
    var shown := configured.(columns := Shown(st.columns, ChosenColumns(cfg, saved)));
    var editable := shown.(editableColumns := metaEditable.GetOr([]));
    match filter
    case None => editable
    case Some(f) => Styled(editable, sequence, settings.filterStyle, f)
  }

  /** `Preprocessed` field by field, from the shown columns, the styled
      filter and the header fields. */
  lemma PreprocessedIs(st: TableState, sequence: seq<string>, metaEditable: Option<seq<string>>,
                       cfg: ViewConfig, settings: TableSettings, filter: Option<FilterSet>,
                       saved: seq<string>, reverseNoPk: Option<string>, reversePk: Option<string>,
                       cols: seq<Column>, styled: Option<FilterSet>, fields: Option<seq<Option<string>>>)
    requires cols == Shown(st.columns, ChosenColumns(cfg, saved))
    requires styled == if filter.Some? then Some(filter.value.(style := settings.filterStyle)) else None
    requires fields == if filter.Some? && settings.filterStyle == Header
                       then Some(HeaderFields(sequence, cols, filter.value.baseFilters)) else st.headerFields
    ensures var click := ClickUrl(settings.clickUrlName, reverseNoPk, reversePk);
      Preprocessed(st, sequence, metaEditable, cfg, settings, filter, saved, reverseNoPk, reversePk)
      == TableState(cols, styled, settings.infiniteScroll, settings.infiniteLoad, settings.stickyHeader,
                    settings.clickMethod, click.0, click.1, settings.clickTarget, metaEditable.GetOr([]), fields)
  {
  }

  /** After `preprocess_table` a column with a verbose name is visible
      exactly when it is among the saved columns, or among the defaults
      when none are saved; any other column keeps its visibility. */
  lemma PreprocessedColumns(st: TableState, sequence: seq<string>, metaEditable: Option<seq<string>>,
                            cfg: ViewConfig, settings: TableSettings, filter: Option<FilterSet>,
                            saved: seq<string>, reverseNoPk: Option<string>, reversePk: Option<string>, k: string)
    requires k in Keys(st.columns)
    ensures var r := Preprocessed(st, sequence, metaEditable, cfg, settings, filter, saved, reverseNoPk, reversePk);
      var chosen := if saved == [] then DefaultColumns(cfg) else saved;
      (VerboseOf(st.columns, k) != "" ==> (IsVisible(r.columns, k) <==> k in chosen)) &&
      (VerboseOf(st.columns, k) == "" ==> IsVisible(r.columns, k) == IsVisible(st.columns, k))
  {
    ShownVisible(st.columns, ChosenColumns(cfg, saved), k);
  }

  /** With a filter in the header style, the header fields line up with the
      visible columns in `sequence` order, `None` exactly for a column the
      filterset cannot filter; in any other style they are left alone. */
  lemma PreprocessedHeader(st: TableState, sequence: seq<string>, metaEditable: Option<seq<string>>,
                           cfg: ViewConfig, settings: TableSettings, filter: Option<FilterSet>,
                           saved: seq<string>, reverseNoPk: Option<string>, reversePk: Option<string>)
    ensures var r := Preprocessed(st, sequence, metaEditable, cfg, settings, filter, saved, reverseNoPk, reversePk);
      var vk := VisibleKeys(sequence, r.columns);
      (forall k :: k in vk <==> k in sequence && IsVisible(r.columns, k)) &&
      (filter.Some? && settings.filterStyle == Header ==>
        r.headerFields.Some? && |r.headerFields.value| == |vk| &&
        forall j :: 0 <= j < |vk| ==>
          r.headerFields.value[j] == if vk[j] in filter.value.baseFilters then Some(vk[j]) else None) &&
      (filter.None? || settings.filterStyle != Header ==> r.headerFields == st.headerFields)
  {
    var r := Preprocessed(st, sequence, metaEditable, cfg, settings, filter, saved, reverseNoPk, reversePk);
    VisibleKeysMembers(sequence, r.columns);
    if filter.Some? {
      HeaderFieldsAligned(sequence, r.columns, filter.value.baseFilters);
    }
  }

  /** What `preprocess_table` computes for a table in state `st`, once the
      columns to show are chosen. */
  method Preprocess(cfg: ViewConfig, settings: TableSettings, st: TableState, sequence: seq<string>,
                    metaEditable: Option<seq<string>>, filter: Option<FilterSet>, saved: seq<string>,
                    chosen: seq<string>, reverseNoPk: Option<string>, reversePk: Option<string>)
    returns (next: TableState)
    requires chosen == ChosenColumns(cfg, saved)
    ensures next == Preprocessed(st, sequence, metaEditable, cfg, settings, filter, saved, reverseNoPk, reversePk)
  {
    var click := ClickUrl(settings.clickUrlName, reverseNoPk, reversePk);
    var cols := ShowHide(st.columns, chosen);
    var styled := filter;
    var fields := st.headerFields;
    if filter.Some? {
      styled := Some(filter.value.(style := settings.filterStyle));
      if settings.filterStyle == Header {
        var fs := BuildHeaderFields(sequence, cols, filter.value.baseFilters);
        fields := Some(fs);
      }
    }
    next := TableState(cols, styled, settings.infiniteScroll, settings.infiniteLoad, settings.stickyHeader,
                       settings.clickMethod, click.0, click.1, settings.clickTarget, metaEditable.GetOr([]), fields);
    PreprocessedIs(st, sequence, metaEditable, cfg, settings, filter, saved, reverseNoPk, reversePk,
                   cols, styled, fields);
  }

  /** `preprocess_table`. `saved` is what `load_columns` returns for the
      request; `reverseNoPk` and `reversePk` are as for `ClickUrl`. When no
      columns are saved the defaults are saved through the session helper. */
  method PreprocessTable(cfg: ViewConfig, settings: TableSettings, table: Table, filter: Option<FilterSet>,
                         saved: seq<string>, reverseNoPk: Option<string>, reversePk: Option<string>,
                         session: Session)
    requires table.Valid() && Keys(table.columns) == cfg.baseColumns
    modifies table, session
    ensures table.Valid()
    ensures session.calls == old(session.calls) + (if saved == [] then [SaveColumns(DefaultColumns(cfg))] else [])
    ensures session.selectedIds == old(session.selectedIds)
    ensures table.State() == Preprocessed(old(table.State()), table.sequence, table.metaEditable, cfg, settings,
                                          filter, saved, reverseNoPk, reversePk)
  {
    ghost var st := table.State();
    var columns := saved;
    if columns == [] {
      columns := DefaultColumns(cfg);
      session.calls := session.calls + [SaveColumns(columns)];
    }
    var next := Preprocess(cfg, settings, table.State(), table.sequence, table.metaEditable, filter, saved,
                           columns, reverseNoPk, reversePk);
    ShownKeys(st.columns, columns);
    table.Set(next);
    assert Keys(table.columns) == Keys(st.columns);
  }
}
