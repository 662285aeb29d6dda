# demo_tables core, modelled in Dafny

This project models the decision and string-building logic of the
`tables_pro` table views and the movie demo (ianastewart/demo_tables):

- the htmx GET classifier (`get_htmx`): a fixed-priority chain over the trigger id and trigger
  name; the POST handler (`post`) with its inline-cell, column-form, selection and export-redirect
  branches; the plain GET export; the parameter plumbing (`_update_parameter`, `query_dict`, the page
  step of `filtered_query_set`); `get_export_filename`; the export exclude list; `column_states`;
  `preprocess_table`; and `SelectedMixin.get_query_set` (modules `TablesProViews`, `TablesProPost`,
  `TablesProTable`);
- the Movie model's derived values and validation (`Movies`), and the admin's
  display columns (`MovieAdmin`);
- the table script: `removeURLParameter` and the cell id (`TableScriptStrings`); the checkbox
  handling `selectAllPage`, `selectAll`, `tableClick` and `countChecked` over an array of row boxes
  (`TableScriptPage`); and the breakpoint choice of the media-query script (`MediaQuery`);
- the `attrs` template tag (`AttrsTag`) and the `render_messages` tag (`MovieTags`).

Supporting modules model the library behaviour the core relies on:

- `Strings`: Python's `str.split`, `join` and `int()`/`str()` of integers;
- `Utf8`: UTF-8 encoding;
- `UrlCoding`: `quote_plus`, `unquote`, `parse_qsl` and `encodeURIComponent`;
- `QueryDicts`: Django's `QueryDict` with `appendlist`, `__setitem__` and `urlencode`.

Django's ORM querysets and filtersets are described by values (`RecordSet`). Calls to the unseen
`tables_pro.utils` session helpers are recorded as values (`UtilCall`) in a `Session` object, and what
`visible_columns` and `load_columns` return enters as parameters. `reverse()` results and today's
date are parameters as well.

State the source changes in place is a class. The three classes are:

- `TablesProTable.Table`, the django-tables2 table that `preprocess_table` mutates;
- `TablesProPost.TableView`, the view's `selected_ids`/`selected_objects`, with the session written by `post`;
- `TableScriptPage.Page`, the page's checkbox array and controls, which the script's functions update.

Each method is proved against a specification function. Its properties are proved as lemmas.

## Model

| member | source | states |
|---|---|---|
| TablesProViews.Selected | tables_pro/views.py:247-314 | the branch taken is the first of the ten tests (`size_query`, `table_data`, `filter` with a filterset, `filter_form`, then `id_col`, `id_row`, `default`, `tr_`, `td_`, `id_` in the trigger) that passes; no earlier test passes |
| TablesProViews.ClassifyFirstMatch | tables_pro/views.py:245-323 | `get_htmx` returns an action of exactly the first matching branch; errors come only from branches that dereference a missing trigger name or a bad cell id; a request matching no branch raises `ValueError("Bad htmx get request")` (TypeError when there is no trigger at all) |
| TablesProViews.TriggerFirstMatch | tables_pro/views.py:271-323 | the same for the six substring branches: e.g. an `id_col_x` trigger gives a column toggle, never the generic `id_` branch |
| TablesProViews.SelectedFromTrigger | tables_pro/views.py:271-314 | from the substring tests on, the branch is the first of `id_col`, `id_row`, `default`, `tr_`, `td_`, `id_` that the trigger contains |
| TablesProViews.ClassifyBranches | tables_pro/views.py:271-312 | a column toggle names the column `trigger_name[4:]` and is checked iff `trigger_name` is a GET key; `default` saves `Meta.default_columns` or else all base column keys whatever was saved; a cell click names the target and fails only with IndexError or ValueError |
| TablesProViews.PyIndex | tables_pro/views.py:154-155 | Python list indexing: defined exactly for `-len <= n < len`, negative indices counting from the end |
| TablesProViews.SplitOfUnderscored | tables_pro/views.py:300-307 | a trigger containing `tr_` or `td_` splits on `_` into at least two parts, so `bits[1]` exists |
| TablesProViews.UpdateParameterEffect | tables_pro/views.py:394-398 | the URL is the path, `?`, and an encoding that parses back to the GET data with `key` mapped to `value` alone and every other parameter's values unchanged |
| TablesProViews.QueryDictOfUrl | tables_pro/views.py:207-211 | a current URL made of a `?`-free path and an encoded dictionary yields that dictionary |
| TablesProViews.QueryDictOfNoQuery | tables_pro/views.py:208-211 | a current URL with no `?` or with two or more yields an empty dictionary |
| TablesProViews.NextPageEffect | tables_pro/views.py:200-204 | a missing `page` becomes `"2"`, a numeric one `page + 1`, a non-numeric one raises ValueError; every other parameter is unchanged |
| TablesProViews.ExportFilenameExtension | tables_pro/views.py:73-74 | the file name ends in `.` and the format, so its extension is the format |
| TablesProViews.Hidden | tables_pro/views.py:106-108 | lists exactly the keys of the columns that are not visible |
| TablesProViews.ExportExcludes | tables_pro/views.py:106-109 | the exclude list is the hidden columns followed by `selection` |
| TablesProViews.SelectedRecords | tables_pro/views.py:412-423 | no model raises ValueError; non-empty session ids select those ids; otherwise the filterset over GET when one is configured, else every record |
| TablesProPost.OnKeysMembers | tables_pro/views.py:160-164 | a column is saved iff some posted item gives it the value `on` |
| TablesProPost.ColumnsToSave | tables_pro/views.py:161-164 | the loop collects the posted keys whose value is `on`, in posted order |
| TablesProPost.ExportFormatOf | tables_pro/views.py:181-182 | the format is the text between the first and second `_` of the trigger name |
| TablesProPost.ExportFormatDefault | tables_pro/views.py:182 | a trigger name without `_` exports as `csv` |
| TablesProPost.ExportUrlParse | tables_pro/views.py:183-188 | the redirect URL splits on `?` into the path and a query whose `_export` is the format and `_subset` the subset, all posted parameters kept |
| TablesProPost.ExportRedirectRoundTrip | tables_pro/views.py:169-188 | an export POST answers with a redirect whose query carries the trigger's format, `all` or `selected` as `select_all` was posted, and the posted query's parameters |
| TablesProPost.ExportGetPlan | tables_pro/views.py:82-98 | that GET exports in the format to `Export.<format>`: the session ids for `selected`, the filtered records for `all` when the filterset is usable |
| TablesProPost.SelectAllExportClearsIds | tables_pro/views.py:169-180 | a `select_all` export stores no ids in the session, so `SelectedMixin` falls back to the filterset |
| TablesProPost.TableView.Post | tables_pro/views.py:147-191 | the result is the decision function's; a column save is logged as one `save_columns` call; `selected_ids` reaches the session iff an export is posted, before the query is read |
| TablesProTable.ClickUrl | tables_pro/views.py:332-344 | no URL name gives `("", False)`; a URL reversed without pk is used as is; else the pk-0 URL less its last two characters with `pk` set; no match leaves `""` |
| TablesProTable.ClickUrlOfDetail | tables_pro/views.py:340-342 | a detail URL reversed as `<prefix>0/` leaves `<prefix>` with `pk` set |
| TablesProTable.ShownIndex | tables_pro/views.py:355-357 | showing and hiding keeps every column in its place |
| TablesProTable.ShownVisible | tables_pro/views.py:355-357 | a column with a verbose name is visible iff it is chosen; one without keeps its visibility |
| TablesProTable.ShowHide | tables_pro/views.py:355-357 | the show/hide loop over the base columns computes `Shown` |
| TablesProTable.VisibleKeysMembers | tables_pro/views.py:372-373 | a key is listed iff it is in `table.sequence` and its column is visible |
| TablesProTable.HeaderFieldsAligned | tables_pro/views.py:371-377 | one header field per visible column, `None` exactly when the filterset has no filter for it, else that filter |
| TablesProTable.BuildHeaderFields | tables_pro/views.py:371-377 | the header-field loop computes `HeaderFields` |
| TablesProTable.ColumnStatesShape | tables_pro/views.py:236-243 | one `(key, verbose, saved)` entry per column with a verbose name, in sequence order, ticked iff saved |
| TablesProTable.LabelledMembers | tables_pro/views.py:239-242 | a key is listed iff it is in the sequence and has a verbose name |
| TablesProTable.ColumnStates | tables_pro/views.py:236-243 | for a table whose sequence keys are all columns (any other key raises KeyError in the source), the loop computes `ColumnStatesOf` |
| TablesProTable.PreprocessedColumns | tables_pro/views.py:348-357 | after preprocessing, a column with a verbose name is visible iff it is among the saved columns, or the defaults when none are saved |
| TablesProTable.PreprocessedHeader | tables_pro/views.py:367-377 | with a header-style filter the header fields line up with the visible columns in sequence order; otherwise they are untouched |
| TablesProTable.Preprocess | tables_pro/views.py:327-377 | computes the whole new table state `Preprocessed` |
| TablesProTable.PreprocessTable | tables_pro/views.py:325-377 | the table ends in state `Preprocessed` and stays valid; defaults are saved through the session helper exactly when nothing was saved |
| TableScriptStrings.KeepParsMembers | tables_pro/static/tables_pro/js/tables_pro.js:56-61 | a pair is kept iff it does not start with `<param>=` |
| TableScriptStrings.RemoveURLParameter | tables_pro/static/tables_pro/js/tables_pro.js:47-66 | the reverse splicing loop computes `RemovedParameter` |
| TableScriptStrings.NoQueryUnchanged | tables_pro/static/tables_pro/js/tables_pro.js:49-65 | a URL without `?` is returned unchanged |
| TableScriptStrings.SecondQueryDropped | tables_pro/static/tables_pro/js/tables_pro.js:49-63 | anything after a second `?` is dropped |
| TableScriptStrings.CleanQueryUnchanged | tables_pro/static/tables_pro/js/tables_pro.js:52-63 | a query with no matching pair comes back as it was |
| TableScriptStrings.RemoveIdempotent | tables_pro/static/tables_pro/js/tables_pro.js:47-66 | removing a parameter twice is removing it once |
| TableScriptStrings.CellId | tables_pro/static/tables_pro/js/tables_pro.js:172-181 | the id is `td_<row id less tr_>_<cells before>_<width>`, the while loop counting the previous cells |
| TableScriptStrings.CellIdSplit | tables_pro/static/tables_pro/js/tables_pro.js:181 | for a row id without `_`, splitting on `_` gives `td`, the id, the column and the width, and `int(bits[2])` is the column, as the server reads it |
| TableScriptPage.CheckedCountBounds | tables_pro/static/tables_pro/js/tables_pro.js:217-222 | the count is at most the number of boxes, 0 iff none is checked, all iff all are |
| TableScriptPage.CountedMenu | tables_pro/static/tables_pro/js/tables_pro.js:222-231 | with select-all unchecked, the menu is disabled iff no box is checked and enabled iff one is; the count text reads back as the number checked |
| TableScriptPage.UniformCount | tables_pro/static/tables_pro/js/tables_pro.js:107-112 | after select-all-on-page the count is all boxes or none |
| TableScriptPage.Page.Checked | tables_pro/static/tables_pro/js/tables_pro.js:217-222 | counts the checked boxes |
| TableScriptPage.Page.CountChecked | tables_pro/static/tables_pro/js/tables_pro.js:213-231 | the controls become `Counted` of the old ones; nothing changes while select-all is checked; a missing select-all box throws |
| TableScriptPage.Page.SetRangeChecked | tables_pro/static/tables_pro/js/tables_pro.js:155-158 | boxes `lo..hi` inclusive get the state, the others are unchanged |
| TableScriptPage.Page.SelectAllPage | tables_pro/static/tables_pro/js/tables_pro.js:99-114 | every box takes select-all-on-page's state, select-all is shown iff it is checked, the count is refreshed and `lastChecked` cleared |
| TableScriptPage.Page.SelectAll | tables_pro/static/tables_pro/js/tables_pro.js:116-137 | every box is disabled iff select-all is checked; the count reads `All` and select-all-on-page is disabled iff checked; `lastChecked` cleared |
| TableScriptPage.Page.ClickCheckbox | tables_pro/static/tables_pro/js/tables_pro.js:139-163 | select-all-on-page is unchecked; a shift-click after an earlier click sets every box between the two, inclusive, to the clicked box's state and no other; the clicked box becomes `lastChecked` |
| MediaQuery.Chosen | tables_pro/static/tables_pro/js/media_query.js:4-7 | the width is 0 when no breakpoint is reached, else a breakpoint at most the window width that no later breakpoint reaches |
| MediaQuery.ChooseWidth | tables_pro/static/tables_pro/js/media_query.js:4-7 | the loop computes `Chosen` |
| MediaQuery.Document.OnLoad | tables_pro/static/tables_pro/js/media_query.js:2-18 | with breakpoints, one width request and the element created iff absent; without, `init` is called and nothing is requested |
| AttrsTag.Attrs | tables_pro/templatetags/tables_pro.py:15-23 | the loop computes ` key="value"` for each kept key of the flattened context, in order |
| AttrsTag.EmittedShape | tables_pro/templatetags/tables_pro.py:18-22 | one attribute per non-excluded key; no excluded name is emitted; each attribute is an item under its rewritten name, with the value unescaped |
| AttrsTag.AttrNameRewrite | tables_pro/templatetags/tables_pro.py:20-21 | a key containing `hx_` has every `_` replaced by `-`; other keys are unchanged |
| AttrsTag.AttrsOfEmpty | tables_pro/templatetags/tables_pro.py:17-23 | an empty context yields `""` |
| AttrsTag.FlattenDistinct | tables_pro/templatetags/tables_pro.py:18 | the flattened context has each key once |
| MovieTags.LevelClass | movies/templatetags/movie_tags.py:30 | the mapped class for a mapped level, `alert-info` otherwise |
| MovieTags.LevelClassRange | movies/templatetags/movie_tags.py:7-13 | every level gets one of the five classes; `alert-info` exactly for INFO and unmapped levels |
| MovieTags.RenderMessages | movies/templatetags/movie_tags.py:21-33 | no request gives no messages; else one entry per message in order, text copied, class by level |
| Movies.Profit | movies/models.py:134-138 | defined iff budget and revenue are both set and non-zero, and then revenue minus budget |
| Movies.IsSuccessfulValue | movies/models.py:164-166 | `None` exactly when there is no profit, `0` exactly at break-even, otherwise whether the profit is positive |
| Movies.IsSuccessfulIff | movies/models.py:164-166 | successful iff both amounts are set and non-zero and revenue exceeds budget |
| Movies.OnlyReleasedIsReleased | movies/models.py:159-161 | of the status choices only `Released` counts as released |
| Movies.HoursMinutes | movies/models.py:152-153 | `60*h + m == runtime` and `m < 60` |
| Movies.RuntimeFormatted | movies/models.py:148-151 | `None` exactly for a missing or zero runtime |
| Movies.ParseFormatRuntime | movies/models.py:152-156 | the `{h}h {m}m` / `{m}m` text reads back as the runtime |
| Movies.RuntimeFormattedRoundTrip | movies/models.py:148-156 | a shown runtime is the movie's runtime |
| Movies.Str | movies/models.py:125-127 | the title, or `Untitled Movie` for a missing or empty title |
| Movies.CleanVerdict | movies/models.py:173-188 | accepted iff neither rule is broken; the release-date error iff a released movie is dated after today, the vote-count error iff only the vote rule is broken |
| Movies.FutureReleaseIsReleased | movies/models.py:178-179 | the date rule rejects only released movies |
| Movies.UnreleasedDateAccepted | movies/models.py:178-182 | a movie that is not released is never rejected for its date |
| MovieAdmin.Group | movies/admin.py:85 | the grouped text has one comma per full group of three digits |
| MovieAdmin.GroupFromRight | movies/admin.py:85 | read from the right, every fourth character is a comma and the rest are the digits in order |
| MovieAdmin.UngroupGroup | movies/admin.py:85 | removing the commas gives back the digits |
| MovieAdmin.ParseDollarsOfDollars | movies/admin.py:85 | `$`, an optional minus, then grouped digits reads back as the amount |
| MovieAdmin.BudgetDisplayed | movies/admin.py:82-86 | `-` iff the budget is missing or zero; else the text reads back as the budget |
| MovieAdmin.RevenueDisplayed | movies/admin.py:90-94 | the same for revenue |
| MovieAdmin.ProfitColour | movies/admin.py:104 | `green` iff profit > 0, `red` iff < 0, `black` iff 0 |
| MovieAdmin.ProfitDisplayed | movies/admin.py:98-109 | `-` iff the profit is unknown; else a span in the profit's colour whose text reads back as the profit, minus sign after `$` |
| MovieAdmin.ProfitDisplayAsWrittenFails | movies/admin.py:105-109 | as written, the display raises for every movie with a known profit |
| MovieAdmin.ProfitDisplayAsWrittenExample | movies/admin.py:105-109 | budget 100 and revenue 250 make the display as written raise |
| MovieAdmin.ProfitDisplayIntended | movies/admin.py:105-109 | formatting the integer itself gives the corrected display |
| QueryDicts.ParseUrlEncode | tables_pro/views.py:396-398 | a `QueryDict`'s `urlencode` parses back to the same dictionary |
| QueryDicts.SetItemEffect | tables_pro/views.py:397 | `qd[key] = value` makes `[value]` the key's list and leaves every other key alone |
| UrlCoding.UnquotePlusQuotePlus | tables_pro/views.py:398 | `parse_qsl` reads back exactly what `quote_plus` wrote |
| UrlCoding.ParseQslEncodePairs | tables_pro/views.py:398 | parsing the encoding of any list of pairs gives those pairs in order |
| UrlCoding.EncodeURIComponentUnreserved | tables_pro/static/tables_pro/js/tables_pro.js:52 | unreserved ASCII parameter names are their own `encodeURIComponent` |
| Utf8.DecodeEncode | tables_pro/views.py:398 | decoding the UTF-8 encoding of a string gives it back |

## Left out

- Django responses (`render`, `retarget`, the client redirect and refresh): modelled only as tagged result values.
- `render_template`'s template swap and its call to `super().get`: framework plumbing, modelled as the action it renders.
- The ORM and django-filter querysets: modelled as `RecordSet` descriptions, which say nothing about contents.
- Whether a filterset is valid or strict: a boolean parameter.
- `tables_pro.utils` (`save_columns`, `load_columns`, `set_column`, `visible_columns`, `save_per_page`) and `build_media_query` are not part of this model. Helper calls are recorded as values; what `load_columns` and `visible_columns` return enters as a parameter.
- `reverse()` outcomes are parameters: `NoReverseMatch` is `None`.
- `TableExport` and tablib file generation: a foreign library. The model stops at the format, records, filename and exclude list handed to it.
- `table.before_render`: a django-tables2 hook, which is not shown.
- The `visible` list at tables_pro/views.py:359: computed and never used, so it is not in the model.
- The commented-out `thead` code and the commented-out JS functions are not in the model.
- `handle_action`, `row_clicked`, `cell_clicked` and `cell_changed` are overridable hooks that default to a refresh. Here they are the actions `CustomAction`, `RowClicked`, `CellClicked` and `CellChanged`.
- `profit_margin` and `profit_margin_display`: floating-point division and `%.1f` formatting.
- `debug_tags`, the `insert_data` command, `movies/views.py`, forms, tables, filters and URLs: outside the modelled core.
- Strings.ParseInt: models `int()` with a sign and surrounding white space of the ASCII characters `str.isspace()` accepts (including `\x1c`–`\x1f`). It does not model non-ASCII white space such as `\x85` or `\xa0`, `_` digit separators or non-ASCII digits: those raise ValueError here where Python accepts them.
- Context values in `attrs`: each is modelled by its `str()` text.
- Vote average: modelled as an integer in hundredths, since the column is decimal; no float is involved.
- Browser behaviour is not modelled. This covers DOM wiring, `htmx.ajax`, `window.location`, row highlighting, CSS classes and the `_width` reload in `init`.
- Events are assumed to fire one at a time, and `countChecked` is assumed to run only when the script calls it.
- A `lastChecked` box that an htmx swap removed from the page is not modelled: `lastChecked` is an index into the current boxes.
- `encodeURIComponent` on a lone surrogate: URIError is not modelled. Dafny strings hold valid characters only.
- Session races between concurrent requests: inherited from the session store.
- QueryDicts.Parse: Django raises TooManyFieldsSent when a query holds more fields than `DATA_UPLOAD_MAX_NUMBER_FIELDS`. That setting is project configuration, so the model parses a query of any length.
- TablesProTable.PreprocessTable: assigns the table's attributes in one step through `Table.Set` rather than one by one in source order. The final state is the same.
- TableScriptPage.Page.SelectAll: clears `lastChecked` before `countChecked` rather than after. `countChecked` neither reads nor writes it, so the final state is the same.
- TableScriptPage.Page.SelectAllPage: clears `lastChecked` before `countChecked` rather than after, for the same reason.
- TableScriptPage.Page.ClickCheckbox: sets the range before unchecking "select all on page" rather than after. The two touch different elements, so the final state is the same. The browser has already toggled the clicked box when the handler runs.
- TablesProViews.GetView: the export file name is `Export.<format>` as the code builds it at lines 98 and 116, not `get_export_filename`; the two are modelled separately.

## Findings

| source | as written | input that shows it | evidently intended | confidence | as-written member | corrected member |
|---|---|---|---|---|---|---|
| movies/admin.py:105-109 | `format_html` passes the profit through `conditional_escape`, which turns the integer into a string; the `{:,}` field then raises `ValueError("Cannot specify ',' with 's'.")` | budget 100, revenue 250 (profit 150) | a span in the profit's colour containing `$150` | not executed | MovieAdmin.ProfitDisplayAsWrittenExample | MovieAdmin.ProfitDisplayed |
