# Reporting HVD Europe: a Dafny model

`dashboard-reporting-europe.py` is a small Dash application. The user picks a data producer
(an organization of data.gouv.fr) in a dropdown. The callback `update_graph` then:

1. fills the organization into a SPARQL query template;
2. fetches the High-Value Datasets (HVD) that data.europa.eu holds for it, page by page
   (`OFFSET`/`LIMIT` 10000), and shapes the SPARQL JSON answer into a frame;
3. turns each resource's download URL into a link to its page on data.gouv.fr;
4. renders a Markdown report. The header counts the distinct datasets. Then comes one
   collapsible section per dataset title, giving the dataset link, category, licence and the
   number of resources, with one line per resource.

This project models that core and proves properties of it:

- `Decimal`: `f"{n}"` for natural numbers.
- `SparqlResults`: the JSON answer and the row shaping of `_get_from_query`.
- `Fetch`: the paging loop of `query_to_df`, an imperative method.
- `ResourceLinks`: `build_resource_link`.
- `QueryTemplate`: `str.replace` of `$ORGA$`.
- `Columns`: the pandas `unique()` and `nunique()` the report uses.
- `Report` and `ReportLemmas`: the Markdown text. It is specified by functions and built by
  the nested `markdown +=` loops, modelled as methods.
- `Dashboard`: the callback, both as written and as corrected.

The network is a parameter:

- `post` maps a request body to an HTTP response.
- `lookup` maps a data.gouv.fr API URL to the `dataset_id` it answers, or `None` when the GET,
  the JSON decoding or the key lookup fails.

## Model

| member | source | states |
|---|---|---|
| Decimal.ShowDigits | dashboard-reporting-europe.py:51 | the offset written into a request is all decimal digits, with no leading zero except for 0 itself |
| Decimal.ParseShow | dashboard-reporting-europe.py:51 | reading back the written offset gives the offset again |
| Decimal.ShowInjective | dashboard-reporting-europe.py:51 | two different offsets are written differently |
| SparqlResults.ShapeRow | dashboard-reporting-europe.py:42-44 | a record's keys are exactly `head.vars`; a cell is present iff the binding has that variable with a `value`, and it is that value |
| SparqlResults.Shape | dashboard-reporting-europe.py:42-44 | one record per binding, in the bindings' order, each shaped from its own binding |
| SparqlResults.ShapeEncode | dashboard-reporting-europe.py:42-44 | shaping a binding made from a record over `head.vars` gives that record back |
| Fetch.GetPage | dashboard-reporting-europe.py:50-51 | page `k` is the answer to the query followed by ` OFFSET <k*10000> LIMIT 10000` |
| Fetch.FetchPages | dashboard-reporting-europe.py:46-58 | the loop asks for pages 0, 1, … in order and stops right after the first short or failed page, never earlier; it returns that page's error or all rows received, in page order |
| Fetch.QueryToFrame | dashboard-reporting-europe.py:33-61 | with `loop` the paged fetch; without it a single request with the query unchanged |
| Fetch.CollectedPrefix | dashboard-reporting-europe.py:46-58 | from an endpoint that honours `OFFSET`/`LIMIT`, `m` full pages hold exactly the first `m*10000` rows |
| Fetch.HonestEndpoint | dashboard-reporting-europe.py:46-58 | against such an endpoint with `N` rows the loop ends after `N/10000 + 1` requests (one more, empty page when `N` is a multiple of 10000) and returns exactly the `N` rows in order |
| Fetch.FullPagesLength | dashboard-reporting-europe.py:55-57 | when no page exceeds the limit, `m` full pages hold exactly `m*10000` rows |
| Fetch.RequestCount | dashboard-reporting-europe.py:46-58 | the number of requests is the number of rows returned divided by 10000, plus one |
| Fetch.RequestsDistinct | dashboard-reporting-europe.py:51 | two requests with different offsets are different strings, so no page is asked for twice |
| ResourceLinks.LastSegment | dashboard-reporting-europe.py:90 | `split('/')[-1]` is a suffix without `/` that is either the whole string or preceded by `/` |
| ResourceLinks.LastSegmentAfterSlash | dashboard-reporting-europe.py:90 | the text after a final `/` is the last segment |
| ResourceLinks.BuildResourceLink | dashboard-reporting-europe.py:88-96 | a link is built iff the URL is present and the API answers a `dataset_id` for its last segment, and it is `https://www.data.gouv.fr/fr/datasets/<dataset_id>/#/resources/<resource_id>` |
| ResourceLinks.LinkNamesResource | dashboard-reporting-europe.py:90-94 | the built link ends with the same resource id as the download URL |
| QueryTemplate.KeepPrefix | dashboard-reporting-europe.py:161 | text in which no `$ORGA$` starts is copied unchanged |
| QueryTemplate.SubstituteNoPlaceholder | dashboard-reporting-europe.py:161 | a template without `$ORGA$` is sent unchanged |
| QueryTemplate.SubstituteFirst | dashboard-reporting-europe.py:161 | the first `$ORGA$` is replaced by the organization URL, the text before it kept, the rest replaced in turn |
| Columns.UniqueMembers | dashboard-reporting-europe.py:170 | `unique()` holds exactly the values of the column, each once |
| Columns.UniqueFirstSeenOrder | dashboard-reporting-europe.py:170 | `unique()` lists values in the order of their first appearance |
| Columns.UniqueHead | dashboard-reporting-europe.py:172-173 | `unique()[0]` is the column's first value |
| Columns.NUniqueCounts | dashboard-reporting-europe.py:167-168 | `nunique()` is the number of distinct values present, missing ones not counted |
| Report.WhereMembers | dashboard-reporting-europe.py:171 | the selection of a title holds exactly the frame's rows with that title |
| Report.HasRows | dashboard-reporting-europe.py:170-171 | a title taken from the frame selects at least one row |
| Report.LicenseLabel | dashboard-reporting-europe.py:26-29 | a known Licence Ouverte URL becomes a Markdown link to that URL; anything else passes through unchanged |
| Report.AppendLines | dashboard-reporting-europe.py:191-195 | the inner loop appends one line per row of the section, in order |
| Report.AppendSection | dashboard-reporting-europe.py:171-196 | one outer iteration appends the heading, the lines and the closing tag of the section |
| Report.AppendSections | dashboard-reporting-europe.py:170-196 | the outer loop appends the sections of the titles in order |
| Report.RenderMarkdown | dashboard-reporting-europe.py:165-196 | the string built by appending is the report text: the header, then one section per distinct title |
| ReportLemmas.HeaderCountsDatasets | dashboard-reporting-europe.py:165-169 | the header shows the number of distinct dataset URIs present, with `s` only above one |
| ReportLemmas.WhereCount | dashboard-reporting-europe.py:189 | "Voir N ressource(s)" counts the frame's rows with that title |
| ReportLemmas.WhereFirst | dashboard-reporting-europe.py:171-172 | the first row of a section is the first row of the frame with that title |
| ReportLemmas.SectionHeadFirstRow | dashboard-reporting-europe.py:170-190 | a section's heading links to the dataset URI and shows the category of the first row with its title, and counts the rows with its title |
| ReportLemmas.ChosenLicenseRule | dashboard-reporting-europe.py:174-178 | with exactly one distinct licence present, that licence is shown and every row that has a licence has it; otherwise `plusieurs licences renseignées` is shown |
| ReportLemmas.FirstLicenseMissing | dashboard-reporting-europe.py:174-178 | as written, a section whose first row has no licence shows `None` even when another row has one; corrected, it shows that licence |
| ReportLemmas.SectionsPartitionRows | dashboard-reporting-europe.py:170-171 | the sections of the distinct titles together list every row of the frame exactly once |
| Dashboard.AnnotateAll | dashboard-reporting-europe.py:164 | one row per record, its columns copied from that record and `resourceLink` built from its `accessURL` |
| Dashboard.ResourceLine | dashboard-reporting-europe.py:191-195 | a resource's line links to its data.gouv.fr page iff its URL is present and the API knows it; otherwise it carries the "no longer exists" mark |
| Dashboard.AsWrittenAgrees | dashboard-reporting-europe.py:158-196 | the callback as written and as corrected differ exactly on an empty frame or a frame with an untitled row |
| Dashboard.EmptyResultAborts | dashboard-reporting-europe.py:163-169 | as written, an organization without resources raises `KeyError('accessURL')`; corrected, the report says 0 HVD |
| Dashboard.UntitledRowAborts | dashboard-reporting-europe.py:170-173 | as written, a row without a title raises `IndexError`; corrected, the report is produced |
| Dashboard.UpdateGraph | dashboard-reporting-europe.py:158-203 | no organization: `PreventUpdate` with no request; otherwise the query for the organization is fetched by the paging loop and the result is the corrected `Callback` applied to what the loop returned. On an empty answer or an untitled row the script raises where this member returns a report (`Dashboard.CallbackAsWritten`, Findings) |

## Left out

- The Dash application: layout, dropdown, the mapping of organizations to dropdown options, `dcc.Markdown` rendering, `app.run_server`. It is UI and is not part of the core.
- Network I/O: the POST to data.europa.eu is the parameter `post` and the data.gouv.fr API is the parameter `lookup`. Timeouts, sessions and headers are not modelled.
- The `print` calls at lines 96 and 162: they only write to the console.
- The text of `resources_query`: the template is a parameter of `UpdateGraph`, so the SPARQL query itself is not modelled.
- JSON decoding: the body of a response is already an envelope (`head.vars`, `results.bindings`) or missing. A missing body is `MalformedBody`. A body whose JSON lacks `head` or `results` is not distinguished from it.
- Fetch.FetchPages: requires that the endpoint eventually answers a short page or an error. An endpoint that always answers full pages makes the source loop forever. That case is excluded, not modelled.
- Dashboard.Field: a frame whose records lack one of the six declared variables reads that cell as missing. pandas would raise `KeyError` there. The query declares all six variables, so every non-empty answer has them.
- pandas values: a missing cell is `None`, as it is in an object column built from dicts. NaN and dtype conversion are not modelled.
- Dashboard.CallbackAsWritten: models the error paths as written. Its report uses the corrected licence rule, as do `Report.SectionHead`, `Report.ReportText` and `Report.RenderMarkdown`. The licence as written is `Report.ChosenLicenseAsWritten`, compared in `ReportLemmas.FirstLicenseMissing`.
- Report.Where: a `None` title selects the untitled rows. That is the corrected selection; as written, `== None` selects no row (see Findings).
- Plurals: the counts are singular for 0 and for 1 (`Report.Plural`), as in the script.
- An empty answer raises `KeyError` instead of rendering a report of zero datasets; see Findings.

## Findings

| source | as written | input that shows it | evidently intended | confidence | as-written member | corrected member |
|---|---|---|---|---|---|---|
| dashboard-reporting-europe.py:163-164 | an answer without rows makes `pd.DataFrame([])`, which has no columns, so `resources['accessURL']` raises `KeyError` | an organization with no HVD resources (every page empty) | a report saying "0 HVD reporté à l'Europe" | high; not executed | Dashboard.EmptyResultAborts | Dashboard.UpdateGraph |
| dashboard-reporting-europe.py:170-172 | a dataset without a `dct:title` gives a `None` title; `resources["title"] == None` matches no row, so `restr` is empty and `unique()[0]` raises `IndexError` | one row whose `title` is unbound | the untitled rows grouped in a section of their own, the rest of the report kept | high; not executed | Dashboard.UntitledRowAborts | Dashboard.AsWrittenAgrees |
| dashboard-reporting-europe.py:174-176 | `nunique()` skips missing licences but `unique()[0]` does not, so a missing first licence is shown as `None` | a title with two resources, the first without `dct:license`, the second with one | the one licence present | medium; not executed | ReportLemmas.FirstLicenseMissing | ReportLemmas.ChosenLicenseRule |
