/**
 * The `update_graph` callback: from the organization chosen in the dropdown to the Markdown
 * report, or to the reason there is none. The SPARQL endpoint and the data.gouv.fr API are
 * parameters (`post`, `lookup`); the query template is a parameter too.
 */
module Dashboard {
  import opened Wrappers
  import opened SparqlResults
  import Fetch
  import ResourceLinks
  import QueryTemplate
  import Columns
  import opened Report

  /** How the callback ends without a report. */
  datatype CallbackError =
    | PreventUpdate              // no organization chosen: Dash keeps the page as it is
    | FetchFailed(error: FetchError)
    | KeyError(column: string)   // a column the frame does not have
    | IndexError                 // `unique()[0]` of an empty selection

  /** Python truthiness of the dropdown value: `None` and `""` are both "no organization". */
  predicate NoOrganization(orgaUrl: Option<string>)
  {
    orgaUrl.None? || orgaUrl.value == ""
  }

  /** The cell of a record; a variable the answer did not declare reads as missing. */
  function Field(rec: Record, name: string): Option<string>
  {
    if name in rec then rec[name] else None
  }

  /** A row of the frame with its `resourceLink` computed from its `accessURL`. */
  function Annotate(rec: Record, lookup: ResourceLinks.Lookup): Row
  {
    Row(Field(rec, "d"), Field(rec, "title"), Field(rec, "cat_label"), Field(rec, "license"),
        Field(rec, "res_title"), Field(rec, "accessURL"),
        ResourceLinks.BuildResourceLink(Field(rec, "accessURL"), lookup))
  }

  /** `resources['resourceLink'] = resources['accessURL'].apply(build_resource_link)`. */
  function AnnotateAll(frame: Frame, lookup: ResourceLinks.Lookup): (rows: seq<Row>)
    ensures |rows| == |frame|
    ensures forall i :: 0 <= i < |rows| ==>
      rows[i].d == Field(frame[i], "d") && rows[i].title == Field(frame[i], "title") &&
      rows[i].catLabel == Field(frame[i], "cat_label") && rows[i].license == Field(frame[i], "license") &&
      rows[i].resTitle == Field(frame[i], "res_title")
    ensures forall i :: 0 <= i < |rows| ==>
      rows[i].accessUrl == Field(frame[i], "accessURL") &&
      rows[i].resourceLink == ResourceLinks.BuildResourceLink(Field(frame[i], "accessURL"), lookup)
  {
    seq(|frame|, i requires 0 <= i < |frame| => Annotate(frame[i], lookup))
  }

  /**
   * The line of a resource links to its page on data.gouv.fr exactly when its download URL is
   * present and the API knows the resource; otherwise it carries the "no longer exists" mark.
   */
  lemma ResourceLine(rec: Record, lookup: ResourceLinks.Lookup)
    ensures var url := Field(rec, "accessURL");
      url.Some? && lookup(ResourceLinks.ResourceApiUrl(ResourceLinks.LastSegment(url.value))).Some? ==>
        var rid := ResourceLinks.LastSegment(url.value);
        Line(Annotate(rec, lookup))
          == "- " + MarkdownLink(Fmt(Field(rec, "res_title")),
                                 ResourceLinks.DeepLink(lookup(ResourceLinks.ResourceApiUrl(rid)).value, rid))
             + "\n\n"
    ensures var url := Field(rec, "accessURL");
      !(url.Some? && lookup(ResourceLinks.ResourceApiUrl(ResourceLinks.LastSegment(url.value))).Some?) ==>
        Line(Annotate(rec, lookup)) == "- " + Fmt(Field(rec, "res_title")) + Gone + "\n\n"
  {
    var link := ResourceLinks.BuildResourceLink(Field(rec, "accessURL"), lookup);
    if link.Some? {
      var rid := ResourceLinks.LastSegment(Field(rec, "accessURL").value);
      var did := lookup(ResourceLinks.ResourceApiUrl(rid)).value;
      assert link.value == ResourceLinks.DeepLink(did, rid);
      assert link.value[0] == ResourceLinks.DatagouvUrl[0];
    }
  }

  /** The query sent for an organization. */
  function Query(template: string, orgaUrl: string): string
  {
    QueryTemplate.Substitute(template, orgaUrl)
  }

  /**
   * The callback as written, given what the fetch returned. An answer without rows becomes a
   * frame without columns, so reading `accessURL` raises `KeyError`; a row without a title
   * makes a title that `==` never matches, so its selection is empty and `unique()[0]` raises
   * `IndexError`. Either way no report is shown.
   */
  function CallbackAsWritten(orgaUrl: Option<string>, fetched: Result<Frame, FetchError>,
                             lookup: ResourceLinks.Lookup): Result<string, CallbackError>
  {
    if NoOrganization(orgaUrl) then Failure(PreventUpdate)
    else if fetched.Failure? then Failure(FetchFailed(fetched.error))
    else if fetched.value == [] then Failure(KeyError("accessURL"))
    else
      var rows := AnnotateAll(fetched.value, lookup);
      if None in Titles(rows) then Failure(IndexError)
      else Success(ReportText(orgaUrl.value, rows))
  }

  /**
   * The callback as evidently intended: every fetched frame, empty or with untitled rows,
   * gets its report.
   */
  function Callback(orgaUrl: Option<string>, fetched: Result<Frame, FetchError>,
                    lookup: ResourceLinks.Lookup): Result<string, CallbackError>
  {
    if NoOrganization(orgaUrl) then Failure(PreventUpdate)
    else if fetched.Failure? then Failure(FetchFailed(fetched.error))
    else Success(ReportText(orgaUrl.value, AnnotateAll(fetched.value, lookup)))
  }

  /**
   * The two callbacks differ exactly on a fetched frame that is empty or that has a row
   * without a title.
   */
  lemma AsWrittenAgrees(orgaUrl: Option<string>, fetched: Result<Frame, FetchError>,
                        lookup: ResourceLinks.Lookup)
    ensures CallbackAsWritten(orgaUrl, fetched, lookup) == Callback(orgaUrl, fetched, lookup)
      <==> NoOrganization(orgaUrl) || fetched.Failure? ||
           (fetched.value != [] && forall i :: 0 <= i < |fetched.value| ==>
              Field(fetched.value[i], "title").Some?)
  {
    if !NoOrganization(orgaUrl) && fetched.Success? && fetched.value != [] {
      var rows := AnnotateAll(fetched.value, lookup);
      if None in Titles(rows) {
        var k :| 0 <= k < |rows| && Titles(rows)[k] == None;
        assert Field(fetched.value[k], "title") == None;
      } else {
        forall i | 0 <= i < |fetched.value|
          ensures Field(fetched.value[i], "title").Some?
        {
          assert Titles(rows)[i] == Field(fetched.value[i], "title");
        }
      }
    }
  }

  /** An organization without resources: the source raises; the report says zero. */
  lemma EmptyResultAborts(orgaUrl: string, lookup: ResourceLinks.Lookup)
    requires orgaUrl != ""
    ensures CallbackAsWritten(Some(orgaUrl), Success([]), lookup) == Failure(KeyError("accessURL"))
    ensures Callback(Some(orgaUrl), Success([]), lookup) == Success(HeaderLine(orgaUrl, 0))
  {
    var rows := AnnotateAll([], lookup);
    assert rows == [];
    assert Columns.Unique(Titles(rows)) == [];
    assert Columns.NUnique(Datasets(rows)) == 0;
    assert Sections(rows, []) == "";
    assert ReportText(orgaUrl, rows) == HeaderLine(orgaUrl, 0) + "";
    assert HeaderLine(orgaUrl, 0) + "" == HeaderLine(orgaUrl, 0);
    assert Callback(Some(orgaUrl), Success([]), lookup) == Success(ReportText(orgaUrl, rows));
  }

  /** One untitled row: the source raises; the report lists it in a section of its own. */
  lemma UntitledRowAborts(orgaUrl: string, rec: Record, lookup: ResourceLinks.Lookup)
    requires orgaUrl != ""
    requires Field(rec, "title") == None
    ensures CallbackAsWritten(Some(orgaUrl), Success([rec]), lookup) == Failure(IndexError)
    ensures Callback(Some(orgaUrl), Success([rec]), lookup).Success?
  {
    var rows := AnnotateAll([rec], lookup);
    assert Titles(rows)[0] == None;
  }

  /**
   * `update_graph(orga_url)`: nothing is asked when no organization is chosen; otherwise the
   * resources query for the organization is fetched page by page and the report rendered.
   * `requests` is the number of requests POSTed to the SPARQL endpoint.
   */
  method UpdateGraph(orgaUrl: Option<string>, template: string, post: Fetch.Endpoint,
                     lookup: ResourceLinks.Lookup)
    returns (r: Result<string, CallbackError>, requests: nat)
    requires !NoOrganization(orgaUrl) ==>
      Fetch.Ends(Fetch.PagesOf(post, Query(template, orgaUrl.value)))
    ensures NoOrganization(orgaUrl) ==> r == Failure(PreventUpdate) && requests == 0
    ensures !NoOrganization(orgaUrl) ==>
      var pages := Fetch.PagesOf(post, Query(template, orgaUrl.value));
      requests > 0 &&
      (forall k :: 0 <= k < requests - 1 ==> Fetch.Full(pages, k)) &&
      !Fetch.Full(pages, requests - 1) &&
      r == Callback(orgaUrl, Fetch.Outcome(pages, requests), lookup)
  {
    if orgaUrl.None? || orgaUrl.value == "" {
      return Failure(PreventUpdate), 0;
    }
    var query := QueryTemplate.Substitute(template, orgaUrl.value);
    var fetched;
    fetched, requests := Fetch.QueryToFrame(query, true, post);
    if fetched.Failure? {
      return Failure(FetchFailed(fetched.error)), requests;
    }
    var resources := AnnotateAll(fetched.value, lookup);
    var markdown := RenderMarkdown(orgaUrl.value, resources);
    r := Success(markdown);
  }
}
