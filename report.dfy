/**
 * The Markdown report of `update_graph`: a header with the number of distinct datasets, then
 * one collapsible section per distinct title, in order of first appearance, listing that
 * title's resources. The functions specify the text; `RenderMarkdown` builds it as the
 * source does, by appending to a string in nested loops.
 */
module Report {
  import opened Wrappers
  import Decimal
  import Columns

  /** One row of the resources frame, with the `resourceLink` column added. */
  datatype Row = Row(
    d: Option<string>,
    title: Option<string>,
    catLabel: Option<string>,
    license: Option<string>,
    resTitle: Option<string>,
    accessUrl: Option<string>,
    resourceLink: Option<string>)

  const Several: string := "plusieurs licences renseignées"
  const Gone: string := " /!\\ cette ressource n'existe plus"

  const LicenceOuverte1: string := "https://www.etalab.gouv.fr/wp-content/uploads/2014/05/Licence_Ouverte.pdf"
  const LicenceOuverte2: string := "https://www.etalab.gouv.fr/licence-ouverte-open-licence"

  /** The Markdown link `[name](url)`. */
  function MarkdownLink(name: string, url: string): string
  {
    "[" + name + "](" + url + ")"
  }

  /** The `licenses` table: licence URL to its Markdown label. */
  const KnownLicenses: map<string, string> := map[
    LicenceOuverte1 := MarkdownLink("Licence Ouverte 1.0", LicenceOuverte1),
    LicenceOuverte2 := MarkdownLink("Licence Ouverte 2.0", LicenceOuverte2)
  ]

  /** How an f-string writes a cell: its text, or `None` when it is missing. */
  function Fmt(v: Option<string>): string
  {
    if v.Some? then v.value else "None"
  }

  /** Python truthiness of a cell: present and not empty. */
  predicate Truthy(v: Option<string>)
  {
    v.Some? && v.value != ""
  }

  /** The plural mark of a count: `s` only above one. */
  function Plural(n: nat): string
  {
    if n > 1 then "s" else ""
  }

  function Datasets(rows: seq<Row>): seq<Option<string>>
  {
    seq(|rows|, i requires 0 <= i < |rows| => rows[i].d)
  }

  function Titles(rows: seq<Row>): seq<Option<string>>
  {
    seq(|rows|, i requires 0 <= i < |rows| => rows[i].title)
  }

  function Categories(rows: seq<Row>): seq<Option<string>>
  {
    seq(|rows|, i requires 0 <= i < |rows| => rows[i].catLabel)
  }

  function Licenses(rows: seq<Row>): seq<Option<string>>
  {
    seq(|rows|, i requires 0 <= i < |rows| => rows[i].license)
  }

  /**
   * The header for `n` datasets: a link to the organization's page, then the count, with a
   * plural mark only when there are more than one.
   */
  function HeaderLine(orgaUrl: string, n: nat): string
  {
    "##### [Lien vers la page de l'organisation](" + orgaUrl + ")\n"
      + "#### " + Decimal.Show(n) + " HVD reporté" + Plural(n) + " à l'Europe :\n"
  }

  /** The header of the report: the count is `resources['d'].nunique()`. */
  function Header(orgaUrl: string, rows: seq<Row>): string
  {
    HeaderLine(orgaUrl, Columns.NUnique(Datasets(rows)))
  }

  /**
   * `resources.loc[resources["title"] == title]`: the rows with that title, in order. For a
   * missing title this is the corrected selection, the untitled rows; pandas' `== None` selects
   * no row.
   */
  function Where(rows: seq<Row>, title: Option<string>): seq<Row>
  {
    if rows == [] then []
    else
      var last := rows[|rows| - 1];
      assert rows == rows[..|rows| - 1] + [last];
      Where(rows[..|rows| - 1], title) + (if last.title == title then [last] else [])
  }

  /**
   * The licence of a section as the source computes it: `unique()[0]` of the licence column
   * when `nunique()` is one, otherwise `plusieurs licences renseignées`. `unique()` keeps
   * missing values and `nunique()` does not, so a missing first licence is picked even when
   * a later row has one.
   */
  function ChosenLicenseAsWritten(restr: seq<Row>): Option<string>
    requires |restr| > 0
  {
    Columns.UniqueHead(Licenses(restr));
    if Columns.NUnique(Licenses(restr)) == 1 then Columns.Unique(Licenses(restr))[0]
    else Some(Several)
  }

  /**
   * The licence of a section: the single licence present when exactly one distinct licence is
   * present, otherwise `plusieurs licences renseignées`.
   */
  function ChosenLicense(restr: seq<Row>): string
  {
    var present := Columns.Unique(Columns.Present(Licenses(restr)));
    if |present| == 1 then present[0] else Several
  }

  /** `s` is the Markdown link `[name](url)` for some name. */
  ghost predicate LinksTo(s: string, url: string)
  {
    exists name: string :: s == MarkdownLink(name, url)
  }

  /**
   * `licenses.get(license, license)`: a known licence URL becomes a Markdown link to itself;
   * anything else passes through unchanged.
   */
  function LicenseLabel(license: string): (r: string)
    ensures license in KnownLicenses ==> LinksTo(r, license)
    ensures license !in KnownLicenses ==> r == license
  {
    if license in KnownLicenses then
      assert license == LicenceOuverte1 ==> KnownLicenses[license] == MarkdownLink("Licence Ouverte 1.0", license);
      assert license == LicenceOuverte2 ==> KnownLicenses[license] == MarkdownLink("Licence Ouverte 2.0", license);
      KnownLicenses[license]
    else license
  }

  /** The heading of a section and the opening of its collapsible list of `count` resources. */
  function Heading(title: Option<string>, datasetUrl: Option<string>, category: Option<string>,
                   license: string, count: nat): string
  {
    "###### [" + Fmt(title) + "](" + Fmt(datasetUrl) + ") (catégorie `" + Fmt(category) + "`, "
      + license + ")\n\n"
      + "<details>\n\n"
      + "<summary>Voir " + Decimal.Show(count) + " ressource" + Plural(count) + "</summary>\n\n"
  }

  /**
   * The heading of the section of `restr`: its first dataset URI and first category
   * (`unique()[0]`), its licence label and its number of rows.
   */
  function SectionHead(title: Option<string>, restr: seq<Row>): string
    requires |restr| > 0
  {
    Columns.UniqueHead(Datasets(restr));
    Columns.UniqueHead(Categories(restr));
    Heading(title, Columns.Unique(Datasets(restr))[0], Columns.Unique(Categories(restr))[0],
            LicenseLabel(ChosenLicense(restr)), |restr|)
  }

  /** The line of one resource: a link when it has one, otherwise the "no longer exists" mark. */
  function Line(row: Row): string
  {
    if Truthy(row.resourceLink) then "- " + MarkdownLink(Fmt(row.resTitle), row.resourceLink.value) + "\n\n"
    else "- " + Fmt(row.resTitle) + Gone + "\n\n"
  }

  function Lines(restr: seq<Row>): string
  {
    if restr == [] then "" else Lines(restr[..|restr| - 1]) + Line(restr[|restr| - 1])
  }

  const Closing: string := "</details>\n\n"

  /** The section of one title: its heading, one line per row with that title, the closing tag. */
  function Section(rows: seq<Row>, title: Option<string>): string
    requires title in Titles(rows)
  {
    HasRows(rows, title);
    SectionHead(title, Where(rows, title)) + Lines(Where(rows, title)) + Closing
  }

  /** The sections of the given titles, in order. */
  function Sections(rows: seq<Row>, titles: seq<Option<string>>): string
    requires forall i :: 0 <= i < |titles| ==> titles[i] in Titles(rows)
  {
    if titles == [] then ""
    else Sections(rows, titles[..|titles| - 1]) + Section(rows, titles[|titles| - 1])
  }

  /** The selection keeps exactly the rows with the title. */
  lemma {:induction false} WhereMembers(rows: seq<Row>, title: Option<string>)
    ensures forall r :: r in Where(rows, title) <==> r in rows && r.title == title
  {
    if rows != [] {
      WhereMembers(rows[..|rows| - 1], title);
      assert rows == rows[..|rows| - 1] + [rows[|rows| - 1]];
    }
  }

  /** A title taken from the frame selects at least one row. */
  lemma HasRows(rows: seq<Row>, title: Option<string>)
    requires title in Titles(rows)
    ensures Where(rows, title) != []
  {
    var k :| 0 <= k < |rows| && Titles(rows)[k] == title;
    WhereMembers(rows, title);
    assert rows[k] in Where(rows, title);
  }

  /** The distinct titles are titles of the frame. */
  lemma TitlesOfFrame(rows: seq<Row>)
    ensures forall i :: 0 <= i < |Columns.Unique(Titles(rows))| ==>
      Columns.Unique(Titles(rows))[i] in Titles(rows)
  {
    forall i | 0 <= i < |Columns.Unique(Titles(rows))|
      ensures Columns.Unique(Titles(rows))[i] in Titles(rows)
    {
      Columns.UniqueElement(Titles(rows), i);
    }
  }

  /** The whole report of `update_graph`. */
  function ReportText(orgaUrl: string, rows: seq<Row>): string
  {
    TitlesOfFrame(rows);
    Header(orgaUrl, rows) + Sections(rows, Columns.Unique(Titles(rows)))
  }

  lemma Assoc(a: string, b: string, c: string)
    ensures a + b + c == a + (b + c)
  {
  }

  /** Taking one more title appends that title's section. */
  lemma SectionsStep(prefix: string, rows: seq<Row>, titles: seq<Option<string>>, i: nat)
    requires i < |titles|
    requires forall k :: 0 <= k < |titles| ==> titles[k] in Titles(rows)
    ensures prefix + Sections(rows, titles[..i + 1])
      == prefix + Sections(rows, titles[..i]) + Section(rows, titles[i])
  {
    assert titles[..i + 1][..i] == titles[..i];
    Assoc(prefix, Sections(rows, titles[..i]), Section(rows, titles[i]));
  }

  /** The inner loop of `update_graph`: one line per row of the section, in order. */
  method AppendLines(prefix: string, restr: seq<Row>) returns (md: string)
    ensures md == prefix + Lines(restr)
  {
    md := prefix;
    var j := 0;
    while j < |restr|
      invariant 0 <= j <= |restr|
      invariant md == prefix + Lines(restr[..j])
    {
      assert restr[..j + 1][..j] == restr[..j];
      Assoc(prefix, Lines(restr[..j]), Line(restr[j]));
      md := md + Line(restr[j]);
      j := j + 1;
    }
    assert restr[..j] == restr;
  }

  /** One iteration of the outer loop: appends the section of `title`. */
  method AppendSection(markdown: string, rows: seq<Row>, title: Option<string>) returns (md: string)
    requires title in Titles(rows)
    ensures md == markdown + Section(rows, title)
  {
    HasRows(rows, title);
    var restr := Where(rows, title);
    ghost var head := SectionHead(title, restr);
    md := markdown + SectionHead(title, restr);
    md := AppendLines(md, restr);
    md := md + Closing;
    Assoc(markdown + head, Lines(restr), Closing);
    Assoc(markdown, head, Lines(restr) + Closing);
    Assoc(head, Lines(restr), Closing);
  }

  /** The outer loop of `update_graph`: one section per title, appended in order. */
  method AppendSections(header: string, rows: seq<Row>, titles: seq<Option<string>>)
    returns (markdown: string)
    requires forall k :: 0 <= k < |titles| ==> titles[k] in Titles(rows)
    ensures markdown == header + Sections(rows, titles)
  {
    markdown := header;
    var i := 0;
    while i < |titles|
      invariant 0 <= i <= |titles|
      invariant markdown == header + Sections(rows, titles[..i])
    {
      markdown := AppendSection(markdown, rows, titles[i]);
      SectionsStep(header, rows, titles, i);
      i := i + 1;
    }
    assert titles[..i] == titles;
  }

  /** Builds the report by appending, as `update_graph` does with `markdown +=`. */
  method RenderMarkdown(orgaUrl: string, rows: seq<Row>) returns (markdown: string)
    ensures markdown == ReportText(orgaUrl, rows)
  {
    TitlesOfFrame(rows);
    var header := Header(orgaUrl, rows);
    markdown := AppendSections(header, rows, Columns.Unique(Titles(rows)));
  }
}
