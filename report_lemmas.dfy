/**
 * What the report of `update_graph` says about the frame it is built from: the header counts
 * the distinct datasets, each title gets one section whose link and category come from the
 * first row with that title and whose count is the number of rows with that title, the
 * licence rule, and the sections together list every row exactly once.
 */
module ReportLemmas {
  import opened Wrappers
  import Columns
  import opened Report

  /** Appending a row appends its cells to every column. */
  lemma ColumnsSnoc(rows: seq<Row>, r: Row)
    ensures Titles(rows + [r]) == Titles(rows) + [r.title]
    ensures Datasets(rows + [r]) == Datasets(rows) + [r.d]
  {
  }

  /** Selecting by title on a frame with one more row. */
  lemma WhereSnoc(rows: seq<Row>, r: Row, title: Option<string>)
    ensures Where(rows + [r], title) == Where(rows, title) + (if r.title == title then [r] else [])
  {
    assert (rows + [r])[..|rows|] == rows;
  }

  /** A title that no row carries selects nothing. */
  lemma {:induction false} NoRows(rows: seq<Row>, title: Option<string>)
    requires title !in Titles(rows)
    ensures Where(rows, title) == []
  {
    if rows != [] {
      var init := rows[..|rows| - 1];
      var r := rows[|rows| - 1];
      assert rows == init + [r];
      ColumnsSnoc(init, r);
      NoRows(init, title);
      WhereSnoc(init, r, title);
    }
  }

  /** The header shows the number of distinct dataset URIs present in the frame. */
  lemma HeaderCountsDatasets(orgaUrl: string, rows: seq<Row>)
    ensures Header(orgaUrl, rows) == HeaderLine(orgaUrl, |Columns.Values(Datasets(rows))|)
  {
    Columns.NUniqueCounts(Datasets(rows));
  }

  /** A section holds as many rows as the frame has rows with that title. */
  lemma {:induction false} WhereCount(rows: seq<Row>, title: Option<string>)
    ensures |Where(rows, title)| == multiset(Titles(rows))[title]
  {
    if rows != [] {
      var init := rows[..|rows| - 1];
      var r := rows[|rows| - 1];
      assert rows == init + [r];
      WhereCount(init, title);
      WhereSnoc(init, r, title);
      ColumnsSnoc(init, r);
    }
  }

  /** The first row of a section is the first row of the frame with that title. */
  lemma {:induction false} WhereFirst(rows: seq<Row>, title: Option<string>)
    requires title in Titles(rows)
    ensures Where(rows, title) != []
    ensures Where(rows, title)[0] == rows[Columns.IndexOf(Titles(rows), title)]
  {
    var init := rows[..|rows| - 1];
    var r := rows[|rows| - 1];
    assert rows == init + [r];
    WhereSnoc(init, r, title);
    ColumnsSnoc(init, r);
    if title in Titles(init) {
      WhereFirst(init, title);
      Columns.IndexOfPrefix(Titles(init), r.title, title);
    } else {
      NoRows(init, title);
      assert forall j :: 0 <= j < |init| ==> Titles(rows)[j] == Titles(init)[j];
    }
  }

  /**
   * The heading of the section of a title links to the dataset URI of the first row with that
   * title, shows that row's category, and counts the rows with that title.
   */
  lemma SectionHeadFirstRow(rows: seq<Row>, title: Option<string>)
    requires title in Titles(rows)
    ensures Where(rows, title) != []
    ensures var first := rows[Columns.IndexOf(Titles(rows), title)];
      SectionHead(title, Where(rows, title))
        == Heading(title, first.d, first.catLabel, LicenseLabel(ChosenLicense(Where(rows, title))),
                   multiset(Titles(rows))[title])
  {
    WhereFirst(rows, title);
    WhereCount(rows, title);
    var restr := Where(rows, title);
    Columns.UniqueHead(Datasets(restr));
    Columns.UniqueHead(Categories(restr));
  }

  /**
   * The licence rule: when exactly one distinct licence is present it is shown, and it is the
   * licence of every row that has one; otherwise `plusieurs licences renseignées` is shown.
   */
  lemma ChosenLicenseRule(restr: seq<Row>)
    ensures |Columns.Values(Licenses(restr))| == 1 ==>
      exists k :: 0 <= k < |restr| && restr[k].license == Some(ChosenLicense(restr))
    ensures |Columns.Values(Licenses(restr))| == 1 ==>
      forall k :: 0 <= k < |restr| && restr[k].license.Some? ==>
        restr[k].license.value == ChosenLicense(restr)
    ensures |Columns.Values(Licenses(restr))| != 1 ==> ChosenLicense(restr) == Several
  {
    var present := Columns.Present(Licenses(restr));
    Columns.NUniqueCounts(Licenses(restr));
    Columns.UniqueMembers(present);
    Columns.PresentMembers(Licenses(restr));
    if |Columns.Unique(present)| == 1 {
      var l := Columns.Unique(present)[0];
      assert l in Columns.Unique(present);
      assert Some(l) in Licenses(restr);
      var k :| 0 <= k < |restr| && Licenses(restr)[k] == Some(l);
      assert restr[k].license == Some(ChosenLicense(restr));
      forall k | 0 <= k < |restr| && restr[k].license.Some?
        ensures restr[k].license.value == ChosenLicense(restr)
      {
        assert Licenses(restr)[k] == restr[k].license;
        assert restr[k].license.value in Columns.Unique(present);
      }
    }
  }

  /**
   * `unique()[0]` can pick a missing licence: a section whose first row has no licence and
   * whose second row has one shows `None` as written, and that licence once corrected.
   */
  lemma FirstLicenseMissing(a: Row, b: Row)
    requires a.license == None && b.license.Some?
    ensures ChosenLicenseAsWritten([a, b]) == None
    ensures ChosenLicense([a, b]) == b.license.value
  {
    var column := Licenses([a, b]);
    assert column == [None, b.license];
    assert column[..1] == [None];
    assert Columns.Unique(column[..1]) == [None];
    assert Columns.Unique(column) == [None, b.license];
    assert column[1..] == [b.license] && column[1..][1..] == [];
    assert Columns.Present(column[1..][1..]) == [];
    assert Columns.Present(column[1..]) == [b.license.value];
    assert Columns.Present(column) == [b.license.value];
    assert Columns.Unique(Columns.Present(column)) == [b.license.value];
  }

  /**
   * The rows listed by the sections of `titles`, section after section: `Sections` renders one
   * line for each of them, in this order (each section's lines are `Lines(Where(rows, title))`).
   */
  function Grouped(rows: seq<Row>, titles: seq<Option<string>>): seq<Row>
  {
    if titles == [] then []
    else Grouped(rows, titles[..|titles| - 1]) + Where(rows, titles[|titles| - 1])
  }

  /** What appending a row `r` adds to a selection: `r` itself, when it has that title. */
  function Added(r: Row, titles: seq<Option<string>>): multiset<Row>
  {
    if r.title in titles then multiset{r} else multiset{}
  }

  lemma {:induction false} GroupedSnoc(rows: seq<Row>, r: Row, titles: seq<Option<string>>)
    requires forall i, j :: 0 <= i < j < |titles| ==> titles[i] != titles[j]
    ensures multiset(Grouped(rows + [r], titles)) == multiset(Grouped(rows, titles)) + Added(r, titles)
  {
    if titles != [] {
      var ts := titles[..|titles| - 1];
      var t := titles[|titles| - 1];
      assert titles == ts + [t];
      GroupedSnoc(rows, r, ts);
      WhereSnoc(rows, r, t);
      ghost var before := multiset(Grouped(rows, ts));
      ghost var after := multiset(Grouped(rows + [r], ts));
      assert multiset(Grouped(rows + [r], titles)) == after + multiset(Where(rows + [r], t));
      assert multiset(Where(rows + [r], t)) == multiset(Where(rows, t)) + Added(r, [t]);
      assert multiset(Grouped(rows, titles)) == before + multiset(Where(rows, t));
      DistinctAdded(r, ts, t);
    }
  }

  lemma DistinctAdded(r: Row, ts: seq<Option<string>>, t: Option<string>)
    requires forall i, j :: 0 <= i < j < |ts + [t]| ==> (ts + [t])[i] != (ts + [t])[j]
    ensures Added(r, ts + [t]) == Added(r, ts) + Added(r, [t])
  {
    if r.title == t {
      forall i | 0 <= i < |ts|
        ensures ts[i] != t
      {
        assert (ts + [t])[i] == ts[i] && (ts + [t])[|ts|] == t;
      }
    }
  }

  /**
   * Grouping by title loses no row and repeats none: the sections of the distinct titles
   * together list exactly the rows of the frame.
   */
  lemma {:induction false} SectionsPartitionRows(rows: seq<Row>)
    ensures multiset(Grouped(rows, Columns.Unique(Titles(rows)))) == multiset(rows)
  {
    if rows != [] {
      var init := rows[..|rows| - 1];
      var r := rows[|rows| - 1];
      assert rows == init + [r];
      SectionsPartitionRows(init);
      ColumnsSnoc(init, r);
      assert Titles(rows)[..|init|] == Titles(init);
      var u := Columns.Unique(Titles(init));
      Columns.UniqueMembers(Titles(init));
      GroupedSnoc(init, r, u);
      if r.title !in u {
        assert Columns.Unique(Titles(rows)) == u + [r.title];
        NoRows(init, r.title);
        WhereSnoc(init, r, r.title);
        assert (u + [r.title])[..|u|] == u;
      }
    }
  }
}
