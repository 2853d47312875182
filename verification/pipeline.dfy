/**
 * What one upload goes through once the OCR text of its pages is known
 * (app.py:69-81): the assembled text is parsed; with no record the tool
 * reports that no candidate was found, otherwise it builds the table and
 * fills in the required columns.
 */
module Pipeline {
  import opened Wrappers
  import opened CandidatePattern
  import opened CandidateParser
  import opened TextAssembly
  import Columns

  /** The groups of the pattern are exactly the required columns. */
  lemma {:induction false} FieldsAreRequiredColumns()
    ensures FIELDS == set c | c in Columns.REQUIRED_COLUMNS
  {
    var required := Columns.REQUIRED_COLUMNS;
    assert required[0] == "name" && required[1] == "title" && required[2] == "company";
    assert required[3] == "location" && required[4] == "industry";
  }

  /**
   * The table built from a non-empty list of `groupdict()` records has
   * exactly the five columns, and each cell is the record's value.
   */
  lemma {:induction false} TableOfParsed(parsed: seq<Columns.Row>)
    requires |parsed| > 0
    requires forall k :: 0 <= k < |parsed| ==> parsed[k].Keys == FIELDS
    ensures Columns.TableOf(parsed).Keys == FIELDS
    ensures forall c :: c in FIELDS ==>
              |Columns.TableOf(parsed)[c]| == |parsed| &&
              forall k :: 0 <= k < |parsed| ==> Columns.TableOf(parsed)[c][k] == parsed[k][c]
  {
    FieldsAreRequiredColumns();
    Columns.TableOfUniformRows(parsed);
  }

  /**
   * Lines 75-81 for a non-empty list of `groupdict()` records: the table has
   * exactly the five columns and every cell is the record's value, so the
   * fill loop adds no column and never writes the placeholder.
   */
  method BuildTable(parsed: seq<Columns.Row>) returns (table: Columns.Table)
    requires |parsed| > 0
    requires forall k :: 0 <= k < |parsed| ==> parsed[k].Keys == FIELDS
    ensures table.Keys == FIELDS
    ensures forall c :: c in FIELDS ==>
              |table[c]| == |parsed| && forall k :: 0 <= k < |parsed| ==> table[c][k] == parsed[k][c]
  {
    var df := Columns.TableOf(parsed);
    table := Columns.FillMissing(df, |parsed|);
    FilledKeys(parsed, df, table);
    FilledCells(parsed, df, table);
  }

  /** The fill loop adds no column to a table built from `groupdict()` records. */
  lemma {:induction false} FilledKeys(parsed: seq<Columns.Row>, df: Columns.Table, table: Columns.Table)
    requires |parsed| > 0
    requires forall k :: 0 <= k < |parsed| ==> parsed[k].Keys == FIELDS
    requires df == Columns.TableOf(parsed)
    requires table.Keys == df.Keys + set c | c in Columns.REQUIRED_COLUMNS
    ensures table.Keys == FIELDS
  {
    TableOfParsed(parsed);
    FieldsAreRequiredColumns();
  }

  /** The fill loop keeps every cell of a table built from `groupdict()` records. */
  lemma {:induction false} FilledCells(parsed: seq<Columns.Row>, df: Columns.Table, table: Columns.Table)
    requires |parsed| > 0
    requires forall k :: 0 <= k < |parsed| ==> parsed[k].Keys == FIELDS
    requires df == Columns.TableOf(parsed)
    requires forall c :: c in df ==> c in table && table[c] == df[c]
    ensures forall c :: c in FIELDS ==>
              c in table && |table[c]| == |parsed| && forall k :: 0 <= k < |parsed| ==> table[c][k] == parsed[k][c]
  {
    TableOfParsed(parsed);
  }

  /**
   * The table for the pages of an upload, or `None` when no candidate is
   * found. There is no table exactly when no offset of the assembled text
   * starts a match; otherwise it has exactly the five columns, one row per
   * match, and every cell is what `groupdict()` gave for that match: the fill
   * loop never writes the placeholder, so an absent industry stays `None`.
   */
  method Convert(pages: seq<string>) returns (table: Option<Columns.Table>)
    ensures var text := StripMarker(JoinPages(pages));
      table.None? <==> forall q: nat :: q < |text| ==> MatchAt(text, q).None?
    ensures var text := StripMarker(JoinPages(pages));
      table.Some? ==>
        && table.value.Keys == FIELDS
        && forall c :: c in FIELDS ==>
             |table.value[c]| == |FindIter(text)| &&
             forall k :: 0 <= k < |FindIter(text)| ==> table.value[c][k] == GroupDict(text, FindIter(text)[k])[c]
  {
    var text := AssembleText(pages);
    var parsed := ParseCandidates(text);
    ghost var hits := FindIter(text);
    FindIterEmpty(text);
    if |parsed| == 0 {
      table := None;
    } else {
      var filled := BuildTable(parsed);
      table := Some(filled);
    }
  }
}
