/**
 * The two pure pieces of the visualization script: the colour of a note
 * type (script.js:17-24) and the level-0 filter of the data rows
 * (script.js:48).
 */
module Visualization {
  import opened Wrappers

  const Interview: string := "interview"
  const FocusGroup: string := "focus_group"
  const Affinization: string := "affinization"
  const DefaultColor: string := "#cccccc"

  /** The types with a colour of their own. */
  predicate KnownType(t: string)
  {
    t == Interview || t == FocusGroup || t == Affinization
  }

  /**
   * `getColorByType`: the colour table lookup, falling back to grey for any
   * other type and for a missing one (`None`).
   */
  function ColorByType(noteType: Option<string>): (color: string)
    ensures noteType == Some(Interview) ==> color == "#ff9999"
    ensures noteType == Some(FocusGroup) ==> color == "#99ff99"
    ensures noteType == Some(Affinization) ==> color == "#9999ff"
    ensures color == DefaultColor <==> !(noteType.Some? && KnownType(noteType.value))
  {
    match noteType
    case Some(t) =>
      if t == Interview then "#ff9999"
      else if t == FocusGroup then "#99ff99"
      else if t == Affinization then "#9999ff"
      else DefaultColor
    case None => DefaultColor
  }

  /** Different known types get different colours, so the colour tells the type back. */
  lemma ColorsTellTypesApart(t1: string, t2: string)
    requires KnownType(t1) && KnownType(t2) && t1 != t2
    ensures ColorByType(Some(t1)) != ColorByType(Some(t2))
  {
  }

  /**
   * A data row as the CSV loader produces it: column name to cell text. A
   * row without a `level` column has no `level` property.
   */
  type Row = map<string, string>

  /** The test `d.level === "0"`: the level cell is present and is exactly the text `0`. */
  predicate AtLevelZero(row: Row)
  {
    "level" in row && row["level"] == "0"
  }

  /** `data.filter(d => d.level === "0")`. */
  function Level0Rows(rows: seq<Row>): (kept: seq<Row>)
    ensures |kept| <= |rows|
    ensures forall row :: row in kept <==> row in rows && AtLevelZero(row)
  {
    if rows == [] then []
    else (if AtLevelZero(rows[0]) then [rows[0]] else []) + Level0Rows(rows[1..])
  }

  /** The filter keeps the original order: filtering a concatenation filters each part. */
  lemma {:induction false} Level0RowsAppend(a: seq<Row>, b: seq<Row>)
    ensures Level0Rows(a + b) == Level0Rows(a) + Level0Rows(b)
    decreases |a|
  {
    if a != [] {
      assert (a + b)[1..] == a[1..] + b;
      Level0RowsAppend(a[1..], b);
    } else {
      assert a + b == b;
    }
  }

  /** Filtering the filtered rows changes nothing. */
  lemma {:induction false} Level0RowsIdempotent(rows: seq<Row>)
    ensures Level0Rows(Level0Rows(rows)) == Level0Rows(rows)
    decreases |rows|
  {
    if rows != [] {
      Level0RowsIdempotent(rows[1..]);
      var kept := Level0Rows(rows);
      if AtLevelZero(rows[0]) {
        assert kept == [rows[0]] + Level0Rows(rows[1..]);
        assert kept[1..] == Level0Rows(rows[1..]);
      } else {
        assert kept == Level0Rows(rows[1..]);
      }
    }
  }
}
