/**
 * A decoded spreadsheet: a header row and rows of cells, as pandas hands them to the
 * dashboard after `read_excel`. Column lookup, column selection and column assignment
 * are the three table operations the pipeline is built from.
 */
module Sheet {
  import opened Wrappers

  /** One cell: a missing value (NaN/NaT), text, a number, or a calendar date as a day number. */
  datatype Cell = Empty | Text(s: string) | Num(v: real) | Date(day: int)

  type Row = seq<Cell>

  datatype Table = Table(headers: seq<string>, rows: seq<Row>)

  /** Every row holds a date in column `j`. */
  predicate DatedColumn(rows: seq<Row>, j: nat)
  {
    forall row :: row in rows ==> CellAt(row, j).Date?
  }

  /** `a` is `b` with some elements left out, the rest in their order. */
  predicate IsSubsequence<T(==)>(a: seq<T>, b: seq<T>)
    decreases |b|
  {
    |a| <= |b| && (a == [] || (a[0] == b[0] && IsSubsequence(a[1..], b[1..])) || IsSubsequence(a, b[1..]))
  }

  /** The cell of `row` in column `j`; a row shorter than the header row reads as missing there. */
  function CellAt(row: Row, j: nat): Cell
  {
    if j < |row| then row[j] else Empty
  }

  /** Every row has exactly one cell per header, as in a data frame. */
  predicate Rectangular(t: Table)
  {
    forall row :: row in t.rows ==> |row| == |t.headers|
  }

  /** Position of the first header equal to `name` (Python's `list.index`, without the exception). */
  function IndexOf(hs: seq<string>, name: string): (r: Option<nat>)
    ensures r.None? <==> name !in hs
    ensures r.Some? ==> r.value < |hs| && hs[r.value] == name && name !in hs[..r.value]
  {
    if |hs| == 0 then None
    else if hs[0] == name then Some(0)
    else match IndexOf(hs[1..], name)
      case None => None
      case Some(k) =>
        assert hs[..k + 1] == [hs[0]] + hs[1..][..k];
        Some(k + 1)
  }

  /** Appending a header does not move the first occurrence of a name already present. */
  lemma {:induction false} IndexOfAppend(hs: seq<string>, extra: string, name: string)
    requires name in hs
    ensures IndexOf(hs + [extra], name) == IndexOf(hs, name)
  {
    if hs[0] != name {
      assert (hs + [extra])[1..] == hs[1..] + [extra];
      IndexOfAppend(hs[1..], extra, name);
    }
  }

  /** `pattern` occurs in `s` starting at position `i`. */
  predicate OccursAt(s: string, pattern: string, i: int)
  {
    0 <= i && i + |pattern| <= |s| && s[i..i + |pattern|] == pattern
  }

  /** Substring test, as `str.contains` with a pattern free of regular-expression syntax. */
  predicate ContainsText(s: string, pattern: string): (b: bool)
    decreases |s|
    ensures b <==> exists i :: OccursAt(s, pattern, i)
  {
    if pattern <= s then
      assert OccursAt(s, pattern, 0);
      true
    else if |s| == 0 then
      assert forall i :: OccursAt(s, pattern, i) ==> i == 0 && pattern == [];
      false
    else
      var rest := ContainsText(s[1..], pattern);
      assert forall i :: OccursAt(s[1..], pattern, i) <==> OccursAt(s, pattern, i + 1) by {
        forall i ensures OccursAt(s[1..], pattern, i) <==> OccursAt(s, pattern, i + 1) {
          if 0 <= i && i + |pattern| <= |s| - 1 {
            assert s[1..][i..i + |pattern|] == s[i + 1..i + 1 + |pattern|];
          }
        }
      }
      assert !OccursAt(s, pattern, 0);
      assert forall i :: OccursAt(s, pattern, i) ==> i == 0 || OccursAt(s[1..], pattern, i - 1);
      rest
  }

  /** The columns at positions `cols`, in that order (`df.loc[:, mask]`). */
  function Select(t: Table, cols: seq<nat>): (r: Table)
    requires forall k :: 0 <= k < |cols| ==> cols[k] < |t.headers|
    ensures Rectangular(r) && |r.rows| == |t.rows| && |r.headers| == |cols|
    ensures forall k :: 0 <= k < |cols| ==> r.headers[k] == t.headers[cols[k]]
    ensures forall i, k :: 0 <= i < |t.rows| && 0 <= k < |cols| ==> r.rows[i][k] == CellAt(t.rows[i], cols[k])
  {
    var rows := seq(|t.rows|, i requires 0 <= i < |t.rows| =>
                  seq(|cols|, k requires 0 <= k < |cols| => CellAt(t.rows[i], cols[k])));
    Table(seq(|cols|, k requires 0 <= k < |cols| => t.headers[cols[k]]), rows)
  }

  /** Every row of `rows` holds `values[i]` at position `j` in place of what was there. */
  function Overwrite(rows: seq<Row>, j: nat, values: seq<Cell>, width: nat): (r: seq<Row>)
    requires |values| == |rows| && j < width
    requires forall row :: row in rows ==> |row| == width
    ensures |r| == |rows| && forall row :: row in r ==> |row| == width
    ensures forall i :: 0 <= i < |r| ==> CellAt(r[i], j) == values[i]
    ensures forall i: nat, k: nat :: i < |rows| && k != j ==> CellAt(r[i], k) == CellAt(rows[i], k)
  {
    seq(|rows|, i requires 0 <= i < |rows| => assert rows[i] in rows; rows[i][j := values[i]])
  }

  /** Every row of `rows` gets `values[i]` appended on the right. */
  function Append(rows: seq<Row>, values: seq<Cell>, width: nat): (r: seq<Row>)
    requires |values| == |rows|
    requires forall row :: row in rows ==> |row| == width
    ensures |r| == |rows| && forall row :: row in r ==> |row| == width + 1
    ensures forall i :: 0 <= i < |r| ==> CellAt(r[i], width) == values[i]
    ensures forall i: nat, k: nat :: i < |rows| && k < width ==> CellAt(r[i], k) == CellAt(rows[i], k)
  {
    seq(|rows|, i requires 0 <= i < |rows| => assert rows[i] in rows; rows[i] + [values[i]])
  }

  /**
   * Column assignment `df[name] = values`: an existing column is overwritten in place,
   * otherwise a new column is appended on the right. No other cell changes.
   */
  function SetColumn(t: Table, name: string, values: seq<Cell>): (r: Table)
    requires Rectangular(t) && |values| == |t.rows|
    ensures Rectangular(r) && |r.rows| == |t.rows|
    ensures r.headers == if name in t.headers then t.headers else t.headers + [name]
    ensures IndexOf(r.headers, name).Some?
    ensures forall i :: 0 <= i < |r.rows| ==> CellAt(r.rows[i], IndexOf(r.headers, name).value) == values[i]
    ensures forall i, k :: 0 <= i < |t.rows| && 0 <= k < |t.headers| && t.headers[k] != name ==>
              CellAt(r.rows[i], k) == CellAt(t.rows[i], k)
  {
    match IndexOf(t.headers, name)
    case Some(j) =>
      Table(t.headers, Overwrite(t.rows, j, values, |t.headers|))
    case None =>
      var r := Table(t.headers + [name], Append(t.rows, values, |t.headers|));
      assert IndexOf(r.headers, name) == Some(|t.headers|);
      r
  }
}
