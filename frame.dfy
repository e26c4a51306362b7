/**
 * The weather table as the scripts see it after `pd.read_csv`, and the numeric-column
 * cleaning loop that both versions of `analyze_data` run on it in place.
 */
module Frame {
  import opened Wrappers

  /** A cell after `read_csv`: a number (a numeral is already a number here), any other
      text, or a missing value (NaN). */
  datatype Cell = Num(value: real) | Str(text: string) | Missing

  /** The trace token: a negligible amount of precipitation or snow. */
  const Trace: string := "T"

  /** `numeric_columns`, in the order the loop visits them. */
  const NumericColumns: seq<string> :=
    ["tmax", "tmin", "tavg", "departure", "HDD", "CDD", "precipitation", "new_snow", "snow_depth"]

  /** `pd.to_numeric(column.replace('T', '0.0'), errors='coerce')` on one cell: the exact
      token `T` reads as 0.0, other text cannot be read and becomes missing. */
  function Coerce(c: Cell): (r: Cell)
    ensures !r.Str?
    ensures c == Str(Trace) ==> r == Num(0.0)
    ensures c.Str? && c.text != Trace ==> r == Missing
    ensures !c.Str? ==> r == c
  {
    match c
    case Str(s) => if s == Trace then Num(0.0) else Missing
    case _ => c
  }

  function CoerceColumn(cells: seq<Cell>): (r: seq<Cell>)
    ensures |r| == |cells|
    ensures forall k :: 0 <= k < |r| ==> r[k] == Coerce(cells[k])
  {
    seq(|cells|, k requires 0 <= k < |cells| => Coerce(cells[k]))
  }

  /** The columns of a table once the columns `done` have been cleaned. */
  function Cleaned(data: map<string, seq<Cell>>, done: seq<string>): (r: map<string, seq<Cell>>)
    ensures r.Keys == data.Keys
    ensures forall c :: c in data ==> |r[c]| == |data[c]|
    ensures forall c :: c in data && c !in done ==> r[c] == data[c]
    ensures forall c, k :: c in data && c in done && 0 <= k < |data[c]| ==>
              && !r[c][k].Str?
              && (data[c][k] == Str(Trace) ==> r[c][k] == Num(0.0))
              && (data[c][k].Str? && data[c][k].text != Trace ==> r[c][k] == Missing)
              && (!data[c][k].Str? ==> r[c][k] == data[c][k])
  {
    map c | c in data :: if c in done then CoerceColumn(data[c]) else data[c]
  }

  /** Cleaning a column again changes nothing. */
  lemma CleanedIdempotent(data: map<string, seq<Cell>>, done: seq<string>)
    ensures Cleaned(Cleaned(data, done), done) == Cleaned(data, done)
  {
    var once := Cleaned(data, done);
    forall c | c in once ensures Cleaned(once, done)[c] == once[c] {
      if c in done {
        assert CoerceColumn(once[c]) == once[c];
      }
    }
  }

  /** Index of the first of `names` that is not among `columns`, or `|names|`. */
  function FirstAbsent(names: seq<string>, columns: seq<string>): (k: nat)
    ensures k <= |names|
    ensures forall i :: 0 <= i < k ==> names[i] in columns
    ensures k < |names| ==> names[k] !in columns
  {
    if names == [] || names[0] !in columns then 0
    else 1 + FirstAbsent(names[1..], columns)
  }

  /** A pandas DataFrame: distinct column names in order, each with `rowCount` cells. */
  class DataFrame {
    var columns: seq<string>
    var data: map<string, seq<Cell>>
    var rowCount: nat

    ghost predicate Valid()
      reads this
    {
      && (forall i, j :: 0 <= i < j < |columns| ==> columns[i] != columns[j])
      && (forall c :: c in data <==> c in columns)
      && (forall c :: c in data ==> |data[c]| == rowCount)
    }

    constructor (columns: seq<string>, data: map<string, seq<Cell>>, rowCount: nat)
      requires forall i, j :: 0 <= i < j < |columns| ==> columns[i] != columns[j]
      requires forall c :: c in data <==> c in columns
      requires forall c :: c in data ==> |data[c]| == rowCount
      ensures Valid()
      ensures this.columns == columns && this.data == data && this.rowCount == rowCount
    {
      this.columns, this.data, this.rowCount := columns, data, rowCount;
    }

    /** `df[name] = values`: replaces the column, or appends it when it is new. */
    method Assign(name: string, values: seq<Cell>)
      requires Valid() && |values| == rowCount
      modifies this
      ensures Valid() && rowCount == old(rowCount)
      ensures columns == if name in old(columns) then old(columns) else old(columns) + [name]
      ensures data == old(data)[name := values]
    {
      if name !in columns {
        columns := columns + [name];
      }
      data := data[name := values];
    }
  }

  /** The loop `for col in numeric_columns: df[col] = pd.to_numeric(...)`, over the column
      names `names`. A column missing from the table makes `df[col]` raise `KeyError`; it
      is returned, and the columns before it stay cleaned, since the loop works in place. */
  method CleanColumns(df: DataFrame, names: seq<string>) returns (absent: Option<string>)
    requires df.Valid()
    modifies df
    ensures df.Valid() && df.columns == old(df.columns) && df.rowCount == old(df.rowCount)
    ensures var k := FirstAbsent(names, old(df.columns));
            && absent == (if k < |names| then Some(names[k]) else None)
            && df.data == Cleaned(old(df.data), names[..k])
  {
    ghost var original := df.data;
    for k := 0 to |names|
      invariant df.Valid() && df.columns == old(df.columns) && df.rowCount == old(df.rowCount)
      invariant forall i :: 0 <= i < k ==> names[i] in df.columns
      invariant df.data == Cleaned(original, names[..k])
    {
      var col := names[k];
      if col !in df.data {
        FirstAbsentAt(names, df.columns, k);
        return Some(col);
      }
      ghost var before := df.data;
      df.Assign(col, CoerceColumn(df.data[col]));
      CleanedStep(original, names, k, before);
    }
    FirstAbsentAt(names, df.columns, |names|);
    assert names[..|names|] == names;
    return None;
  }

  lemma FirstAbsentAt(names: seq<string>, columns: seq<string>, k: nat)
    requires k <= |names|
    requires forall i :: 0 <= i < k ==> names[i] in columns
    requires k < |names| ==> names[k] !in columns
    ensures FirstAbsent(names, columns) == k
  {
  }

  /** Cleaning one more column of an already partly cleaned table. */
  lemma CleanedStep(data: map<string, seq<Cell>>, names: seq<string>, k: nat, before: map<string, seq<Cell>>)
    requires k < |names| && names[k] in data
    requires before == Cleaned(data, names[..k])
    ensures before[names[k] := CoerceColumn(before[names[k]])] == Cleaned(data, names[..k + 1])
  {
    var col := names[k];
    var after := Cleaned(data, names[..k + 1]);
    assert names[..k + 1] == names[..k] + [col];
    forall c | c in data
      ensures before[col := CoerceColumn(before[col])][c] == after[c]
    {
      if c == col {
        if c in names[..k] {
          assert CoerceColumn(CoerceColumn(data[c])) == CoerceColumn(data[c]);
        }
      }
    }
    assert before[col := CoerceColumn(before[col])].Keys == after.Keys;
  }
}
