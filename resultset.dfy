/// MySql.XDevAPI.ResultSet: a cursor that pages rows in from the protocol
/// on demand, and looks columns up by name ignoring case.
module XDevApi {
  import opened Wrappers
  import opened Utf8
  import opened CaseFold
  import opened Paging

  /** Column metadata; only the name matters to the cursor. */
  datatype Column = Column(name: string)

  /** The exceptions a ResultSet throws. */
  datatype Error =
    | InvalidOperationException(message: string)
    | ArgumentOutOfRangeException
    | ArgumentException(message: string)
    | MySqlException(message: string)

  /**
   * The protocol's side of a result: the column metadata and the rows the
   * server sends, in order, and how many of them have been read. Reading the
   * wire is not modelled; the stream is fixed in advance and finite.
   */
  class RowSource {
    const columns: seq<Column>
    const rows: seq<Row>
    var read: nat

    ghost predicate Valid()
      reads this
    {
      read <= |rows|
    }

    constructor (columns: seq<Column>, rows: seq<Row>)
      ensures Valid() && this.columns == columns && this.rows == rows && read == 0
    {
      this.columns := columns;
      this.rows := rows;
      read := 0;
    }

    /** The next row, or None at the end of the stream and every time after. */
    method ReadRow() returns (r: Option<Row>)
      requires Valid()
      modifies this
      ensures Valid()
      ensures old(read) < |rows| ==> r == Some(rows[old(read)]) && read == old(read) + 1
      ensures old(read) == |rows| ==> r == None && read == old(read)
    {
      if read < |rows| {
        r := Some(rows[read]);
        read := read + 1;
      } else {
        r := None;
      }
    }

    method LoadColumnMetadata() returns (cols: seq<Column>)
      ensures cols == columns
    {
      cols := columns;
    }
  }

  /** How filling the name map ended: every column added, or Dictionary.Add refused column `at`. */
  datatype Fill = Filled(names: map<string, int>) | Duplicate(names: map<string, int>, at: nat)

  /**
   * `nameMap.Add(Columns[i].Name, i)` for i from `from` on: each column's
   * folded name is added with its index until a name that is already a key.
   */
  function AddColumns(m: map<string, int>, cols: seq<Column>, from: nat): (r: Fill)
    requires from <= |cols|
    ensures r.Duplicate? ==> from <= r.at < |cols| && Fold(cols[r.at].name) in r.names
    decreases |cols| - from
  {
    if from == |cols| then Filled(m)
    else if Fold(cols[from].name) in m then Duplicate(m, from)
    else AddColumns(m[Fold(cols[from].name) := from], cols, from + 1)
  }

  /** No two columns have names that are equal ignoring case. */
  predicate DistinctNames(cols: seq<Column>) {
    forall i, j :: 0 <= i < j < |cols| ==> Fold(cols[i].name) != Fold(cols[j].name)
  }

  /** Every column is found under its folded name, at its own index. */
  predicate MapsEveryColumn(m: map<string, int>, cols: seq<Column>) {
    forall i :: 0 <= i < |cols| ==> Fold(cols[i].name) in m && m[Fold(cols[i].name)] == i
  }

  /** Every entry of `m` names a column of `cols` at its index. */
  predicate EntriesNameColumns(m: map<string, int>, cols: seq<Column>) {
    forall k :: k in m ==> 0 <= m[k] < |cols| && Fold(cols[m[k]].name) == k
  }

  /** Adding columns keeps the old entries and adds only entries that name their column. */
  lemma {:induction false} AddColumnsKeepsEntries(m: map<string, int>, cols: seq<Column>, from: nat)
    requires from <= |cols| && EntriesNameColumns(m, cols)
    ensures var f := AddColumns(m, cols, from);
            && EntriesNameColumns(f.names, cols)
            && forall k :: k in m ==> k in f.names && f.names[k] == m[k]
    decreases |cols| - from
  {
    if from < |cols| && Fold(cols[from].name) !in m {
      AddColumnsKeepsEntries(m[Fold(cols[from].name) := from], cols, from + 1);
    }
  }

  /**
   * Adding columns from `from` on succeeds exactly when their names are
   * distinct ignoring case and none is a key already.
   */
  lemma {:induction false} AddColumnsSucceedsExactly(m: map<string, int>, cols: seq<Column>, from: nat)
    requires from <= |cols|
    ensures AddColumns(m, cols, from).Filled? <==>
              && (forall i :: from <= i < |cols| ==> Fold(cols[i].name) !in m)
              && (forall i, j :: from <= i < j < |cols| ==> Fold(cols[i].name) != Fold(cols[j].name))
    decreases |cols| - from
  {
    if from < |cols| && Fold(cols[from].name) !in m {
      AddColumnsSucceedsExactly(m[Fold(cols[from].name) := from], cols, from + 1);
    }
  }

  /**
   * Every column added is found at its index: all of them on success; on
   * failure, every column before the one whose name is already a key.
   */
  lemma {:induction false} AddColumnsMapsAdded(m: map<string, int>, cols: seq<Column>, from: nat)
    requires from <= |cols|
    ensures var f := AddColumns(m, cols, from);
            var upTo := if f.Filled? then |cols| else f.at;
            forall i :: from <= i < upTo ==>
                 Fold(cols[i].name) in f.names && f.names[Fold(cols[i].name)] == i
    decreases |cols| - from
  {
    if from < |cols| && Fold(cols[from].name) !in m {
      var key := Fold(cols[from].name);
      var m' := m[key := from];
      AddColumnsMapsAdded(m', cols, from + 1);
      AddColumnsKeepsOld(m', cols, from + 1, key);
    }
  }

  /** A key already present keeps its index. */
  lemma {:induction false} AddColumnsKeepsOld(m: map<string, int>, cols: seq<Column>, from: nat, k: string)
    requires from <= |cols| && k in m
    ensures k in AddColumns(m, cols, from).names && AddColumns(m, cols, from).names[k] == m[k]
    decreases |cols| - from
  {
    if from < |cols| && Fold(cols[from].name) !in m {
      AddColumnsKeepsOld(m[Fold(cols[from].name) := from], cols, from + 1, k);
    }
  }

  /** Loading metadata into an empty map succeeds exactly when the names are distinct ignoring case, and then maps every column. */
  lemma LoadIntoEmpty(cols: seq<Column>)
    ensures AddColumns(map[], cols, 0).Filled? <==> DistinctNames(cols)
    ensures AddColumns(map[], cols, 0).Filled? ==> MapsEveryColumn(AddColumns(map[], cols, 0).names, cols)
  {
    AddColumnsSucceedsExactly(map[], cols, 0);
    AddColumnsMapsAdded(map[], cols, 0);
  }

  class ResultSet {
    /** The buffered rows, in stream order; only ever appended to. */
    var Rows: seq<Row>
    var Columns: seq<Column>
    /** Column index by name; keys are folded names, so lookup ignores case. */
    var nameMap: map<string, int>
    var complete: bool
    const protocol: RowSource
    var Position: int
    const PageSize: nat
    /** How many rows of the protocol's stream had been read before this result. */
    ghost const first: nat

    ghost predicate Attached()
      reads this, protocol
    {
      protocol.Valid() && first <= protocol.read
    }

    /** The row stream of this result. */
    ghost function Source(): seq<Row>
      reads this, protocol
      requires Attached()
    {
      protocol.rows[first..]
    }

    /** The cursor's state as a value. */
    ghost function State(): Cursor
      reads this, protocol
      requires Attached()
    {
      Cursor(Rows, Position, complete, protocol.read - first)
    }

    /** Every entry of the name map names a column at its index. */
    ghost predicate NamesValid()
      reads this, protocol
    {
      && (Columns == [] || Columns == protocol.columns)
      && EntriesNameColumns(nameMap, Columns)
    }

    ghost predicate Valid()
      reads this, protocol
    {
      Attached() && ValidCursor(State(), Source()) && PageSize == 20 && NamesValid()
    }

    /** After a successful LoadMetadata: every column is found at its own index. */
    ghost predicate MetadataLoaded()
      reads this
    {
      MapsEveryColumn(nameMap, Columns)
    }

    constructor (p: RowSource)
      requires p.Valid()
      ensures Valid() && protocol == p && p.read == old(p.read)
      ensures Rows == [] && Position == -1 && PageSize == 20 && !complete
      ensures Columns == [] && nameMap == map[]
      ensures State() == Initial
    {
      protocol := p;
      PageSize := 20;
      Position := -1;
      Rows := [];
      Columns := [];
      nameMap := map[];
      complete := false;
      first := p.read;
    }

    /**
     * Fetches the column metadata and adds every column to the name map; a
     * name already in the map (ignoring case) raises ArgumentException, with
     * the columns before it added.
     */
    method LoadMetadata() returns (r: Outcome<Error>)
      requires Valid()
      modifies this`Columns, this`nameMap
      ensures Valid() && Columns == protocol.columns
      ensures match AddColumns(old(nameMap), Columns, 0)
              case Filled(m) => nameMap == m && r == Pass
              case Duplicate(m, _) =>
                nameMap == m && r == Fail(ArgumentException("An item with the same key has already been added."))
      ensures old(nameMap) == map[] ==> (r.Pass? <==> DistinctNames(Columns))
      ensures old(nameMap) == map[] && r.Pass? ==> MetadataLoaded()
    {
      ghost var m0 := nameMap;
      Columns := protocol.LoadColumnMetadata();
      LoadIntoEmpty(Columns);
      for i := 0 to |Columns|
        invariant Columns == protocol.columns
        invariant AddColumns(nameMap, Columns, i) == AddColumns(m0, Columns, 0)
        invariant Valid()
      {
        var key := Fold(Columns[i].name);
        if key in nameMap {
          return Fail(ArgumentException("An item with the same key has already been added."));
        }
        nameMap := nameMap[key := i];
      }
      r := Pass;
    }

    /** Moves to the next row, paging rows in at the end of the buffer; false once there is none. */
    method Next() returns (more: bool)
      requires Valid()
      modifies this, protocol
      ensures Valid() && Columns == old(Columns) && nameMap == old(nameMap)
      ensures (State(), more) == Advance(old(State()), Source(), PageSize)
    {
      Position := Position + 1;
      if Position == |Rows| {
        if complete {
          return false;
        }
        var paged := PageInRows();
        if !paged {
          complete := true;
          return false;
        }
      }
      return true;
    }

    /** Buffers every row left in the stream and returns to the old position (0 from -1). */
    method FinishLoading()
      requires Valid() && Position < |Rows|
      modifies this, protocol
      ensures Valid() && Columns == old(Columns) && nameMap == old(nameMap)
      ensures State() == Finish(old(State()), Source(), PageSize)
    {
      var pos := Position;
      ghost var start := State();
      var more := Next();
      while more
        invariant Valid() && Columns == old(Columns) && nameMap == old(nameMap)
        invariant more ==> Position < |Rows|
        invariant Drain(start, Source(), PageSize) == if more then Drain(State(), Source(), PageSize) else State()
        decreases |Source()| - State().read, |Rows| - Position
      {
        more := Next();
      }
      Position := if pos == -1 then 0 else pos;
    }

    /** Reads and discards the rest of the stream, unless the cursor is complete. */
    method Dump()
      requires Valid()
      modifies this`complete, protocol
      ensures Valid()
      ensures State() == DumpAll(old(State()), Source())
    {
      if complete {
        return;
      }
      while true
        invariant Attached() && old(protocol.read) <= protocol.read
        decreases |protocol.rows| - protocol.read
      {
        var values := protocol.ReadRow();
        if values.None? {
          break;
        }
      }
      complete := true;
    }

    /** Reads up to PageSize rows; true when the current position now holds a row. */
    method PageInRows() returns (ok: bool)
      requires Attached() && Consistent(State(), Source()) && !complete
      modifies this`Rows, protocol
      ensures Attached() && State() == PageIn(old(State()), Source(), PageSize)
      ensures ok == (Position < |Rows|)
    {
      for i := 0 to PageSize
        invariant Attached() && Consistent(State(), Source())
        invariant State() == PageIn(old(State()), Source(), i)
      {
        var got := ReadRow();
        if !got {
          break;
        }
      }
      ok := Position < |Rows|;
    }

    /** Reads one row and buffers it; false at the end of the stream. */
    method ReadRow() returns (ok: bool)
      requires Attached() && Consistent(State(), Source()) && !complete
      modifies this`Rows, protocol
      ensures Attached() && Consistent(State(), Source())
      ensures ok == (old(State()).read < |Source()|)
      ensures State() == if ok then old(State()).(rows := old(Rows) + [Source()[old(State()).read]],
                                                  read := old(State()).read + 1)
                         else old(State())
    {
      var values := protocol.ReadRow();
      if values.None? {
        return false;
      }
      Rows := Rows + [values.value];
      return true;
    }

    /**
     * The field at `index` of the current row (the indexer `this[index]`).
     * A read at `Position == |Rows|` throws InvalidOperationException; a read
     * before the first row or past the end, or an index outside the row,
     * throws ArgumentOutOfRangeException.
     */
    function GetValue(index: int): (r: Result<Bytes, Error>)
      requires Valid()
      reads this, protocol
      ensures Position == |Rows| ==> r == Err(InvalidOperationException("No data at position"))
      ensures r.Ok? <==> 0 <= Position < |Rows| && 0 <= index < |Rows[Position]|
      ensures r.Ok? ==> r.value == Source()[Position][index]
      ensures r.Err? && Position != |Rows| ==> r == Err(ArgumentOutOfRangeException)
    {
      if Position == |Rows| then
        Err(InvalidOperationException("No data at position"))
      else if Position < 0 || Position > |Rows| then
        Err(ArgumentOutOfRangeException)
      else if index < 0 || index >= |Rows[Position]| then
        Err(ArgumentOutOfRangeException)
      else
        Ok(Rows[Position][index])
    }

    /**
     * The index of the column called `name`, ignoring case; a name not in the
     * map throws "Column not found".
     */
    function IndexOf(name: string): (r: Result<int, Error>)
      requires Valid()
      reads this, protocol
      ensures r.Ok? ==> 0 <= r.value < |Columns| && EqualsIgnoreCase(Columns[r.value].name, name)
      ensures r.Err? ==> r.error == MySqlException("Column not found '" + name + "'")
      ensures MetadataLoaded() ==>
                (r.Ok? <==> exists i :: 0 <= i < |Columns| && EqualsIgnoreCase(Columns[i].name, name))
      ensures MetadataLoaded() ==>
                forall i :: 0 <= i < |Columns| && EqualsIgnoreCase(Columns[i].name, name) ==> r == Ok(i)
    {
      var key := Fold(name);
      if key in nameMap then Ok(nameMap[key])
      else Err(MySqlException("Column not found '" + name + "'"))
    }
  }
}
