# Value encoder and paging row cursor of a MySQL X Protocol client

This project models two parts of a .NET client for the MySQL X Protocol
and proves properties of them in Dafny.

- **`ExprUtil`** turns application values into protocol messages. A
  `Scalar` is a type tag plus at most one payload field (none for `V_NULL`). An `Expr` of type `LITERAL`
  wraps a scalar, an `Any` of type `SCALAR` wraps a scalar, and a
  `Collection` names a collection in a schema. `ArgObjectToExpr` looks at the
  runtime type of a `System.Object` argument and picks one of these builders.
- **`ResultSet`** is a cursor over the rows of a query result. It reads rows
  from the protocol one page (20 rows) at a time, as `Next` needs them. Every
  row `Next` pages in is kept in `Rows`; `Dump` reads the rest of the stream
  and discards it. The cursor marks itself complete when a `Next` at the end of
  the buffer finds no more rows, or when `Dump` runs. It looks columns up by
  name ignoring case.

Files:

- `wrappers.dfy`: `Option`, `Result` and `Outcome`.
- `utf8.dfy`: the UTF-8 encoding `ByteString.CopyFromUtf8` applies, a decoder,
  and the round trip between them.
- `mysqlx.dfy`: the protocol messages as datatypes. Also `ScalarValue`, which
  says what a receiver reads out of a scalar. The encoder's contracts are
  stated against it.
- `exprutil.dfy`: the builders and the runtime-type dispatch. A boxed argument
  is the closed datatype `Boxed`, with cases `Null`, `Bool`, `Byte`, `Short`,
  `Int`, `Long`, `Float`, `Double`, `String` and `Other`.
- `casefold.dfy`: the case folding used for column names.
- `paging.dfy`: the cursor as a state machine on values, with its lemmas.
  `Advance` is `Next`, `PageIn` is `PageInRows`, `Drain` is the
  `while (Next());` loop, `Finish` is `FinishLoading` and `DumpAll` is `Dump`.
- `resultset.dfy`: the `ResultSet` class and the `RowSource` class that stands
  in for the protocol. `Next`, `FinishLoading`, `Dump` and `PageInRows` are
  each proved to take exactly the step of their `paging.dfy` counterpart.
  `LoadMetadata` is proved against the function `AddColumns`. `ReadRow`,
  `GetValue` and `IndexOf` state their effect or result directly.

Behaviour kept as the code has it:

- `ArgObjectToExpr` accepts `byte`, `short` and `int` at the type test
  `value is byte || … || value is long`. It then fails at the unboxing cast
  `(long)value` with `InvalidCastException`, which is a different exception
  from `NotSupportedException`. In the same way, `float` passes the floating
  test and fails at `(double)value`. A reader might expect narrower integers
  and floats to be widened to 64 bits; the code does not widen them
  (`ExprUtil.ArgObjectToExpr`).
- Once `Next` has returned false, the next call moves `Position` past
  `Rows.Count`, skips the end-of-buffer test and returns true. Later calls
  return true as well, until the 32-bit `Position` wraps around, which the
  model does not capture. A reader might expect the cursor to stay false once
  exhausted; it does not (`Paging.AdvanceAfterFalse`).
- A read at `Position == Rows.Count` throws `InvalidOperationException("No
  data at position")`; a read before the first row or past the end throws
  `ArgumentOutOfRangeException` (`XDevApi.ResultSet.GetValue`).
- `Dump` reads the rest of the stream without buffering it. After `Dump`, the
  buffer can be shorter than the part of the stream already read.

## Model

| member | source | states |
|---|---|---|
| `ExprUtil.NullScalar` | PortableConnectorNet/Protocol/X/ExprUtil.cs:67-70 | tag `V_NULL`, no payload field set, and a receiver reads it as the null value |
| `ExprUtil.BuildLiteralNullScalar` | PortableConnectorNet/Protocol/X/ExprUtil.cs:14-17 | a `LITERAL` expression whose literal has tag `V_NULL`, carries no payload, and reads back as null |
| `ExprUtil.BuildLiteralExpr` | PortableConnectorNet/Protocol/X/ExprUtil.cs:62-65 | type `LITERAL`; the literal field is set, to exactly the given scalar, so the expression reads back as whatever the scalar reads back as |
| `ExprUtil.ScalarOfDouble` | PortableConnectorNet/Protocol/X/ExprUtil.cs:72-75 | tag `V_DOUBLE`; reads back as the same double |
| `ExprUtil.ScalarOfLong` | PortableConnectorNet/Protocol/X/ExprUtil.cs:77-80 | tag `V_SINT`; reads back as the same 64-bit integer |
| `ExprUtil.ScalarOfString` | PortableConnectorNet/Protocol/X/ExprUtil.cs:82-86 | tag `V_STRING`; the string field holds the UTF-8 bytes of the string and no collation; the bytes decode back to the same string |
| `ExprUtil.ScalarOfOctets` | PortableConnectorNet/Protocol/X/ExprUtil.cs:88-91 | tag `V_OCTETS`; reads back as the same bytes |
| `ExprUtil.ScalarOfBool` | PortableConnectorNet/Protocol/X/ExprUtil.cs:93-96 | tag `V_BOOL`; reads back as the same boolean |
| `ExprUtil.BuildLiteralDouble` | PortableConnectorNet/Protocol/X/ExprUtil.cs:22-25 | a `LITERAL` expression that reads back as the given double |
| `ExprUtil.BuildLiteralLong` | PortableConnectorNet/Protocol/X/ExprUtil.cs:30-33 | a `LITERAL` expression that reads back as the given long |
| `ExprUtil.BuildLiteralString` | PortableConnectorNet/Protocol/X/ExprUtil.cs:38-41 | a `LITERAL` expression that reads back as the given string; its literal is exactly `ScalarOfString` of the string, so no collation is set |
| `ExprUtil.BuildLiteralOctets` | PortableConnectorNet/Protocol/X/ExprUtil.cs:46-49 | a `LITERAL` expression that reads back as the given bytes |
| `ExprUtil.BuildLiteralBool` | PortableConnectorNet/Protocol/X/ExprUtil.cs:54-57 | a `LITERAL` expression that reads back as the given boolean |
| `ExprUtil.BuildAnyString` | PortableConnectorNet/Protocol/X/ExprUtil.cs:101-108 | an `Any` of type `SCALAR` whose scalar, built inline, equals `ScalarOfString` of the same string ("same as Expr") |
| `ExprUtil.BuildAnyBool` | PortableConnectorNet/Protocol/X/ExprUtil.cs:110-113 | an `Any` of type `SCALAR` whose scalar reads back as the given boolean |
| `ExprUtil.BuildCollection` | PortableConnectorNet/Protocol/X/ExprUtil.cs:115-118 | both strings are stored unchanged and none is rejected |
| `ExprUtil.UnboxLong` | PortableConnectorNet/Protocol/X/ExprUtil.cs:132-133 | the cast `(long)value` succeeds exactly on a boxed long and gives back its value; on every other type it throws `InvalidCastException` |
| `ExprUtil.UnboxDouble` | PortableConnectorNet/Protocol/X/ExprUtil.cs:134-135 | the cast `(double)value` succeeds exactly on a boxed double and gives back its value; on every other type it throws `InvalidCastException` |
| `ExprUtil.ArgObjectToExpr` | PortableConnectorNet/Protocol/X/ExprUtil.cs:125-138 | succeeds exactly for null, bool, long, double and string, and then gives a `LITERAL` that reads back as the argument's value; byte, short and int throw `InvalidCastException` to `System.Int64`; float throws it to `System.Double`; any other type throws `NotSupportedException` with the message that names the type; each accepted case is `BuildLiteralExpr` of the matching `NullScalar`/`ScalarOf` scalar; the type tests at :132 and :134 are the predicates `IsIntegral` and `IsFloating` |
| `ExprUtil.RelationalColumnsIgnored` | PortableConnectorNet/Protocol/X/ExprUtil.cs:125-138 | the result does not depend on `allowRelationalColumns` |
| `ExprUtil.ArgObjectToScalar` | PortableConnectorNet/Protocol/X/ExprUtil.cs:120-123 | fails exactly when `ArgObjectToExpr(value, false)` fails, with the same exception; otherwise gives exactly the literal of that expression, which reads back as the argument's value |
| `Utf8.Encode` | PortableConnectorNet/Protocol/X/ExprUtil.cs:84 | the UTF-8 bytes of a string: one to four bytes per code point |
| `Utf8.DecodeEncode` | PortableConnectorNet/Protocol/X/ExprUtil.cs:84 | the bytes `CopyFromUtf8` stores decode back to the original string |
| `Utf8.EncodeInjective` | PortableConnectorNet/Protocol/X/ExprUtil.cs:104 | two different strings never give the same `V_STRING` bytes |
| `Utf8.EncodeAscii` | PortableConnectorNet/Protocol/X/ExprUtil.cs:84 | an ASCII string is stored as its own code points, one byte each |
| `CaseFold.Fold` | PortableConnectorNet/XDevAPI/ResultSet.cs:35 | the lookup key of a name: same length, each ASCII letter upper-cased, every other character kept |
| `XDevApi.ResultSet.constructor` | PortableConnectorNet/XDevAPI/ResultSet.cs:33-46 | `Position == -1`, `PageSize == 20`, no rows, no columns, an empty name map, not complete: the initial cursor state |
| `XDevApi.ResultSet.LoadMetadata` | PortableConnectorNet/XDevAPI/ResultSet.cs:48-54 | `Columns` becomes the protocol's metadata and each column is added under its folded name; a name already present throws `ArgumentException` and leaves the columns before it added; from an empty map it succeeds exactly when the names are distinct ignoring case, and then every column is found at its index |
| `ExprUtil.TypeName` | PortableConnectorNet/Protocol/X/ExprUtil.cs:138 | the name `GetType()` reports: a `System.` name for each listed type, and its own name for any other type |
| `XDevApi.RowSource.ReadRow` | PortableConnectorNet/XDevAPI/ResultSet.cs:104 | the stand-in for `_protocol.ReadRow()`: the next row of the stream, or None at its end and at every call after that |
| `XDevApi.RowSource.LoadColumnMetadata` | PortableConnectorNet/XDevAPI/ResultSet.cs:51 | the stand-in for `_protocol.LoadColumnMetadata()`: always the same column list |
| `XDevApi.AddColumns` | PortableConnectorNet/XDevAPI/ResultSet.cs:52-53 | the `nameMap.Add` loop as a function; when it stops at a column, that column is in range and its folded name is already a key |
| `XDevApi.AddColumnsSucceedsExactly` | PortableConnectorNet/XDevAPI/ResultSet.cs:52-53 | the `Add` loop completes exactly when no name is already a key and no two names are equal ignoring case |
| `XDevApi.AddColumnsMapsAdded` | PortableConnectorNet/XDevAPI/ResultSet.cs:52-53 | every column added is found at its own index: all of them on success, the ones before the offending column on failure |
| `XDevApi.AddColumnsKeepsEntries` | PortableConnectorNet/XDevAPI/ResultSet.cs:52-53 | existing entries survive, and every entry names a column at its index |
| `XDevApi.AddColumnsKeepsOld` | PortableConnectorNet/XDevAPI/ResultSet.cs:52-53 | a key already in the map keeps its index |
| `XDevApi.LoadIntoEmpty` | PortableConnectorNet/XDevAPI/ResultSet.cs:48-54 | loading into the empty map succeeds exactly when the names are distinct ignoring case, and then maps every column to its index |
| `XDevApi.ResultSet.Next` | PortableConnectorNet/XDevAPI/ResultSet.cs:68-81 | the new state and result are exactly `Paging.Advance` of the old state; the object invariant holds; columns and name map are untouched |
| `XDevApi.ResultSet.FinishLoading` | PortableConnectorNet/XDevAPI/ResultSet.cs:61-66 | from a position before the end of the buffer, the new state is exactly `Paging.Finish` of the old one |
| `XDevApi.ResultSet.Dump` | PortableConnectorNet/XDevAPI/ResultSet.cs:83-92 | a complete cursor is left alone; otherwise the rest of the stream is read and dropped, and the cursor becomes complete with the buffer and position unchanged |
| `XDevApi.ResultSet.PageInRows` | PortableConnectorNet/XDevAPI/ResultSet.cs:94-99 | up to `PageSize` rows are appended in stream order, stopping at the end of the stream; returns whether the current position now holds a row |
| `XDevApi.ResultSet.ReadRow` | PortableConnectorNet/XDevAPI/ResultSet.cs:101-111 | returns false and changes nothing at the end of the stream; otherwise appends the next stream row to `Rows` |
| `XDevApi.ResultSet.GetValue` | PortableConnectorNet/XDevAPI/ResultSet.cs:113-118 | with `Position == Rows.Count`, throws `InvalidOperationException`; succeeds exactly for a buffered position and an index inside that row, giving that field of the stream's row at `Position`; all other cases are out of range |
| `XDevApi.ResultSet.IndexOf` | PortableConnectorNet/XDevAPI/ResultSet.cs:120-125 | a found index names a column equal to the name ignoring case; a miss throws "Column not found"; after a successful `LoadMetadata` it succeeds exactly for the column names in any case, returning that column's index |
| `Paging.PageIn` | PortableConnectorNet/XDevAPI/ResultSet.cs:94-99 | appends the next stream rows after the buffer, in order, at most `pageSize` of them, and fewer only at the end of the stream; position and flag unchanged |
| `Paging.Advance` | PortableConnectorNet/XDevAPI/ResultSet.cs:68-81 | keeps the cursor invariant (position at least -1, on a buffered row unless complete; buffer a prefix of the stream); moves the position by exactly one |
| `Paging.AdvanceAppendsOnePage` | PortableConnectorNet/XDevAPI/ResultSet.cs:94-111 | rows are only appended, taken in stream order, at most `PageSize` per call; only a call that reaches the end of the buffer of an incomplete cursor reads, and it reads a full page unless the stream ends first |
| `Paging.AdvanceFalseExactly` | PortableConnectorNet/XDevAPI/ResultSet.cs:70-78 | `Next` returns false exactly when the new position is the old `Rows.Count` and no row was appended; then `_complete` is set; a true result, after a partial page too, leaves `_complete` unchanged |
| `Paging.CompleteReadsNothing` | PortableConnectorNet/XDevAPI/ResultSet.cs:73 | once complete, `Next` only moves the position and neither reads nor changes the buffer |
| `Paging.AdvanceAfterFalse` | PortableConnectorNet/XDevAPI/ResultSet.cs:70-80 | after a false `Next`, the next one sets `Position = Rows.Count + 1` and returns true without fetching, and every later one returns true as well |
| `Paging.Drain` | PortableConnectorNet/XDevAPI/ResultSet.cs:64 | the `while (Next());` loop ends, from a position on a buffered row, and keeps the cursor invariant |
| `Paging.DrainBuffersAll` | PortableConnectorNet/XDevAPI/ResultSet.cs:64 | the loop buffers every remaining stream row in order, uses the stream up, completes the cursor and stops at `Rows.Count`; from an incomplete cursor the buffer is then the whole stream |
| `Paging.Finish` | PortableConnectorNet/XDevAPI/ResultSet.cs:61-66 | `FinishLoading` leaves every remaining row buffered, the stream used up and the cursor complete, and restores the old position, or 0 if it was -1 |
| `Paging.DumpAll` | PortableConnectorNet/XDevAPI/ResultSet.cs:83-92 | `Dump` leaves the stream used up and the cursor complete, with buffer and position unchanged; a complete cursor is left as it is |
| `Paging.DumpThenAdvance` | PortableConnectorNet/XDevAPI/ResultSet.cs:83-92 | after `Dump` the cursor is complete, the stream is used up, the buffer is unchanged, and the next `Next` reads nothing |
| `Paging.TwoRowExample` | PortableConnectorNet/XDevAPI/ResultSet.cs:68-81 | on a two-row stream: the first `Next` buffers both rows, the second stays on the buffer, the third returns false and completes, the fourth returns true |

## Left out

- `Collection.cs` is not part of this model. Its methods throw `NotImplementedException`, delegate to the session, or format an SQL string for a server query.
- The protobuf builders (`CreateBuilder()…Build()`) are not modelled: each message is a plain datatype value. `Expr` keeps only its type and literal fields, and `Any` only its type and scalar fields. The encoder never sets the other fields.
- A C# string is UTF-16 and may hold an unpaired surrogate, which `CopyFromUtf8` would replace. A Dafny `string` is a sequence of Unicode scalar values, so unpaired surrogates cannot occur in the model.
- Null arguments are not modelled: a null string or `byte[]` passed to `ScalarOf`, `BuildAny` or `BuildCollection`, a null column name in `LoadMetadata`, and a null name passed to `IndexOf`. Each of these makes the library throw `ArgumentNullException`. Only `ArgObjectToExpr`'s `null` case is modelled.
- A `byte[]` passed to `ArgObjectToExpr` falls under `Other` and throws `NotSupportedException`; it is not given a case of its own.
- Floating-point values are opaque bit patterns (`Float64`, `Float32`). Nothing is computed with them, so there are no claims about ±0, infinities or NaN.
- CaseFold.Fold: upper-cases ASCII letters only. `StringComparer.OrdinalIgnoreCase` upper-cases all letters with the invariant culture's mapping. The model agrees with it on names that are all ASCII.
- The transport is not modelled. `_protocol.ReadRow()` and `LoadColumnMetadata()` become a `RowSource` object. It holds a fixed, finite list of rows and always returns the same column list. Transport errors, blocking reads and a stream that never ends are not modelled.
- `ResultRow` is not part of this model. A row is the sequence of the raw field bytes it is built from. Indexing a row outside its fields is assumed to throw `ArgumentOutOfRangeException`.
- The `Debug.Assert` on the number of values in a row is debug-only and is left out.
- Paging.Advance: `Position` is an unbounded integer. In C# it is an `int`, and `Position++` wraps from int.MaxValue to int.MinValue after 2^31 increments; the model does not capture that wrap. The same holds for `XDevApi.ResultSet.Next`, which takes the `Advance` step.
- Paging.AdvanceAfterFalse: "every later call returns true" holds for the unbounded position. In C#, after about 2^32 further calls the position wraps around, comes back to `Rows.Count`, and `Next` returns false again.
- XDevApi.ResultSet.FinishLoading: requires `Position < Rows.Count`. From any other position the loop does not end before `Position` wraps around (`Paging.AdvanceAfterFalse`), and the model has no wrap.
- `PageSize` is always 20, as set in the constructor. The functions in `paging.dfy` take any positive page size.
- Callers can replace or modify the public `Rows` and `Columns` lists (for example with `Rows.Clear()` or `Rows.Add(...)`). The model assumes they do not.
- The commented-out expression-parser and JSON branches of `ArgObjectToExpr` are left out. There is no concurrency in this code.
