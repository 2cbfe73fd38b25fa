/**
 * `SqlWriter` from src/pl_sql.rs: writes a DataFrame into a SQLite table.
 * The database is an abstract store (table name to rows, plus the log of
 * statements that changed it); the SQL text the writer sends is built
 * exactly, and the effect of each statement on the store is stated.
 */
module BulkWriter {
  import opened Wrappers
  import opened Strings
  import opened Seqs
  import opened IndexMaps
  import opened PlSql

  /** `IfExistsOption` */
  datatype IfExists = Fail | Replace | Append

  /** `NonZeroUsize` */
  type BatchSize = n: int | 1 <= n witness 1

  datatype IntKind = I8 | I16 | I32 | I64 | I128 | U8 | U16 | U32 | U64

  /**
   * The polars `AnyValue`s a row can hold. A float, and every kind the
   * writer falls back on, is carried with the text its `to_string` gives;
   * a decimal is its unscaled integer and its scale, as polars stores it.
   */
  datatype AnyValue =
    | Null
    | Boolean(b: bool)
    | Str(s: string)
    | Int(kind: IntKind, i: int)
    | Float64(shown: string)
    | Decimal(unscaled: int, scale: nat)
    | Other(shown: string)

  /** A DataFrame: its schema (name and type per column) and its rows. */
  datatype DataFrame = DataFrame(fields: seq<(string, PolarsType)>, rows: seq<seq<AnyValue>>)

  datatype WriteError = IndexCollision(column: string) | TableExists(table: string)

  // ---------------------------------------------------------------------
  // The table and its schema.

  /** The target table: the configured name, else `test`. */
  function TableName(t: Option<string>): string {
    if t.Some? then t.value else "test"
  }

  /** The label `finish` chooses: `Id` when the index is on and no label is preset, else none. */
  function IndexLabel(index: bool, preset: Option<string>): (r: Option<string>)
    ensures r.Some? <==> index && preset.None?
    ensures r.Some? ==> r.value == "Id"
  {
    if index && preset.None? then Some("Id") else None
  }

  /** The synthetic index column: INTEGER AUTOINCREMENT, otherwise default. */
  const IndexColumn: ColOption := DefaultColOption.WithTypeSql(Integer).WithAutoIncrement(true)

  /** The schema inferred from the DataFrame, behind the index column when there is a label. */
  function IndexedColumns(fields: seq<(string, PolarsType)>, lbl: Option<string>): Result<Columns, WriteError> {
    if lbl.None? then Success(FromPolarsFields(fields))
    else if lbl.value in Keys(fields) then Failure(IndexCollision(lbl.value))
    else Success(Extend([(lbl.value, IndexColumn)], FromPolarsFields(fields)))
  }

  /** The explicit schema's entries, applied in order, each only where its column already exists. */
  function Reconcile(base: Columns, explicit: Columns): Columns {
    if |explicit| == 0 then base
    else
      var r := Reconcile(base, explicit[..|explicit| - 1]);
      var (c, o) := explicit[|explicit| - 1];
      if c in Keys(r) then Insert(r, c, o) else r
  }

  /** The schema `finish` creates the table with. */
  function PlannedColumns(fields: seq<(string, PolarsType)>, lbl: Option<string>, explicit: Option<Columns>): Result<Columns, WriteError> {
    var base :- IndexedColumns(fields, lbl);
    if explicit.Some? && !SameEntries(explicit.value, base) then Success(Reconcile(base, explicit.value))
    else Success(base)
  }

  /** The call fails on the index label exactly when that label names a column of the frame. */
  lemma IndexCollisionIff(fields: seq<(string, PolarsType)>, lbl: Option<string>, explicit: Option<Columns>)
    ensures PlannedColumns(fields, lbl, explicit).Failure? <==> lbl.Some? && lbl.value in Keys(fields)
    ensures PlannedColumns(fields, lbl, explicit).Failure? ==>
              PlannedColumns(fields, lbl, explicit).error == IndexCollision(lbl.value)
  {
  }

  /** With a free label and no explicit schema, the index column comes first, then the frame's columns. */
  lemma IndexColumnFirst(fields: seq<(string, PolarsType)>, lbl: string)
    requires NoDup(Keys(fields)) && lbl !in Keys(fields)
    ensures PlannedColumns(fields, Some(lbl), None)
            == Success([(lbl, IndexColumn)] + InferredEntries(fields))
    ensures Keys(PlannedColumns(fields, Some(lbl), None).value) == [lbl] + Keys(fields)
  {
    var e := InferredEntries(fields);
    FromPolarsFieldsShape(fields);
    var head: Columns := [(lbl, IndexColumn)];
    assert Keys(head) == [lbl];
    NoDupCons(lbl, Keys(fields));
    KeysAppend(head, e);
    ExtendDisjoint(head, e);
  }

  lemma {:induction false} ReconcileKeys(base: Columns, explicit: Columns)
    ensures Keys(Reconcile(base, explicit)) == Keys(base)
  {
    if |explicit| > 0 {
      ReconcileKeys(base, explicit[..|explicit| - 1]);
    }
  }

  /**
   * Reconciling never adds or moves a column; a column present in both
   * takes the explicit schema's (last) option, every other keeps its own.
   */
  lemma {:induction false} ReconcileGet(base: Columns, explicit: Columns, k: string)
    requires UniqueKeys(base)
    ensures UniqueKeys(Reconcile(base, explicit))
    ensures Get(Reconcile(base, explicit), k)
            == if k in Keys(base) && k in Keys(explicit) then LastValue(explicit, k) else Get(base, k)
  {
    if |explicit| > 0 {
      var ex' := explicit[..|explicit| - 1];
      var (c, o) := explicit[|explicit| - 1];
      var r := Reconcile(base, ex');
      ReconcileGet(base, ex', k);
      ReconcileKeys(base, ex');
      KeysSnoc(explicit);
      if c in Keys(r) {
        InsertGet(r, c, o, k);
      }
    }
  }

  /** An explicit schema equal to the inferred one changes nothing. */
  lemma {:induction false} ReconcileSame(base: Columns, explicit: Columns)
    requires SameEntries(explicit, base)
    ensures Reconcile(base, explicit) == base
  {
    ReconcilePrefixSame(base, explicit, |explicit|);
    assert explicit[..|explicit|] == explicit;
  }

  lemma {:induction false} ReconcilePrefixSame(base: Columns, explicit: Columns, n: nat)
    requires n <= |explicit|
    requires forall i :: 0 <= i < |explicit| ==> Get(base, explicit[i].0) == Some(explicit[i].1)
    ensures Reconcile(base, explicit[..n]) == base
  {
    if n > 0 {
      var p := explicit[..n];
      assert p[..n - 1] == explicit[..n - 1];
      ReconcilePrefixSame(base, explicit, n - 1);
      var (c, o) := explicit[n - 1];
      assert Get(base, c) == Some(o);
      var i := IndexOf(Keys(base), c);
      assert base[i] == (c, o);
      assert Insert(base, c, o) == base[i := (c, o)];
    }
  }

  /** The inferred schema, behind the index column or not, has distinct names. */
  lemma IndexedUnique(fields: seq<(string, PolarsType)>, lbl: Option<string>)
    requires IndexedColumns(fields, lbl).Success?
    ensures UniqueKeys(IndexedColumns(fields, lbl).value)
  {
    if lbl.None? {
      ExtendUnique([], InferredEntries(fields));
    } else {
      var head: Columns := [(lbl.value, IndexColumn)];
      assert UniqueKeys(head);
      ExtendUnique(head, FromPolarsFields(fields));
    }
  }

  /** Over a schema with distinct names, the guarded reconcile of `finish` and the plain one agree. */
  lemma GuardedReconcile(base: Columns, explicit: Columns, k: string)
    requires UniqueKeys(base)
    ensures var p := if !SameEntries(explicit, base) then Reconcile(base, explicit) else base;
            Keys(p) == Keys(base)
            && Get(p, k) == if k in Keys(base) && k in Keys(explicit) then LastValue(explicit, k) else Get(base, k)
  {
    ReconcileKeys(base, explicit);
    ReconcileGet(base, explicit, k);
    if SameEntries(explicit, base) {
      ReconcileSame(base, explicit);
    }
  }

  /**
   * The explicit schema overrides only columns already present and never
   * adds one, whether or not it equals the inferred schema.
   */
  lemma PlannedWithExplicit(fields: seq<(string, PolarsType)>, lbl: Option<string>, explicit: Columns, k: string)
    requires IndexedColumns(fields, lbl).Success?
    ensures PlannedColumns(fields, lbl, Some(explicit)).Success?
    ensures var base := IndexedColumns(fields, lbl).value;
            var p := PlannedColumns(fields, lbl, Some(explicit)).value;
            Keys(p) == Keys(base)
            && Get(p, k) == if k in Keys(base) && k in Keys(explicit) then LastValue(explicit, k) else Get(base, k)
  {
    var base := IndexedColumns(fields, lbl).value;
    IndexedUnique(fields, lbl);
    GuardedReconcile(base, explicit, k);
    assert PlannedColumns(fields, lbl, Some(explicit)).value
           == if !SameEntries(explicit, base) then Reconcile(base, explicit) else base;
  }

  // ---------------------------------------------------------------------
  // Batches.

  /** The batch size after `finish` clamps it to the row count, never below 1. */
  function ClampBatch(height: nat, batch: BatchSize): (r: BatchSize)
    ensures 0 < height < batch ==> r == height
    ensures height == 0 ==> r == 1
    ensures height >= batch ==> r == batch
    ensures r <= batch
  {
    if height < batch then (if height == 0 then 1 else height) else batch
  }

  /**
   * The first m - 1 parts of `size` rows each, then the rest as the last
   * part: the offsets polars' `_split_offsets` computes.
   */
  function Parts<T>(rows: seq<T>, size: nat, m: BatchSize): (r: seq<seq<T>>)
    requires (m - 1) * size <= |rows|
    ensures |r| == m
    ensures forall k :: 0 <= k < m - 1 ==> |r[k]| == size
    ensures |r[m - 1]| == |rows| - (m - 1) * size
    decreases m
  {
    if m == 1 then [rows]
    else
      MulSucc(m - 2, size);
      [rows[..size]] + Parts(rows[size..], size, m - 1)
  }

  lemma SplitFits(len: nat, n: BatchSize)
    ensures 0 <= len / n && (n - 1) * (len / n) <= len
  {
    var q := len / n;
    assert len == n * q + len % n;
    assert n * q == (n - 1) * q + q;
  }

  /**
   * `split_chunks_by_n(n, _)`: exactly n parts; all but the last have
   * height / n rows and the last takes the remainder.
   */
  function SplitChunks<T>(rows: seq<T>, n: BatchSize): (r: seq<seq<T>>)
    ensures |r| == n
  {
    SplitFits(|rows|, n);
    Parts(rows, |rows| / n, n)
  }

  /** The part sizes of `split_chunks_by_n(n, _)`. */
  lemma SplitChunksSizes<T>(rows: seq<T>, n: BatchSize)
    ensures forall k :: 0 <= k < n - 1 ==> |SplitChunks(rows, n)[k]| == |rows| / n
    ensures |SplitChunks(rows, n)[n - 1]| == |rows| - (n - 1) * (|rows| / n)
  {
    SplitFits(|rows|, n);
  }

  lemma FlattenCons<T>(x: seq<T>, rest: seq<seq<T>>)
    ensures Flatten([x] + rest) == x + Flatten(rest)
  {
    FlattenAppend([x], rest);
    assert [x][..0] == [];
  }

  lemma {:induction false} PartsCover<T>(rows: seq<T>, size: nat, m: BatchSize)
    requires (m - 1) * size <= |rows|
    ensures Flatten(Parts(rows, size, m)) == rows
    decreases m
  {
    if m == 1 {
      FlattenCons(rows, []);
    } else {
      MulSucc(m - 2, size);
      PartsCover(rows[size..], size, m - 1);
      FlattenCons(rows[..size], Parts(rows[size..], size, m - 1));
      assert rows[..size] + rows[size..] == rows;
    }
  }

  lemma MulSucc(a: int, b: int)
    ensures (a + 1) * b == a * b + b
  {
  }

  /** The parts are consecutive slices: part k starts at off == k * size. */
  lemma {:induction false} PartsAt<T>(rows: seq<T>, size: nat, m: BatchSize, k: nat, off: nat)
    requires (m - 1) * size <= |rows| && k < m && off == k * size
    ensures off <= |rows|
    ensures k < m - 1 ==> off + size <= |rows| && Parts(rows, size, m)[k] == rows[off..off + size]
    ensures k == m - 1 ==> Parts(rows, size, m)[k] == rows[off..]
    decreases m
  {
    if m > 1 && k > 0 {
      MulSucc(m - 2, size);
      MulSucc(k - 1, size);
      PartsAt(rows[size..], size, m - 1, k - 1, off - size);
      PartsShift(rows, size, m, k, off);
    }
  }

  /** Part k is part k - 1 of what follows the first part, moved by size. */
  lemma PartsShift<T>(rows: seq<T>, size: nat, m: BatchSize, k: nat, off: nat)
    requires 1 < m && 0 < k < m && size <= off <= |rows| && (m - 2) * size <= |rows| - size
    requires k < m - 1 ==> off + size <= |rows| && Parts(rows[size..], size, m - 1)[k - 1] == rows[size..][off - size..off]
    requires k == m - 1 ==> Parts(rows[size..], size, m - 1)[k - 1] == rows[size..][off - size..]
    ensures k < m - 1 ==> Parts(rows, size, m)[k] == rows[off..off + size]
    ensures k == m - 1 ==> Parts(rows, size, m)[k] == rows[off..]
  {
    var rest := rows[size..];
    MulSucc(m - 2, size);
    assert Parts(rows, size, m)[k] == Parts(rest, size, m - 1)[k - 1];
    if k < m - 1 {
      assert rest[off - size..off] == rows[off..off + size];
    } else {
      assert rest[off - size..] == rows[off..];
    }
  }

  /** The parts cover every row exactly once, in order. */
  lemma SplitChunksCover<T>(rows: seq<T>, n: BatchSize)
    ensures Flatten(SplitChunks(rows, n)) == rows
  {
    SplitFits(|rows|, n);
    PartsCover(rows, |rows| / n, n);
  }

  /** A frame shorter than the batch is clamped to its height and goes out one row per INSERT. */
  lemma SmallFrameOneRowEach<T>(rows: seq<T>, batch: BatchSize)
    requires 0 < |rows| < batch
    ensures var cs := SplitChunks(rows, ClampBatch(|rows|, batch));
            |cs| == |rows| && forall k :: 0 <= k < |rows| ==> cs[k] == [rows[k]]
  {
    var n := |rows|;
    assert n / n == 1;
    SplitFits(n, n);
    forall k | 0 <= k < n ensures SplitChunks(rows, n)[k] == [rows[k]] {
      PartsAt(rows, 1, n, k, k);
    }
  }

  /** An empty frame still goes out as one part, with no rows. */
  lemma EmptyFrameOnePart<T>(rows: seq<T>, batch: BatchSize)
    requires |rows| == 0
    ensures SplitChunks(rows, ClampBatch(|rows|, batch)) == [[]]
  {
  }

  /** A frame at least as tall as the batch goes out in batch parts of height / batch rows, the last taking the rest. */
  lemma TallFrameParts<T>(rows: seq<T>, batch: BatchSize)
    requires |rows| >= batch
    ensures var cs := SplitChunks(rows, ClampBatch(|rows|, batch));
            var size := |rows| / batch;
            |cs| == batch && size >= 1
            && (forall k :: 0 <= k < batch - 1 ==> |cs[k]| == size)
            && size <= |cs[batch - 1]| < size + batch
  {
    var size := |rows| / batch;
    SplitChunksSizes(rows, batch);
    assert |rows| == batch * size + |rows| % batch;
    assert batch * size == (batch - 1) * size + size;
  }

  // ---------------------------------------------------------------------
  // Rendering.

  /** Int8/16/32/128 are written bare; Int64 and the unsigned kinds take the quoted fallback. */
  predicate RendersBare(k: IntKind) {
    k == I8 || k == I16 || k == I32 || k == I128
  }

  /** One value as SQL text. */
  function RenderValue(v: AnyValue): string {
    match v
    case Null => "NULL"
    case Boolean(b) => if b then "1" else "0"
    case Str(s) => Quote(s)
    case Int(k, i) => if RendersBare(k) then IntText(i) else Quote(IntText(i))
    case Float64(t) => t
    case Decimal(i, d) => DecimalText(i, d)
    case Other(t) => Quote(t)
  }

  /**
   * The `Decimal` arm as the source writes it: the unscaled integer, a dot,
   * then the scale.
   */
  function DecimalAsWritten(unscaled: int, scale: nat): string {
    IntText(unscaled) + "." + NatText(scale)
  }

  /**
   * The text of the value unscaled / 10^scale: the sign, the integer part
   * and, for a positive scale, a dot and exactly scale fraction digits.
   */
  function DecimalText(unscaled: int, scale: nat): string {
    var a: nat := if unscaled < 0 then -unscaled else unscaled;
    var sign := if unscaled < 0 then "-" else "";
    if scale == 0 then sign + NatText(a)
    else
      var unit := Pow10(scale);
      DivModBounds(a, unit);
      sign + NatText(a / unit) + "." + ZFill(NatText(a % unit), scale)
  }

  lemma DivModBounds(a: nat, unit: nat)
    requires unit >= 1
    ensures 0 <= a / unit && 0 <= a % unit < unit && a == a / unit * unit + a % unit
  {
  }

  function Rendered(row: seq<AnyValue>): (r: seq<string>)
    ensures |r| == |row| && forall j :: 0 <= j < |row| ==> r[j] == RenderValue(row[j])
  {
    seq(|row|, j requires 0 <= j < |row| => RenderValue(row[j]))
  }

  /** The values of a row joined by `,`. */
  function RowText(row: seq<AnyValue>): string {
    Join(Rendered(row), ",")
  }

  function TupleText(row: seq<AnyValue>): string {
    "(" + RowText(row) + ")"
  }

  function Tuples(rows: seq<seq<AnyValue>>): (r: seq<string>)
    ensures |r| == |rows| && forall i :: 0 <= i < |rows| ==> r[i] == TupleText(rows[i])
  {
    seq(|rows|, i requires 0 <= i < |rows| => TupleText(rows[i]))
  }

  /** The multi-row INSERT for one chunk. */
  function InsertText(table: string, names: seq<string>, chunk: seq<seq<AnyValue>>): string {
    "INSERT INTO " + table + " (" + Join(names, ",") + ") VALUES " + Join(Tuples(chunk), ",")
  }

  function InsertTexts(table: string, names: seq<string>, chunks: seq<seq<seq<AnyValue>>>): (r: seq<string>)
    ensures |r| == |chunks| && forall k :: 0 <= k < |chunks| ==> r[k] == InsertText(table, names, chunks[k])
  {
    seq(|chunks|, k requires 0 <= k < |chunks| => InsertText(table, names, chunks[k]))
  }

  function DropText(table: string): string {
    "DROP TABLE IF EXISTS " + table
  }

  /** A rendered string or fallback value reads back as that text, whatever quotes it holds. */
  lemma RenderQuotedRoundTrip(v: AnyValue, rest: string)
    requires v.Str? || v.Other? || (v.Int? && !RendersBare(v.kind))
    requires |rest| == 0 || rest[0] != '\''
    ensures ParseLiteral(RenderValue(v) + rest)
            == Some((if v.Str? then v.s else if v.Other? then v.shown else IntText(v.i), rest))
  {
    if v.Str? {
      QuoteRoundTrip(v.s, rest);
    } else if v.Other? {
      QuoteRoundTrip(v.shown, rest);
    } else {
      QuoteRoundTrip(IntText(v.i), rest);
    }
  }

  /** A bare integer reads back as its value. */
  lemma RenderBareIntRoundTrip(k: IntKind, i: int)
    requires RendersBare(k)
    ensures ParseInt(RenderValue(Int(k, i))) == Some(i)
  {
    ParseIntText(i);
  }

  /**
   * As written, the two parts of a decimal's text are its unscaled integer
   * and its scale; for 1.5, stored as (15, 1), that is `15.1`.
   */
  lemma DecimalAsWrittenParts(i: int, d: nat)
    ensures var t := DecimalAsWritten(i, d);
            var p := |IntText(i)|;
            p < |t| && t[p] == '.' && ParseInt(t[..p]) == Some(i) && ParseNat(t[p + 1..]) == Some(d)
  {
    var t := DecimalAsWritten(i, d);
    var p := |IntText(i)|;
    assert t[..p] == IntText(i);
    assert t[p + 1..] == NatText(d);
    ParseIntText(i);
    ParseNatText(d);
  }

  /** 1.5, stored as (15, 1), is written `15.1` by the source and `1.5` by the corrected arm. */
  lemma DecimalAsWrittenMisreads()
    ensures DecimalAsWritten(15, 1) == "15.1"
    ensures DecimalText(15, 1) == "1.5"
  {
    assert Pow10(1) == 10;
    assert NatText(15) == "15";
  }

  /** A zero scale writes the integer as `Display` does. */
  lemma DecimalWholeIsInt(i: int)
    ensures DecimalText(i, 0) == IntText(i)
  {
  }

  /**
   * With a positive scale the text reads back to the value: an optional
   * `-` exactly for a negative decimal, the integer digits, a dot, and
   * exactly scale fraction digits, with integer part * 10^scale + fraction
   * equal to the magnitude of the unscaled integer.
   */
  lemma DecimalTextValue(i: int, d: nat)
    requires d > 0
    ensures var t := DecimalText(i, d);
            var sg := if i < 0 then 1 else 0;
            var p := |t| - d - 1;
            sg < p < |t| && t[p] == '.' && (i < 0 <==> t[0] == '-')
            && AllDigits(t[p + 1..]) && ParseNat(t[sg..p]).Some? && ParseNat(t[p + 1..]).Some?
            && ParseNat(t[sg..p]).value * Pow10(d) + ParseNat(t[p + 1..]).value == (if i < 0 then -i else i)
  {
    var a: nat := if i < 0 then -i else i;
    var sign := if i < 0 then "-" else "";
    var unit := Pow10(d);
    DivModBounds(a, unit);
    var q: nat, m: nat := a / unit, a % unit;
    var ip, fp := NatText(q), ZFill(NatText(m), d);
    assert DecimalText(i, d) == sign + ip + "." + fp;
    NatTextDigits(q);
    NatTextDigits(m);
    NatTextShort(m, d);
    ParseNatText(q);
    ParseNatText(m);
    ParseZeroPadded(NatText(m), d);
    assert |fp| == d;
    DottedParts(sign, ip, fp);
  }

  /** Where the parts of a signed dotted text sit. */
  lemma DottedParts(sign: string, ip: string, fp: string)
    requires |ip| > 0
    ensures var t := sign + ip + "." + fp;
            var p := |t| - |fp| - 1;
            p == |sign| + |ip| && t[|sign|..p] == ip && t[p] == '.' && t[p + 1..] == fp
            && t[0] == (if |sign| > 0 then sign[0] else ip[0])
  {
    var t := sign + ip + "." + fp;
    var p := |t| - |fp| - 1;
    assert t == sign + (ip + ("." + fp));
    assert t[|sign|..] == ip + ("." + fp);
    assert t[|sign|..p] == (ip + ("." + fp))[..|ip|];
  }

  /** Reads comma-separated quoted literals. */
  function ParseStrings(t: string): Option<seq<string>>
    decreases |t|
  {
    match ParseLiteral(t)
    case None => None
    case Some((s, rest)) =>
      if |rest| == 0 then Some([s])
      else if rest[0] != ',' then None
      else
        match ParseStrings(rest[1..])
        case None => None
        case Some(ss) => Some([s] + ss)
  }

  function StrRow(ss: seq<string>): (r: seq<AnyValue>)
    ensures |r| == |ss| && forall i :: 0 <= i < |ss| ==> r[i] == Str(ss[i])
  {
    seq(|ss|, i requires 0 <= i < |ss| => Str(ss[i]))
  }

  lemma RenderedStrCons(ss: seq<string>)
    requires |ss| > 0
    ensures Rendered(StrRow(ss)) == [Quote(ss[0])] + Rendered(StrRow(ss[1..]))
  {
    var l, r := Rendered(StrRow(ss)), [Quote(ss[0])] + Rendered(StrRow(ss[1..]));
    forall i | 0 <= i < |l| ensures l[i] == r[i] {
      if i > 0 {
        assert ss[1..][i - 1] == ss[i];
      }
    }
  }

  /** A literal that ends the text is the last string. */
  lemma ParseLast(s: string)
    ensures ParseStrings(Quote(s)) == Some([s])
  {
    QuoteRoundTrip(s, "");
    AppendEmpty(Quote(s));
  }

  /** A literal followed by a comma is the first string of the rest. */
  lemma ParseNext(s: string, x: string)
    ensures ParseStrings(Quote(s) + ("," + x))
            == match ParseStrings(x) case None => None case Some(ss) => Some([s] + ss)
  {
    QuoteRoundTrip(s, "," + x);
    assert ("," + x)[1..] == x;
  }

  /** A row of strings renders to a text that reads back as the same strings, in order. */
  lemma {:induction false} StringRowRoundTrip(ss: seq<string>)
    requires |ss| > 0
    ensures ParseStrings(RowText(StrRow(ss))) == Some(ss)
  {
    var q := Quote(ss[0]);
    RenderedStrCons(ss);
    if |ss| == 1 {
      assert Rendered(StrRow(ss[1..])) == [];
      assert RowText(StrRow(ss)) == Join([q], ",");
      ParseLast(ss[0]);
      ConsSplit(ss);
      AppendEmpty([ss[0]]);
    } else {
      var tail := ss[1..];
      JoinCons(q, Rendered(StrRow(tail)), ",");
      var x := RowText(StrRow(tail));
      assert RowText(StrRow(ss)) == q + "," + x;
      AppendAssoc(q, ",", x);
      ParseNext(ss[0], x);
      StringRowRoundTrip(tail);
      ConsSplit(ss);
    }
  }

  lemma TuplesAppend(a: seq<seq<AnyValue>>, b: seq<seq<AnyValue>>)
    ensures Tuples(a + b) == Tuples(a) + Tuples(b)
  {
  }

  function ChunkTuples(chunks: seq<seq<seq<AnyValue>>>): (r: seq<seq<string>>)
    ensures |r| == |chunks| && forall k :: 0 <= k < |chunks| ==> r[k] == Tuples(chunks[k])
  {
    seq(|chunks|, k requires 0 <= k < |chunks| => Tuples(chunks[k]))
  }

  /** The tuples of the chunks, concatenated, are the tuples of the chunks' rows. */
  lemma {:induction false} ChunkTuplesFlatten(cs: seq<seq<seq<AnyValue>>>)
    ensures Flatten(ChunkTuples(cs)) == Tuples(Flatten(cs))
  {
    if |cs| > 0 {
      var init := cs[..|cs| - 1];
      assert ChunkTuples(cs)[..|cs| - 1] == ChunkTuples(init);
      ChunkTuplesFlatten(init);
      TuplesAppend(Flatten(init), cs[|cs| - 1]);
    }
  }

  /** Across all the INSERTs, the tuples are one per row, in row order. */
  lemma TuplesInRowOrder(rows: seq<seq<AnyValue>>, n: BatchSize)
    ensures Flatten(ChunkTuples(SplitChunks(rows, n))) == Tuples(rows)
  {
    ChunkTuplesFlatten(SplitChunks(rows, n));
    SplitChunksCover(rows, n);
  }

  // ---------------------------------------------------------------------
  // What `finish` sends and what it leaves in the store.

  /** The writer's settings. */
  datatype WriterConfig = WriterConfig(
    tableName: Option<string>,
    ifExists: IfExists,
    index: bool,
    parallel: bool,
    batchSize: BatchSize,
    indexLabel: Option<string>,
    schema: Option<Columns>)

  /** The DDL `finish` runs for a policy: DROP under Replace, then CREATE. */
  function Ddl(t: string, policy: IfExists, create: string): seq<string> {
    (if policy == Replace then [DropText(t)] else []) + [create]
  }

  /** The statements `finish` runs, in order, given whether the table is already there. */
  function Statements(c: WriterConfig, df: DataFrame, present: bool): Result<seq<string>, WriteError> {
    var t := TableName(c.tableName);
    var cols :- PlannedColumns(df.fields, IndexLabel(c.index, c.indexLabel), c.schema);
    if c.ifExists == Fail && present then Failure(TableExists(t))
    else
      Success(Ddl(t, c.ifExists, CreateTableText(t, cols))
              + InsertTexts(t, Keys(df.fields), SplitChunks(df.rows, ClampBatch(|df.rows|, c.batchSize))))
  }

  type Tables = map<string, seq<seq<AnyValue>>>

  /** The store once the DDL has run: t dropped under Replace, then created if absent. */
  function Created(t: string, policy: IfExists, tables: Tables): Tables {
    var kept := if policy == Replace then tables - {t} else tables;
    if t in kept then kept else kept[t := []]
  }

  /** The store after a successful `finish` that writes rows into t. */
  function TablesAfter(t: string, policy: IfExists, rows: seq<seq<AnyValue>>, tables: Tables): (r: Tables)
    ensures t in r
    ensures r[t] == (if policy == Replace || t !in tables then [] else tables[t]) + rows
    ensures forall n :: n in tables && n != t ==> n in r && r[n] == tables[n]
    ensures forall n :: n in r ==> n in tables || n == t
  {
    var created := Created(t, policy, tables);
    created[t := created[t] + rows]
  }

  /**
   * The call fails, before any statement runs, exactly when the chosen
   * label names a column or the table exists under Fail; a label clash
   * is reported first.
   */
  lemma FailsBeforeAnySql(c: WriterConfig, df: DataFrame, present: bool)
    ensures var lbl := IndexLabel(c.index, c.indexLabel);
            Statements(c, df, present).Failure?
            <==> (lbl.Some? && lbl.value in Keys(df.fields)) || (c.ifExists == Fail && present)
    ensures var lbl := IndexLabel(c.index, c.indexLabel);
            lbl.Some? && lbl.value in Keys(df.fields) ==> Statements(c, df, present) == Failure(IndexCollision("Id"))
  {
    IndexCollisionIff(df.fields, IndexLabel(c.index, c.indexLabel), c.schema);
  }

  /** Only the Fail policy looks at whether the table is already there. */
  lemma PresenceOnlyMattersUnderFail(c: WriterConfig, df: DataFrame, present: bool)
    requires c.ifExists != Fail
    ensures Statements(c, df, !present) == Statements(c, df, present)
  {
  }

  /** A successful plan is the DDL for the planned columns followed by the INSERTs. */
  lemma StatementsValue(c: WriterConfig, df: DataFrame, present: bool)
    requires Statements(c, df, present).Success?
    ensures PlannedColumns(df.fields, IndexLabel(c.index, c.indexLabel), c.schema).Success?
    ensures var t := TableName(c.tableName);
            var cols := PlannedColumns(df.fields, IndexLabel(c.index, c.indexLabel), c.schema).value;
            Statements(c, df, present).value
            == Ddl(t, c.ifExists, CreateTableText(t, cols))
               + InsertTexts(t, Keys(df.fields), SplitChunks(df.rows, ClampBatch(|df.rows|, c.batchSize)))
  {
  }

  /**
   * Under Replace the table is dropped and then created; otherwise it is
   * created first; every later statement is an INSERT, one per chunk.
   */
  lemma StatementOrder(c: WriterConfig, df: DataFrame, present: bool)
    requires Statements(c, df, present).Success?
    ensures PlannedColumns(df.fields, IndexLabel(c.index, c.indexLabel), c.schema).Success?
    ensures var st := Statements(c, df, present).value;
            var t := TableName(c.tableName);
            var create := CreateTableText(t, PlannedColumns(df.fields, IndexLabel(c.index, c.indexLabel), c.schema).value);
            var ddl := if c.ifExists == Replace then 2 else 1;
            var chunks := SplitChunks(df.rows, ClampBatch(|df.rows|, c.batchSize));
            |st| == ddl + |chunks|
            && (c.ifExists == Replace ==> st[0] == DropText(t) && st[1] == create)
            && (c.ifExists != Replace ==> st[0] == create)
            && (forall k :: 0 <= k < |chunks| ==> st[ddl + k] == InsertText(t, Keys(df.fields), chunks[k]))
  {
    StatementsValue(c, df, present);
    var t := TableName(c.tableName);
    var create := CreateTableText(t, PlannedColumns(df.fields, IndexLabel(c.index, c.indexLabel), c.schema).value);
    var chunks := SplitChunks(df.rows, ClampBatch(|df.rows|, c.batchSize));
    DdlLayout(t, c.ifExists, create, InsertTexts(t, Keys(df.fields), chunks));
  }

  /** A DROP is sent only under Replace, and then only as the first statement. */
  lemma DropOnlyFirst(c: WriterConfig, df: DataFrame, present: bool)
    requires Statements(c, df, present).Success?
    ensures var st := Statements(c, df, present).value;
            forall i :: 0 <= i < |st| && st[i] == DropText(TableName(c.tableName)) ==> c.ifExists == Replace && i == 0
  {
    StatementsValue(c, df, present);
    var t := TableName(c.tableName);
    var cols := PlannedColumns(df.fields, IndexLabel(c.index, c.indexLabel), c.schema).value;
    var chunks := SplitChunks(df.rows, ClampBatch(|df.rows|, c.batchSize));
    var ins := InsertTexts(t, Keys(df.fields), chunks);
    CreateTableStart(t, cols);
    forall k | 0 <= k < |ins| ensures |ins[k]| > 0 && ins[k][0] == 'I' {
      InsertTextStart(t, Keys(df.fields), chunks[k]);
    }
    DropFirst(t, c.ifExists, CreateTableText(t, cols), ins);
  }

  lemma CreateTableStart(t: string, cols: Columns)
    ensures |CreateTableText(t, cols)| > 0 && CreateTableText(t, cols)[0] == 'C'
  {
    var head := "CREATE TABLE IF NOT EXISTS " + t;
    var body := Join(ColumnDefs(cols) + ForeignKeyClauses(cols), ColumnSeparator);
    HeadOfConcat("CREATE TABLE IF NOT EXISTS ", t);
    HeadOfConcat(head, " (\n    ");
    HeadOfConcat(head + " (\n    ", body);
    HeadOfConcat(head + " (\n    " + body, "\n);");
  }

  lemma HeadOfConcat(a: string, b: string)
    requires |a| > 0
    ensures |a + b| > 0 && (a + b)[0] == a[0]
  {
  }

  lemma InsertTextStart(t: string, names: seq<string>, chunk: seq<seq<AnyValue>>)
    ensures |InsertText(t, names, chunk)| > 0 && InsertText(t, names, chunk)[0] == 'I'
  {
    var rest := t + " (" + Join(names, ",") + ") VALUES " + Join(Tuples(chunk), ",");
    assert InsertText(t, names, chunk) == "INSERT INTO " + rest;
  }

  /** The layout of the DDL followed by the INSERT statements. */
  lemma DdlLayout(t: string, policy: IfExists, create: string, ins: seq<string>)
    ensures var st := Ddl(t, policy, create) + ins;
            var ddl := if policy == Replace then 2 else 1;
            |st| == ddl + |ins|
            && (policy == Replace ==> st[0] == DropText(t) && st[1] == create)
            && (policy != Replace ==> st[0] == create)
            && (forall k :: 0 <= k < |ins| ==> st[ddl + k] == ins[k])
  {
  }

  /** With a CREATE and INSERTs after it, the DROP can only be the first statement, under Replace. */
  lemma DropFirst(t: string, policy: IfExists, create: string, ins: seq<string>)
    requires |create| > 0 && create[0] == 'C'
    requires forall k :: 0 <= k < |ins| ==> |ins[k]| > 0 && ins[k][0] == 'I'
    ensures var st := Ddl(t, policy, create) + ins;
            forall i :: 0 <= i < |st| && st[i] == DropText(t) ==> policy == Replace && i == 0
  {
    assert DropText(t) == "DROP TABLE IF EXISTS " + t;
    assert DropText(t)[0] == 'D';
  }

  /** The store: table name to rows, and the log of statements that changed it. */
  class Database {
    var tables: Tables
    var log: seq<string>

    constructor (tables: Tables)
      ensures this.tables == tables && log == []
    {
      this.tables := tables;
      log := [];
    }

    /** `SELECT name FROM sqlite_master WHERE name = ?` is non-empty. */
    method HasTable(name: string) returns (b: bool)
      ensures b <==> name in tables
    {
      b := name in tables;
    }

    method DropTable(name: string, sql: string)
      modifies this
      ensures tables == old(tables) - {name} && log == old(log) + [sql]
    {
      tables := tables - {name};
      log := log + [sql];
    }

    /** `CREATE TABLE IF NOT EXISTS`: an existing table is kept as it is. */
    method CreateTable(name: string, sql: string)
      modifies this
      ensures tables == if name in old(tables) then old(tables) else old(tables)[name := []]
      ensures log == old(log) + [sql]
    {
      if name !in tables {
        tables := tables[name := []];
      }
      log := log + [sql];
    }

    method InsertRows(name: string, rows: seq<seq<AnyValue>>, sql: string)
      requires name in tables
      modifies this
      ensures tables == old(tables)[name := old(tables)[name] + rows] && log == old(log) + [sql]
    {
      tables := tables[name := tables[name] + rows];
      log := log + [sql];
    }
  }

  /** The DDL part of `finish`: the existence check under Fail, the DROP under Replace, then CREATE. */
  method Prepare(pool: Database, t: string, policy: IfExists, create: string) returns (r: Result<(), WriteError>)
    modifies pool
    ensures r.Failure? <==> policy == Fail && t in old(pool.tables)
    ensures r.Failure? ==> r.error == TableExists(t) && pool.tables == old(pool.tables) && pool.log == old(pool.log)
    ensures r.Success? ==> pool.tables == Created(t, policy, old(pool.tables))
                           && pool.log == old(pool.log) + Ddl(t, policy, create)
  {
    match policy {
      case Append =>
      case Replace =>
        pool.DropTable(t, DropText(t));
      case Fail =>
        var present := pool.HasTable(t);
        if present {
          return Failure(TableExists(t));
        }
    }
    pool.CreateTable(t, create);
    return Success(());
  }

  /** The text of the INSERT for one chunk, built row by row. */
  method ChunkInsert(table: string, names: seq<string>, chunk: seq<seq<AnyValue>>) returns (q: string)
    ensures q == InsertText(table, names, chunk)
  {
    var rowSql: seq<string> := [];
    for i := 0 to |chunk|
      invariant rowSql == Tuples(chunk[..i])
    {
      assert chunk[..i + 1] == chunk[..i] + [chunk[i]];
      rowSql := rowSql + ["(" + RowText(chunk[i]) + ")"];
    }
    assert chunk[..|chunk|] == chunk;
    q := "INSERT INTO " + table + " (" + Join(names, ",") + ") VALUES " + Join(rowSql, ",");
  }

  /** The schema part of `finish`: inferred columns, the index column, then the explicit schema. */
  method PlanTable(fields: seq<(string, PolarsType)>, lbl: Option<string>, explicit: Option<Columns>)
    returns (r: Result<SqliteSchema, WriteError>)
    ensures r.Success? <==> PlannedColumns(fields, lbl, explicit).Success?
    ensures r.Failure? ==> r.error == PlannedColumns(fields, lbl, explicit).error
    ensures r.Success? ==> fresh(r.value) && r.value.Valid()
                           && r.value.columns == PlannedColumns(fields, lbl, explicit).value
  {
    var sch := new SqliteSchema.FromPolarsSchema(fields);
    if lbl.Some? {
      if lbl.value in Keys(fields) {
        return Failure(IndexCollision(lbl.value));
      }
      var withIndex := new SqliteSchema.New(lbl.value, IndexColumn);
      withIndex.AddSchema(sch);
      sch := withIndex;
    }
    if explicit.Some? && !SameEntries(explicit.value, sch.columns) {
      ApplyExplicit(sch, explicit.value);
    }
    return Success(sch);
  }

  /** The reconcile loop of `finish`: each explicit entry whose column exists replaces its option. */
  method ApplyExplicit(sch: SqliteSchema, explicit: Columns)
    requires sch.Valid()
    modifies sch
    ensures sch.Valid() && sch.columns == Reconcile(old(sch.columns), explicit)
  {
    ghost var base := sch.columns;
    for i := 0 to |explicit|
      invariant sch.Valid() && sch.columns == Reconcile(base, explicit[..i])
    {
      assert explicit[..i + 1][..i] == explicit[..i];
      var (name, o) := explicit[i];
      if name in Keys(sch.columns) {
        sch.WithColumn(name, o);
      }
    }
    assert explicit[..|explicit|] == explicit;
  }

  lemma InsertTextsPrefix(t: string, names: seq<string>, cs: seq<seq<seq<AnyValue>>>, k: nat)
    requires k < |cs|
    ensures InsertTexts(t, names, cs[..k + 1]) == InsertTexts(t, names, cs[..k]) + [InsertText(t, names, cs[k])]
  {
    var l, r := InsertTexts(t, names, cs[..k + 1]), InsertTexts(t, names, cs[..k]) + [InsertText(t, names, cs[k])];
    forall i | 0 <= i < |l| ensures l[i] == r[i] {
      if i < k {
        assert cs[..k + 1][i] == cs[..k][i];
      }
    }
  }

  /** The chunk loop of `finish`: one INSERT per chunk, in order. */
  method WriteChunks(pool: Database, t: string, names: seq<string>, chunks: seq<seq<seq<AnyValue>>>)
    requires t in pool.tables
    modifies pool
    ensures pool.tables == old(pool.tables)[t := old(pool.tables)[t] + Flatten(chunks)]
    ensures pool.log == old(pool.log) + InsertTexts(t, names, chunks)
  {
    ghost var tables1 := pool.tables;
    ghost var log1 := pool.log;
    ghost var done: seq<seq<AnyValue>> := [];
    AppendEmpty(tables1[t]);
    assert tables1[t := tables1[t]] == tables1;
    for k := 0 to |chunks|
      invariant done == Flatten(chunks[..k])
      invariant t in pool.tables && pool.tables == tables1[t := tables1[t] + done]
      invariant pool.log == log1 + InsertTexts(t, names, chunks[..k])
    {
      var q := ChunkInsert(t, names, chunks[k]);
      FlattenPrefixSnoc(chunks, k);
      InsertTextsPrefix(t, names, chunks, k);
      pool.InsertRows(t, chunks[k], q);
      AppendAssoc(tables1[t], done, chunks[k]);
      done := done + chunks[k];
    }
    TakeAll(chunks);
  }

  /** The rows go out in chunks of the batch size, and all of them land in t. */
  method InsertFrame(pool: Database, t: string, names: seq<string>, rows: seq<seq<AnyValue>>, batch: BatchSize)
    requires t in pool.tables
    modifies pool
    ensures pool.tables == old(pool.tables)[t := old(pool.tables)[t] + rows]
    ensures pool.log == old(pool.log) + InsertTexts(t, names, SplitChunks(rows, batch))
  {
    var chunks := SplitChunks(rows, batch);
    WriteChunks(pool, t, names, chunks);
    SplitChunksCover(rows, batch);
  }

  lemma FlattenPrefixSnoc<T>(ss: seq<seq<T>>, k: nat)
    requires k < |ss|
    ensures Flatten(ss[..k + 1]) == Flatten(ss[..k]) + ss[k]
  {
    assert ss[..k + 1][..k] == ss[..k];
  }

  /** `SqlWriter` */
  class SqlWriter {
    const pool: Database
    var tableName: Option<string>
    var ifExists: IfExists
    var index: bool
    var parallel: bool
    var batchSize: BatchSize
    var indexLabel: Option<string>
    var schema: Option<Columns>

    function Config(): WriterConfig
      reads this
    {
      WriterConfig(tableName, ifExists, index, parallel, batchSize, indexLabel, schema)
    }

    /** `SqlWriter::new`, over an already opened store. */
    constructor (pool: Database)
      ensures this.pool == pool
      ensures Config() == WriterConfig(None, Fail, true, true, 1024, None, None)
    {
      this.pool := pool;
      tableName := None;
      ifExists := Fail;
      index := true;
      parallel := true;
      batchSize := 1024;
      indexLabel := None;
      schema := None;
    }

    method WithTable(t: Option<string>)
      modifies this
      ensures Config() == old(Config()).(tableName := t)
    {
      tableName := t;
    }

    method IfExistsOption(e: IfExists)
      modifies this
      ensures Config() == old(Config()).(ifExists := e)
    {
      ifExists := e;
    }

    /** Turning the index on also presets the label `Id`. */
    method WithIndex(b: bool)
      modifies this
      ensures Config() == old(Config()).(index := b, indexLabel := if b then Some("Id") else old(indexLabel))
    {
      index := b;
      if b {
        indexLabel := Some("Id");
      }
    }

    /** The schema is taken by value. */
    method WithSchema(s: Option<SqliteSchema>)
      modifies this
      ensures Config() == old(Config()).(schema := if s.Some? then Some(s.value.columns) else None)
    {
      schema := if s.Some? then Some(s.value.columns) else None;
    }

    /** Setting a label also turns the index on. */
    method WithIndexLabel(lbl: Option<string>)
      modifies this
      ensures Config() == old(Config()).(indexLabel := lbl, index := true)
    {
      indexLabel := lbl;
      index := true;
    }

    method WithBatchSize(n: BatchSize)
      modifies this
      ensures Config() == old(Config()).(batchSize := n)
    {
      batchSize := n;
    }

    method WithParallel(b: bool)
      modifies this
      ensures Config() == old(Config()).(parallel := b)
    {
      parallel := b;
    }

    /** `SqlWriter::finish` */
    method Finish(df: DataFrame) returns (r: Result<(), WriteError>)
      modifies this, pool
      ensures indexLabel == IndexLabel(old(index), old(indexLabel))
      ensures tableName == old(tableName) && ifExists == old(ifExists) && index == old(index)
              && parallel == old(parallel) && schema == old(schema)
      ensures var st := Statements(old(Config()), df, TableName(old(tableName)) in old(pool.tables));
              (r.Success? <==> st.Success?)
              && (r.Failure? ==> r.error == st.error && pool.tables == old(pool.tables) && pool.log == old(pool.log)
                                 && batchSize == old(batchSize))
              && (r.Success? ==> pool.log == old(pool.log) + st.value
                                 && pool.tables == TablesAfter(TableName(old(tableName)), old(ifExists), df.rows, old(pool.tables))
                                 && batchSize == ClampBatch(|df.rows|, old(batchSize)))
    {
      var t := TableName(tableName);
      indexLabel := if index && indexLabel.None? then Some("Id") else None;
      var planned := PlanTable(df.fields, indexLabel, schema);
      if planned.Failure? {
        return Failure(planned.error);
      }
      var sch := planned.value;
      var qry := sch.Finish(t);
      r := Run(t, qry, df);
    }

    /** The SQL half of `finish`: the DDL for the policy, then the rows in chunks. */
    method Run(t: string, qry: string, df: DataFrame) returns (r: Result<(), WriteError>)
      modifies this, pool
      ensures tableName == old(tableName) && ifExists == old(ifExists) && index == old(index)
              && parallel == old(parallel) && schema == old(schema) && indexLabel == old(indexLabel)
      ensures r.Failure? <==> ifExists == Fail && t in old(pool.tables)
      ensures r.Failure? ==> r.error == TableExists(t) && pool.tables == old(pool.tables) && pool.log == old(pool.log)
                             && batchSize == old(batchSize)
      ensures r.Success? ==> batchSize == ClampBatch(|df.rows|, old(batchSize))
                             && pool.tables == TablesAfter(t, ifExists, df.rows, old(pool.tables))
                             && pool.log == old(pool.log) + (Ddl(t, ifExists, qry) + InsertTexts(t, Keys(df.fields), SplitChunks(df.rows, batchSize)))
    {
      ghost var log0 := pool.log;
      var prepared := Prepare(pool, t, ifExists, qry);
      if prepared.Failure? {
        return Failure(prepared.error);
      }
      if |df.rows| < batchSize {
        batchSize := if |df.rows| == 0 then 1 else |df.rows|;
      }
      InsertFrame(pool, t, Keys(df.fields), df.rows, batchSize);
      AppendAssoc(log0, Ddl(t, ifExists, qry), InsertTexts(t, Keys(df.fields), SplitChunks(df.rows, batchSize)));
      return Success(());
    }
  }
}
