/**
 * The SQLite schema model: the mapping from polars column types to SQLite
 * storage types, column options built by chained builder calls, the
 * insertion-ordered table schema and its `CREATE TABLE` text.
 */
module PlSql {
  import opened Wrappers
  import opened Strings
  import opened IndexMaps
  import Seqs

  /** The polars logical types a column can have (the ones the mapping names, and some others). */
  datatype PolarsType =
    | Boolean | UInt8 | UInt16 | UInt32 | UInt64
    | Int8 | Int16 | Int32 | Int64 | Int128
    | Float32 | Float64
    | Decimal(precision: Option<nat>, scale: Option<nat>)
    | Binary | BinaryOffset
    | String | Date | Datetime | Duration | Time | List(inner: PolarsType)
    | Null | Categorical | Unknown

  /** SQLite storage types; TEXT is the default. */
  datatype SqliteDataType =
    | Integer | Text | Real | Blob
    | Numeric(precision: Option<nat>, scale: Option<nat>)

  predicate IsIntegerLike(t: PolarsType) {
    t.Boolean? || t.UInt8? || t.UInt16? || t.UInt32? || t.UInt64?
    || t.Int8? || t.Int16? || t.Int32? || t.Int64? || t.Int128?
  }

  predicate IsFloat(t: PolarsType) {
    t.Float32? || t.Float64?
  }

  predicate IsBinary(t: PolarsType) {
    t.Binary? || t.BinaryOffset?
  }

  /** `SqliteDataType::from_polar_type`: total, and TEXT for every type it does not name. */
  function FromPolarType(t: PolarsType): (r: SqliteDataType)
    ensures r == Integer <==> IsIntegerLike(t)
    ensures r == Real <==> IsFloat(t)
    ensures r.Numeric? <==> t.Decimal?
    ensures t.Decimal? ==> r.precision == t.precision && r.scale == t.scale
    ensures r == Blob <==> IsBinary(t)
    ensures r == Text <==> !(IsIntegerLike(t) || IsFloat(t) || t.Decimal? || IsBinary(t))
  {
    match t
    case Boolean => Integer
    case UInt8 => Integer
    case UInt16 => Integer
    case UInt32 => Integer
    case UInt64 => Integer
    case Int8 => Integer
    case Int16 => Integer
    case Int32 => Integer
    case Int64 => Integer
    case Int128 => Integer
    case Float32 => Real
    case Float64 => Real
    case Decimal(p, s) => Numeric(p, s)
    case Binary => Blob
    case BinaryOffset => Blob
    case _ => Text
  }

  /** `Display for SqliteDataType` */
  function TypeText(t: SqliteDataType): string {
    match t
    case Integer => "INTEGER"
    case Text => "TEXT"
    case Real => "REAL"
    case Blob => "BLOB"
    case Numeric(p, s) =>
      if p.Some? && s.Some? then "NUMERIC(" + NatText(p.value) + ", " + NatText(s.value) + ")"
      else if p.Some? then "NUMERIC(" + NatText(p.value) + ")"
      else "NUMERIC"
  }

  /** What the rendering keeps of a type: the scale is not shown when the precision is absent. */
  function Shown(t: SqliteDataType): SqliteDataType {
    if t.Numeric? && t.precision.None? then Numeric(None, None) else t
  }

  /** Length of the run of digits that starts s. */
  function DigitRun(s: string): (n: nat)
    ensures n <= |s|
  {
    if |s| == 0 || !IsDigit(s[0]) then 0 else 1 + DigitRun(s[1..])
  }

  lemma {:induction false} DigitRunOf(a: string, c: char, x: string)
    requires AllDigits(a) && !IsDigit(c)
    ensures DigitRun(a + [c] + x) == |a|
  {
    if |a| > 0 {
      assert (a + [c] + x)[1..] == a[1..] + [c] + x;
      DigitRunOf(a[1..], c, x);
    }
  }

  lemma DigitsThenMark(a: string, c: char, x: string, b: string, d: char, y: string)
    requires AllDigits(a) && AllDigits(b) && !IsDigit(c) && !IsDigit(d)
    requires a + [c] + x == b + [d] + y
    ensures a == b && c == d && x == y
  {
    var l, r := a + [c] + x, b + [d] + y;
    DigitRunOf(a, c, x);
    DigitRunOf(b, d, y);
    assert a == l[..|a|] && b == r[..|b|];
    assert c == l[|a|] && d == r[|b|];
    assert x == l[|a| + 1..] && y == r[|b| + 1..];
  }

  /** The first letter of a storage type's text tells which kind it is. */
  function KindLetter(t: SqliteDataType): char {
    match t
    case Integer => 'I'
    case Text => 'T'
    case Real => 'R'
    case Blob => 'B'
    case Numeric(_, _) => 'N'
  }

  lemma TypeTextStart(t: SqliteDataType)
    ensures |TypeText(t)| >= 4 && TypeText(t)[0] == KindLetter(t)
  {
  }

  /** What follows the precision digits in a NUMERIC text. */
  function ScaleTail(s: Option<nat>): string {
    if s.Some? then " " + NatText(s.value) + ")" else ""
  }

  lemma NumericTextShape(p: nat, s: Option<nat>)
    ensures TypeText(Numeric(Some(p), s))[8..]
      == NatText(p) + [if s.Some? then ',' else ')'] + ScaleTail(s)
  {
    var t := TypeText(Numeric(Some(p), s));
    if s.Some? {
      assert t == "NUMERIC(" + (NatText(p) + [','] + (" " + NatText(s.value) + ")"));
    } else {
      assert t == "NUMERIC(" + (NatText(p) + [')'] + "");
    }
  }

  /** Equal NUMERIC texts come from the same precision, and the same scale when one is shown. */
  lemma NumericTextInjective(p1: Option<nat>, s1: Option<nat>, p2: Option<nat>, s2: Option<nat>)
    requires TypeText(Numeric(p1, s1)) == TypeText(Numeric(p2, s2))
    ensures Shown(Numeric(p1, s1)) == Shown(Numeric(p2, s2))
  {
    if p1.Some? && p2.Some? {
      NatTextDigits(p1.value);
      NatTextDigits(p2.value);
      NumericTextShape(p1.value, s1);
      NumericTextShape(p2.value, s2);
      DigitsThenMark(NatText(p1.value), if s1.Some? then ',' else ')', ScaleTail(s1),
                     NatText(p2.value), if s2.Some? then ',' else ')', ScaleTail(s2));
      NatTextInjective(p1.value, p2.value);
      if s1.Some? {
        ScaleTailInjective(s1.value, s2.value);
      }
    }
  }

  lemma ScaleTailInjective(a: nat, b: nat)
    requires ScaleTail(Some(a)) == ScaleTail(Some(b))
    ensures a == b
  {
    NatTextDigits(a);
    NatTextDigits(b);
    assert ScaleTail(Some(a))[1..] == NatText(a) + [')'] + "";
    assert ScaleTail(Some(b))[1..] == NatText(b) + [')'] + "";
    DigitsThenMark(NatText(a), ')', "", NatText(b), ')', "");
    NatTextInjective(a, b);
  }

  /** Two storage types render to the same text exactly when they agree on what is shown. */
  lemma TypeTextDistinguishes(a: SqliteDataType, b: SqliteDataType)
    ensures TypeText(a) == TypeText(b) <==> Shown(a) == Shown(b)
  {
    if TypeText(a) == TypeText(b) {
      TypeTextStart(a);
      TypeTextStart(b);
      if a.Numeric? && b.Numeric? {
        NumericTextInjective(a.precision, a.scale, b.precision, b.scale);
      }
    }
  }

  // ---------------------------------------------------------------------
  // Column options.

  datatype ForeignKey = ForeignKey(table: string, column: string)

  /** `SqliteColOption`; the builder calls are its member functions. */
  datatype ColOption = ColOption(
    typeSql: SqliteDataType,
    nullable: bool,
    primaryKey: bool,
    unique: bool,
    autoIncrement: bool,
    defaultValue: Option<string>,
    foreignKey: Option<ForeignKey>)
  {
    function WithTypeSql(t: SqliteDataType): ColOption {
      this.(typeSql := t)
    }

    /** A primary-key column stays NOT NULL whatever is asked. */
    function WithNullable(b: bool): ColOption {
      this.(nullable := if primaryKey then false else b)
    }

    /** Sets the flag and always makes the column NOT NULL; an earlier default is kept. */
    function WithPrimaryKey(b: bool): ColOption {
      this.(primaryKey := b, nullable := false)
    }

    function WithUnique(b: bool): ColOption {
      this.(unique := b)
    }

    /** A primary-key column gets no default whatever is asked. */
    function WithDefault(d: Option<string>): ColOption {
      this.(defaultValue := if primaryKey then None else d)
    }

    function WithAutoIncrement(b: bool): ColOption {
      this.(autoIncrement := b)
    }

    function WithForeignKey(table: string, column: string): ColOption {
      this.(foreignKey := Some(ForeignKey(table, column)))
    }
  }

  /** `SqliteColOption::default()`: TEXT, nullable, no constraint. */
  const DefaultColOption := ColOption(Text, true, false, false, false, None, None)

  /** One builder call of a chain. */
  datatype BuildStep =
    | SetType(t: SqliteDataType) | SetNullable(b: bool) | SetPrimaryKey(b: bool)
    | SetUnique(b: bool) | SetDefault(d: Option<string>) | SetAutoIncrement(b: bool)
    | SetForeignKey(table: string, column: string)

  function Apply(o: ColOption, st: BuildStep): ColOption {
    match st
    case SetType(t) => o.WithTypeSql(t)
    case SetNullable(b) => o.WithNullable(b)
    case SetPrimaryKey(b) => o.WithPrimaryKey(b)
    case SetUnique(b) => o.WithUnique(b)
    case SetDefault(d) => o.WithDefault(d)
    case SetAutoIncrement(b) => o.WithAutoIncrement(b)
    case SetForeignKey(t, c) => o.WithForeignKey(t, c)
  }

  /** `SqliteColOption::default()` followed by the given builder calls, in order. */
  function Build(steps: seq<BuildStep>): ColOption {
    if |steps| == 0 then DefaultColOption else Apply(Build(steps[..|steps| - 1]), steps[|steps| - 1])
  }

  /** Whatever chain of builder calls made it, a primary-key column is NOT NULL. */
  lemma {:induction false} PrimaryKeyIsNotNull(steps: seq<BuildStep>)
    ensures Build(steps).primaryKey ==> !Build(steps).nullable
  {
    if |steps| > 0 {
      PrimaryKeyIsNotNull(steps[..|steps| - 1]);
    }
  }

  predicate HasDefaultStep(steps: seq<BuildStep>) {
    exists i :: 0 <= i < |steps| && steps[i].SetDefault?
  }

  predicate HasPrimaryKeyStep(steps: seq<BuildStep>) {
    exists i :: 0 <= i < |steps| && steps[i].SetPrimaryKey?
  }

  /**
   * After `with_primary_key(true)`, and as long as the flag is not reset,
   * the column is NOT NULL, and its default is the one set before the
   * call unless a later `with_default` cleared it.
   */
  lemma {:induction false} PrimaryKeyFreezes(pre: seq<BuildStep>, post: seq<BuildStep>)
    requires !HasPrimaryKeyStep(post)
    ensures var o := Build(pre + [SetPrimaryKey(true)] + post);
      && o.primaryKey && !o.nullable
      && o.defaultValue == if HasDefaultStep(post) then None else Build(pre).defaultValue
  {
    var all := pre + [SetPrimaryKey(true)] + post;
    if |post| > 0 {
      var post' := post[..|post| - 1];
      assert !HasPrimaryKeyStep(post');
      PrimaryKeyFreezes(pre, post');
      assert all[..|all| - 1] == pre + [SetPrimaryKey(true)] + post';
      assert all[|all| - 1] == post[|post| - 1];
      assert !post[|post| - 1].SetPrimaryKey?;
      assert HasDefaultStep(post) <==> HasDefaultStep(post') || post[|post| - 1].SetDefault? by {
        if HasDefaultStep(post) {
          var i :| 0 <= i < |post| && post[i].SetDefault?;
          if i < |post'| { assert post'[i] == post[i]; }
        }
        if HasDefaultStep(post') {
          var i :| 0 <= i < |post'| && post'[i].SetDefault?;
          assert post[i] == post'[i];
        }
      }
    } else {
      assert all == pre + [SetPrimaryKey(true)];
      assert all[..|all| - 1] == pre;
    }
  }

  // ---------------------------------------------------------------------
  // Column definitions.

  function Opt(b: bool, s: string): string {
    if b then s else ""
  }

  /** The default clause, when the column has a default. */
  function DefaultClause(o: ColOption): string {
    if o.defaultValue.Some? then " DEFAULT " + o.defaultValue.value else ""
  }

  /**
   * A column definition: name, type, then the suffixes in their fixed order
   * PRIMARY KEY, UNIQUE, AUTOINCREMENT, DEFAULT, NOT NULL.
   */
  function ColumnDef(name: string, o: ColOption): string {
    name + " " + TypeText(o.typeSql)
    + Opt(o.primaryKey, " PRIMARY KEY")
    + Opt(o.unique, " UNIQUE")
    + Opt(o.autoIncrement, " AUTOINCREMENT")
    + DefaultClause(o)
    + Opt(!o.nullable, " NOT NULL")
  }

  /** `SqliteColOption::build_col_def` */
  method BuildColDef(name: string, o: ColOption) returns (colDef: string)
    ensures colDef == ColumnDef(name, o)
  {
    colDef := name + " " + TypeText(o.typeSql);
    ghost var h0 := colDef;
    if o.primaryKey {
      colDef := colDef + " PRIMARY KEY";
    }
    ghost var h1 := h0 + Opt(o.primaryKey, " PRIMARY KEY");
    assert colDef == h1;
    if o.unique {
      colDef := colDef + " UNIQUE";
    }
    ghost var h2 := h1 + Opt(o.unique, " UNIQUE");
    assert colDef == h2;
    if o.autoIncrement {
      colDef := colDef + " AUTOINCREMENT";
    }
    ghost var h3 := h2 + Opt(o.autoIncrement, " AUTOINCREMENT");
    assert colDef == h3;
    if o.defaultValue.Some? {
      colDef := colDef + " DEFAULT " + o.defaultValue.value;
    }
    ghost var h4 := h3 + DefaultClause(o);
    assert colDef == h4;
    if !o.nullable {
      colDef := colDef + " NOT NULL";
    }
    assert colDef == h4 + Opt(!o.nullable, " NOT NULL");
  }

  predicate EndsWith(s: string, suffix: string) {
    |suffix| <= |s| && s[|s| - |suffix|..] == suffix
  }

  lemma EndsWithAppend(x: string, d: string, suffix: string)
    requires |suffix| <= |d|
    ensures EndsWith(x + d, suffix) <==> EndsWith(d, suffix)
  {
    assert (x + d)[|x + d| - |suffix|..] == d[|d| - |suffix|..];
  }

  lemma EndsWithLL(s: string)
    requires EndsWith(s, " NOT NULL")
    ensures EndsWith(s, "LL")
  {
    assert s[|s| - 2..] == s[|s| - 9..][7..];
  }

  /** No storage type's text ends in `LL`, as ` NOT NULL` does. */
  lemma TypeTextEnding(t: SqliteDataType)
    ensures |TypeText(t)| >= 2 && !EndsWith(TypeText(t), "LL")
  {
    var s := TypeText(t);
    if t.Numeric? && t.precision.Some? {
      assert s[|s| - 1] == ')';
    }
  }

  /** Up to the default clause, a definition never ends in `LL`. */
  lemma HeadEnding(name: string, o: ColOption)
    ensures !EndsWith(name + " " + TypeText(o.typeSql)
                      + Opt(o.primaryKey, " PRIMARY KEY")
                      + Opt(o.unique, " UNIQUE")
                      + Opt(o.autoIncrement, " AUTOINCREMENT"), "LL")
  {
    var h0 := name + " " + TypeText(o.typeSql);
    TypeTextEnding(o.typeSql);
    EndsWithAppend(name + " ", TypeText(o.typeSql), "LL");
    var h1 := h0 + Opt(o.primaryKey, " PRIMARY KEY");
    if o.primaryKey { EndsWithAppend(h0, " PRIMARY KEY", "LL"); } else { assert h1 == h0; }
    var h2 := h1 + Opt(o.unique, " UNIQUE");
    if o.unique { EndsWithAppend(h1, " UNIQUE", "LL"); } else { assert h2 == h1; }
    var h3 := h2 + Opt(o.autoIncrement, " AUTOINCREMENT");
    if o.autoIncrement { EndsWithAppend(h2, " AUTOINCREMENT", "LL"); } else { assert h3 == h2; }
  }

  /**
   * ` NOT NULL` closes the definition exactly when the column is not
   * nullable (given a default that does not itself end that way).
   */
  lemma NotNullIffNotNullable(name: string, o: ColOption)
    requires !EndsWith(DefaultClause(o), " NOT NULL")
    ensures EndsWith(ColumnDef(name, o), " NOT NULL") <==> !o.nullable
  {
    var h3 := name + " " + TypeText(o.typeSql)
      + Opt(o.primaryKey, " PRIMARY KEY")
      + Opt(o.unique, " UNIQUE")
      + Opt(o.autoIncrement, " AUTOINCREMENT");
    var h4 := h3 + DefaultClause(o);
    var d := ColumnDef(name, o);
    assert d == h4 + Opt(!o.nullable, " NOT NULL");
    if o.nullable {
      assert d == h4;
      if o.defaultValue.Some? {
        EndsWithAppend(h3, DefaultClause(o), " NOT NULL");
      } else {
        assert h4 == h3;
        HeadEnding(name, o);
        if EndsWith(d, " NOT NULL") { EndsWithLL(d); }
      }
    }
  }

  // ---------------------------------------------------------------------
  // The table schema.

  type Columns = seq<(string, ColOption)>

  /** A column typed by the mapping and otherwise default. */
  function InferredColumn(t: PolarsType): ColOption {
    DefaultColOption.WithTypeSql(FromPolarType(t))
  }

  function InferredEntries(fields: seq<(string, PolarsType)>): (r: Columns)
    ensures |r| == |fields|
    ensures forall i :: 0 <= i < |fields| ==> r[i] == (fields[i].0, InferredColumn(fields[i].1))
  {
    seq(|fields|, i requires 0 <= i < |fields| => (fields[i].0, InferredColumn(fields[i].1)))
  }

  lemma InferredEntriesPrefix(fields: seq<(string, PolarsType)>, i: nat)
    requires i < |fields|
    ensures InferredEntries(fields[..i + 1]) == InferredEntries(fields[..i]) + [(fields[i].0, InferredColumn(fields[i].1))]
    ensures InferredEntries(fields[..i + 1])[..i] == InferredEntries(fields[..i])
  {
    Seqs.TakeSnoc(fields, i);
    var l, r := InferredEntries(fields[..i + 1]), InferredEntries(fields[..i]);
    Seqs.TakeSnoc(l, i);
    assert l[..i] == r;
  }

  /** What `SqliteSchema::from_polars_schema` builds: one insert per field. */
  function FromPolarsFields(fields: seq<(string, PolarsType)>): Columns {
    Extend([], InferredEntries(fields))
  }

  /** Over a polars schema (whose names are distinct), one default column per field, in field order. */
  lemma FromPolarsFieldsShape(fields: seq<(string, PolarsType)>)
    requires Seqs.NoDup(Keys(fields))
    ensures FromPolarsFields(fields) == InferredEntries(fields)
    ensures Keys(FromPolarsFields(fields)) == Keys(fields)
  {
    var e := InferredEntries(fields);
    assert Keys(e) == Keys(fields);
    assert Keys<string, ColOption>([]) + Keys(e) == Keys(e);
    ExtendDisjoint([], e);
    assert [] + e == e;
  }

  function ForeignKeyClause(name: string, fk: ForeignKey): string {
    "FOREIGN KEY (" + name + ") REFERENCES " + fk.table + "(" + fk.column + ")"
  }

  /** One definition per column, in schema order. */
  function ColumnDefs(cols: Columns): (r: seq<string>)
    ensures |r| == |cols|
    ensures forall i :: 0 <= i < |cols| ==> r[i] == ColumnDef(cols[i].0, cols[i].1)
  {
    seq(|cols|, i requires 0 <= i < |cols| => ColumnDef(cols[i].0, cols[i].1))
  }

  /** One clause per column that has a foreign key, in schema order. */
  function ForeignKeyClauses(cols: Columns): seq<string> {
    if |cols| == 0 then []
    else
      var (n, o) := cols[|cols| - 1];
      ForeignKeyClauses(cols[..|cols| - 1]) + (if o.foreignKey.Some? then [ForeignKeyClause(n, o.foreignKey.value)] else [])
  }

  lemma ColumnDefsSnoc(cols: Columns, c: (string, ColOption))
    ensures ColumnDefs(cols + [c]) == ColumnDefs(cols) + [ColumnDef(c.0, c.1)]
  {
    var l, r := ColumnDefs(cols + [c]), ColumnDefs(cols) + [ColumnDef(c.0, c.1)];
    assert |l| == |r|;
    forall i | 0 <= i < |l| ensures l[i] == r[i] {
      if i < |cols| {
        assert (cols + [c])[i] == cols[i];
      }
    }
  }

  lemma ForeignKeyClausesSnoc(cols: Columns, c: (string, ColOption))
    ensures ForeignKeyClauses(cols + [c])
      == ForeignKeyClauses(cols) + (if c.1.foreignKey.Some? then [ForeignKeyClause(c.0, c.1.foreignKey.value)] else [])
  {
    assert (cols + [c])[..|cols|] == cols;
  }

  /** How many columns carry a foreign key. */
  function ForeignKeyCount(cols: Columns): nat {
    if |cols| == 0 then 0
    else ForeignKeyCount(cols[..|cols| - 1]) + (if cols[|cols| - 1].1.foreignKey.Some? then 1 else 0)
  }

  /**
   * The foreign-key clauses are exactly those of the foreign-key columns:
   * one per such column and no other.
   */
  lemma {:induction false} ForeignKeyClausesExact(cols: Columns, x: string)
    ensures |ForeignKeyClauses(cols)| == ForeignKeyCount(cols)
    ensures x in ForeignKeyClauses(cols) <==>
              exists i :: 0 <= i < |cols| && cols[i].1.foreignKey.Some?
                && x == ForeignKeyClause(cols[i].0, cols[i].1.foreignKey.value)
  {
    if |cols| > 0 {
      var p := cols[..|cols| - 1];
      ForeignKeyClausesExact(p, x);
      var (n, o) := cols[|cols| - 1];
      if x in ForeignKeyClauses(p) {
        var i :| 0 <= i < |p| && p[i].1.foreignKey.Some?
          && x == ForeignKeyClause(p[i].0, p[i].1.foreignKey.value);
        assert cols[i] == p[i];
      }
      if exists i :: 0 <= i < |cols| && cols[i].1.foreignKey.Some?
           && x == ForeignKeyClause(cols[i].0, cols[i].1.foreignKey.value) {
        var i :| 0 <= i < |cols| && cols[i].1.foreignKey.Some?
          && x == ForeignKeyClause(cols[i].0, cols[i].1.foreignKey.value);
        if i < |p| { assert p[i] == cols[i]; }
      }
    }
  }

  const ColumnSeparator := ",\n    "

  /** The statement `SqliteSchema::finish` renders. */
  function CreateTableText(table: string, cols: Columns): string {
    "CREATE TABLE IF NOT EXISTS " + table + " (\n    "
    + Join(ColumnDefs(cols) + ForeignKeyClauses(cols), ColumnSeparator) + "\n);"
  }

  /** `SqliteSchema`: column name to options, insertion ordered, names distinct. */
  class SqliteSchema {
    var columns: Columns

    ghost predicate Valid()
      reads this
    {
      UniqueKeys(columns)
    }

    /** `SqliteSchema::new`: a single-column schema. */
    constructor New(name: string, o: ColOption)
      ensures Valid() && columns == [(name, o)]
    {
      columns := [(name, o)];
    }

    /** `SqliteSchema::from_polars_schema` */
    constructor FromPolarsSchema(fields: seq<(string, PolarsType)>)
      ensures Valid() && columns == FromPolarsFields(fields)
    {
      var cols: Columns := [];
      var i := 0;
      while i < |fields|
        invariant 0 <= i <= |fields|
        invariant cols == Extend([], InferredEntries(fields[..i]))
      {
        InferredEntriesPrefix(fields, i);
        cols := Insert(cols, fields[i].0, InferredColumn(fields[i].1));
        i := i + 1;
      }
      assert fields[..|fields|] == fields;
      columns := cols;
      ExtendUnique([], InferredEntries(fields));
    }

    /** `SqliteSchema::add_schema`: shared names updated in place, new names appended in other's order. */
    method AddSchema(other: SqliteSchema)
      requires Valid() && other.Valid()
      modifies this
      ensures Valid()
      ensures columns == Extend(old(columns), old(other.columns))
    {
      var src := other.columns;
      ghost var start := columns;
      var i := 0;
      while i < |src|
        invariant 0 <= i <= |src|
        invariant columns == Extend(start, src[..i])
        invariant Valid()
      {
        Seqs.TakeSnoc(src, i);
        InsertGet(columns, src[i].0, src[i].1, src[i].0);
        columns := Insert(columns, src[i].0, src[i].1);
        i := i + 1;
      }
      assert src[..|src|] == src;
    }

    /** `SqliteSchema::with_column`: an existing name keeps its place, a new one is appended. */
    method WithColumn(name: string, o: ColOption)
      requires Valid()
      modifies this
      ensures Valid()
      ensures columns == Insert(old(columns), name, o)
    {
      InsertGet(columns, name, o, name);
      columns := Insert(columns, name, o);
    }

    /** `SqliteSchema::finish`: the `CREATE TABLE IF NOT EXISTS` statement for the schema. */
    method Finish(table: string) returns (qry: string)
      ensures qry == CreateTableText(table, columns)
    {
      var defs: seq<string> := [];
      var fks: seq<string> := [];
      var i := 0;
      while i < |columns|
        invariant 0 <= i <= |columns|
        invariant defs == ColumnDefs(columns[..i])
        invariant fks == ForeignKeyClauses(columns[..i])
      {
        var (n, o) := columns[i];
        var d := BuildColDef(n, o);
        Seqs.TakeSnoc(columns, i);
        ColumnDefsSnoc(columns[..i], (n, o));
        ForeignKeyClausesSnoc(columns[..i], (n, o));
        defs := defs + [d];
        if o.foreignKey.Some? {
          fks := fks + [ForeignKeyClause(n, o.foreignKey.value)];
        }
        i := i + 1;
      }
      assert columns[..|columns|] == columns;
      if |fks| > 0 {
        defs := defs + fks;
      } else {
        assert defs + [] == defs;
      }
      qry := "CREATE TABLE IF NOT EXISTS " + table + " (\n    " + Join(defs, ColumnSeparator) + "\n);";
    }
  }
}
