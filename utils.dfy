/**
 * The dictionary-driven pieces of `utils.rs`: the additive hash used for
 * country keys, the two schemas read off the data dictionary, the country
 * dimension, the case-record normaliser and the catalog tables.
 */
module Utils {
  import opened Wrappers
  import opened Strings
  import opened Seqs
  import opened IndexMaps
  import opened PlSql
  import opened XlsxToPl

  // ---------------------------------------------------------------------
  // simple_hash / hash_column

  const HashModulus: nat := 1_000_000_009

  /** `simple_hash`: add each code point and reduce, character by character. */
  function Hash(s: string): (h: nat)
    ensures h < HashModulus
  {
    if |s| == 0 then 0 else (Hash(s[..|s| - 1]) + s[|s| - 1] as nat) % HashModulus
  }

  lemma ModAddLeft(a: nat, b: nat)
    ensures (a % HashModulus + b) % HashModulus == (a + b) % HashModulus
  {
    var q := a / HashModulus;
    assert a == q * HashModulus + a % HashModulus;
  }

  /** Reducing at every step is reducing the plain code-point sum once. */
  lemma {:induction false} HashIsCodeSum(s: string)
    ensures Hash(s) == CodeSum(s) % HashModulus
  {
    if |s| > 0 {
      var p := s[..|s| - 1];
      HashIsCodeSum(p);
      ModAddLeft(CodeSum(p), s[|s| - 1] as nat);
    }
  }

  /** The hash ignores order: swapping two parts of a name gives the same key. */
  lemma HashIgnoresOrder(a: string, b: string)
    ensures Hash(a + b) == Hash(b + a)
  {
    HashIsCodeSum(a + b);
    HashIsCodeSum(b + a);
    CodeSumAppend(a, b);
    CodeSumAppend(b, a);
  }

  /**
   * `simple_hash(s)`. The accumulator stays below the modulus and a code
   * point is below 0x110000, so the `u64` sum never wraps.
   */
  method SimpleHash(s: string) returns (hash: nat)
    ensures hash == Hash(s) && hash < HashModulus
    ensures s == "" ==> hash == 0
  {
    hash := 0;
    var i := 0;
    while i < |s|
      invariant 0 <= i <= |s| && hash == Hash(s[..i])
    {
      TakeSnoc(s, i);
      hash := (hash + s[i] as nat) % HashModulus;
      i := i + 1;
    }
    assert s[..|s|] == s;
  }

  function HashValue(v: Option<string>): (r: Option<nat>)
    ensures r.None? <==> v.None?
    ensures v.Some? ==> r.value == Hash(v.value) && r.value < HashModulus
  {
    match v
    case None => None
    case Some(s) => Some(Hash(s))
  }

  /** `hash_column`: nulls stay null, every other text becomes its hash. */
  function HashColumn(col: seq<Option<string>>): (r: seq<Option<nat>>)
    ensures |r| == |col|
    ensures forall i :: 0 <= i < |col| ==> (r[i].None? <==> col[i].None?)
    ensures forall i :: 0 <= i < |col| && col[i].Some? ==> r[i] == Some(Hash(col[i].value))
  {
    seq(|col|, i requires 0 <= i < |col| => HashValue(col[i]))
  }

  // ---------------------------------------------------------------------
  // The data dictionary: variable names and their format annotations.

  datatype UtilsError =
    | ReadFailed(cause: ExcelError)  // the sheet could not be read
    | ColumnNotFound(column: string)  // `df.column(name)?` of a missing column
    | DuplicateName(column: string)   // a frame built with a repeated column name

  const NameColumn := "NOMBRE DE VARIABLE"
  const FormatColumn := "FORMATO O FUENTE"

  /** `df.column(name)`: the values of the first column with that name. */
  function FindColumn(cols: seq<Column>, name: string): (r: Option<seq<string>>)
    ensures r.Some? <==> name in Names(cols)
    ensures r.Some? ==> r.value == cols[IndexOf(Names(cols), name)].values
  {
    if |cols| == 0 then None
    else
      assert Names(cols) == [cols[0].name] + Names(cols[1..]);
      if cols[0].name == name then Some(cols[0].values)
      else FindColumn(cols[1..], name)
  }

  /** `a.zip(b)`: pairs up to the shorter length. */
  function Zip(a: seq<string>, b: seq<string>): (r: seq<(string, string)>)
    ensures |r| == if |a| < |b| then |a| else |b|
    ensures forall i :: 0 <= i < |r| ==> r[i] == (a[i], b[i])
  {
    var n := if |a| < |b| then |a| else |b|;
    seq(n, i requires 0 <= i < n => (a[i], b[i]))
  }

  /** The (variable, format) rows of a dictionary sheet, or the first missing column. */
  function Descriptors(dict: seq<Column>): (r: Result<seq<(string, string)>, UtilsError>)
    ensures r.Failure? <==> NameColumn !in Names(dict) || FormatColumn !in Names(dict)
    ensures NameColumn !in Names(dict) ==> r == Failure(ColumnNotFound(NameColumn))
    ensures NameColumn in Names(dict) && FormatColumn !in Names(dict) ==>
              r == Failure(ColumnNotFound(FormatColumn))
    ensures r.Success? ==>
              var names := dict[IndexOf(Names(dict), NameColumn)].values;
              var formats := dict[IndexOf(Names(dict), FormatColumn)].values;
              |r.value| == (if |names| < |formats| then |names| else |formats|) &&
              forall i :: 0 <= i < |r.value| ==> r.value[i] == (names[i], formats[i])
  {
    match FindColumn(dict, NameColumn)
    case None => Failure(ColumnNotFound(NameColumn))
    case Some(names) =>
      match FindColumn(dict, FormatColumn)
      case None => Failure(ColumnNotFound(FormatColumn))
      case Some(formats) => Success(Zip(names, formats))
  }

  /** A format annotation names a catalog (either spelling of the accent). */
  predicate IsCatalog(fmt: string) {
    Contains(fmt, "CAT\U{C1}LOGO") || Contains(fmt, "CATAL\U{D3}GO")
  }

  // ---------------------------------------------------------------------
  // get_schema_pl

  function PlType(fmt: string): (t: PolarsType)
    ensures t == UInt64 <==> IsCatalog(fmt)
    ensures t == String <==> !IsCatalog(fmt)
  {
    if IsCatalog(fmt) then UInt64 else String
  }

  function PlEntries(descs: seq<(string, string)>): (r: seq<(string, PolarsType)>)
    ensures |r| == |descs|
    ensures forall i :: 0 <= i < |descs| ==> r[i] == (descs[i].0, PlType(descs[i].1))
  {
    seq(|descs|, i requires 0 <= i < |descs| => (descs[i].0, PlType(descs[i].1)))
  }

  lemma PlEntriesPrefix(descs: seq<(string, string)>, i: nat)
    requires i < |descs|
    ensures PlEntries(descs[..i + 1]) == PlEntries(descs[..i]) + [(descs[i].0, PlType(descs[i].1))]
    ensures PlEntries(descs[..i + 1])[..i] == PlEntries(descs[..i])
  {
    var l := PlEntries(descs[..i + 1]);
    TakeSnoc(descs, i);
    TakeSnoc(l, i);
    assert l[..i] == PlEntries(descs[..i]);
  }

  /** The polars schema: one `with_column` per row, in order. */
  function PlSchema(descs: seq<(string, string)>): seq<(string, PolarsType)> {
    Extend([], PlEntries(descs))
  }

  /** A name takes the type of the format on its last row. */
  lemma PlSchemaLastRow(descs: seq<(string, string)>, i: nat)
    requires i < |descs| && forall j :: i < j < |descs| ==> descs[j].0 != descs[i].0
    ensures Get(PlSchema(descs), descs[i].0) == Some(PlType(descs[i].1))
  {
    var e := PlEntries(descs);
    ExtendGet([], e, descs[i].0);
    LastValueAt(e, i);
    assert Keys(e) == Keys(descs);
  }

  /** With distinct variable names every row gives one field, in row order, none skipped. */
  lemma PlSchemaDistinct(descs: seq<(string, string)>)
    requires NoDup(Keys(descs))
    ensures PlSchema(descs) == PlEntries(descs)
  {
    var e := PlEntries(descs);
    var none: seq<(string, PolarsType)> := [];
    assert Keys(e) == Keys(descs);
    assert Keys(none) + Keys(e) == Keys(e);
    ExtendDisjoint(none, e);
  }

  /** `get_schema_pl`, given the dictionary sheet as read. */
  method GetSchemaPl(dict: seq<Column>) returns (r: Result<seq<(string, PolarsType)>, UtilsError>)
    ensures r.Failure? <==> Descriptors(dict).Failure?
    ensures r.Failure? ==> r.error == Descriptors(dict).error
    ensures r.Success? ==> r.value == PlSchema(Descriptors(dict).value)
    ensures r.Success? ==> UniqueKeys(r.value)
  {
    var found := Descriptors(dict);
    if found.Failure? {
      return Failure(found.error);
    }
    var descs := found.value;
    var schema: seq<(string, PolarsType)> := [];
    var i := 0;
    while i < |descs|
      invariant 0 <= i <= |descs|
      invariant schema == Extend([], PlEntries(descs[..i]))
    {
      PlEntriesPrefix(descs, i);
      var (column, typeCol) := descs[i];
      if IsCatalog(typeCol) {
        schema := Insert(schema, column, UInt64);
      } else {
        schema := Insert(schema, column, String);
      }
      i := i + 1;
    }
    assert descs[..|descs|] == descs;
    ExtendUnique([], PlEntries(descs));
    return Success(schema);
  }

  // ---------------------------------------------------------------------
  // get_schema_sql

  /** `id_ref`: the `:`-separated segments after the first, joined, without spaces. */
  function IdRef(fmt: string): string {
    RemoveChar(Concat(SplitOn(fmt, ':')[1..]), ' ')
  }

  /** The reference holds no `:` and no space: it is the text after the first `:`, cleaned. */
  lemma IdRefShape(fmt: string)
    ensures ':' !in IdRef(fmt) && ' ' !in IdRef(fmt)
    ensures IdRef(fmt) == if ':' in fmt then RemoveChar(RemoveChar(fmt[IndexOf(fmt, ':') + 1..], ':'), ' ') else ""
  {
    ConcatAfterFirstSegment(fmt, ':');
  }

  const UpdateDate := "FECHA_ACTUALIZACION"
  const Age := "EDAD"
  const RecordId := "ID_REGISTRO"
  const CatalogKey := "CLAVE"

  /** INTEGER with a foreign key to the catalog's CLAVE, or plain TEXT. */
  function SqlOption(fmt: string): (o: ColOption)
    ensures IsCatalog(fmt) ==> o.typeSql == Integer && o.foreignKey == Some(ForeignKey(IdRef(fmt), CatalogKey))
    ensures !IsCatalog(fmt) ==> o.typeSql == Text && o.foreignKey.None?
    ensures o.nullable && !o.primaryKey && o.defaultValue.None?
  {
    if IsCatalog(fmt) then DefaultColOption.WithTypeSql(Integer).WithForeignKey(IdRef(fmt), CatalogKey)
    else DefaultColOption.WithTypeSql(Text)
  }

  function SqlEntries(descs: seq<(string, string)>): (r: Columns)
    ensures |r| == |descs|
    ensures forall i :: 0 <= i < |descs| ==> r[i] == (descs[i].0, SqlOption(descs[i].1))
  {
    seq(|descs|, i requires 0 <= i < |descs| => (descs[i].0, SqlOption(descs[i].1)))
  }

  lemma SqlEntriesPrefix(descs: seq<(string, string)>, i: nat)
    requires i < |descs|
    ensures SqlEntries(descs[..i + 1]) == SqlEntries(descs[..i]) + [(descs[i].0, SqlOption(descs[i].1))]
    ensures SqlEntries(descs[..i + 1])[..i] == SqlEntries(descs[..i])
  {
    var l := SqlEntries(descs[..i + 1]);
    TakeSnoc(descs, i);
    TakeSnoc(l, i);
    assert l[..i] == SqlEntries(descs[..i]);
  }

  /** `skip(2)` */
  function Skip2<T>(s: seq<T>): seq<T> {
    if |s| < 2 then [] else s[2..]
  }

  const AgeOption := DefaultColOption.WithTypeSql(Integer)
  const RecordIdOption := DefaultColOption.WithPrimaryKey(true)

  /** The SQLite schema read off the dictionary rows. */
  function SqlSchema(descs: seq<(string, string)>): Columns {
    Insert(Insert(SchemaBody(descs), Age, AgeOption), RecordId, RecordIdOption)
  }

  function SchemaBody(descs: seq<(string, string)>): Columns {
    Extend([(UpdateDate, DefaultColOption)], SqlEntries(Skip2(descs)))
  }

  lemma SchemaBodyShape(descs: seq<(string, string)>, n: string)
    ensures UniqueKeys(SchemaBody(descs))
    ensures |SchemaBody(descs)| > 0 && SchemaBody(descs)[0].0 == UpdateDate
    ensures Get(SchemaBody(descs), n) ==
              if n in Keys(Skip2(descs)) then LastValue(SqlEntries(Skip2(descs)), n)
              else if n == UpdateDate then Some(DefaultColOption) else None
  {
    var head: Columns := [(UpdateDate, DefaultColOption)];
    var e := SqlEntries(Skip2(descs));
    assert UniqueKeys(head);
    ExtendUnique(head, e);
    ExtendKeepsPositions(head, e);
    ExtendGet(head, e, n);
    assert Keys(e) == Keys(Skip2(descs));
  }

  /**
   * FECHA_ACTUALIZACION stays first; EDAD and ID_REGISTRO are always there
   * with their fixed options; every other name takes its last row's option;
   * names are distinct.
   */
  lemma SqlSchemaShape(descs: seq<(string, string)>, n: string)
    ensures UniqueKeys(SqlSchema(descs))
    ensures |SqlSchema(descs)| > 0 && SqlSchema(descs)[0].0 == UpdateDate
    ensures Get(SqlSchema(descs), RecordId) == Some(RecordIdOption)
    ensures Get(SqlSchema(descs), Age) == Some(AgeOption)
    ensures n != Age && n != RecordId ==>
              Get(SqlSchema(descs), n) ==
                if n in Keys(Skip2(descs)) then LastValue(SqlEntries(Skip2(descs)), n)
                else if n == UpdateDate then Some(DefaultColOption) else None
  {
    SchemaBodyShape(descs, n);
    FixedTail(SchemaBody(descs), n);
  }

  /** EDAD then ID_REGISTRO set through `with_column` on a schema. */
  lemma FixedTail(body: Columns, n: string)
    requires UniqueKeys(body) && |body| > 0
    ensures var r := Insert(Insert(body, Age, AgeOption), RecordId, RecordIdOption);
            UniqueKeys(r) && |r| > 0 && r[0].0 == body[0].0
            && Get(r, RecordId) == Some(RecordIdOption) && Get(r, Age) == Some(AgeOption)
            && (n != Age && n != RecordId ==> Get(r, n) == Get(body, n))
  {
    InsertTwice(body, Age, AgeOption, RecordId, RecordIdOption, n);
  }

  lemma InsertTwice<K, V>(m: seq<(K, V)>, k1: K, v1: V, k2: K, v2: V, n: K)
    requires UniqueKeys(m) && |m| > 0 && k1 != k2
    ensures var r := Insert(Insert(m, k1, v1), k2, v2);
            UniqueKeys(r) && |r| > 0 && r[0].0 == m[0].0
            && Get(r, k2) == Some(v2) && Get(r, k1) == Some(v1)
            && (n != k1 && n != k2 ==> Get(r, n) == Get(m, n))
  {
    var m1 := Insert(m, k1, v1);
    InsertGet(m, k1, v1, n);
    InsertGet(m, k1, v1, k2);
    InsertGet(m1, k2, v2, n);
    InsertGet(m1, k2, v2, k1);
    assert m1[0].0 == m[0].0;
  }

  /** The record id is a NOT NULL primary key; the update date a nullable TEXT with no constraint. */
  lemma FixedColumnOptions()
    ensures RecordIdOption.primaryKey && !RecordIdOption.nullable && RecordIdOption.typeSql == Text
    ensures DefaultColOption.typeSql == Text && DefaultColOption.nullable && !DefaultColOption.primaryKey
    ensures AgeOption.typeSql == Integer && AgeOption.nullable
  {
  }

  lemma ExtendSqlEntriesSnoc(start: Columns, descs: seq<(string, string)>, i: nat, o: ColOption)
    requires i < |descs|
    requires o == if IsCatalog(descs[i].1)
                  then DefaultColOption.WithTypeSql(Integer).WithForeignKey(IdRef(descs[i].1), CatalogKey)
                  else DefaultColOption.WithTypeSql(Text)
    ensures Extend(start, SqlEntries(descs[..i + 1])) == Insert(Extend(start, SqlEntries(descs[..i])), descs[i].0, o)
  {
    SqlEntriesPrefix(descs, i);
  }

  /** `get_schema_sql`, given the dictionary sheet as read. */
  method GetSchemaSql(dict: seq<Column>) returns (r: Result<SqliteSchema, UtilsError>)
    ensures r.Failure? <==> Descriptors(dict).Failure?
    ensures r.Failure? ==> r.error == Descriptors(dict).error
    ensures r.Success? ==> fresh(r.value) && r.value.Valid() && r.value.columns == SqlSchema(Descriptors(dict).value)
  {
    var found := Descriptors(dict);
    if found.Failure? {
      return Failure(found.error);
    }
    var schema := new SqliteSchema.New(UpdateDate, DefaultColOption);
    AddDescriptors(schema, Skip2(found.value));
    assert schema.columns == SchemaBody(found.value);
    schema.WithColumn(Age, AgeOption);
    schema.WithColumn(RecordId, RecordIdOption);
    return Success(schema);
  }

  /** The loop of `get_schema_sql`: one `with_column` per row. */
  method AddDescriptors(schema: SqliteSchema, descs: seq<(string, string)>)
    requires schema.Valid()
    modifies schema
    ensures schema.Valid() && schema.columns == Extend(old(schema.columns), SqlEntries(descs))
  {
    ghost var start := schema.columns;
    var i := 0;
    while i < |descs|
      invariant 0 <= i <= |descs|
      invariant schema.Valid() && schema.columns == Extend(start, SqlEntries(descs[..i]))
    {
      var column, typeCol := descs[i].0, descs[i].1;
      var idRef := IdRef(typeCol);
      var option: ColOption;
      if IsCatalog(typeCol) {
        option := DefaultColOption.WithTypeSql(Integer).WithForeignKey(idRef, CatalogKey);
      } else {
        option := DefaultColOption.WithTypeSql(Text);
      }
      ExtendSqlEntriesSnoc(start, descs, i, option);
      schema.WithColumn(column, option);
      i := i + 1;
    }
    assert descs[..|descs|] == descs;
  }

  // ---------------------------------------------------------------------
  // Case records: the country dimension and the normaliser.

  /** The columns of a case record that the normaliser reads, as text, plus the rest. */
  datatype CaseRow = CaseRow(
    entidadRes: Option<string>,
    municipioRes: Option<string>,
    paisNacionalidad: Option<string>,
    paisOrigen: Option<string>,
    fechaDef: Option<string>,
    rest: seq<Option<string>>)

  /** The same record after `clean_data_covid`. */
  datatype CleanRow = CleanRow(
    entidadRes: Option<string>,
    municipioRes: Option<nat>,
    paisNacionalidad: Option<nat>,
    paisOrigen: Option<nat>,
    fechaDef: Option<string>,
    rest: seq<Option<string>>)

  /** `when(c.eq(lit(sentinel))).then(lit(replacement)).otherwise(c)`; a null never equals. */
  function Substitute(v: Option<string>, sentinel: string, replacement: string): (r: Option<string>)
    ensures v == Some(sentinel) ==> r == Some(replacement)
    ensures v != Some(sentinel) ==> r == v
  {
    if v == Some(sentinel) then Some(replacement) else v
  }

  function Nationality(v: Option<string>): Option<string> {
    Substitute(v, "99", "SE INGONARA")
  }

  function Origin(v: Option<string>): Option<string> {
    Substitute(v, "97", "NO APLICA")
  }

  function Nationalities(rows: seq<CaseRow>): (r: seq<Option<string>>)
    ensures |r| == |rows| && forall k :: 0 <= k < |rows| ==> r[k] == Nationality(rows[k].paisNacionalidad)
  {
    seq(|rows|, k requires 0 <= k < |rows| => Nationality(rows[k].paisNacionalidad))
  }

  function Origins(rows: seq<CaseRow>): (r: seq<Option<string>>)
    ensures |r| == |rows| && forall k :: 0 <= k < |rows| ==> r[k] == Origin(rows[k].paisOrigen)
  {
    seq(|rows|, k requires 0 <= k < |rows| => Origin(rows[k].paisOrigen))
  }

  /** Both columns' distinct names, each in first-seen order, one list after the other. */
  function CountryNames(rows: seq<CaseRow>): seq<Option<string>> {
    Dedup(Nationalities(rows)) + Dedup(Origins(rows))
  }

  function Keyed(names: seq<Option<string>>): (r: seq<(Option<nat>, Option<string>)>)
    ensures |r| == |names| && forall i :: 0 <= i < |names| ==> r[i] == (HashValue(names[i]), names[i])
  {
    seq(|names|, i requires 0 <= i < |names| => (HashValue(names[i]), names[i]))
  }

  /** `get_unique_contry`: (key, name) rows, the first of each repeated pair kept. */
  function CountryDimension(rows: seq<CaseRow>): seq<(Option<nat>, Option<string>)> {
    Dedup(Keyed(CountryNames(rows)))
  }

  /**
   * Every key is the hash of its name, no pair repeats, and a pair is in
   * the dimension exactly when its name is some row's substituted
   * nationality or origin.
   */
  lemma DimensionShape(rows: seq<CaseRow>)
    ensures forall p :: p in CountryDimension(rows) ==> p.0 == HashValue(p.1)
    ensures NoDup(CountryDimension(rows))
    ensures forall v :: (HashValue(v), v) in CountryDimension(rows) <==>
              (v in Nationalities(rows) || v in Origins(rows))
  {
    var names := CountryNames(rows);
    var keyed := Keyed(names);
    DedupElems(keyed);
    DedupNoDup(keyed);
    DedupElems(Nationalities(rows));
    DedupElems(Origins(rows));
    forall v ensures (HashValue(v), v) in keyed <==> v in names {
      if v in names {
        var i :| 0 <= i < |names| && names[i] == v;
        assert keyed[i] == (HashValue(v), v);
      }
    }
  }

  /** `MUNICIPIO_RES` as text, zero-filled to 3, cast to `u64`; null when either part is. */
  function MunicipalityKey(ent: Option<string>, mun: Option<string>): Option<nat> {
    if ent.None? || mun.None? then None
    else CastUnsigned(ent.value + ZFill(mun.value, 3))
  }

  const U64Limit: nat := 0x1_0000_0000_0000_0000

  /** A non-strict cast of text to `u64`: null unless it is decimal digits within range. */
  function CastUnsigned(s: string): (r: Option<nat>)
    ensures r.Some? ==> r.value < U64Limit && ParseNat(s) == r
  {
    match ParseNat(s)
    case Some(n) => if n < U64Limit then Some(n) else None
    case None => None
  }

  /** The entity and a municipality below 1000 are packed as entity * 1000 + municipality. */
  lemma MunicipalityKeyPacks(ent: nat, mun: nat)
    requires mun < 1000 && ent * 1000 + mun < U64Limit
    ensures MunicipalityKey(Some(NatText(ent)), Some(NatText(mun))) == Some(ent * 1000 + mun)
    ensures (ent * 1000 + mun) / 1000 == ent && (ent * 1000 + mun) % 1000 == mun
  {
    var m := NatText(mun);
    NatTextDigits(mun);
    NatTextDigits(ent);
    NatTextLength(mun, 3);
    ParseZeroPadded(m, 3);
    ParseNatText(mun);
    ParseNatText(ent);
    var z := ZFill(m, 3);
    assert |z| == 3;
    ParseNatAppend(NatText(ent), z);
    assert Pow10(3) == 1000;
  }

  /** `FECHA_DEF`: the "9999-99-99" placeholder becomes null. */
  function DeathDate(v: Option<string>): (r: Option<string>)
    ensures v == Some("9999-99-99") ==> r.None?
    ensures v != Some("9999-99-99") ==> r == v
  {
    if v == Some("9999-99-99") then None else v
  }

  /** `clean_data_covid` on one record. */
  function CleanCase(r: CaseRow): (c: CleanRow)
    ensures c.entidadRes == r.entidadRes && c.rest == r.rest
    ensures c.paisNacionalidad == HashValue(Nationality(r.paisNacionalidad))
    ensures c.paisOrigen == HashValue(Origin(r.paisOrigen))
  {
    CleanRow(
      r.entidadRes,
      MunicipalityKey(r.entidadRes, r.municipioRes),
      HashValue(Nationality(r.paisNacionalidad)),
      HashValue(Origin(r.paisOrigen)),
      DeathDate(r.fechaDef),
      r.rest)
  }

  /** `clean_data_covid`: every record normalised, row order kept. */
  function CleanDataCovid(rows: seq<CaseRow>): (r: seq<CleanRow>)
    ensures |r| == |rows| && forall k :: 0 <= k < |rows| ==> r[k] == CleanCase(rows[k])
  {
    seq(|rows|, k requires 0 <= k < |rows| => CleanCase(rows[k]))
  }

  /**
   * The normaliser and the dimension agree: each record's country keys,
   * with the names they came from, are rows of the dimension built from
   * the same records.
   */
  lemma CleanKeysInDimension(rows: seq<CaseRow>, k: nat)
    requires k < |rows|
    ensures (CleanDataCovid(rows)[k].paisNacionalidad, Nationality(rows[k].paisNacionalidad)) in CountryDimension(rows)
    ensures (CleanDataCovid(rows)[k].paisOrigen, Origin(rows[k].paisOrigen)) in CountryDimension(rows)
  {
    DimensionShape(rows);
    assert Nationalities(rows)[k] == Nationality(rows[k].paisNacionalidad);
    assert Origins(rows)[k] == Origin(rows[k].paisOrigen);
  }

  // ---------------------------------------------------------------------
  // get_df_cat: one table per catalog sheet.

  /** A catalog cell: the sheet's text, a `u64` after a cast, or null. */
  datatype CatValue = NullCell | TextCell(s: string) | UIntCell(n: nat)

  datatype CatColumn = CatColumn(name: string, values: seq<CatValue>)

  type Catalog = seq<CatColumn>

  const EntitiesSheet := "Cat\U{E1}logo de ENTIDADES"
  const MunicipalitiesSheet := "Cat\U{E1}logo MUNICIPIOS"
  const LabResultSheet := "Cat\U{E1}logo RESULTADO_LAB"
  const EntityKey := "CLAVE_ENTIDAD"

  function TextColumn(c: Column): (r: CatColumn)
    ensures r.name == c.name && |r.values| == |c.values|
    ensures forall j :: 0 <= j < |c.values| ==> r.values[j] == TextCell(c.values[j])
  {
    CatColumn(c.name, seq(|c.values|, j requires 0 <= j < |c.values| => TextCell(c.values[j])))
  }

  function TextColumns(cols: seq<Column>): (r: Catalog)
    ensures |r| == |cols| && forall i :: 0 <= i < |cols| ==> r[i] == TextColumn(cols[i])
  {
    seq(|cols|, i requires 0 <= i < |cols| => TextColumn(cols[i]))
  }

  /** `.cast(DataType::UInt64)` of one cell; text that is not a `u64` becomes null. */
  function CastValue(v: CatValue): (r: CatValue)
    ensures r.NullCell? || r.UIntCell?
    ensures v.TextCell? ==> (r.UIntCell? <==> CastUnsigned(v.s).Some?)
    ensures v.TextCell? && r.UIntCell? ==> Some(r.n) == CastUnsigned(v.s)
    ensures v.UIntCell? ==> r == v
  {
    match v
    case NullCell => NullCell
    case UIntCell(n) => UIntCell(n)
    case TextCell(s) => if CastUnsigned(s).Some? then UIntCell(CastUnsigned(s).value) else NullCell
  }

  /** `.cast(DataType::String)` of one cell. */
  function AsText(v: CatValue): Option<string> {
    match v
    case NullCell => None
    case TextCell(s) => Some(s)
    case UIntCell(n) => Some(NatText(n))
  }

  function CastColumn(c: CatColumn): (r: CatColumn)
    ensures r.name == c.name && |r.values| == |c.values|
    ensures forall j :: 0 <= j < |c.values| ==> r.values[j] == CastValue(c.values[j])
  {
    CatColumn(c.name, seq(|c.values|, j requires 0 <= j < |c.values| => CastValue(c.values[j])))
  }

  /** `with_columns([col(name).cast(UInt64)])` for the column at position i. */
  function CastAt(t: Catalog, i: nat): (r: Catalog)
    requires i < |t|
    ensures |r| == |t| && r[i] == CastColumn(t[i])
    ensures forall k :: 0 <= k < |t| && k != i ==> r[k] == t[k]
  {
    t[i := CastColumn(t[i])]
  }

  function CatNames(t: Catalog): (ns: seq<string>)
    ensures |ns| == |t| && forall i :: 0 <= i < |t| ==> ns[i] == t[i].name
  {
    seq(|t|, i requires 0 <= i < |t| => t[i].name)
  }

  /** `rename([from], [to], false)`: a column named `from` is renamed; none is no error. */
  function Rename(t: Catalog, from: string, to: string): (r: Catalog)
    ensures |r| == |t|
    ensures forall i :: 0 <= i < |t| ==> r[i].values == t[i].values
    ensures forall i :: 0 <= i < |t| ==> r[i].name == if t[i].name == from then to else t[i].name
  {
    seq(|t|, i requires 0 <= i < |t| => if t[i].name == from then t[i].(name := to) else t[i])
  }

  /** `concat_str([a, b], "", false).cast(UInt64)`: null when either cell is null. */
  function KeyValues(a: seq<CatValue>, b: seq<CatValue>): (r: seq<CatValue>)
    ensures |r| == if |a| < |b| then |a| else |b|
  {
    var n := if |a| < |b| then |a| else |b|;
    seq(n, j requires 0 <= j < n =>
      if AsText(a[j]).None? || AsText(b[j]).None? then NullCell
      else CastValue(TextCell(AsText(a[j]).value + AsText(b[j]).value)))
  }

  /** The table a catalog sheet becomes, before the name check `collect` makes. */
  function Reshaped(sheet: string, cols: seq<Column>): (t: Catalog)
    requires |cols| >= 2
  {
    var base := CastAt(TextColumns(cols), 0);
    var shaped :=
      if sheet == EntitiesSheet then Rename(base, EntityKey, CatalogKey)
      else if sheet == MunicipalitiesSheet then
        var key := CatColumn(CatalogKey, KeyValues(base[0].values, base[1].values));
        CastAt([key] + base, 2)
      else base;
    if sheet == LabResultSheet then [shaped[0], shaped[1]] else shaped
  }

  /** One catalog sheet's table; a repeated column name is refused as `collect` does. */
  function CatalogTable(sheet: string, cols: seq<Column>): (r: Result<Catalog, UtilsError>)
    requires |cols| >= 2
    ensures r.Failure? <==> HasRepeat(CatNames(Reshaped(sheet, cols)))
    ensures r.Success? ==> r.value == Reshaped(sheet, cols)
  {
    var t := Reshaped(sheet, cols);
    if HasRepeat(CatNames(t)) then Failure(DuplicateName(RepeatedName(CatNames(t)))) else Success(t)
  }

  /** Every sheet casts its first column to `u64`; a cell that is not a `u64` becomes null. */
  lemma FirstColumnCast(sheet: string, cols: seq<Column>, j: nat)
    requires |cols| >= 2 && sheet != MunicipalitiesSheet && j < |cols[0].values|
    ensures var t := Reshaped(sheet, cols);
            t[0].values[j] == CastValue(TextCell(cols[0].values[j]))
            && t[0].name == (if sheet == EntitiesSheet && cols[0].name == EntityKey then CatalogKey else cols[0].name)
  {
  }

  /** ENTIDADES: CLAVE_ENTIDAD is renamed CLAVE; nothing else changes but the first column's cast. */
  lemma EntitiesRenamed(cols: seq<Column>)
    requires |cols| >= 2
    ensures var t := Reshaped(EntitiesSheet, cols);
            |t| == |cols|
            && forall i :: 0 <= i < |cols| ==>
                 t[i].name == (if cols[i].name == EntityKey then CatalogKey else cols[i].name)
                 && (i > 0 ==> t[i] .values == TextColumn(cols[i]).values)
  {
  }

  /** RESULTADO_LAB: only the first two columns are kept. */
  lemma LabResultTwoColumns(cols: seq<Column>)
    requires |cols| >= 2
    ensures var t := Reshaped(LabResultSheet, cols);
            CatNames(t) == [cols[0].name, cols[1].name] && t[1] == TextColumn(cols[1])
  {
    var t := Reshaped(LabResultSheet, cols);
    assert CatNames(t)[0] == cols[0].name && CatNames(t)[1] == cols[1].name;
  }

  /**
   * MUNICIPIOS: CLAVE is put first, then the sheet's columns with the first
   * two cast to `u64`. A key reads the entity as a number, so leading zeros
   * go, and the municipality text as written.
   */
  lemma MunicipalitiesKeyed(cols: seq<Column>, j: nat)
    requires |cols| >= 2 && j < |cols[0].values| && j < |cols[1].values|
    ensures var t := Reshaped(MunicipalitiesSheet, cols);
            |t| == |cols| + 1 && t[0].name == CatalogKey
            && (forall i :: 0 <= i < |cols| ==> t[i + 1].name == cols[i].name)
            && t[0].values[j] ==
                 match CastUnsigned(cols[0].values[j])
                 case None => NullCell
                 case Some(e) => CastValue(TextCell(NatText(e) + cols[1].values[j]))
  {
  }

  /**
   * A municipality whose entity text reads as e and whose code is written
   * with three digits gets the same key as a case record of that
   * municipality after `clean_data_covid`: entity * 1000 + municipality.
   */
  lemma CatalogKeyMatchesCaseKey(cols: seq<Column>, j: nat, e: nat, m: nat)
    requires |cols| >= 2 && j < |cols[0].values| && j < |cols[1].values|
    requires CastUnsigned(cols[0].values[j]) == Some(e)
    requires m < 1000 && e * 1000 + m < U64Limit && cols[1].values[j] == ZFill(NatText(m), 3)
    ensures Reshaped(MunicipalitiesSheet, cols)[0].values[j] == UIntCell(e * 1000 + m)
    ensures MunicipalityKey(Some(NatText(e)), Some(NatText(m))) == Some(e * 1000 + m)
  {
    MunicipalitiesKeyed(cols, j);
    MunicipalityKeyPacks(e, m);
  }

  /** Each sheet's name with the frame reading it gives. */
  type SheetReads = seq<(string, Result<seq<Column>, ExcelError>)>

  function ReadSheets(wb: Workbook): (r: SheetReads)
    ensures |r| == |wb|
  {
    seq(|wb|, i requires 0 <= i < |wb| => (wb[i].0, ExcelFrame(wb, Some(wb[i].0))))
  }

  /** A sheet that sheets has the two columns `get_df_cat` takes the names of. */
  predicate Wide(frame: Result<seq<Column>, ExcelError>) {
    frame.Success? ==> |frame.value| >= 2
  }

  predicate AllWide(sheets: SheetReads) {
    forall i :: 0 <= i < |sheets| ==> Wide(sheets[i].1)
  }

  /** One loop step: the sheet as read, then as a catalog table. */
  function SheetCatalog(sheet: string, frame: Result<seq<Column>, ExcelError>): (r: Result<Catalog, UtilsError>)
    requires Wide(frame)
    ensures frame.Failure? ==> r == Failure(ReadFailed(frame.error))
    ensures frame.Success? ==> r == CatalogTable(sheet, frame.value)
  {
    match frame
    case Failure(e) => Failure(ReadFailed(e))
    case Success(cols) => CatalogTable(sheet, cols)
  }

  /** Each sheet's name with the outcome of its loop step. */
  type Steps = seq<(string, Result<Catalog, UtilsError>)>

  function SheetSteps(sheets: SheetReads): (r: Steps)
    requires AllWide(sheets)
    ensures |r| == |sheets|
  {
    seq(|sheets|, i requires 0 <= i < |sheets| => (sheets[i].0, SheetCatalog(sheets[i].0, sheets[i].1)))
  }

  /** The catalogs of the first k sheets, each stored under the last word of its name. */
  function Catalogs(steps: Steps, k: nat): Result<map<string, Catalog>, UtilsError>
    requires k <= |steps|
  {
    if k == 0 then Success(map[])
    else
      var earlier :- Catalogs(steps, k - 1);
      var table :- steps[k - 1].1;
      Success(earlier[LastToken(steps[k - 1].0) := table])
  }

  function TableNames(steps: Steps): (ns: seq<string>)
    ensures |ns| == |steps| && forall i :: 0 <= i < |steps| ==> ns[i] == LastToken(steps[i].0)
  {
    seq(|steps|, i requires 0 <= i < |steps| => LastToken(steps[i].0))
  }

  /** On success the tables are keyed by the last whitespace-separated word of the sheet names. */
  lemma {:induction false} CatalogsKeyed(steps: Steps, k: nat)
    requires k <= |steps| && Catalogs(steps, k).Success?
    ensures Catalogs(steps, k).value.Keys == set i | 0 <= i < k :: TableNames(steps)[i]
  {
    if k > 0 {
      CatalogsKeyed(steps, k - 1);
      GrowIndexSet(TableNames(steps), k);
    }
  }

  /** A key holds the table of the last sheet whose name ends in that word. */
  lemma {:induction false} CatalogsLatest(steps: Steps, k: nat, i: nat)
    requires k <= |steps| && Catalogs(steps, k).Success?
    requires i < k && forall h :: i < h < k ==> LastToken(steps[h].0) != LastToken(steps[i].0)
    ensures steps[i].1.Success?
    ensures LastToken(steps[i].0) in Catalogs(steps, k).value
    ensures Catalogs(steps, k).value[LastToken(steps[i].0)] == steps[i].1.value
  {
    if i < k - 1 {
      CatalogsLatest(steps, k - 1, i);
    }
  }

  /** Once a sheet fails, the whole call fails with that sheet's error. */
  lemma {:induction false} CatalogsStayFailed(steps: Steps, k: nat)
    requires k <= |steps| && Catalogs(steps, k).Failure?
    ensures Catalogs(steps, |steps|) == Catalogs(steps, k)
    decreases |steps| - k
  {
    if k < |steps| {
      CatalogsStayFailed(steps, k + 1);
    }
  }

  /** `get_df_cat`, given the catalog workbook as read. */
  method GetDfCat(wb: Workbook) returns (r: Result<map<string, Catalog>, UtilsError>)
    requires AllWide(ReadSheets(wb))
    ensures r == Catalogs(SheetSteps(ReadSheets(wb)), |wb|)
  {
    ghost var steps := SheetSteps(ReadSheets(wb));
    r := Success(map[]);
    var i := 0;
    while i < |wb| && r.Success?
      invariant i <= |wb| == |steps|
      invariant r == Catalogs(steps, if r.Success? then i else |wb|)
    {
      r := Advance(wb, i, r.value);
      i := i + 1;
    }
  }

  /** One pass of the loop: the fold so far, extended by sheet i or stopped by its error. */
  method Advance(wb: Workbook, i: nat, result: map<string, Catalog>) returns (r: Result<map<string, Catalog>, UtilsError>)
    requires i < |wb| && AllWide(ReadSheets(wb))
    requires Catalogs(SheetSteps(ReadSheets(wb)), i) == Success(result)
    ensures r == Catalogs(SheetSteps(ReadSheets(wb)), if r.Success? then i + 1 else |wb|)
  {
    var step := CatalogStep(wb, i);
    CatalogsAdvance(SheetSteps(ReadSheets(wb)), i, result);
    if step.Failure? {
      return Failure(step.error);
    }
    return Success(result[LastToken(wb[i].0) := step.value]);
  }

  /** One step of the fold: a failing step ends it with its error, a succeeding one adds its table. */
  lemma CatalogsAdvance(steps: Steps, i: nat, result: map<string, Catalog>)
    requires i < |steps| && Catalogs(steps, i) == Success(result)
    ensures steps[i].1.Failure? ==> Catalogs(steps, |steps|) == Failure(steps[i].1.error)
    ensures steps[i].1.Success? ==> Catalogs(steps, i + 1) == Success(result[LastToken(steps[i].0) := steps[i].1.value])
  {
    if steps[i].1.Failure? {
      CatalogsStayFailed(steps, i + 1);
    }
  }

  lemma GrowIndexSet<T>(f: seq<T>, k: nat)
    requires 0 < k <= |f|
    ensures (set i | 0 <= i < k :: f[i]) == (set i | 0 <= i < k - 1 :: f[i]) + {f[k - 1]}
  {
    var now, earlier := set i | 0 <= i < k :: f[i], set i | 0 <= i < k - 1 :: f[i];
    forall x | x in now ensures x in earlier + {f[k - 1]} {
      var i :| 0 <= i < k && f[i] == x;
      if i < k - 1 {
        assert x in earlier;
      }
    }
  }

  /** One pass of the loop of `get_df_cat`: read sheet i, then reshape it. */
  method CatalogStep(wb: Workbook, i: nat) returns (step: Result<Catalog, UtilsError>)
    requires i < |wb| && AllWide(ReadSheets(wb))
    ensures SheetSteps(ReadSheets(wb))[i] == (wb[i].0, step)
  {
    var sheet := wb[i].0;
    assert ReadSheets(wb)[i] == (sheet, ExcelFrame(wb, Some(sheet)));
    var df := ExcelToDataframe(wb, Some(sheet));
    if df.Failure? {
      return Failure(ReadFailed(df.error));
    }
    step := CatalogTable(sheet, df.value);
  }
}
