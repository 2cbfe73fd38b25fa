# dataCovid19MX core, modelled in Dafny

This project models the data-loading tool dataCovid19MX. The tool loads the Mexican health ministry's
open COVID-19 case data into SQLite. The model covers its three core files.

- `src/pl_sql.rs`:
  - how polars column types map to SQLite column types;
  - column options and their builders;
  - the `SqliteSchema` column map and the `CREATE TABLE` text it produces;
  - the `SqlWriter` configuration object and its `finish`. `finish` names the table, adds the
    auto-increment index column, reconciles an explicit schema, applies the if-exists policy, renders
    every value as an SQL literal, and writes the rows in batches.
- `src/utils.rs`:
  - the additive code-point hash;
  - the polars and SQLite schemas read from the data dictionary, including the catalog foreign-key
    reference `id_ref`;
  - the country dimension;
  - the case-record normaliser;
  - the catalog workbook reader `get_df_cat`, which produces one table per sheet, keyed by the sheet
    name's last word.
- `src/xlxs_to_pl.rs`: turning a worksheet range into named string columns.

Modules follow the program:

| module | contents |
|---|---|
| `PlSql` | types, column options, column definitions, the `SqliteSchema` class |
| `BulkWriter` | values, batches and statements; an abstract `Database` class; the `SqlWriter` class |
| `XlsxToPl` | `excel_to_dataframe` |
| `Utils` | the `utils.rs` operations |

Four support modules hold what these share:
- `Wrappers`: `Option`, `Result`.
- `Seqs`: stable dedup, flatten.
- `Strings`: joining, decimal text, quote escaping with its parse-back, splitting, Unicode
  whitespace and last token, `zfill`, code-point sums.
- `IndexMaps`: an insertion-ordered map as a sequence of pairs, with `insert` and `extend` as the
  `indexmap` crate defines them.

State is modelled where the source changes it:
- `SqliteSchema` and `SqlWriter` are classes whose methods update fields.
- `finish`, `build_col_def`, `from_polars_schema`, `get_schema_pl`, `get_schema_sql`, `get_df_cat`
  and `excel_to_dataframe` are loop methods. Each is proved equal to a specification function.
- The database is a class holding tables and the log of SQL statements it was sent.

Behaviours of the code worth knowing, which the model keeps:
- `with_primary_key(true)` does not clear a default set earlier.
- The country dimension removes repeated (key, name) rows, not repeated keys.
- `FECHA_ACTUALIZACION` is a nullable TEXT column with no constraint.
- `ID_REGISTRO` is a TEXT primary key, because `default()` has type TEXT.
- `finish` resets `index_label` to `Some("Id")` only when the index is on and no label is preset, and
  to `None` otherwise. So `with_index(true)`, which presets `"Id"`, ends with no index column (`src/pl_sql.rs:255-261`, `287-291`).
- `Int64` and the unsigned integer values have no arm of their own in the renderer. They reach the fallback arm and are written quoted, like every other value kind without an arm.
- The rows are written with `split_chunks_by_n(batch_size)`, which makes `batch_size` parts, not
  parts of `batch_size` rows. After clamping, a frame shorter than the batch goes out one row per
  INSERT, and an empty frame as one INSERT with no tuples. A taller frame goes out in `batch_size` parts of
  height / batch_size rows, with the last part taking the rest: 3071 rows at the default 1024 give
  1023 parts of 2 rows and a last part of 1025.
- A `Decimal` value is written as its unscaled integer, a dot and its scale (1.5 becomes `15.1`).
  This is recorded under Findings; the writer's model uses the decimal's value instead.
- The `MUNICIPIOS` catalog key is the entity's decimal text followed by the municipality cell as read, with no zero padding. The case records zero-pad the municipality to three digits.

## Model

| member | source | states |
|---|---|---|
| PlSql.FromPolarType | src/pl_sql.rs:34-53 | Every polars integer type and Boolean give INTEGER, Float32/64 give REAL, Decimal(p,s) gives NUMERIC with the same p and s, the two binaries give BLOB; every other type, and only those, gives TEXT |
| PlSql.TypeTextDistinguishes | src/pl_sql.rs:18-32 | Two SQLite types display the same text exactly when they agree up to the parts Display drops (a scale without a precision) |
| PlSql.NumericTextInjective | src/pl_sql.rs:25-29 | Equal NUMERIC texts have equal precision and, where shown, equal scale |
| PlSql.TypeTextStart | src/pl_sql.rs:18-32 | Every type's text has at least four characters and its first letter tells the kind apart |
| PlSql.NumericTextShape | src/pl_sql.rs:26-27 | `NUMERIC(p, s)` and `NUMERIC(p)` texts: the precision digits, then `,` or `)`, then the scale |
| PlSql.PrimaryKeyIsNotNull | src/pl_sql.rs:78-124 | Whatever builder calls follow `default()`, a primary-key column is never nullable |
| PlSql.PrimaryKeyFreezes | src/pl_sql.rs:96-116 | After `with_primary_key(true)`: later `with_nullable` calls cannot make the column nullable; a later `with_default` clears the default; without one, the default set before is kept |
| PlSql.BuildColDef | src/pl_sql.rs:125-143 | The pushed-onto definition is the name, the type text, then PRIMARY KEY, UNIQUE, AUTOINCREMENT, DEFAULT and NOT NULL in that order, each exactly when its option is set |
| PlSql.NotNullIffNotNullable | src/pl_sql.rs:139-141 | A definition ends in ` NOT NULL` exactly when the column is not nullable (for any default text that does not itself end so) |
| PlSql.TypeTextEnding | src/pl_sql.rs:18-32 | No type text ends in `LL`, so NOT NULL can only come from the nullable flag |
| PlSql.FromPolarsFieldsShape | src/pl_sql.rs:155-166 | The entries `from_polars_schema` inserts (`InferredEntries`): one per polars field, in field order, with the mapped type and otherwise default options; with distinct field names the inferred schema is exactly those entries |
| PlSql.SqliteSchema.New | src/pl_sql.rs:150-154 | A new schema holds exactly its one column |
| PlSql.SqliteSchema.FromPolarsSchema | src/pl_sql.rs:155-166 | The loop inserts each field in turn; the result is the field-by-field insertion of the inferred options and the keys stay distinct |
| PlSql.SqliteSchema.AddSchema | src/pl_sql.rs:167-171 | The columns become the `extend` of the old map with the other schema's entries; keys stay distinct |
| PlSql.SqliteSchema.WithColumn | src/pl_sql.rs:181-184 | The columns become the `insert` of the pair: a present name keeps its place with the new options, a new name is appended |
| PlSql.SqliteSchema.Finish | src/pl_sql.rs:185-208 | The query is `CREATE TABLE IF NOT EXISTS t (` + one definition per column in map order (`ColumnDefs`, each the `build_col_def` text) then the foreign-key clauses, joined by `,\n    `, + `\n);` |
| PlSql.ForeignKeyClausesExact | src/pl_sql.rs:191-198 | There is exactly one FOREIGN KEY clause per column that has a foreign key, and a text is such a clause exactly when some column produces it |
| IndexMaps.Insert | src/pl_sql.rs:181-184 | `IndexMap::insert`: a present key keeps its position and takes the new value, the other entries stay; a new key is appended |
| IndexMaps.InsertGet | src/pl_sql.rs:181-184 | After insert the key maps to the new value and every other key to what it had; keys stay distinct |
| IndexMaps.ExtendKeys | src/pl_sql.rs:167-171 | The keys after `extend` are the old keys followed by the other map's new keys in first-seen order |
| IndexMaps.ExtendGet | src/pl_sql.rs:167-171 | After `extend` a key maps to the other map's last value for it if it has one, else to its old value |
| IndexMaps.ExtendKeepsPositions | src/pl_sql.rs:167-171 | `extend` never moves an existing key |
| IndexMaps.ExtendDisjoint | src/pl_sql.rs:167-171 | With disjoint keys `extend` is concatenation |
| IndexMaps.ExtendUnique | src/pl_sql.rs:167-171 | `extend` keeps keys distinct |
| BulkWriter.SqlWriter.constructor | src/pl_sql.rs:230-246 | A new writer: no table name, policy Fail, index on, parallel on, batch size 1024, no label, no schema |
| BulkWriter.SqlWriter.WithTable | src/pl_sql.rs:247-250 | Only the table name changes |
| BulkWriter.SqlWriter.IfExistsOption | src/pl_sql.rs:251-254 | Only the policy changes |
| BulkWriter.SqlWriter.WithIndex | src/pl_sql.rs:255-261 | The index flag is set; turning it on also presets the label "Id" |
| BulkWriter.SqlWriter.WithSchema | src/pl_sql.rs:262-265 | Only the stored explicit schema changes |
| BulkWriter.SqlWriter.WithIndexLabel | src/pl_sql.rs:266-270 | The label is set and the index is switched on |
| BulkWriter.SqlWriter.WithBatchSize | src/pl_sql.rs:271-274 | Only the batch size changes |
| BulkWriter.SqlWriter.WithParallel | src/pl_sql.rs:275-278 | Only the parallel flag changes |
| BulkWriter.SqlWriter.Finish | src/pl_sql.rs:279-394 | The label is reset as the source does. The call fails exactly when the statement plan fails, and then sends nothing and changes no table. Otherwise the database received exactly the planned statements in order, the target table holds its old rows (none under Replace or when new) followed by every frame row, no other table changes, and the batch size is clamped |
| BulkWriter.SqlWriter.Run | src/pl_sql.rs:315-391 | Under Fail with the table present nothing is sent and TableExists is returned; otherwise the DDL then one INSERT per chunk is sent and the rows land in the table |
| BulkWriter.IndexLabel | src/pl_sql.rs:287-291 | The label is "Id" exactly when the index is on and no label was preset, else none |
| BulkWriter.IndexCollisionIff | src/pl_sql.rs:292-298 | Planning the columns (`PlannedColumns`) fails exactly when the label is a column of the frame, naming that label |
| BulkWriter.IndexColumnFirst | src/pl_sql.rs:299-305 | The index column (INTEGER AUTOINCREMENT) comes first, followed by the inferred columns in frame order |
| BulkWriter.IndexedUnique | src/pl_sql.rs:286-305 | The planned columns have distinct names |
| BulkWriter.ReconcileKeys | src/pl_sql.rs:307-313 | Reconciling with an explicit schema never adds, drops or moves a column |
| BulkWriter.ReconcileGet | src/pl_sql.rs:307-313 | A column also named by the explicit schema takes its last options there; others keep theirs |
| BulkWriter.ReconcileSame | src/pl_sql.rs:307 | An explicit schema equal to the inferred one (as an IndexMap, order-insensitive) changes nothing |
| BulkWriter.GuardedReconcile | src/pl_sql.rs:307-313 | The guarded update as a whole keeps the keys and gives each column the explicit options where both name it |
| BulkWriter.PlannedWithExplicit | src/pl_sql.rs:286-313 | With an explicit schema, planning succeeds whenever indexing does, keeps the names, and takes the explicit options for shared names |
| BulkWriter.ClampBatch | src/pl_sql.rs:368-371 | A non-empty frame shorter than the batch lowers it to the frame height, an empty frame (shorter than any batch) to 1; a frame at least as tall keeps it; the result never exceeds the batch |
| BulkWriter.Parts | src/pl_sql.rs:372-375 | Given room for m - 1 parts of `size` rows, there are exactly m parts, all but the last of `size` rows, the last with the remaining rows |
| BulkWriter.SplitChunksSizes | src/pl_sql.rs:372-375 | `split_chunks_by_n(n)` (`SplitChunks`) gives n parts: all but the last have height / n rows and the last has height - (n - 1) * (height / n) |
| BulkWriter.SplitChunksCover | src/pl_sql.rs:372-375 | The parts of `split_chunks_by_n` concatenated are the frame's rows, each once, in order |
| BulkWriter.PartsAt | src/pl_sql.rs:372-375 | Part k is the slice of the rows starting at k * size: `size` rows for every part but the last, everything after that offset for the last one |
| BulkWriter.SmallFrameOneRowEach | src/pl_sql.rs:368-375 | A non-empty frame shorter than the batch goes out in one part per row: part k is exactly row k |
| BulkWriter.EmptyFrameOnePart | src/pl_sql.rs:368-375 | An empty frame goes out as exactly one part with no rows |
| BulkWriter.TallFrameParts | src/pl_sql.rs:368-375 | A frame at least as tall as the batch goes out in exactly batch parts; all but the last have height / batch rows (at least one), the last at least that many and fewer than batch more |
| BulkWriter.RenderQuotedRoundTrip | src/pl_sql.rs:353-360 | `RenderValue` of a string, a fallback value or a quoted integer is a literal that the SQL literal reader reads back to its text, whatever follows |
| BulkWriter.RenderBareIntRoundTrip | src/pl_sql.rs:354-357 | `RenderValue` of Int8/16/32/128 is bare decimal text that reads back to the number |
| BulkWriter.StringRowRoundTrip | src/pl_sql.rs:340-366 | A row of strings renders as a comma-separated tuple body that parses back to exactly those strings |
| BulkWriter.DecimalAsWrittenParts | src/pl_sql.rs:359 | As the source writes a decimal, the text before the dot reads back to the unscaled integer and the text after it to the scale |
| BulkWriter.DecimalAsWrittenMisreads | src/pl_sql.rs:359 | 1.5, stored as (15, 1), is written `15.1` as the source stands; the corrected arm writes `1.5` |
| BulkWriter.DecimalTextValue | src/pl_sql.rs:359 | The corrected decimal text reads back to its value: a `-` exactly for a negative value, integer digits, a dot, exactly scale fraction digits, and integer part * 10^scale + fraction is the unscaled magnitude |
| BulkWriter.DecimalWholeIsInt | src/pl_sql.rs:359 | At scale 0 the corrected decimal text is the integer's `Display` text |
| BulkWriter.TuplesInRowOrder | src/pl_sql.rs:372-389 | Across all the INSERT statements the tuples (one `TupleText` per row) appear once each, in the frame's row order |
| BulkWriter.ChunkTuplesFlatten | src/pl_sql.rs:376-383 | The tuples of each part, concatenated, are the tuples of all the parts' rows concatenated |
| BulkWriter.TablesAfter | src/pl_sql.rs:315-391 | After a write the target table holds its previous rows, or none under Replace or when new, followed by the frame's rows; every other table is unchanged and none is added |
| BulkWriter.FailsBeforeAnySql | src/pl_sql.rs:292-337 | The statement plan (`Statements`) fails exactly on an index-name collision or, under Fail, on an existing table; a collision is reported first |
| BulkWriter.PresenceOnlyMattersUnderFail | src/pl_sql.rs:315-338 | Under Replace and Append whether the table exists does not change the statements |
| BulkWriter.StatementOrder | src/pl_sql.rs:314-391 | A successful plan (`Statements`) is DROP then CREATE under Replace, CREATE alone otherwise, then one INSERT per part of `split_chunks_by_n`, naming the table and the frame's columns |
| BulkWriter.DropOnlyFirst | src/pl_sql.rs:315-339 | A planned statement is the DROP only under Replace, and then only as the first statement |
| BulkWriter.Prepare | src/pl_sql.rs:315-339 | Fail with the table present returns TableExists and sends nothing; Replace drops then creates; Append and Fail create only |
| BulkWriter.ChunkInsert | src/pl_sql.rs:376-389 | The statement for one chunk is its INSERT text |
| BulkWriter.PlanTable | src/pl_sql.rs:286-313 | The schema built succeeds or fails with the plan and holds exactly the planned columns |
| BulkWriter.ApplyExplicit | src/pl_sql.rs:308-312 | The loop over the explicit schema leaves the reconciled columns |
| BulkWriter.WriteChunks | src/pl_sql.rs:372-391 | Each chunk's rows are appended to the table and its INSERT logged, in order |
| BulkWriter.InsertFrame | src/pl_sql.rs:372-391 | All rows land in the table, in order, with one INSERT per chunk |
| BulkWriter.Database.constructor | src/pl_sql.rs:230-236 | A connection starts with the given tables and an empty log |
| BulkWriter.Database.HasTable | src/pl_sql.rs:329-334 | The `sqlite_master` lookup answers whether the table exists |
| BulkWriter.Database.DropTable | src/pl_sql.rs:317-322 | `DROP TABLE IF EXISTS` removes the table and is logged |
| BulkWriter.Database.CreateTable | src/pl_sql.rs:339 | `CREATE TABLE IF NOT EXISTS` adds an empty table only when absent and is logged |
| BulkWriter.Database.InsertRows | src/pl_sql.rs:390 | An INSERT appends the rows and is logged |
| Utils.Hash | src/utils.rs:51-60 | The hash is below 1 000 000 009 |
| Utils.HashIsCodeSum | src/utils.rs:51-60 | Reducing at each step equals reducing the code-point sum once |
| Utils.HashIgnoresOrder | src/utils.rs:51-60 | Swapping two parts of a text gives the same hash |
| Utils.SimpleHash | src/utils.rs:51-60 | The loop computes the hash; the empty text hashes to 0 |
| Utils.HashValue | src/utils.rs:61-71 | Nulls stay null, other texts become their hash |
| Utils.HashColumn | src/utils.rs:61-71 | Applied cellwise: same length, nulls at the same places, every other cell hashed |
| Utils.FindColumn | src/utils.rs:117-118 | `df.column(name)` finds the first column with that name, or nothing exactly when none has it |
| Utils.Descriptors | src/utils.rs:116-120 | Fails with the NOMBRE DE VARIABLE error when that column is missing, else with the FORMATO O FUENTE error when that one is; otherwise the pairs of the two columns' cells, up to the shorter column |
| Utils.PlType | src/utils.rs:123-127 | UInt64 exactly for a format naming a catalog (either accent spelling), else String |
| Utils.PlSchemaLastRow | src/utils.rs:120-128 | In the polars schema (`PlSchema`) a variable takes the type of its last row |
| Utils.PlSchemaDistinct | src/utils.rs:120-128 | With distinct variable names the polars schema (`PlSchema`) is one field per row in row order, with the type its format gives |
| Utils.GetSchemaPl | src/utils.rs:115-131 | Fails exactly when a needed column is missing, with that error; else the schema built row by row, with distinct names |
| Utils.IdRefShape | src/utils.rs:146-151 | The reference contains no `:` and no space; it is the text after the first `:` with colons and spaces removed, empty without a `:` |
| Utils.SqlOption | src/utils.rs:152-164 | A catalog format gives an INTEGER with a foreign key to that catalog's CLAVE; any other a TEXT without one; both nullable, no key, no default |
| Utils.SchemaBodyShape | src/utils.rs:137-165 | The schema starts with FECHA_ACTUALIZACION, and each dictionary variable after the first two rows has the options of its last row |
| Utils.SqlSchemaShape | src/utils.rs:137-175 | The SQLite schema (`SqlSchema`) has distinct names, starts with FECHA_ACTUALIZACION, ends up with EDAD as INTEGER and ID_REGISTRO as the primary key, and everything else is as the dictionary says |
| Utils.FixedColumnOptions | src/utils.rs:166-174 | ID_REGISTRO is a NOT NULL TEXT primary key, EDAD a nullable INTEGER, FECHA_ACTUALIZACION a nullable TEXT |
| Utils.GetSchemaSql | src/utils.rs:133-176 | Fails exactly when a needed column is missing, with that error; else a valid schema equal to the specification above |
| Utils.AddDescriptors | src/utils.rs:139-165 | The loop body's `with_column` calls amount to extending by the dictionary columns |
| Utils.Substitute | src/utils.rs:180-189 | The sentinel is replaced, every other value (null included) kept |
| Utils.DimensionShape | src/utils.rs:177-194 | In the country dimension (`CountryDimension`) every row's key is the hash of its name, rows are distinct, and a name appears exactly when it is some record's substituted nationality or origin |
| Utils.CastUnsigned | src/utils.rs:204-211 | A non-strict `u64` cast: a value only for decimal text within range, and then its number |
| Utils.MunicipalityKeyPacks | src/utils.rs:200-212 | `MunicipalityKey` of entity e and municipality m below 1000 is e*1000+m, from which both are recovered |
| Utils.DeathDate | src/utils.rs:225-228 | The 9999-99-99 placeholder becomes null; other values are kept |
| Utils.CleanCase | src/utils.rs:198-229 | A cleaned record keeps the entity and untouched columns and replaces both countries by the hashes of their substituted names |
| Utils.CleanKeysInDimension | src/utils.rs:177-229 | The country keys of every record `clean_data_covid` (`CleanDataCovid`) produces are rows of the country dimension |
| Utils.CastValue | src/utils.rs:87 | A cell becomes a `u64` exactly when its text is one, else null |
| Utils.KeyValues | src/utils.rs:94-96 | The MUNICIPIOS key column is as long as the shorter source column |
| Utils.CatalogTable | src/utils.rs:84-111 | A sheet's table fails exactly when its column names repeat; otherwise it is the reshaped sheet |
| Utils.FirstColumnCast | src/utils.rs:84-104 | In the reshaped sheet (`Reshaped`) every sheet except MUNICIPIOS starts with its first column cast to `u64`, renamed CLAVE for ENTIDADES |
| Utils.EntitiesRenamed | src/utils.rs:84-88 | Reshaping ENTIDADES (`Reshaped`) turns CLAVE_ENTIDAD into CLAVE; no other column changes |
| Utils.LabResultTwoColumns | src/utils.rs:105-108 | Reshaping RESULTADO_LAB (`Reshaped`) keeps only its first two columns |
| Utils.MunicipalitiesKeyed | src/utils.rs:89-99 | Reshaping MUNICIPIOS (`Reshaped`) adds a leading CLAVE column: cast entity text concatenated with the municipality cell, cast to `u64` |
| Utils.CatalogKeyMatchesCaseKey | src/utils.rs:89-99 | For a zero-padded municipality cell the catalog key equals the case-record key e*1000+m |
| Utils.SheetCatalog | src/utils.rs:78-111 | A sheet that fails to read fails with that error; else its table |
| Utils.CatalogsKeyed | src/utils.rs:75-113 | On success the map's keys are exactly the last whitespace-separated words of the sheet names |
| Utils.CatalogsLatest | src/utils.rs:110-111 | A key holds the table of the last sheet ending in that word |
| Utils.CatalogsStayFailed | src/utils.rs:77-112 | The first failing sheet's error is the call's error |
| Utils.GetDfCat | src/utils.rs:72-114 | The loop computes the specification fold over all sheets |
| Utils.Advance | src/utils.rs:77-112 | One loop step extends the fold or stops it with the sheet's error |
| Utils.CatalogStep | src/utils.rs:77-111 | One step reads the sheet, then reshapes it |
| Strings.LastTokenShape | src/utils.rs:110 | The last word has no whitespace, is empty exactly for an all-whitespace name, and occurs as a word of the name |
| Strings.QuoteRoundTrip | src/pl_sql.rs:353 | Escaping quotes and wrapping in quotes reads back to the text |
| Strings.SplitOn | src/utils.rs:148 | `split(":")` gives at least one segment |
| Strings.ConcatAfterFirstSegment | src/utils.rs:148-150 | The segments after the first, concatenated, are the text after the first `:` without colons |
| Strings.ZFill | src/utils.rs:206 | `zfill(3)` pads with leading zeros to at least the width and keeps the text at the end |
| Strings.ParseZeroPadded | src/utils.rs:200-211 | Leading zeros do not change the parsed number |
| Strings.ParseIntText | src/pl_sql.rs:354-357 | An integer's decimal text parses back to it |
| Strings.NatTextInjective | src/pl_sql.rs:25-29 | Distinct numbers have distinct decimal texts |
| Seqs.DedupFirstSeenOrder | src/utils.rs:183 | `unique_stable` keeps the first occurrence of each value and their order |
| Seqs.DedupNoDup | src/utils.rs:193 | A deduplicated sequence has no repeats |
| Seqs.DedupElems | src/utils.rs:193 | Deduplication keeps exactly the same values |
| XlsxToPl.FindSheet | src/xlxs_to_pl.rs:14 | `worksheet_range` finds the first sheet of that name, or nothing exactly when none has it |
| XlsxToPl.RepeatedName | src/xlxs_to_pl.rs:56 | The name reported occurs at two distinct positions |
| XlsxToPl.RepeatMeansDuplicate | src/xlxs_to_pl.rs:56 | The frame's name check fails exactly when the names are not distinct |
| XlsxToPl.TransposeReadsBack | src/xlxs_to_pl.rs:37-53 | The columns of a range (`Transpose`) carry the header names, are as long as the data, and row j read back across them is data row j padded with "" or cut to the header's width |
| XlsxToPl.EmptyHeaderNoColumns | src/xlxs_to_pl.rs:20-53 | An empty range or header gives no columns |
| XlsxToPl.ExcelToDataframe | src/xlxs_to_pl.rs:8-59 | The result is `ExcelFrame`: it fails exactly when the sheet is missing or the header repeats a name; otherwise one column per header cell, named by it, with cell i of every data row, or "" where the row is short. The sheet read (`SheetChoice`) is the one named, else the first |
| XlsxToPl.SplitRows | src/xlxs_to_pl.rs:20-34 | The first row is the header; the rest are the data rows |
| XlsxToPl.BuildColumns | src/xlxs_to_pl.rs:37-53 | One column per header cell with that position of each row |
| XlsxToPl.Fitted | src/xlxs_to_pl.rs:42-48 | A data row fitted to the header width |

## Left out

- The SQLite connection, `tokio` runtime and `sqlx` calls: the database is a class recording its
  tables and the statements sent to it. Its success or failure beyond the if-exists check (SQL
  errors, connection errors) is not modelled.
- An empty frame is still written as one INSERT with no tuples (`INSERT INTO t (...) VALUES `), as
  `split_chunks_by_n` gives one empty part; SQLite would reject that text, and the store does not
  model SQL errors, so the model's store appends no rows and logs the statement.
- Polars cast internals: casts are non-strict; a text that is not a `u64` becomes null.
- Float values and the fallback arm: `f64::to_string` and the `to_string` of the other value kinds
  are carried as the text they give; Rust's float formatting is not modelled.
- `BulkWriter.RenderValue`: the `Decimal` arm uses the corrected text (see Findings), not the
  unscaled-integer-dot-scale text the source writes; `BulkWriter.DecimalAsWritten` models the latter.
- Opening files: `open_workbook`, the `ExcelReader` wrapper and calamine's cell `to_string` are left
  out; workbooks and the dictionary are given as already-read grids of text.
- `SqlWriter.parallel`: stored by the builder but never read, as in the source.
- `XlsxToPl.ExcelToDataframe`: with no sheet named and a workbook without sheets the source panics at
  `sheet_names()[0]`; the model (here and in `XlsxToPl.SheetChoice` and `XlsxToPl.ExcelFrame`)
  requires a sheet name or at least one sheet instead.
- `Utils.GetDfCat`: a sheet with fewer than two columns makes the source panic at
  `get_column_names()[1]`; the model requires every sheet to have two columns instead.
- `Strings.ZFill`: sign handling of polars `zfill` is not modelled, because the input is an unsigned
  municipality number.
- `XlsxToPl.RepeatedName`: polars' duplicate-name error names one repeated column; the model reports
  some repeated name, not necessarily the one polars picks.
- `Utils.CountryDimension`: the output column names are fixed parameters in the source; the model
  returns (key, name) pairs without them.
- Hash collisions: `simple_hash` can map two names to one key; the model states no injectivity.
- `SqliteSchema::iter_fields`/`iter_columns`/`iter_types`: plain iterators over the map, read
  directly as the `columns` sequence.
- `download.rs`, `unzip.rs`, `main.rs`, `trim_cols`, `is_dir_empty`, `to_str` and the tests: file
  download, archive extraction and the command-line driver are not part of this model.

## Findings

| source | as written | input that shows it | evidently intended | confidence | as-written member | corrected member |
|---|---|---|---|---|---|---|
| src/pl_sql.rs:359 | `AnyValue::Decimal(i, d)` is written `format!("{}.{}", i, d)`: the unscaled integer, a dot, then the scale | the decimal 1.5, held as unscaled 15 at scale 1, is written `15.1` | the decimal's value, `1.5` | not executed; high, since polars stores a decimal as (unscaled, scale) | BulkWriter.DecimalAsWrittenMisreads | BulkWriter.DecimalTextValue |
