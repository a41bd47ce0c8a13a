# omop-etl rule compiler, modelled in Dafny

omop-etl turns YAML rule files into a PostgreSQL script that fills OMOP tables. This project
models the compiler's core:

- the SQL syntax tree and its text renderers (`omop_etl/generation.py`);
- the rule model and its translation to statements (`omop_etl/schema.py`). This covers
  temporary tables, table references, the primary key with its mapping table and constraints,
  constant and target columns, and the column validators of a target table;
- the environment dict that those translations thread and update in place;
- the one-file `compile` command (`omop_etl/__main__.py`). It translates the dependency rules,
  merges their environments into each table's, initialises every table, then translates every
  table's columns;
- the API's check of required columns (`omop_etl/api.py`).

Layout:

| file | module | contents |
|---|---|---|
| `wrappers.dfy` | `Wrappers` | `Option` and `Result` |
| `strings.dfy` | `Strings` | `str.join`, `str(int)`, the regex class `\w` |
| `generation.dfy` | `Generation` | the statement datatypes, `to_sql` as functions, dataclass equality |
| `environment.dfy` | `Environment` | the environment dict as class `Env` and its contents as value `EnvState` |
| `rules.dfy` | `Rules` | the rule datatypes, the pure translations, the validators, and specification functions for the steps that update the environment |
| `translate.dfy` | `Translate` | the in-place steps as methods that take an `Env` object and update it, each proved equal to its specification function |
| `compile.dfy` | `Compile` | the environment merge loop and the one-file script |
| `api.dfy` | `Api` | `check_columns` and `table_warnings` |

Pure code (renderers, validators, column translation) is written as functions. Code that
updates the environment dict in place (temporary tables, `update_environment`, the
translation of a table, and the `compile` loops) is written as module-level methods of
`Translate` and `Compile` that take an `Env` object and modify it.
Each such method is proved against a function of the old environment. Dicts that keep
insertion order are sequences of `(key, value)` pairs with distinct keys.

## Model

| member | source | states |
|---|---|---|
| Strings.Join | omop_etl/generation.py:23 | `sep.join(parts)`: the empty join is `""` and a single part is itself |
| Strings.JoinContainsPart | omop_etl/schema.py:410 | every part of a join occurs as a contiguous piece of the joined text |
| Strings.IntToString | omop_etl/schema.py:124 | `str(int)`: a canonical integer text (no leading zero, no `-0`) that denotes exactly the given number; only digits and a leading `-`, which is present exactly for negative numbers |
| Strings.NatToString | omop_etl/schema.py:124 | `str(n)` for `n >= 0`: non-empty decimal digits without a leading zero that denote `n` |
| Strings.IntToStringInjective | omop_etl/schema.py:124 | different numbers are written as different texts |
| Strings.NatToStringCanonical | omop_etl/schema.py:124 | digits without a leading zero are exactly `str` of the number they denote |
| Strings.IntToStringCanonical | omop_etl/schema.py:124 | every canonical integer text is `str` of its value, so `str(int)` is the only canonical text of a number |
| Strings.JoinEnds | omop_etl/generation.py:23 | a join of a non-empty list begins with its first part and ends with its last |
| Generation.ExpressionToSql | omop_etl/generation.py:12-14 | `Expression.to_sql`: same length; every newline becomes a space and every other character is kept |
| Generation.ExpressionToSqlNormalises | omop_etl/generation.py:12-14 | the result has no newline; rendering twice equals rendering once; text without a newline is unchanged |
| Generation.Parenthesized | omop_etl/generation.py:23 | each criterion fragment wrapped in parentheses, in list order |
| Generation.CriterionToSql | omop_etl/generation.py:21-23 | `Criterion.to_sql` is empty exactly when the criterion has no fragments |
| Generation.CriterionToSqlEnds | omop_etl/generation.py:21-23 | a non-empty criterion's text begins with its first fragment in parentheses and ends with its last |
| Generation.CriterionEquals | omop_etl/generation.py:25-26 | `Criterion.__eq__`: two criteria are equal iff every fragment of each occurs in the other |
| Generation.CriterionToSqlOrder | omop_etl/generation.py:21-23 | a one-fragment criterion renders `(e)`; appending a fragment appends ` and (e)` |
| Generation.CriterionToSqlConcat | omop_etl/generation.py:21-23 | two non-empty criteria rendered back to back, joined by ` and `, render their concatenation |
| Generation.CriterionEqualsIgnoresOrder | omop_etl/generation.py:25-26 | `Criterion.__eq__` compares fragment sets: a permutation or a repeated fragment is still equal |
| Generation.CriterionEqualityIsNotTextual | omop_etl/generation.py:21-26 | `[a, b]` equals `[b, a]`, yet the two render as different SQL |
| Generation.TableToSqlShape | omop_etl/generation.py:34-38 | a table without a schema renders as its alias and one with a schema as `schema.alias` |
| Generation.TablesToSql | omop_etl/generation.py:124 | every table of a FROM list is rendered in order |
| Generation.SelectWhereClause | omop_etl/generation.py:122-129 | a select ends in `;`; a criterion adds exactly ` where <criterion>` before it |
| Generation.SelectText | omop_etl/generation.py:122-129 | every select's text begins with `select ` and ends with `;` |
| Generation.SelectOneText | omop_etl/generation.py:122-126 | one expression from one table with no criterion renders as `select e from T;` |
| Generation.UpdateClauses | omop_etl/generation.py:165-184 | the update text is `update T set c = e`, then ` from ...` iff there are source tables, then ` where ...` iff there is a criterion, then `;` |
| Generation.UpdateText | omop_etl/generation.py:165-184 | every update's text begins with `update T set c = ` and ends with `;` |
| Generation.PlainUpdateText | omop_etl/generation.py:165-184 | an update with neither source tables nor a criterion renders as `update T set c = e;` |
| Generation.JoinClauses | omop_etl/generation.py:183 | joining the head clause and up to two optional clauses with spaces |
| Generation.InsertEmbedsSelect | omop_etl/generation.py:144-148 | an INSERT is `insert into T (cols) ` followed by the select text unchanged; its last character is `;` |
| Generation.CreateTableIgnoresPrimaryKey | omop_etl/generation.py:96-98 | the primary-key name never reaches the CREATE TABLE text; no columns leave a trailing `, ` |
| Generation.CreateTableExample | omop_etl/generation.py:96-98 | the concrete text of a mapping table with one integer source column |
| Generation.StatementKeyword | omop_etl/generation.py:76-184 | every statement's text begins with its SQL keyword (`drop table if exists`, `create table`, `create temp table`, `select`, `insert into`, `update`) and ends with `;`; a script is its text verbatim |
| Generation.StatementEquals | omop_etl/generation.py:25-26 | dataclass equality with set-wise criteria: identical statements are equal; a statement without a criterion is equal only to an identical one; equal statements are of the same kind |
| Generation.StatementEqualsIsEquivalence | omop_etl/generation.py:25-26 | dataclass equality with set-wise criteria is reflexive, symmetric and transitive; reordering an update's criterion keeps it equal |
| Environment.Env.constructor | omop_etl/schema.py:16 | a new environment dict holds exactly the given contents |
| Rules.FirstDot | omop_etl/schema.py:88 | the index of the first `.`, or the length when there is none |
| Rules.ParseTableReference | omop_etl/schema.py:80-90 | `from_str`: a result has word-character parts and renders back to the input; no result means neither `\w+` nor `\w+.\w+` matches |
| Rules.ParseTableReferenceRoundTrip | omop_etl/schema.py:80-90 | parsing the rendering of a reference with word parts gives the reference back |
| Rules.TranslateReference | omop_etl/schema.py:92-102 | a temporary table has no schema; otherwise an explicit schema wins over the default one |
| Rules.TranslateSource | omop_etl/schema.py:64-65 | a source translates to exactly one table with the source's alias; a query becomes a query table |
| Rules.SourceTables | omop_etl/schema.py:219 | the FROM list holds the tables of the column's sources, in order |
| Rules.ConstantLiteral | omop_etl/schema.py:121-124 | a text constant is wrapped in single quotes; an integer is written bare, as the quote-free canonical text (no padding zeros) that denotes exactly that integer |
| Rules.ConstantColumnStatements | omop_etl/schema.py:113-125 | a disabled constant column yields nothing; an enabled one yields one update of `omop.T.name` to the literal, with no FROM and no WHERE |
| Rules.ConstantColumnText | omop_etl/schema.py:113-125 | the text of a constant column's update |
| Rules.PkSourceInsert | omop_etl/schema.py:139-157 | an INSERT into `mapping.T` of `alias_c` from `alias.c as alias_c`, per column in order; it has a WHERE exactly when the source has constraints |
| Rules.QualifiedSourceName | omop_etl/schema.py:287-298 | a query or a temporary table is named by its alias; any other table by `schema.alias`, with the default schema filling a missing one and `None` when neither is set |
| Rules.QualifiedNameMatchesFrom | omop_etl/schema.py:283-298 | with a known schema, a source's name in the constraints is the name its FROM entry is referred by |
| Rules.QualifiedNameWithoutSchema | omop_etl/schema.py:293-296 | with no schema anywhere, the constraint names `None.alias` while the FROM entry is the bare alias |
| Rules.SourceCriterion | omop_etl/schema.py:283-307 | a source's constraint is `omop.T.key = M.id`, then for each source column `c`, in order, `N.c = M.alias_c`, where `N` is the source's qualified name and `M` the mapping table |
| Rules.SourceCriterionJoinsInsertedColumns | omop_etl/schema.py:295-306 | with a known schema, condition `1 + i` equates source column `i`, named as its FROM entry is, with the mapping column that the source's insert fills |
| Rules.PkConstraints | omop_etl/schema.py:282-309 | the constraints dict has exactly the source tags as keys |
| Rules.PkConstraintsSpec | omop_etl/schema.py:283-307 | each source tag maps to that source's criterion |
| Rules.PkConstraintsAt | omop_etl/schema.py:283-307 | the entry for source `i`'s tag is that source's criterion, since no later source reuses the tag |
| Rules.PkConstraintsJoinMapping | omop_etl/schema.py:284-286 | every constraint starts with the join of the key column to the mapping id |
| Rules.SourceDefinitions | omop_etl/schema.py:264-267 | a source contributes `alias_c` of the declared type, per column in order |
| Rules.MappingColumnsConcat | omop_etl/schema.py:264-267 | the mapping columns of two runs of sources are the two lists concatenated |
| Rules.MappingColumnsOfSource | omop_etl/schema.py:264-267 | source `i`'s columns sit between those of the sources before and after it |
| Rules.MappingColumnsSingle | omop_etl/schema.py:264-267 | a single source contributes exactly its own definitions |
| Rules.MappingTableStatements | omop_etl/schema.py:269-275 | two statements when tables are dropped first, one otherwise |
| Rules.MappingTableText | omop_etl/schema.py:269-275 | the texts `drop table if exists mapping.T;` (when dropping) and `create table mapping.T (id serial PRIMARY KEY, <definitions>);` |
| Rules.PkSourceInserts | omop_etl/schema.py:317-319 | one insert per source, in source order |
| Rules.PrimaryKeyStatementsOrder | omop_etl/schema.py:312-329 | an optional DROP, the CREATE, one insert per source, then the insert of the target rows from the mapping table |
| Rules.TargetRowsInsertText | omop_etl/schema.py:320-328 | the last key statement's text is `insert into omop.T (key) select E from mapping.T;`, where `E` is the rendered expression `mapping.T.id` |
| Rules.ReferenceTarget | omop_etl/schema.py:226-233 | a single key joins through its table and column; a dict uses its first entry and column `table_column`; an empty dict fails |
| Rules.TargetColumnStatements | omop_etl/schema.py:207-245 | disabled iff no statements; fails iff the key tag is unknown or the references dict is empty; otherwise one update with the mapping table, the sources and the reference in FROM, and the key constraint, own constraints and reference checks in WHERE |
| Rules.TargetColumnUpdate | omop_etl/schema.py:217-245 | for an enabled column with a known tag: fails iff the references dict is empty, otherwise builds the update `UpdatesTargetColumn` describes |
| Rules.UpdatesTargetColumnText | omop_etl/schema.py:241-244 | a target column's update text begins with `update omop.T set name = ` and ends with `;` |
| Rules.Disable | omop_etl/schema.py:170-179 | a disabled column is not enabled |
| Rules.ColumnStatements | omop_etl/schema.py:474-478 | an enabled column yields one statement and any other none |
| Rules.ThenAssociative | omop_etl/schema.py:475-478 | sequencing column steps is associative |
| Rules.EnabledCountConcat | omop_etl/schema.py:475-478 | counting enabled columns is additive |
| Rules.ColumnPhaseConcat | omop_etl/schema.py:475-478 | translating a split column list is translating both halves in order |
| Rules.ColumnPhaseAround | omop_etl/schema.py:475-478 | the column part is the part before column `i`, then column `i`, then the part after |
| Rules.ColumnPhaseCount | omop_etl/schema.py:475-478 | a successful column part has one statement per enabled column |
| Rules.DisablingColumnRemovesItsStatement | omop_etl/schema.py:474-478 | disabling one enabled column removes exactly its statement and keeps the rest in order; enabling it again restores it |
| Rules.ThenDropsMiddle | omop_etl/schema.py:475-478 | replacing a one-statement middle step with an empty step drops exactly that statement |
| Rules.ColumnPhaseOk | omop_etl/schema.py:475-478 | the column part succeeds iff every column does |
| Rules.ColumnPhaseOkAt | omop_etl/schema.py:475-478 | a successful column part means every single column succeeded |
| Rules.ColumnPhaseAllOk | omop_etl/schema.py:475-478 | when every column succeeds, the column part succeeds |
| Rules.DefaultPrimaryKey | omop_etl/schema.py:393-401 | an explicit tag is kept; with no tag, the only source's tag is used, and there is none with zero or several sources |
| Rules.QuotedKeys | omop_etl/schema.py:410 | each source tag is wrapped in double quotes, in order |
| Rules.UnknownPrimaryKeyMessageNamesKeys | omop_etl/schema.py:410-413 | the message names the bad tag in single quotes and every defined tag in double quotes |
| Rules.ValidateColumn | omop_etl/schema.py:393-414 | a record with `enabled: false` becomes a disabled column; fails iff a target column has no tag to default to, an enabled one names an undefined tag, or a disabled column is enabled; otherwise keeps every field |
| Rules.ValidateColumns | omop_etl/schema.py:393-414 | the list is valid iff every column is; the errors are exactly the failing columns, by position |
| Rules.ValidatedColumnsTranslate | omop_etl/schema.py:403-414 | validated columns never fail with an unknown key once the constraints are in the environment |
| Rules.TempTableStatements | omop_etl/schema.py:68-73 | one CREATE TEMP TABLE per query, in order |
| Rules.ScriptStatements | omop_etl/schema.py:352-354 | each script is a statement of its own, in order |
| Rules.PreInitContents | omop_etl/schema.py:349-359 | one script statement per script, then one CREATE TEMP TABLE per pre-init query, in order; only `TempTables` changes, and it gains exactly the pre-init aliases |
| Rules.PostInitContents | omop_etl/schema.py:361-368 | one CREATE TEMP TABLE per post-init query, in order; only `TempTables` changes, and it gains exactly the post-init aliases |
| Rules.InitializationEnv | omop_etl/schema.py:449-461 | initialisation keeps target, mapping, schema and drop flag; it registers every temp table; the constraints are built after pre-init and before post-init |
| Rules.InitializationOrder | omop_etl/schema.py:449-461 | the scripts, then the pre-init tables, then the key statements (optional drop, create, one insert per source, target rows), then the post-init tables |
| Rules.TableSpec | omop_etl/schema.py:463-479 | only the column part can fail; with initialisation, the final environment is the one initialisation left |
| Rules.ValidatedTableTranslates | omop_etl/schema.py:393-479 | a validated table with non-empty references translates in full without failure |
| Translate.OrDefault | omop_etl/schema.py:350 | `env or default_env`: the given environment, else a fresh default one |
| Translate.TranslateTempTable | omop_etl/schema.py:68-73 | one CREATE TEMP TABLE; the alias is added to `TempTables` in place |
| Translate.TranslateTempTables | omop_etl/schema.py:355-358 | the statements of all queries in order; all aliases registered in place |
| Translate.TranslatePreInit | omop_etl/schema.py:349-359 | scripts first, then pre-init tables; the statements and new environment are those of `PreInitSpec` |
| Translate.TranslatePostInit | omop_etl/schema.py:361-368 | the post-init tables; the statements and new environment are those of `PostInitSpec` |
| Translate.TranslateDependency | omop_etl/schema.py:370-375 | pre-init then post-init in one environment, equal to `DependencySpec` |
| Translate.UpdateEnvironment | omop_etl/schema.py:277-310 | the loop sets `PrimaryKeyConstraints` to the per-source criteria and changes nothing else |
| Translate.CreateMappingTable | omop_etl/schema.py:261-275 | the nested loop yields the optional DROP and the CREATE with every source's columns |
| Translate.TranslatePrimaryKey | omop_etl/schema.py:312-329 | the environment update, then the mapping table and inserts, equal to `PrimaryKeySpec` |
| Translate.TranslateInitialization | omop_etl/schema.py:449-461 | pre-init, primary key, post-init in one environment, equal to `InitializationSpec` |
| Translate.TranslateColumns | omop_etl/schema.py:475-478 | the column loop yields the column part and stops at the first failing column |
| Translate.TranslateTable | omop_etl/schema.py:463-479 | statements, failure and final environment agree with `TableSpec` |
| Translate.ColumnPhaseStopsAt | omop_etl/schema.py:475-478 | a column that fails after successful ones is the failure of the whole part |
| Translate.RenderStatementsConcat | omop_etl/schema.py:441-442 | the text of two runs of statements is the two texts on consecutive lines |
| Translate.RenderStatementsContains | omop_etl/schema.py:441-442 | every statement's text occurs in the rendered script |
| Translate.TableScript | omop_etl/schema.py:430-442 | `get_script` is the rendering of `TableSpec`'s statements, one per line, and fails exactly when it fails |
| Translate.TableInitialization | omop_etl/schema.py:444-447 | `get_initialization` renders the initialisation statements and returns the updated environment |
| Compile.MergeSpec | omop_etl/__main__.py:71-80 | merging keeps target, mapping, constraints and drop flag, and only adds temporary tables |
| Compile.MergeTempTables | omop_etl/__main__.py:73-80 | a table is registered iff it was already, or some compiled dependency registered it |
| Compile.MergeSchemaKept | omop_etl/__main__.py:73-76 | with no dependency that has a schema, the table keeps its own |
| Compile.MergeSchemaLastWins | omop_etl/__main__.py:73-76 | the last compiled dependency with a schema decides it |
| Compile.MergeDependencies | omop_etl/__main__.py:71-80 | the in-place loop leaves the environment `MergeSpec` describes |
| Compile.TableStartEnv | omop_etl/__main__.py:69-70 | a table starts with its own target and mapping names, the drop flag and no constraints |
| Compile.TableInitReady | omop_etl/__main__.py:81 | initialisation leaves every key the columns read |
| Compile.LinesStopAt | omop_etl/__main__.py:85-88 | the first failing table stops the column part |
| Compile.LinesOk | omop_etl/__main__.py:85-88 | the column part succeeds iff every table's does |
| Compile.ProcessTextOk | omop_etl/__main__.py:85-88 | the compile fails exactly when the columns of some table fail |
| Compile.CompileDependencies | omop_etl/__main__.py:59-65 | the dependency text and the recorded environments, keyed by file name, with the last one winning |
| Compile.DependencyEnvsKeys | omop_etl/__main__.py:59-65 | a file name has a recorded environment iff some dependency has that name |
| Compile.DependencyEnvsLastWins | omop_etl/__main__.py:59-65 | for the last dependency with a given name, the recorded environment is the one its own translation left |
| Compile.InitializeTable | omop_etl/__main__.py:69-83 | one table: a fresh default environment, the flag, the merge, then initialisation |
| Compile.InitializeAt | omop_etl/__main__.py:81-83 | pass `i` of the table loop yields table `i`'s initialisation |
| Compile.InitializeTables | omop_etl/__main__.py:67-83 | every table's initialisation text in order; one fresh, distinct environment per table |
| Compile.Inits | omop_etl/__main__.py:67-83 | the initialisations of the tables, in order |
| Compile.InitTextOf | omop_etl/__main__.py:81-83 | the loop's text is the initialisation part of the script |
| Compile.ProcessTextOf | omop_etl/__main__.py:85-88 | the environments the loop kept are ready for the columns and give the column part |
| Compile.ProcessTable | omop_etl/__main__.py:86-88 | one table's script without initialisation is its column part |
| Compile.ProcessTables | omop_etl/__main__.py:85-88 | each table's column text on its own line, in order; the first failure stops the loop |
| Compile.CompileTables | omop_etl/__main__.py:67-88 | the tables' text is every initialisation followed by every column part, and fails exactly when the column part does, with its error |
| Compile.CompileOneFile | omop_etl/__main__.py:51-88 | the one-file script is the dependency text, then every initialisation, then every column part |
| Api.LowerChar | omop_etl/schema.py:49 | ASCII upper-case letters become lower case; every other character is kept |
| Api.Lower | omop_etl/schema.py:49 | `str.lower` character by character, same length |
| Api.LowerIdempotent | omop_etl/schema.py:49 | lower-casing twice equals lower-casing once |
| Api.RequiredFields | omop_etl/schema.py:48-49 | the columns of exactly the rows whose table is the lower-cased name |
| Api.RequiredFieldsIgnoresCase | omop_etl/schema.py:48-49 | the case of the table name does not matter |
| Api.ColumnName | omop_etl/api.py:23 | every column but a disabled one has a name |
| Api.DefinedColumns | omop_etl/api.py:22-24 | the names of the non-disabled columns plus the primary key |
| Api.MissingColumns | omop_etl/api.py:20-31 | required and not defined; never the primary key |
| Api.Message | omop_etl/api.py:28 | the message around the column name |
| Api.MessageInjective | omop_etl/api.py:28 | different columns get different messages |
| Api.CheckColumns | omop_etl/api.py:19-32 | one error at `("body", "columns")` per missing column |
| Api.TableWarnings | omop_etl/api.py:35-40 | the errors as `value_error` warnings, and none when there is no error |
| Api.WarningIffMissing | omop_etl/api.py:19-40 | a column is warned about iff it is required and not defined; the primary key never is |
| Api.WarningCount | omop_etl/api.py:19-40 | exactly one warning per missing column |
| Api.WarningsCount | omop_etl/api.py:26-32 | the warnings of a set of columns are as many as the columns |
| Api.DefiningColumnSilencesWarning | omop_etl/api.py:22-31 | adding a column named `c` removes exactly `c`'s warning; a disabled column changes nothing |

## Left out

- YAML loading and pydantic parsing are outside the model. That covers `parse_string`,
  `load_rules`, the union resolution of `tables`, `references` and `columns`, and field
  defaults. Rules enter the model as raw column records. `Rules.ValidateColumn` turns a
  record with `enabled: false` into `DisabledRule`, as pydantic's trying `DisabledColumn`
  first does. A target or constant column whose `enabled` is cleared after parsing (the
  repository's tests do this) stays a target or constant column. The model keeps such
  values (`Rules.Disable`): they translate to nothing, and `check_columns` still counts
  their names.
- Constants: pydantic v1 coerces an integer constant to text for `Union[str, int, float]`,
  so the SQL quotes it. The model keeps both branches of `ConstantTargetColumn.translate`
  (text quoted, integer bare) and leaves float constants out.
- Rules.ParseTableReference: for text matching neither pattern, the source raises
  `UnboundLocalError`; the model returns `None`.
- Generation.StatementEquals: comparing a `None` criterion with a list raises `TypeError` in
  Python; the model answers `false`.
- The `assert "TargetTable" in env` and `assert "PrimaryKeyConstraints" in env` checks are
  preconditions (`ColumnReady`, `requires s.targetTable.Some?`). They are not error results.
- `TempTable.translate`'s branch for an environment without `TempTables` is not modelled,
  and neither is the empty-dict case of `env or default_env`. Every environment the compiler
  builds holds `TempTables` and `DefaultSchema`, so "no environment" is only `null`.
- Optional lists (`pre_init`, `post_init`, `scripts`, `depends_on`, a column's
  `constraints`) are empty sequences when absent. The `None` checks become iteration over
  nothing.
- `Script`, which schema.py builds for `scripts`, is not defined in generation.py. It is
  modelled as a statement that renders its text verbatim.
- `PrimaryKey.check_add_default_primary_key` (schema.py 251-259) is not modelled: it only
  fills each source's `name`, which nothing reads. `parse_table` (schema.py 20-28) is not
  modelled either: the core never calls it.
- The dead `get_insert_statements`, `get_update_statements` and `get_delete_statements`
  are not modelled. They call methods that do not exist or touch the CSV at run time.
- `__hash__` methods are not modelled.
- `compile` without `--one-file`, directory creation, file writing, `print`, `execute`,
  database access, FastAPI routing, `main.py` and the typer CLI are I/O and are left out.
- `REQUIRED_FIELDS` reads `schema/required_omop_columns.csv` at import time. The model takes
  its rows as a parameter.
- Api.Lower: `str.lower` is modelled for ASCII letters only, and `\w` likewise matches ASCII
  letters, digits and `_` only.
- Api.CheckColumns: the Python list follows the iteration order of a set, so the model
  returns a set and states nothing about order.
- Compile.InitializeTables: `to_process` holds `(table, env)` pairs. The model keeps the
  environments in a sequence parallel to the tables.
- The dependency environments recorded in `envs` are kept as snapshots (`EnvState`). The
  compiler never mutates them after recording.
