/**
 * The rule model of omop_etl/schema.py: what one YAML rule file describes once parsed, and the
 * translation of each rule element into statements of the SQL syntax tree.
 *
 * Elements whose `translate` leaves the environment alone are pure functions of an `EnvState`
 * here. The steps that update the environment in place are methods on `Env` in module
 * `Translate`; the functions at the end of this module are their specifications.
 */
module Rules {
  import opened Wrappers
  import opened Strings
  import opened Generation
  import opened Environment

  // ---------------------------------------------------------------- insertion-ordered dicts

  /** No key occurs twice: a Python dict read as its list of items. */
  predicate DistinctKeys<V>(d: seq<(string, V)>) {
    forall i, j :: 0 <= i < j < |d| ==> d[i].0 != d[j].0
  }

  /** A Python dict with string keys, in insertion order. */
  type Dict<V> = d: seq<(string, V)> | DistinctKeys(d) witness []

  /** The keys of a dict, as a set. */
  function KeySet<V>(d: seq<(string, V)>): set<string> {
    set i | 0 <= i < |d| :: d[i].0
  }

  /** The keys of a dict with one more entry are the old keys and the new one. */
  lemma {:induction false} KeySetSnoc<V>(d: seq<(string, V)>)
    requires |d| > 0
    ensures KeySet(d) == KeySet(d[..|d| - 1]) + {d[|d| - 1].0}
  {
    var init := d[..|d| - 1];
    assert forall i :: 0 <= i < |init| ==> init[i] == d[i];
    forall k | k in KeySet(d) ensures k in KeySet(init) + {d[|d| - 1].0} {
      var i :| 0 <= i < |d| && d[i].0 == k;
      if i < |init| { assert init[i].0 == k; }
    }
  }

  // ---------------------------------------------------------------- tables named by a rule

  /** `Query`: a sub-query with an alias; `TempTable` is the same record used in `pre_init`
      and `post_init`. */
  datatype Query = Query(alias: string, query: string)

  /** `TableReference`: a table name with an optional schema. */
  datatype TableReference = TableReference(alias: string, schema: Option<string>)

  /** `Union[Query, TableReference]`: where a primary-key source or a column reads from. */
  datatype Source = QuerySource(subquery: Query) | ReferenceSource(reference: TableReference)
  {
    /** The `alias` both kinds carry. */
    function Alias(): string {
      match this
      case QuerySource(q) => q.alias
      case ReferenceSource(r) => r.alias
    }
  }

  /** The position of the first `.` in `s`, or `|s|` when there is none. */
  function FirstDot(s: string): (k: nat)
    ensures k <= |s|
    ensures k < |s| ==> s[k] == '.'
    ensures forall i :: 0 <= i < k ==> s[i] != '.'
  {
    if |s| == 0 || s[0] == '.' then 0 else 1 + FirstDot(s[1..])
  }

  /** `TableReference.from_str`: `name` (no schema) or `schema.name`, each part matching `\w+`.
      Any other text leaves the parser with no alias and it fails; that is `None` here. */
  function ParseTableReference(s: string): (r: Option<TableReference>)
    ensures r.Some? ==> IsWord(r.value.alias) && (r.value.schema.Some? ==> IsWord(r.value.schema.value))
    ensures r.Some? ==> TableToSql(Table(r.value.alias, r.value.schema)) == s
    ensures r.None? ==> !IsWord(s)
    ensures r.None? ==> forall k :: 0 <= k < |s| && s[k] == '.' ==> !(IsWord(s[..k]) && IsWord(s[k + 1..]))
  {
    if IsWord(s) then Some(TableReference(s, None))
    else
      var k := FirstDot(s);
      if k < |s| && IsWord(s[..k]) && IsWord(s[k + 1..]) then
        assert s == s[..k] + "." + s[k + 1..];
        Some(TableReference(s[k + 1..], Some(s[..k])))
      else
        None
  }

  /** Writing a reference out as `schema.name` (or `name`) and reading it back gives it back. */
  lemma {:induction false} ParseTableReferenceRoundTrip(r: TableReference)
    requires IsWord(r.alias) && (r.schema.Some? ==> IsWord(r.schema.value))
    ensures ParseTableReference(TableToSql(Table(r.alias, r.schema))) == Some(r)
  {
    if r.schema.Some? {
      var sc := r.schema.value;
      var s := sc + "." + r.alias;
      assert TableToSql(Table(r.alias, r.schema)) == s;
      assert s[|sc|] == '.';
      assert !IsWordChar(s[|sc|]);
      var k := FirstDot(s);
      assert s[..k] == sc;
      assert s[k + 1..] == r.alias;
    }
  }

  /** `TableReference.translate`: the table under the rule's own schema, else the environment's
      default schema, and under no schema at all when the name is a temporary table. */
  function TranslateReference(r: TableReference, s: EnvState): (t: Table)
    ensures t.Table? && t.alias == r.alias
    ensures r.alias in s.tempTables ==> t.schema.None?
    ensures r.alias !in s.tempTables && r.schema.Some? ==> t.schema == r.schema
    ensures r.alias !in s.tempTables && r.schema.None? ==> t.schema == s.defaultSchema
  {
    var schema := if r.schema.Some? then r.schema else s.defaultSchema;
    var schema := if r.alias in s.tempTables then None else schema;
    Table(r.alias, schema)
  }

  /** `Query.translate` and `TableReference.translate`: a one-element list holding the table. */
  function TranslateSource(src: Source, s: EnvState): (ts: seq<Table>)
    ensures |ts| == 1 && ts[0].alias == src.Alias()
    ensures src.QuerySource? ==> ts[0] == QueryTable(src.subquery.alias, src.subquery.query)
    ensures src.ReferenceSource? ==> ts[0] == TranslateReference(src.reference, s)
  {
    match src
    case QuerySource(q) => [QueryTable(q.alias, q.query)]
    case ReferenceSource(r) => [TranslateReference(r, s)]
  }

  /** The tables of a list of sources, each translated, in order. */
  function SourceTables(tables: seq<Source>, s: EnvState): (r: seq<Table>)
    ensures |r| == |tables|
    ensures forall i :: 0 <= i < |tables| ==> r[i] == TranslateSource(tables[i], s)[0]
  {
    if |tables| == 0 then []
    else SourceTables(tables[..|tables| - 1], s) + TranslateSource(tables[|tables| - 1], s)
  }

  // ---------------------------------------------------------------- constant columns

  /** `Union[str, int, float]` without the float case. */
  datatype ConstantValue = TextConstant(text: string) | IntConstant(number: int)

  /** A constant as an SQL literal: text in single quotes, a number bare. */
  function ConstantLiteral(c: ConstantValue): (r: Expression)
    ensures c.TextConstant? ==> r == "'" + c.text + "'"
    ensures c.IntConstant? ==> '\'' !in r && IsCanonicalIntText(r) && IntValue(r) == c.number
  {
    match c
    case TextConstant(t) => "'" + t + "'"
    case IntConstant(i) => IntToString(i)
  }

  /** `ConstantTargetColumn.translate`. */
  function ConstantColumnStatements(name: string, enabled: bool, constant: ConstantValue, s: EnvState): (r: seq<Statement>)
    requires s.targetTable.Some?
    ensures !enabled <==> r == []
    ensures enabled ==> |r| == 1 && r[0].Update? && r[0].criterion.None? && r[0].fromTables.None?
    ensures enabled ==> r[0].column == Column(name, Table(s.targetTable.value, Some("omop")))
    ensures enabled ==> r[0].expression == ConstantLiteral(constant)
  {
    if !enabled then []
    else [Update(Column(name, Table(s.targetTable.value, Some("omop"))), ConstantLiteral(constant), None, None)]
  }

  /** The SQL an enabled constant column produces: an unconditional update of the target
      column in schema `omop` to the literal. */
  lemma {:induction false} ConstantColumnText(name: string, constant: ConstantValue, s: EnvState)
    requires s.targetTable.Some?
    ensures StatementToSql(ConstantColumnStatements(name, true, constant, s)[0])
         == "update omop." + s.targetTable.value + " set " + name + " = " + ExpressionToSql(ConstantLiteral(constant)) + ";"
  {
    var col := Column(name, Table(s.targetTable.value, Some("omop")));
    var lit := ConstantLiteral(constant);
    var u := Update(col, lit, None, None);
    assert ConstantColumnStatements(name, true, constant, s)[0] == u;
    assert StatementToSql(u) == UpdateToSql(col, lit, None, None);
    PlainUpdateText(col, lit);
    assert TableToSql(col.table) == "omop." + s.targetTable.value;
    UpdateHeadShape(s.targetTable.value, name);
  }


  // ---------------------------------------------------------------- primary keys

  /** `PrimaryKeySource`: the table an identifier comes from, the columns (name to SQL type)
      that identify one row, and filters on that table. */
  datatype PrimaryKeySource = PrimaryKeySource(name: string, table: Source, columns: Dict<string>, constraints: seq<string>)

  /** `PrimaryKey`: the primary-key column of the target table and its sources by tag. */
  datatype PrimaryKey = PrimaryKey(name: string, sources: Dict<PrimaryKeySource>)

  /** `PrimaryKeySource.translate`: copy every identifying column of the source into the
      mapping table, renamed `<alias>_<column>`, keeping the rows the constraints select. */
  function PkSourceInsert(p: PrimaryKeySource, s: EnvState): (r: Statement)
    requires s.targetTable.Some?
    ensures r.InsertFrom? && r.target == Table(s.targetTable.value, Some("mapping"))
    ensures r.source.source == TranslateSource(p.table, s)
    ensures |r.columns| == |p.columns| && |r.source.expressions| == |p.columns|
    ensures forall i :: 0 <= i < |p.columns| ==>
              r.columns[i] == p.table.Alias() + "_" + p.columns[i].0 &&
              r.source.expressions[i] == p.table.Alias() + "." + p.columns[i].0 + " as " + r.columns[i]
    ensures r.source.criterion.Some? <==> |p.constraints| > 0
    ensures r.source.criterion.Some? ==> r.source.criterion.value == p.constraints
  {
    var tables := TranslateSource(p.table, s);
    var ref := tables[0].alias;
    var pkCols := seq(|p.columns|, i requires 0 <= i < |p.columns| => ref + "_" + p.columns[i].0);
    var selectCols := seq(|p.columns|, i requires 0 <= i < |p.columns| => ref + "." + p.columns[i].0 + " as " + ref + "_" + p.columns[i].0);
    var crit := if |p.constraints| > 0 then Some(p.constraints) else None;
    InsertFrom(pkCols, Table(s.targetTable.value, Some("mapping")), SelectStatement(selectCols, tables, crit))
  }

  /** How `update_environment` writes a schema into text: `None` becomes the word `None`. */
  function SchemaText(schema: Option<string>): string {
    if schema.Some? then schema.value else "None"
  }

  /** The name `update_environment` uses for a source's table: the alias of a query or a
      temporary table, else `<schema>.<alias>` with the default schema filling a missing one. */
  function QualifiedSourceName(src: Source, s: EnvState): (r: string)
    ensures src.QuerySource? ==> r == src.Alias()
    ensures src.ReferenceSource? && src.reference.alias in s.tempTables ==> r == src.Alias()
    ensures src.ReferenceSource? && src.reference.alias !in s.tempTables ==>
              r == SchemaText(if src.reference.schema.Some? then src.reference.schema else s.defaultSchema) + "." + src.Alias()
  {
    match src
    case QuerySource(q) => q.alias
    case ReferenceSource(r) =>
      var schema := if r.schema.Some? then r.schema else s.defaultSchema;
      if r.alias !in s.tempTables then SchemaText(schema) + "." + r.alias else r.alias
  }

  /** The name a query refers to a table of its FROM list by. */
  function ReferableName(t: Table): string {
    match t
    case Table(_, _) => TableToSql(t)
    case QueryTable(alias, _) => alias
  }

  /** The join conditions name the source table as its FROM entry does, whenever a schema is
      known for it. */
  lemma {:induction false} QualifiedNameMatchesFrom(src: Source, s: EnvState)
    requires src.ReferenceSource? && src.reference.alias !in s.tempTables ==>
               src.reference.schema.Some? || s.defaultSchema.Some?
    ensures QualifiedSourceName(src, s) == ReferableName(TranslateSource(src, s)[0])
  {
  }

  /** Without any schema the two disagree: the condition says `None.<alias>`, the FROM list
      names the bare table. */
  lemma {:induction false} QualifiedNameWithoutSchema(alias: string, s: EnvState)
    requires alias !in s.tempTables && s.defaultSchema.None?
    ensures QualifiedSourceName(ReferenceSource(TableReference(alias, None)), s) == "None." + alias
    ensures ReferableName(TranslateSource(ReferenceSource(TableReference(alias, None)), s)[0]) == alias
  {
  }

  /** The join conditions of one source: the target row is the mapping row, and every
      identifying column of the source equals its copy in the mapping table. */
  function SourceCriterion(pkName: string, p: PrimaryKeySource, s: EnvState): (c: Criterion)
    requires s.targetTable.Some? && s.mappingTable.Some?
    ensures |c| == 1 + |p.columns|
    ensures c[0] == "omop." + s.targetTable.value + "." + pkName + " = " + s.mappingTable.value + ".id"
    ensures forall i :: 0 <= i < |p.columns| ==>
              c[1 + i] == QualifiedSourceName(p.table, s) + "." + p.columns[i].0 + " = "
                          + s.mappingTable.value + "." + p.table.Alias() + "_" + p.columns[i].0
  {
    var mapName := s.mappingTable.value;
    var fq := QualifiedSourceName(p.table, s);
    var ref := p.table.Alias();
    ["omop." + s.targetTable.value + "." + pkName + " = " + mapName + ".id"]
      + seq(|p.columns|, i requires 0 <= i < |p.columns| => fq + "." + p.columns[i].0 + " = " + mapName + "." + ref + "_" + p.columns[i].0)
  }

  /** The `PrimaryKeyConstraints` that `update_environment` builds: one criterion per source tag. */
  function PkConstraints(pkName: string, sources: seq<(string, PrimaryKeySource)>, s: EnvState): (m: map<string, Criterion>)
    requires s.targetTable.Some? && s.mappingTable.Some?
    ensures m.Keys == KeySet(sources)
  {
    if |sources| == 0 then map[]
    else
      var last := sources[|sources| - 1];
      KeySetSnoc(sources);
      PkConstraints(pkName, sources[..|sources| - 1], s)[last.0 := SourceCriterion(pkName, last.1, s)]
  }

  /** Each entry is the join conditions of the source with that tag (the tags are distinct,
      so no later source overwrites an earlier one). */
  lemma {:induction false} PkConstraintsSpec(pkName: string, sources: seq<(string, PrimaryKeySource)>, s: EnvState)
    requires s.targetTable.Some? && s.mappingTable.Some?
    requires DistinctKeys(sources)
    ensures forall i :: 0 <= i < |sources| ==>
              PkConstraints(pkName, sources, s)[sources[i].0] == SourceCriterion(pkName, sources[i].1, s)
  {
    forall i | 0 <= i < |sources|
      ensures PkConstraints(pkName, sources, s)[sources[i].0] == SourceCriterion(pkName, sources[i].1, s)
    {
      PkConstraintsAt(pkName, sources, s, i);
    }
  }

  /** The entry of source `i`, by induction on the sources after it. */
  lemma {:induction false} PkConstraintsAt(pkName: string, sources: seq<(string, PrimaryKeySource)>, s: EnvState, i: nat)
    requires s.targetTable.Some? && s.mappingTable.Some?
    requires DistinctKeys(sources) && i < |sources|
    ensures PkConstraints(pkName, sources, s)[sources[i].0] == SourceCriterion(pkName, sources[i].1, s)
  {
    var n := |sources| - 1;
    if i < n {
      var init := sources[..n];
      assert init[i] == sources[i];
      assert sources[i].0 != sources[n].0;
      PkConstraintsAt(pkName, init, s, i);
    }
  }

  /** Every constraint starts by tying the target row to its mapping row. */
  lemma {:induction false} PkConstraintsJoinMapping(pkName: string, sources: seq<(string, PrimaryKeySource)>, s: EnvState, k: string)
    requires s.targetTable.Some? && s.mappingTable.Some?
    requires k in PkConstraints(pkName, sources, s)
    ensures |PkConstraints(pkName, sources, s)[k]| > 0
    ensures PkConstraints(pkName, sources, s)[k][0] == "omop." + s.targetTable.value + "." + pkName + " = " + s.mappingTable.value + ".id"
  {
    var n := |sources| - 1;
    if sources[n].0 != k {
      PkConstraintsJoinMapping(pkName, sources[..n], s, k);
    }
  }

  /** With a schema known for the source, condition `1 + i` of a source's criterion equates
      column `i` of the source's FROM entry with the mapping-table column that the source's
      insert fills with it. */
  lemma {:induction false} SourceCriterionJoinsInsertedColumns(pkName: string, p: PrimaryKeySource, s: EnvState, i: nat)
    requires s.targetTable.Some? && s.mappingTable.Some? && i < |p.columns|
    requires p.table.ReferenceSource? && p.table.reference.alias !in s.tempTables ==>
               p.table.reference.schema.Some? || s.defaultSchema.Some?
    ensures SourceCriterion(pkName, p, s)[1 + i]
         == ReferableName(TranslateSource(p.table, s)[0]) + "." + p.columns[i].0 + " = "
            + s.mappingTable.value + "." + PkSourceInsert(p, s).columns[i]
  {
    QualifiedNameMatchesFrom(p.table, s);
    var ins := PkSourceInsert(p, s);
    assert ins.columns[i] == p.table.Alias() + "_" + p.columns[i].0;
    var c := SourceCriterion(pkName, p, s);
    assert c[1 + i] == QualifiedSourceName(p.table, s) + "." + p.columns[i].0 + " = "
                       + s.mappingTable.value + "." + p.table.Alias() + "_" + p.columns[i].0;
    JoinConditionShape(QualifiedSourceName(p.table, s), p.columns[i].0, s.mappingTable.value, p.table.Alias());
  }

  /** Regrouping the text of one join condition. */
  lemma {:induction false} JoinConditionShape(name: string, column: string, mapping: string, alias: string)
    ensures name + "." + column + " = " + mapping + "." + alias + "_" + column
         == name + "." + column + " = " + mapping + "." + (alias + "_" + column)
  {
  }

  /** The mapping-table columns one source contributes: `<alias>_<column>` with its type. */
  function SourceDefinitions(p: PrimaryKeySource): (r: seq<ColumnDefinition>)
    ensures |r| == |p.columns|
    ensures forall i :: 0 <= i < |p.columns| ==> r[i] == ColumnDefinition(p.table.Alias() + "_" + p.columns[i].0, p.columns[i].1)
  {
    seq(|p.columns|, i requires 0 <= i < |p.columns| => ColumnDefinition(p.table.Alias() + "_" + p.columns[i].0, p.columns[i].1))
  }

  /** The columns of the mapping table: every source's definitions, in source order. */
  function MappingColumns(sources: seq<(string, PrimaryKeySource)>): seq<ColumnDefinition> {
    if |sources| == 0 then []
    else MappingColumns(sources[..|sources| - 1]) + SourceDefinitions(sources[|sources| - 1].1)
  }

  /** The mapping columns of two runs of sources are those of the first, then those of the second. */
  lemma {:induction false} MappingColumnsConcat(a: seq<(string, PrimaryKeySource)>, b: seq<(string, PrimaryKeySource)>)
    ensures MappingColumns(a + b) == MappingColumns(a) + MappingColumns(b)
    decreases |b|
  {
    if |b| > 0 {
      var n := |b| - 1;
      assert (a + b)[..|a + b| - 1] == a + b[..n];
      assert (a + b)[|a + b| - 1] == b[n];
      MappingColumnsConcat(a, b[..n]);
    } else {
      assert a + b == a;
    }
  }

  /** The definitions of source `i` sit, complete and in order, right after those of the
      sources before it. */
  lemma {:induction false} MappingColumnsOfSource(sources: seq<(string, PrimaryKeySource)>, i: nat)
    requires i < |sources|
    ensures MappingColumns(sources) ==
              MappingColumns(sources[..i]) + SourceDefinitions(sources[i].1) + MappingColumns(sources[i + 1..])
  {
    var pre, mid, post := sources[..i], [sources[i]], sources[i + 1..];
    var front := pre + mid;
    calc {
      MappingColumns(sources);
      { assert sources == front + post; }
      MappingColumns(front + post);
      { MappingColumnsConcat(front, post); }
      MappingColumns(front) + MappingColumns(post);
      { MappingColumnsConcat(pre, mid); MappingColumnsSingle(sources[i]); }
      MappingColumns(pre) + SourceDefinitions(sources[i].1) + MappingColumns(post);
    }
  }

  /** A single source contributes exactly its own definitions. */
  lemma {:induction false} MappingColumnsSingle(source: (string, PrimaryKeySource))
    ensures MappingColumns([source]) == SourceDefinitions(source.1)
  {
    var one := [source];
    assert one[..0] == [];
    var defs := SourceDefinitions(source.1);
    assert [] + defs == defs;
  }

  /** `PrimaryKey.create_table`: drop the mapping table when `DropTables` is set, then create it
      with a serial `id` and the columns of every source. */
  function MappingTableStatements(pk: PrimaryKey, s: EnvState): (r: seq<Statement>)
    requires s.targetTable.Some?
    ensures |r| == (if s.dropTables == Some(true) then 2 else 1)
  {
    var table := Table(s.targetTable.value, Some("mapping"));
    (if s.dropTables == Some(true) then [DropTable(table)] else [])
      + [CreateTable(pk.name, table, MappingColumns(pk.sources))]
  }

  /** The SQL of those statements: the drop names `mapping.<target>`, and the create gives it a
      serial `id` key followed by the columns of every source. */
  lemma {:induction false} MappingTableText(pk: PrimaryKey, s: EnvState)
    requires s.targetTable.Some?
    ensures var r := MappingTableStatements(pk, s);
      && (|r| == 2 ==> StatementToSql(r[0]) == "drop table if exists mapping." + s.targetTable.value + ";")
      && StatementToSql(r[|r| - 1])
         == "create table mapping." + s.targetTable.value + " (id serial PRIMARY KEY, " + DefinitionsToSql(MappingColumns(pk.sources)) + ");"
  {
    var target := s.targetTable.value;
    var table := Table(target, Some("mapping"));
    var r := MappingTableStatements(pk, s);
    var defs := DefinitionsToSql(MappingColumns(pk.sources));
    assert TableToSql(table) == "mapping." + target;
    assert r[|r| - 1] == CreateTable(pk.name, table, MappingColumns(pk.sources));
    MappingTableShape(target, defs);
    if |r| == 2 {
      assert r[0] == DropTable(table);
    }
  }

  /** The pieces of those statements, regrouped as one text. */
  lemma {:induction false} MappingTableShape(target: string, defs: string)
    ensures "drop table if exists " + ("mapping." + target) + ";" == "drop table if exists mapping." + target + ";"
    ensures "create table " + ("mapping." + target) + " (id serial PRIMARY KEY, " + defs + ");"
         == "create table mapping." + target + " (id serial PRIMARY KEY, " + defs + ");"
  {
    assert "drop table if exists " + ("mapping." + target) == "drop table if exists mapping." + target;
    assert "create table " + ("mapping." + target) == "create table mapping." + target;
  }

  /** The inserts of every source, in source order. */
  function PkSourceInserts(sources: seq<(string, PrimaryKeySource)>, s: EnvState): (r: seq<Statement>)
    requires s.targetTable.Some?
    ensures |r| == |sources|
    ensures forall i :: 0 <= i < |sources| ==> r[i] == PkSourceInsert(sources[i].1, s)
  {
    if |sources| == 0 then []
    else PkSourceInserts(sources[..|sources| - 1], s) + [PkSourceInsert(sources[|sources| - 1].1, s)]
  }

  /** The final insert of `PrimaryKey.translate`: one target row per mapping row. */
  function TargetRowsInsert(pk: PrimaryKey, target: string): Statement {
    InsertFrom([pk.name], Table(target, Some("omop")),
      SelectStatement(["mapping." + target + ".id"], [Table(target, Some("mapping"))], None))
  }

  /** The SQL of that insert: it copies the id of every row of `mapping.<target>` into the key
      column of `omop.<target>`. */
  lemma {:induction false} TargetRowsInsertText(pk: PrimaryKey, target: string)
    ensures StatementToSql(TargetRowsInsert(pk, target))
         == "insert into omop." + target + " (" + pk.name + ") select " + ExpressionToSql("mapping." + target + ".id")
            + " from mapping." + target + ";"
  {
    var id := "mapping." + target + ".id";
    var mapping := Table(target, Some("mapping"));
    assert Join(", ", [pk.name]) == pk.name;
    assert TableToSql(Table(target, Some("omop"))) == "omop." + target;
    assert TableToSql(mapping) == "mapping." + target;
    SelectOneText(id, mapping);
    TargetRowsShape(target, pk.name, ExpressionToSql(id));
  }

  /** The pieces of that insert, regrouped as one text. */
  lemma {:induction false} TargetRowsShape(target: string, name: string, e: string)
    ensures "insert into " + ("omop." + target) + " (" + name + ") " + ("select " + e + " from " + ("mapping." + target) + ";")
         == "insert into omop." + target + " (" + name + ") select " + e + " from mapping." + target + ";"
  {
  }

  /** The statements of `PrimaryKey.translate` in an environment it has already updated. */
  function PrimaryKeyStatements(pk: PrimaryKey, s: EnvState): seq<Statement>
    requires s.targetTable.Some?
  {
    MappingTableStatements(pk, s) + PkSourceInserts(pk.sources, s) + [TargetRowsInsert(pk, s.targetTable.value)]
  }

  /** The order `PrimaryKey.translate` promises: an optional drop, the create, one insert per
      source in source order, and last the insert of the target rows, which reads the mapping
      table and writes the key column. */
  lemma {:induction false} PrimaryKeyStatementsOrder(pk: PrimaryKey, s: EnvState)
    requires s.targetTable.Some?
    ensures var r := PrimaryKeyStatements(pk, s);
            var d := if s.dropTables == Some(true) then 1 else 0;
            var mapping := Table(s.targetTable.value, Some("mapping"));
            |r| == d + |pk.sources| + 2 &&
            (d == 1 ==> r[0] == DropTable(mapping)) &&
            r[d] == CreateTable(pk.name, mapping, MappingColumns(pk.sources)) &&
            r[d + 1..|r| - 1] == PkSourceInserts(pk.sources, s) &&
            r[|r| - 1].InsertFrom? && r[|r| - 1].columns == [pk.name] &&
            r[|r| - 1].target == Table(s.targetTable.value, Some("omop")) &&
            r[|r| - 1].source.source == [mapping]
  {
    var d := if s.dropTables == Some(true) then 1 else 0;
    var ms := MappingTableStatements(pk, s);
    var ins := PkSourceInserts(pk.sources, s);
    var last := [TargetRowsInsert(pk, s.targetTable.value)];
    var r := PrimaryKeyStatements(pk, s);
    assert r == ms + ins + last;
    ThreeParts(ms, ins, last);
    assert |r| == d + |pk.sources| + 2;
    assert d == 1 ==> r[0] == ms[0] == DropTable(Table(s.targetTable.value, Some("mapping")));
    assert r[d] == ms[d] == CreateTable(pk.name, Table(s.targetTable.value, Some("mapping")), MappingColumns(pk.sources));
    assert r[|r| - 1] == last[0];
  }

  /** Where the pieces of `a + b + c` sit. */
  lemma {:induction false} ThreeParts<T>(a: seq<T>, b: seq<T>, c: seq<T>)
    ensures var r := a + b + c;
            r[..|a|] == a && r[|a|..|a| + |b|] == b && r[|a| + |b|..] == c
  {
    var r := a + b + c;
    assert r[..|a| + |b|] == a + b;
    assert r[|a|..|a| + |b|] == (a + b)[|a|..];
  }

  // ---------------------------------------------------------------- target columns

  /** `ForeignKey`: a column of another table's mapping table. */
  datatype ForeignKey = ForeignKey(table: string, column: string)

  /** `Union[ForeignKey, Dict[str, ForeignKey]]`. */
  datatype References = SingleKey(key: ForeignKey) | KeyedReferences(keys: Dict<ForeignKey>)

  /** `TargetColumn`: an OMOP column filled from source tables. */
  datatype TargetColumn = TargetColumn(
    name: string,
    enabled: bool,
    tables: seq<Source>,
    constraints: Option<seq<string>>,
    expression: string,
    primaryKey: string,
    references: Option<References>)

  /** `Union[DisabledColumn, TargetColumn, ConstantTargetColumn]`, once validated. */
  datatype ColumnRule =
    | TargetRule(target: TargetColumn)
    | ConstantRule(name: string, enabled: bool, constant: ConstantValue)
    | DisabledRule

  /** What makes a column's translation fail: the `KeyError` of an unknown primary-key tag and
      the `ValueError` of unpacking an empty dict of references. */
  datatype TranslateError = MissingPrimaryKey(key: string) | EmptyReferences(column: string)

  /** The mapping table and the column of it that a reference joins through. A dict of
      references uses its first entry and the column `<table>_<column>` of that entry. */
  function ReferenceTarget(r: References): (t: Option<(string, string)>)
    ensures t.None? <==> r.KeyedReferences? && |r.keys| == 0
    ensures r.SingleKey? ==> t == Some((r.key.table, r.key.column))
    ensures r.KeyedReferences? && |r.keys| > 0 ==>
              t == Some((r.keys[0].0, r.keys[0].1.table + "_" + r.keys[0].1.column))
  {
    match r
    case SingleKey(k) => Some((k.table, k.column))
    case KeyedReferences(d) =>
      if |d| == 0 then None else Some((d[0].0, d[0].1.table + "_" + d[0].1.column))
  }

  /** The column's own filters: `None` and an empty list both add nothing. */
  function OwnConstraints(c: TargetColumn): seq<string> {
    if c.constraints.Some? then c.constraints.value else []
  }

  /** What the update of an enabled target column is: it sets that column of `omop.<target>`;
      its FROM list is the mapping table followed by the column's tables in order; its WHERE
      list is the join conditions of the column's primary-key source followed by the column's
      own filters. A reference adds its mapping table last, requires a match on it, and the
      value becomes that mapping row's id; without one the value is the column's expression. */
  ghost predicate UpdatesTargetColumn(u: Statement, c: TargetColumn, s: EnvState)
    requires s.targetTable.Some? && s.pkConstraints.Some?
  {
    var target := s.targetTable.value;
    u.Update? && u.column == Column(c.name, Table(target, Some("omop")))
    && u.fromTables.Some? && u.criterion.Some? && c.primaryKey in s.pkConstraints.value
    && var frm := u.fromTables.value;
       var whr := u.criterion.value;
       var joins := s.pkConstraints.value[c.primaryKey] + OwnConstraints(c);
       |frm| >= 1 + |c.tables| && frm[0] == Table(target, Some("mapping"))
       && (forall i :: 0 <= i < |c.tables| ==> frm[1 + i] == TranslateSource(c.tables[i], s)[0])
       && (c.references.None? ==> frm == frm[..1 + |c.tables|] && whr == joins && u.expression == c.expression)
       && (c.references.Some? ==>
             ReferenceTarget(c.references.value).Some? &&
             var (refTable, refColumn) := ReferenceTarget(c.references.value).value;
             var key := "mapping." + refTable + "." + refColumn;
             |frm| == 2 + |c.tables| && frm[|frm| - 1] == Table(refTable, Some("mapping"))
             && whr == joins + [key + " is not null", key + " = " + c.expression]
             && u.expression == "mapping." + refTable + ".id")
  }

  /** Such an update, as SQL: it sets the column of `omop.<target>` and is closed by `;`. */
  lemma {:induction false} UpdatesTargetColumnText(u: Statement, c: TargetColumn, s: EnvState)
    requires s.targetTable.Some? && s.pkConstraints.Some?
    requires UpdatesTargetColumn(u, c, s)
    ensures StartsWith(StatementToSql(u), "update omop." + s.targetTable.value + " set " + c.name + " = ")
    ensures EndsWith(StatementToSql(u), ";")
  {
    var target := s.targetTable.value;
    assert TableToSql(u.column.table) == "omop." + target;
    assert StatementToSql(u) == UpdateToSql(u.column, u.expression, u.criterion, u.fromTables);
    UpdateText(u.column, u.expression, u.criterion, u.fromTables);
    UpdateHeadShape(target, c.name);
  }

  /** The head of that update, regrouped as one text. */
  lemma {:induction false} UpdateHeadShape(target: string, name: string)
    ensures "update " + ("omop." + target) + " set " + name + " = " == "update omop." + target + " set " + name + " = "
  {
    assert "update " + ("omop." + target) == "update omop." + target;
  }

  /** `TargetColumn.translate`: nothing for a disabled column, else one update (see
      `UpdatesTargetColumn`), failing on an unknown primary-key tag before looking at the
      references, and on an empty dict of references. */
  function TargetColumnStatements(c: TargetColumn, s: EnvState): (r: Result<Option<seq<Statement>>, TranslateError>)
    requires s.targetTable.Some? && s.pkConstraints.Some?
    ensures r == Ok(None) <==> !c.enabled
    ensures r.Err? <==> c.enabled && (c.primaryKey !in s.pkConstraints.value ||
                                      (c.references.Some? && ReferenceTarget(c.references.value).None?))
    ensures r.Err? && c.primaryKey !in s.pkConstraints.value ==> r.error == MissingPrimaryKey(c.primaryKey)
    ensures r.Err? && c.primaryKey in s.pkConstraints.value ==> r.error == EmptyReferences(c.name)
    ensures r.Ok? && r.value.Some? ==> |r.value.value| == 1 && UpdatesTargetColumn(r.value.value[0], c, s)
  {
    if !c.enabled then Ok(None)
    else if c.primaryKey !in s.pkConstraints.value then Err(MissingPrimaryKey(c.primaryKey))
    else
      match TargetColumnUpdate(c, s)
      case Err(e) => Err(e)
      case Ok(u) => Ok(Some([u]))
  }

  /** The update of an enabled target column whose primary-key tag is known; only an empty
      dict of references makes it fail. */
  function TargetColumnUpdate(c: TargetColumn, s: EnvState): (r: Result<Statement, TranslateError>)
    requires s.targetTable.Some? && s.pkConstraints.Some? && c.primaryKey in s.pkConstraints.value
    ensures r.Err? <==> c.references.Some? && ReferenceTarget(c.references.value).None?
    ensures r.Err? ==> r.error == EmptyReferences(c.name)
    ensures r.Ok? ==> UpdatesTargetColumn(r.value, c, s)
  {
    var target := s.targetTable.value;
    var frm := [Table(target, Some("mapping"))] + SourceTables(c.tables, s);
    var whr := s.pkConstraints.value[c.primaryKey] + OwnConstraints(c);
    var col := Column(c.name, Table(target, Some("omop")));
    assert |frm| == 1 + |c.tables| && frm[0] == Table(target, Some("mapping"));
    assert forall i :: 0 <= i < |c.tables| ==> frm[1 + i] == TranslateSource(c.tables[i], s)[0];
    if c.references.None? then
      Ok(Update(col, c.expression, Some(whr), Some(frm)))
    else
      match ReferenceTarget(c.references.value)
      case None => Err(EmptyReferences(c.name))
      case Some((refTable, refColumn)) =>
        var t := Table(refTable, Some("mapping"));
        var key := TableToSql(t) + "." + refColumn;
        assert TableToSql(t) == "mapping." + refTable;
        Ok(Update(col, TableToSql(t) + ".id", Some(whr + [key + " is not null", key + " = " + c.expression]), Some(frm + [t])))
  }

  // ---------------------------------------------------------------- the column phase

  /** The environment keys a column's `translate` asserts before anything else. */
  predicate ColumnReady(col: ColumnRule, s: EnvState) {
    (!col.DisabledRule? ==> s.targetTable.Some?) && (col.TargetRule? ==> s.pkConstraints.Some?)
  }

  predicate ColumnsReady(cols: seq<ColumnRule>, s: EnvState) {
    forall i :: 0 <= i < |cols| ==> ColumnReady(cols[i], s)
  }

  /** True of a column that produces a statement. */
  predicate Enabled(col: ColumnRule) {
    match col
    case TargetRule(c) => c.enabled
    case ConstantRule(_, enabled, _) => enabled
    case DisabledRule => false
  }

  /** The same column with `enabled: false`. */
  function Disable(col: ColumnRule): (r: ColumnRule)
    ensures !Enabled(r)
  {
    match col
    case TargetRule(c) => TargetRule(c.(enabled := false))
    case ConstantRule(name, _, constant) => ConstantRule(name, false, constant)
    case DisabledRule => DisabledRule
  }

  /** One column's contribution to the script; a `None` from `translate` adds nothing. */
  function ColumnStatements(col: ColumnRule, s: EnvState): (r: Result<seq<Statement>, TranslateError>)
    requires ColumnReady(col, s)
    ensures r.Ok? ==> |r.value| == (if Enabled(col) then 1 else 0)
    ensures !Enabled(col) ==> r == Ok([])
  {
    match col
    case TargetRule(c) =>
      (match TargetColumnStatements(c, s)
       case Err(e) => Err(e)
       case Ok(None) => Ok([])
       case Ok(Some(ss)) => Ok(ss))
    case ConstantRule(name, enabled, constant) => Ok(ConstantColumnStatements(name, enabled, constant, s))
    case DisabledRule => Ok([])
  }

  /** Run one step after another: the first failure stops the script. */
  function Then(a: Result<seq<Statement>, TranslateError>, b: Result<seq<Statement>, TranslateError>): Result<seq<Statement>, TranslateError> {
    if a.Err? then a else if b.Err? then b else Ok(a.value + b.value)
  }

  lemma {:induction false} ThenAssociative(a: Result<seq<Statement>, TranslateError>, b: Result<seq<Statement>, TranslateError>, c: Result<seq<Statement>, TranslateError>)
    ensures Then(Then(a, b), c) == Then(a, Then(b, c))
  {
    if a.Ok? && b.Ok? && c.Ok? {
      assert (a.value + b.value) + c.value == a.value + (b.value + c.value);
    }
  }

  /** The process part of `TargetTable.translate`: every column in order. */
  function ColumnPhase(cols: seq<ColumnRule>, s: EnvState): Result<seq<Statement>, TranslateError>
    requires ColumnsReady(cols, s)
  {
    if |cols| == 0 then Ok([])
    else Then(ColumnPhase(cols[..|cols| - 1], s), ColumnStatements(cols[|cols| - 1], s))
  }

  /** The number of columns that produce a statement. */
  function EnabledCount(cols: seq<ColumnRule>): nat {
    if |cols| == 0 then 0
    else EnabledCount(cols[..|cols| - 1]) + (if Enabled(cols[|cols| - 1]) then 1 else 0)
  }

  lemma {:induction false} EnabledCountConcat(a: seq<ColumnRule>, b: seq<ColumnRule>)
    ensures EnabledCount(a + b) == EnabledCount(a) + EnabledCount(b)
    decreases |b|
  {
    if |b| == 0 {
      assert a + b == a;
    } else {
      assert (a + b)[..|a + b| - 1] == a + b[..|b| - 1];
      EnabledCountConcat(a, b[..|b| - 1]);
    }
  }

  /** The two halves of a run of ready columns are ready. */
  lemma {:induction false} ColumnsReadySplit(a: seq<ColumnRule>, b: seq<ColumnRule>, s: EnvState)
    requires ColumnsReady(a + b, s)
    ensures ColumnsReady(a, s) && ColumnsReady(b, s)
  {
    forall i | 0 <= i < |a| ensures ColumnReady(a[i], s) {
      assert (a + b)[i] == a[i];
    }
    forall i | 0 <= i < |b| ensures ColumnReady(b[i], s) {
      assert (a + b)[|a| + i] == b[i];
    }
  }

  /** Translating two runs of columns one after the other is translating them together. */
  lemma {:induction false} ColumnPhaseConcat(a: seq<ColumnRule>, b: seq<ColumnRule>, s: EnvState)
    requires ColumnsReady(a + b, s)
    ensures ColumnsReady(a, s) && ColumnsReady(b, s)
    ensures ColumnPhase(a + b, s) == Then(ColumnPhase(a, s), ColumnPhase(b, s))
    decreases |b|
  {
    ColumnsReadySplit(a, b, s);
    if |b| == 0 {
      assert a + b == a;
      if ColumnPhase(a, s).Ok? {
        assert ColumnPhase(a, s).value + [] == ColumnPhase(a, s).value;
      }
    } else {
      var n := |b| - 1;
      var init, x := b[..n], b[n];
      assert b == init + [x];
      assert a + b == (a + init) + [x];
      ColumnsReadySplit(a + init, [x], s);
      ColumnPhaseConcat(a, init, s);
      var last := ColumnStatements(x, s);
      assert ColumnPhase(a + b, s) == Then(ColumnPhase(a + init, s), last);
      assert ColumnPhase(b, s) == Then(ColumnPhase(init, s), last);
      ThenAssociative(ColumnPhase(a, s), ColumnPhase(init, s), last);
    }
  }

  /** The script of a column list is that of the columns before `i`, then column `i`'s, then
      that of the columns after it. */
  lemma {:induction false} ColumnPhaseAround(cols: seq<ColumnRule>, i: nat, s: EnvState)
    requires i < |cols| && ColumnsReady(cols, s)
    ensures ColumnsReady(cols[..i], s) && ColumnsReady(cols[i + 1..], s)
    ensures ColumnPhase(cols, s) == Then(Then(ColumnPhase(cols[..i], s), ColumnStatements(cols[i], s)), ColumnPhase(cols[i + 1..], s))
  {
    var pre, mid, post := cols[..i], [cols[i]], cols[i + 1..];
    assert cols == (pre + mid) + post;
    ColumnPhaseConcat(pre + mid, post, s);
    ColumnPhaseConcat(pre, mid, s);
    assert mid[..0] == [];
    assert ColumnPhase(mid, s) == Then(Ok([]), ColumnStatements(cols[i], s));
  }

  /** Every enabled column yields exactly one statement and every other column none. */
  lemma {:induction false} ColumnPhaseCount(cols: seq<ColumnRule>, s: EnvState)
    requires ColumnsReady(cols, s)
    ensures ColumnPhase(cols, s).Ok? ==> |ColumnPhase(cols, s).value| == EnabledCount(cols)
  {
    if |cols| > 0 {
      ColumnPhaseCount(cols[..|cols| - 1], s);
    }
  }

  /** Disabling one enabled column removes exactly its statement, leaving the others in order;
      enabling it again (when its own translation succeeds) puts the statement back. */
  lemma {:induction false} DisablingColumnRemovesItsStatement(cols: seq<ColumnRule>, i: nat, s: EnvState)
    requires i < |cols| && ColumnsReady(cols, s) && Enabled(cols[i])
    ensures ColumnsReady(cols[i := Disable(cols[i])], s)
    ensures var on := ColumnPhase(cols, s);
            var off := ColumnPhase(cols[i := Disable(cols[i])], s);
            var n := EnabledCount(cols[..i]);
            (on.Ok? ==> off.Ok? && n < |on.value| && off.value == on.value[..n] + on.value[n + 1..]) &&
            (off.Ok? && ColumnStatements(cols[i], s).Ok? ==> on.Ok?)
  {
    var offCols := cols[i := Disable(cols[i])];
    assert offCols[..i] == cols[..i] && offCols[i + 1..] == cols[i + 1..];
    assert ColumnReady(Disable(cols[i]), s);
    ColumnPhaseAround(cols, i, s);
    ColumnPhaseAround(offCols, i, s);
    ColumnPhaseCount(cols[..i], s);
    ThenDropsMiddle(ColumnPhase(cols[..i], s), ColumnStatements(cols[i], s), ColumnPhase(cols[i + 1..], s));
  }

  /** Replacing a one-statement middle step by an empty one drops exactly that statement. */
  lemma {:induction false} ThenDropsMiddle(a: Result<seq<Statement>, TranslateError>, x: Result<seq<Statement>, TranslateError>,
                        b: Result<seq<Statement>, TranslateError>)
    requires x.Ok? ==> |x.value| == 1
    ensures var on := Then(Then(a, x), b);
            var off := Then(Then(a, Ok([])), b);
            (on.Ok? ==> off.Ok? && |a.value| < |on.value| &&
                        off.value == on.value[..|a.value|] + on.value[|a.value| + 1..]) &&
            (off.Ok? && x.Ok? ==> on.Ok?)
  {
    if Then(Then(a, x), b).Ok? {
      var v := a.value + x.value + b.value;
      assert v[..|a.value|] == a.value;
      assert v[|a.value| + 1..] == b.value;
      assert a.value + [] == a.value;
    }
  }

  /** A column list translates without failure exactly when each of its columns does. */
  lemma {:induction false} ColumnPhaseOk(cols: seq<ColumnRule>, s: EnvState)
    requires ColumnsReady(cols, s)
    ensures ColumnPhase(cols, s).Ok? <==> forall i :: 0 <= i < |cols| ==> ColumnStatements(cols[i], s).Ok?
  {
    if ColumnPhase(cols, s).Ok? {
      forall i | 0 <= i < |cols| ensures ColumnStatements(cols[i], s).Ok? {
        ColumnPhaseOkAt(cols, s, i);
      }
    }
    if forall i :: 0 <= i < |cols| ==> ColumnStatements(cols[i], s).Ok? {
      ColumnPhaseAllOk(cols, s);
    }
  }

  /** When the column part succeeds, column `i` does. */
  lemma {:induction false} ColumnPhaseOkAt(cols: seq<ColumnRule>, s: EnvState, i: nat)
    requires ColumnsReady(cols, s) && i < |cols| && ColumnPhase(cols, s).Ok?
    ensures ColumnStatements(cols[i], s).Ok?
  {
    ColumnPhaseAround(cols, i, s);
    ThenOkMiddle(ColumnPhase(cols[..i], s), ColumnStatements(cols[i], s), ColumnPhase(cols[i + 1..], s));
  }

  /** A chain of three steps succeeds only when its middle step does. */
  lemma {:induction false} ThenOkMiddle(a: Result<seq<Statement>, TranslateError>, x: Result<seq<Statement>, TranslateError>,
                        b: Result<seq<Statement>, TranslateError>)
    requires Then(Then(a, x), b).Ok?
    ensures x.Ok?
  {
  }

  /** When every column succeeds, the column part does. */
  lemma {:induction false} ColumnPhaseAllOk(cols: seq<ColumnRule>, s: EnvState)
    requires ColumnsReady(cols, s) && forall i :: 0 <= i < |cols| ==> ColumnStatements(cols[i], s).Ok?
    ensures ColumnPhase(cols, s).Ok?
  {
    if |cols| > 0 {
      var n := |cols| - 1;
      var init := cols[..n];
      assert forall i :: 0 <= i < n ==> init[i] == cols[i];
      ColumnPhaseAllOk(init, s);
      assert ColumnPhase(cols, s) == Then(ColumnPhase(init, s), ColumnStatements(cols[n], s));
    }
  }

  // ---------------------------------------------------------------- column validation

  /** A column as the rule file writes it, before parsing and the table's validators: a
      target record (which may leave out its primary-key tag), a constant record, or a record
      that holds only `enabled`. */
  datatype RawColumn =
    | RawTarget(name: string, enabled: bool, tables: seq<Source>, constraints: Option<seq<string>>,
                expression: string, primaryKey: Option<string>, references: Option<References>)
    | RawConstant(name: string, enabled: bool, constant: ConstantValue)
    | RawDisabled(enabled: bool)

  /** Why the validators refuse a column: a target column with no tag and no single source to
      default to, a tag naming no source (with the validator's message), or a record that
      holds only `enabled: true`, which no member of the union accepts. */
  datatype ColumnError = PrimaryKeyRequired | UnknownPrimaryKey(message: string) | DisabledColumnEnabled

  /** The pre-validator on columns: when the key has exactly one source, a column that names no
      tag gets that source's tag; a tag given explicitly is kept. */
  function DefaultPrimaryKey(sources: seq<(string, PrimaryKeySource)>, given: Option<string>): (r: Option<string>)
    ensures given.Some? ==> r == given
    ensures given.None? ==> (r.Some? <==> |sources| == 1)
    ensures given.None? && |sources| == 1 ==> r == Some(sources[0].0)
  {
    if given.Some? then given else if |sources| == 1 then Some(sources[0].0) else None
  }

  /** The tags of the sources, each in double quotes. */
  function QuotedKeys(sources: seq<(string, PrimaryKeySource)>): (r: seq<string>)
    ensures |r| == |sources|
    ensures forall i :: 0 <= i < |sources| ==> r[i] == "\"" + sources[i].0 + "\""
  {
    seq(|sources|, i requires 0 <= i < |sources| => "\"" + sources[i].0 + "\"")
  }

  /** The message of `check_primary_keys_in_columns`. */
  function UnknownPrimaryKeyMessage(tag: string, sources: seq<(string, PrimaryKeySource)>): string {
    "primary_key " + ("'" + tag + "'") + " not defined. Available primary_keys are: (" + Join(", ", QuotedKeys(sources)) + ")"
  }

  /** The message names the offending tag in single quotes and every defined tag in double quotes. */
  lemma {:induction false} UnknownPrimaryKeyMessageNamesKeys(tag: string, sources: seq<(string, PrimaryKeySource)>, i: nat)
    requires i < |sources|
    ensures IsInfix("'" + tag + "'", UnknownPrimaryKeyMessage(tag, sources))
    ensures IsInfix("\"" + sources[i].0 + "\"", UnknownPrimaryKeyMessage(tag, sources))
  {
    var head := "primary_key ";
    var list := Join(", ", QuotedKeys(sources));
    var tail := " not defined. Available primary_keys are: (" + list + ")";
    assert UnknownPrimaryKeyMessage(tag, sources) == head + ("'" + tag + "'") + tail;
    InfixOf(head, "'" + tag + "'", tail);
    JoinContainsPart(", ", QuotedKeys(sources), i);
    var pre: string, post: string :| list == pre + QuotedKeys(sources)[i] + post;
    var front := head + ("'" + tag + "'") + " not defined. Available primary_keys are: (";
    assert UnknownPrimaryKeyMessage(tag, sources) == (front + pre) + QuotedKeys(sources)[i] + (post + ")");
    InfixOf(front + pre, QuotedKeys(sources)[i], post + ")");
  }

  /** The validated column keeps everything the rule file wrote; a target column's tag is the
      written one when there was one. A record with `enabled: false` is a `DisabledColumn`,
      the first member of the union, which ignores every other field. */
  predicate Keeps(raw: RawColumn, col: ColumnRule) {
    if !raw.enabled then col == DisabledRule
    else
      match raw
      case RawTarget(name, _, tables, constraints, expression, tag, references) =>
        col.TargetRule? &&
        col == TargetRule(TargetColumn(name, true, tables, constraints, expression, col.target.primaryKey, references)) &&
        (tag.Some? ==> col.target.primaryKey == tag.value)
      case RawConstant(name, _, constant) => col == ConstantRule(name, true, constant)
      case RawDisabled(_) => false
  }

  /** Parsing one column into `Union[DisabledColumn, TargetColumn, ConstantTargetColumn]` and
      the table's validators on it: a disabled record is a `DisabledColumn` whatever else it
      holds; an enabled target record gets the tag default and must name a defined tag. */
  function ValidateColumn(pk: PrimaryKey, raw: RawColumn): (r: Result<ColumnRule, ColumnError>)
    ensures !raw.enabled ==> r == Ok(DisabledRule)
    ensures r.Err? <==>
              raw.enabled &&
              ((raw.RawTarget? && (DefaultPrimaryKey(pk.sources, raw.primaryKey).None? ||
                  DefaultPrimaryKey(pk.sources, raw.primaryKey).value !in KeySet(pk.sources)))
               || raw.RawDisabled?)
    ensures r.Ok? ==> Keeps(raw, r.value)
    ensures r.Ok? ==> r.value.DisabledRule? || Enabled(r.value)
    ensures r.Ok? && r.value.TargetRule? ==> r.value.target.primaryKey in KeySet(pk.sources)
    ensures r.Err? && r.error.UnknownPrimaryKey? ==>
              raw.RawTarget? && DefaultPrimaryKey(pk.sources, raw.primaryKey).Some? &&
              r.error.message == UnknownPrimaryKeyMessage(DefaultPrimaryKey(pk.sources, raw.primaryKey).value, pk.sources)
  {
    if !raw.enabled then Ok(DisabledRule)
    else
      match raw
      case RawTarget(name, _, tables, constraints, expression, given, references) =>
        (match DefaultPrimaryKey(pk.sources, given)
         case None => Err(PrimaryKeyRequired)
         case Some(tag) =>
           if tag !in KeySet(pk.sources) then Err(UnknownPrimaryKey(UnknownPrimaryKeyMessage(tag, pk.sources)))
           else Ok(TargetRule(TargetColumn(name, true, tables, constraints, expression, tag, references))))
      case RawConstant(name, _, constant) => Ok(ConstantRule(name, true, constant))
      case RawDisabled(_) => Err(DisabledColumnEnabled)
  }

  /** Validation of the whole column list: every column is checked and every failure is
      reported with the column's position. */
  function ValidateColumns(pk: PrimaryKey, raws: seq<RawColumn>): (r: Result<seq<ColumnRule>, seq<(nat, ColumnError)>>)
    ensures r.Ok? <==> forall i :: 0 <= i < |raws| ==> ValidateColumn(pk, raws[i]).Ok?
    ensures r.Ok? ==> |r.value| == |raws| && forall i :: 0 <= i < |raws| ==> ValidateColumn(pk, raws[i]) == Ok(r.value[i])
    ensures r.Err? ==> forall e :: e in r.error ==> e.0 < |raws| && ValidateColumn(pk, raws[e.0]) == Err(e.1)
    ensures r.Err? ==> forall i :: 0 <= i < |raws| && ValidateColumn(pk, raws[i]).Err? ==>
                          (i, ValidateColumn(pk, raws[i]).error) in r.error
  {
    if |raws| == 0 then Ok([])
    else
      var n := |raws| - 1;
      var prev := ValidateColumns(pk, raws[..n]);
      var last := ValidateColumn(pk, raws[n]);
      assert forall i :: 0 <= i < n ==> raws[..n][i] == raws[i];
      if prev.Ok? && last.Ok? then Ok(prev.value + [last.value])
      else Err((if prev.Err? then prev.error else []) + (if last.Err? then [(n, last.error)] else []))
  }

  /** Columns that passed validation never fail to translate once the primary key's
      constraints are in the environment, provided no dict of references is empty. */
  lemma {:induction false} ValidatedColumnsTranslate(pk: PrimaryKey, raws: seq<RawColumn>, cols: seq<ColumnRule>, s: EnvState)
    requires ValidateColumns(pk, raws) == Ok(cols)
    requires s.targetTable.Some? && s.pkConstraints.Some? && KeySet(pk.sources) <= s.pkConstraints.value.Keys
    requires forall i :: 0 <= i < |raws| && raws[i].RawTarget? && raws[i].references.Some? ==>
               ReferenceTarget(raws[i].references.value).Some?
    ensures ColumnsReady(cols, s)
    ensures ColumnPhase(cols, s).Ok?
  {
    forall i | 0 <= i < |cols| ensures ColumnStatements(cols[i], s).Ok? {
      assert ValidateColumn(pk, raws[i]) == Ok(cols[i]);
      assert Keeps(raws[i], cols[i]);
    }
    ColumnPhaseOk(cols, s);
  }

  // ---------------------------------------------------------------- dependencies and tables

  /** `Dependency`: a rule file that only prepares shared temporary tables. A list the file
      leaves out is empty here. */
  datatype Dependency = Dependency(
    defaultSchema: Option<string>,
    preInit: seq<Query>,
    postInit: seq<Query>,
    scripts: seq<string>,
    dependsOn: seq<string>)

  /** `TargetTable`: a rule file that fills one OMOP table. */
  datatype TargetTable = TargetTable(
    name: string,
    primaryKey: PrimaryKey,
    columns: seq<ColumnRule>,
    defaultSchema: Option<string>,
    preInit: seq<Query>,
    postInit: seq<Query>,
    scripts: seq<string>,
    dependsOn: seq<string>)

  /** `Dependency.default_env`. */
  function DependencyDefaultEnv(d: Dependency): EnvState {
    EnvState(None, None, d.defaultSchema, {}, None, None)
  }

  /** `TargetTable.default_env`: the table, its mapping table `mapping.<name>`, its schema. */
  function TableDefaultEnv(t: TargetTable): EnvState {
    EnvState(Some(t.name), Some("mapping." + t.name), t.defaultSchema, {}, None, None)
  }

  /** Statements with the environment they leave behind. */
  datatype Translation = Translation(statements: seq<Statement>, env: EnvState)

  /** The aliases a list of temporary tables registers. */
  function Aliases(qs: seq<Query>): set<string> {
    set i | 0 <= i < |qs| :: qs[i].alias
  }

  function TempTableStatements(qs: seq<Query>): (r: seq<Statement>)
    ensures |r| == |qs|
    ensures forall i :: 0 <= i < |qs| ==> r[i] == CreateTempTable(qs[i].alias, qs[i].query)
  {
    seq(|qs|, i requires 0 <= i < |qs| => CreateTempTable(qs[i].alias, qs[i].query))
  }

  function ScriptStatements(scripts: seq<string>): (r: seq<Statement>)
    ensures |r| == |scripts|
    ensures forall i :: 0 <= i < |scripts| ==> r[i] == Script(scripts[i])
  {
    seq(|scripts|, i requires 0 <= i < |scripts| => Script(scripts[i]))
  }

  /** `translate_pre_init`: the scripts verbatim, then the pre-init temporary tables, each
      registered in the environment. */
  function PreInitSpec(scripts: seq<string>, preInit: seq<Query>, s: EnvState): Translation {
    Translation(ScriptStatements(scripts) + TempTableStatements(preInit), s.(tempTables := s.tempTables + Aliases(preInit)))
  }

  /** What pre-init does: a script statement per script, then a temporary table per query, in
      order; in the environment only the temporary tables change, gaining exactly those aliases. */
  lemma {:induction false} PreInitContents(scripts: seq<string>, preInit: seq<Query>, s: EnvState)
    ensures var r := PreInitSpec(scripts, preInit, s);
      && |r.statements| == |scripts| + |preInit|
      && (forall i :: 0 <= i < |scripts| ==> r.statements[i] == Script(scripts[i]))
      && (forall i :: 0 <= i < |preInit| ==> r.statements[|scripts| + i] == CreateTempTable(preInit[i].alias, preInit[i].query))
      && r.env.(tempTables := s.tempTables) == s
      && (forall a :: a in r.env.tempTables <==> a in s.tempTables || exists i :: 0 <= i < |preInit| && preInit[i].alias == a)
  {
  }

  /** `translate_post_init`: the post-init temporary tables, each registered. */
  function PostInitSpec(postInit: seq<Query>, s: EnvState): Translation {
    Translation(TempTableStatements(postInit), s.(tempTables := s.tempTables + Aliases(postInit)))
  }

  /** What post-init does: a temporary table per query, in order; in the environment only the
      temporary tables change, gaining exactly those aliases. */
  lemma {:induction false} PostInitContents(postInit: seq<Query>, s: EnvState)
    ensures var r := PostInitSpec(postInit, s);
      && |r.statements| == |postInit|
      && (forall i :: 0 <= i < |postInit| ==> r.statements[i] == CreateTempTable(postInit[i].alias, postInit[i].query))
      && r.env.(tempTables := s.tempTables) == s
      && (forall a :: a in r.env.tempTables <==> a in s.tempTables || exists i :: 0 <= i < |postInit| && postInit[i].alias == a)
  {
  }

  /** `Dependency.translate`: pre-init, then post-init. */
  function DependencySpec(d: Dependency, s: EnvState): Translation {
    var pre := PreInitSpec(d.scripts, d.preInit, s);
    var post := PostInitSpec(d.postInit, pre.env);
    Translation(pre.statements + post.statements, post.env)
  }

  /** `PrimaryKey.update_environment`. */
  function UpdatedEnvironment(pk: PrimaryKey, s: EnvState): EnvState
    requires s.targetTable.Some? && s.mappingTable.Some?
  {
    s.(pkConstraints := Some(PkConstraints(pk.name, pk.sources, s)))
  }

  /** `PrimaryKey.translate`. */
  function PrimaryKeySpec(pk: PrimaryKey, s: EnvState): Translation
    requires s.targetTable.Some? && s.mappingTable.Some?
  {
    var s' := UpdatedEnvironment(pk, s);
    Translation(PrimaryKeyStatements(pk, s'), s')
  }

  /** `translate_initialization`: pre-init, the primary key, post-init. */
  function InitializationSpec(t: TargetTable, s: EnvState): Translation
    requires s.targetTable.Some? && s.mappingTable.Some?
  {
    var pre := PreInitSpec(t.scripts, t.preInit, s);
    var key := PrimaryKeySpec(t.primaryKey, pre.env);
    var post := PostInitSpec(t.postInit, key.env);
    Translation(pre.statements + key.statements + post.statements, post.env)
  }

  /** The order of initialization: the scripts verbatim come first, then the pre-init
      temporary tables, then the statements of the primary key (an optional drop, the create,
      one insert per source and the insert of the target rows), and the post-init temporary
      tables come last. */
  lemma {:induction false} InitializationOrder(t: TargetTable, s: EnvState)
    requires s.targetTable.Some? && s.mappingTable.Some?
    ensures var r := InitializationSpec(t, s).statements;
            var n := |t.scripts| + |t.preInit|;
            |r| == n + (if s.dropTables == Some(true) then 1 else 0) + |t.primaryKey.sources| + 2 + |t.postInit| &&
            r[..|t.scripts|] == ScriptStatements(t.scripts) &&
            r[|t.scripts|..n] == TempTableStatements(t.preInit) &&
            r[|r| - |t.postInit|..] == TempTableStatements(t.postInit)
  {
    var pre := PreInitSpec(t.scripts, t.preInit, s);
    var key := PrimaryKeySpec(t.primaryKey, pre.env);
    var post := PostInitSpec(t.postInit, key.env);
    var sc, pi, b, c := ScriptStatements(t.scripts), TempTableStatements(t.preInit), key.statements, post.statements;
    assert pre.env.dropTables == s.dropTables;
    assert |b| == (if s.dropTables == Some(true) then 1 else 0) + |t.primaryKey.sources| + 2 by {
      PrimaryKeyStatementsOrder(t.primaryKey, UpdatedEnvironment(t.primaryKey, pre.env));
    }
    assert c == TempTableStatements(t.postInit);
    var r := InitializationSpec(t, s).statements;
    assert r == sc + pi + b + c;
    FourParts(sc, pi, b, c);
  }

  /** Where the first, second and last of four joined runs sit. */
  lemma {:induction false} FourParts<T>(w: seq<T>, x: seq<T>, y: seq<T>, z: seq<T>)
    ensures var r := w + x + y + z;
            r[..|w|] == w && r[|w|..|w| + |x|] == x && r[|r| - |z|..] == z
  {
    var r := w + x + y + z;
    assert r == (w + x) + (y + z);
    assert r[..|w| + |x|] == w + x;
    assert r[|w|..|w| + |x|] == (w + x)[|w|..];
  }

  /** What initialization leaves in the environment: every temporary table registered, the
      constraints of exactly the key's sources, computed with the pre-init tables registered
      but not the post-init ones; the other keys untouched. */
  lemma {:induction false} InitializationEnv(t: TargetTable, s: EnvState)
    requires s.targetTable.Some? && s.mappingTable.Some?
    ensures var e := InitializationSpec(t, s).env;
            e.targetTable == s.targetTable && e.mappingTable == s.mappingTable &&
            e.defaultSchema == s.defaultSchema && e.dropTables == s.dropTables &&
            e.tempTables == s.tempTables + Aliases(t.preInit) + Aliases(t.postInit) &&
            e.pkConstraints == Some(PkConstraints(t.primaryKey.name, t.primaryKey.sources,
                                                  s.(tempTables := s.tempTables + Aliases(t.preInit)))) &&
            e.pkConstraints.value.Keys == KeySet(t.primaryKey.sources)
  {
  }

  /** `TargetTable.translate`: initialization when asked for, then every column when asked for,
      the columns reading the environment that initialization left. */
  function TableSpec(t: TargetTable, s: EnvState, includeInit: bool, includeProcess: bool): (r: Result<Translation, TranslateError>)
    requires includeInit ==> s.targetTable.Some? && s.mappingTable.Some?
    requires includeProcess && !includeInit ==> ColumnsReady(t.columns, s)
    ensures r.Err? ==> includeProcess
    ensures r.Ok? && includeInit ==> r.value.env == InitializationSpec(t, s).env
  {
    var init := if includeInit then InitializationSpec(t, s) else Translation([], s);
    if !includeProcess then Ok(init)
    else
      assert ColumnsReady(t.columns, init.env);
      match ColumnPhase(t.columns, init.env)
      case Err(e) => Err(e)
      case Ok(ss) => Ok(Translation(init.statements + ss, init.env))
  }

  /** A table whose columns passed validation translates in full without failure, provided no
      dict of references is empty. */
  lemma {:induction false} ValidatedTableTranslates(t: TargetTable, raws: seq<RawColumn>, s: EnvState)
    requires ValidateColumns(t.primaryKey, raws) == Ok(t.columns)
    requires forall i :: 0 <= i < |raws| && raws[i].RawTarget? && raws[i].references.Some? ==>
               ReferenceTarget(raws[i].references.value).Some?
    requires s.targetTable.Some? && s.mappingTable.Some?
    ensures TableSpec(t, s, true, true).Ok?
  {
    InitializationEnv(t, s);
    ValidatedColumnsTranslate(t.primaryKey, raws, t.columns, InitializationSpec(t, s).env);
  }
}
