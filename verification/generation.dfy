/**
 * The SQL statement tree of omop_etl/generation.py and its exact text rendering (`to_sql`).
 * Every node is an immutable value; rendering is a pure function of the node.
 */
module Generation {
  import opened Wrappers
  import opened Strings

  /** An opaque SQL fragment. */
  type Expression = string

  /** A conjunction of fragments; kept in list order, compared as a set. */
  type Criterion = seq<Expression>

  /** `Expression.to_sql`: every newline becomes a space, every other character is kept. */
  function ExpressionToSql(e: Expression): (r: string)
    ensures |r| == |e|
    ensures forall i :: 0 <= i < |e| ==> r[i] == (if e[i] == '\n' then ' ' else e[i])
  {
    if |e| == 0 then "" else [if e[0] == '\n' then ' ' else e[0]] + ExpressionToSql(e[1..])
  }

  /** The rendered fragment holds no newline, rendering it again changes nothing, and a fragment
      without newlines renders as itself. */
  lemma {:induction false} ExpressionToSqlNormalises(e: Expression)
    ensures '\n' !in ExpressionToSql(e)
    ensures ExpressionToSql(ExpressionToSql(e)) == ExpressionToSql(e)
    ensures '\n' !in e ==> ExpressionToSql(e) == e
  {
    var r := ExpressionToSql(e);
    assert forall i :: 0 <= i < |r| ==> r[i] != '\n';
    assert '\n' !in e ==> forall i :: 0 <= i < |e| ==> e[i] != '\n';
  }

  /** Each fragment of a criterion wrapped in parentheses, in list order. */
  function Parenthesized(c: Criterion): (r: seq<string>)
    ensures |r| == |c|
    ensures forall i :: 0 <= i < |c| ==> r[i] == "(" + c[i] + ")"
  {
    seq(|c|, i requires 0 <= i < |c| => "(" + c[i] + ")")
  }

  /** `Criterion.to_sql`: `(e1) and (e2) and ...`. The fragments are used as written (an f-string,
      not `to_sql`), so newlines inside them are kept. */
  function CriterionToSql(c: Criterion): (r: string)
    ensures r == "" <==> |c| == 0
  {
    Join(" and ", Parenthesized(c))
  }

  /** A rendered criterion begins with its first fragment and ends with its last, each in
      parentheses. */
  lemma {:induction false} CriterionToSqlEnds(c: Criterion)
    requires |c| > 0
    ensures StartsWith(CriterionToSql(c), "(" + c[0] + ")")
    ensures EndsWith(CriterionToSql(c), "(" + c[|c| - 1] + ")")
  {
    JoinEnds(" and ", Parenthesized(c));
  }

  /** Rendering follows the criterion's own list order: a one-element criterion is its
      parenthesised fragment, and appending a fragment appends ` and (e)`. */
  lemma {:induction false} CriterionToSqlOrder(c: Criterion, e: Expression)
    ensures CriterionToSql([e]) == "(" + e + ")"
    ensures |c| > 0 ==> CriterionToSql(c + [e]) == CriterionToSql(c) + " and (" + e + ")"
  {
    assert Parenthesized([e]) == ["(" + e + ")"];
    if |c| > 0 {
      assert Parenthesized(c + [e]) == Parenthesized(c) + ["(" + e + ")"];
      JoinSnoc(" and ", Parenthesized(c), "(" + e + ")");
    }
  }

  /** Rendering two non-empty criteria one after the other is rendering their concatenation. */
  lemma {:induction false} CriterionToSqlConcat(a: Criterion, b: Criterion)
    requires |a| > 0 && |b| > 0
    ensures CriterionToSql(a + b) == CriterionToSql(a) + " and " + CriterionToSql(b)
  {
    assert Parenthesized(a + b) == Parenthesized(a) + Parenthesized(b);
    JoinConcat(" and ", Parenthesized(a), Parenthesized(b));
  }

  /** The set of fragments of a criterion (Python's `set(self)`). */
  function Fragments(c: Criterion): set<Expression> {
    set e | e in c
  }

  /** `Criterion.__eq__`: equal when the two hold the same fragments, in any order, any number of times. */
  predicate CriterionEquals(a: Criterion, b: Criterion)
    ensures CriterionEquals(a, b) <==> forall e :: e in a <==> e in b
  {
    assert forall e :: e in Fragments(a) <==> e in a;
    assert forall e :: e in Fragments(b) <==> e in b;
    Fragments(a) == Fragments(b)
  }

  /** Reordering a criterion keeps it equal; repeating one of its fragments keeps it equal. */
  lemma {:induction false} CriterionEqualsIgnoresOrder(a: Criterion, b: Criterion, i: nat)
    requires multiset(a) == multiset(b)
    ensures CriterionEquals(a, b)
    ensures i < |a| ==> CriterionEquals(a + [a[i]], a)
  {
    forall e ensures e in a <==> e in b {
      assert e in a <==> e in multiset(a);
      assert e in b <==> e in multiset(b);
    }
  }

  /** Equality is order-blind but rendering is not: `[a, b]` equals `[b, a]` and renders differently. */
  lemma {:induction false} CriterionEqualityIsNotTextual()
    ensures CriterionEquals(["a", "b"], ["b", "a"])
    ensures CriterionToSql(["a", "b"]) == "(a) and (b)"
    ensures CriterionToSql(["b", "a"]) == "(b) and (a)"
  {
    assert Fragments(["a", "b"]) == {"a", "b"};
    assert Fragments(["b", "a"]) == {"a", "b"};
    assert "(" + "a" + ")" == "(a)" && "(" + "b" + ")" == "(b)";
    assert Parenthesized(["a", "b"]) == ["(a)", "(b)"];
    assert Parenthesized(["b", "a"]) == ["(b)", "(a)"];
    assert ["(a)", "(b)"][1..] == ["(b)"];
    assert ["(b)", "(a)"][1..] == ["(a)"];
  }

  /** `Table` (a name with an optional schema) and `QueryTable` (an aliased inline query): both
      stand in FROM lists, so they share one type. */
  datatype Table =
    | Table(alias: string, schema: Option<string>)
    | QueryTable(alias: string, query: string)

  /** `Table.to_sql` and `QueryTable.to_sql`. */
  function TableToSql(t: Table): string {
    match t
    case Table(alias, schema) => if schema.None? then alias else schema.value + "." + alias
    case QueryTable(alias, query) => "(" + ExpressionToSql(query) + ") as " + alias
  }

  /** A named table renders as its bare alias without a schema and as `schema.alias` with one;
      a query table renders as `(q) as alias` where q is the query with newlines flattened. */
  lemma {:induction false} TableToSqlShape(t: Table)
    ensures t.Table? && t.schema.None? ==> TableToSql(t) == t.alias
    ensures t.Table? && t.schema.Some? ==> TableToSql(t) == t.schema.value + "." + t.alias
    ensures t.QueryTable? ==>
      var q := TableToSql(t)[1..|t.query| + 1];
      && TableToSql(t) == "(" + q + ") as " + t.alias
      && |q| == |t.query| && '\n' !in q
      && (forall i :: 0 <= i < |q| && t.query[i] != '\n' ==> q[i] == t.query[i])
  {
    if t.QueryTable? {
      ExpressionToSqlNormalises(t.query);
      var r := TableToSql(t);
      assert r[1..|t.query| + 1] == ExpressionToSql(t.query);
    }
  }

  /** Several tables rendered one by one. */
  function TablesToSql(ts: seq<Table>): (r: seq<string>)
    ensures |r| == |ts|
    ensures forall i :: 0 <= i < |ts| ==> r[i] == TableToSql(ts[i])
  {
    seq(|ts|, i requires 0 <= i < |ts| => TableToSql(ts[i]))
  }

  /** `Column`: a name in a table. An update reads its table and name directly. */
  datatype Column = Column(name: string, table: Table)

  /** `ColumnDefinition`: a column of a CREATE TABLE, always nullable. */
  datatype ColumnDefinition = ColumnDefinition(name: string, dataType: string)

  function ColumnDefinitionToSql(d: ColumnDefinition): string {
    d.name + " " + d.dataType + " null"
  }

  /** The column list of a CREATE TABLE: the definitions joined by `, `. */
  function DefinitionsToSql(defs: seq<ColumnDefinition>): string {
    Join(", ", seq(|defs|, i requires 0 <= i < |defs| => ColumnDefinitionToSql(defs[i])))
  }

  /** `SelectStatement`. */
  datatype SelectStatement = SelectStatement(expressions: seq<Expression>, source: seq<Table>, criterion: Option<Criterion>)

  /** `SelectStatement.to_sql`. */
  function SelectToSql(s: SelectStatement): string {
    var sel := Join(", ", seq(|s.expressions|, i requires 0 <= i < |s.expressions| => ExpressionToSql(s.expressions[i])));
    var frm := Join(", ", TablesToSql(s.source));
    if s.criterion.None? then "select " + sel + " from " + frm + ";"
    else "select " + sel + " from " + frm + " where " + CriterionToSql(s.criterion.value) + ";"
  }

  /** Without a criterion a select ends in `;`; giving it criterion c inserts exactly ` where <c>`
      before that `;` and changes nothing else. */
  lemma {:induction false} SelectWhereClause(s: SelectStatement, c: Criterion)
    ensures var plain := SelectToSql(s.(criterion := None));
      && |plain| > 0 && plain[|plain| - 1] == ';'
      && SelectToSql(s.(criterion := Some(c))) == plain[..|plain| - 1] + " where " + CriterionToSql(c) + ";"
  {
  }

  /** A select reads `select ...` and is closed by `;`. */
  lemma {:induction false} SelectText(s: SelectStatement)
    ensures StartsWith(SelectToSql(s), "select ") && EndsWith(SelectToSql(s), ";")
  {
  }

  /** The statements of generation.py, plus the verbatim `Script` that schema.py emits. */
  datatype Statement =
    | DropTable(table: Table)
    | CreateTable(primaryKey: string, table: Table, definitions: seq<ColumnDefinition>)
    | CreateTempTable(alias: string, query: string)
    | Select(select: SelectStatement)
    | InsertFrom(columns: seq<string>, target: Table, source: SelectStatement)
    | Update(column: Column, expression: Expression, criterion: Option<Criterion>, fromTables: Option<seq<Table>>)
    | Script(text: string)

  /** `UpdateStatement.to_sql`: the clauses `update T set c = e`, `from ...`, `where ...`,
      joined by single spaces and closed by `;`. */
  function UpdateToSql(column: Column, expression: Expression, criterion: Option<Criterion>, fromTables: Option<seq<Table>>): string {
    var head := ["update " + TableToSql(column.table) + " set " + column.name + " = " + ExpressionToSql(expression)];
    var frm := if fromTables.Some? then ["from " + Join(", ", TablesToSql(fromTables.value))] else [];
    var whr := if criterion.Some? then ["where " + CriterionToSql(criterion.value)] else [];
    Join(" ", head + frm + whr) + ";"
  }

  /** The text of every statement. */
  function StatementToSql(s: Statement): string {
    match s
    case DropTable(t) => "drop table if exists " + TableToSql(t) + ";"
    case CreateTable(_, t, defs) =>
      "create table " + TableToSql(t) + " (id serial PRIMARY KEY, " + DefinitionsToSql(defs) + ");"
    case CreateTempTable(alias, query) => "create temp table " + alias + " as " + query + ";"
    case Select(sel) => SelectToSql(sel)
    case InsertFrom(cols, target, source) =>
      "insert into " + TableToSql(target) + " (" + Join(", ", cols) + ") " + SelectToSql(source)
    case Update(column, expression, criterion, fromTables) => UpdateToSql(column, expression, criterion, fromTables)
    case Script(text) => text
  }

  /** The words every statement of a kind begins with; a script has none. */
  function Keyword(s: Statement): string {
    match s
    case DropTable(_) => "drop table if exists "
    case CreateTable(_, _, _) => "create table "
    case CreateTempTable(_, _) => "create temp table "
    case Select(_) => "select "
    case InsertFrom(_, _, _) => "insert into "
    case Update(_, _, _, _) => "update "
    case Script(_) => ""
  }

  /** Every statement's text begins with the keyword of its kind; every statement but a script
      is closed by `;`, and a script is its own text. */
  lemma {:induction false} StatementKeyword(s: Statement)
    ensures StartsWith(StatementToSql(s), Keyword(s))
    ensures !s.Script? ==> EndsWith(StatementToSql(s), ";")
    ensures s.Script? ==> StatementToSql(s) == s.text
  {
    match s
    case DropTable(t) => Affixes("drop table if exists ", TableToSql(t), ";");
    case CreateTable(_, t, defs) =>
      var k := "create table ";
      StartsWithBefore(k, TableToSql(t), k);
      StartsWithBefore(k + TableToSql(t), " (id serial PRIMARY KEY, ", k);
      StartsWithBefore(k + TableToSql(t) + " (id serial PRIMARY KEY, ", DefinitionsToSql(defs), k);
      Affixes(k + TableToSql(t) + " (id serial PRIMARY KEY, " + DefinitionsToSql(defs), ")", ";");
      StartsWithTrans(StatementToSql(s), k + TableToSql(t) + " (id serial PRIMARY KEY, " + DefinitionsToSql(defs), k);
    case CreateTempTable(alias, query) =>
      var k := "create temp table ";
      StartsWithBefore(k, alias, k);
      StartsWithBefore(k + alias, " as ", k);
      StartsWithBefore(k + alias + " as ", query, k);
      StartsWithBefore(k + alias + " as " + query, ";", k);
      Affixes(k + alias + " as ", query, ";");
    case Select(sel) => SelectText(sel);
    case InsertFrom(cols, target, source) =>
      var k := "insert into ";
      StartsWithBefore(k, TableToSql(target), k);
      StartsWithBefore(k + TableToSql(target), " (", k);
      StartsWithBefore(k + TableToSql(target) + " (", Join(", ", cols), k);
      StartsWithBefore(k + TableToSql(target) + " (" + Join(", ", cols), ") ", k);
      StartsWithBefore(k + TableToSql(target) + " (" + Join(", ", cols) + ") ", SelectToSql(source), k);
      SelectText(source);
      EndsWithAfter(k + TableToSql(target) + " (" + Join(", ", cols) + ") ", SelectToSql(source), ";");
    case Update(column, expression, criterion, fromTables) =>
      UpdateText(column, expression, criterion, fromTables);
      var k := "update ";
      StartsWithBefore(k, TableToSql(column.table), k);
      StartsWithBefore(k + TableToSql(column.table), " set ", k);
      StartsWithBefore(k + TableToSql(column.table) + " set ", column.name, k);
      StartsWithBefore(k + TableToSql(column.table) + " set " + column.name, " = ", k);
      StartsWithTrans(StatementToSql(s), k + TableToSql(column.table) + " set " + column.name + " = ", k);
    case Script(_) =>
  }

  /** A select of one expression from one table, without a criterion. */
  lemma {:induction false} SelectOneText(e: Expression, t: Table)
    ensures SelectToSql(SelectStatement([e], [t], None)) == "select " + ExpressionToSql(e) + " from " + TableToSql(t) + ";"
  {
    assert TablesToSql([t]) == [TableToSql(t)];
    assert seq(1, i requires 0 <= i < 1 => ExpressionToSql([e][i])) == [ExpressionToSql(e)];
  }

  /** An update with neither a `from` list nor a `where` clause is its head and `;`. */
  lemma {:induction false} PlainUpdateText(column: Column, expression: Expression)
    ensures UpdateToSql(column, expression, None, None)
         == "update " + TableToSql(column.table) + " set " + column.name + " = " + ExpressionToSql(expression) + ";"
  {
    var head: seq<string> := ["update " + TableToSql(column.table) + " set " + column.name + " = " + ExpressionToSql(expression)];
    assert head + [] + [] == head;
  }

  /** An update begins with `update T set c = ` and is closed by `;`. */
  lemma {:induction false} UpdateText(column: Column, expression: Expression, criterion: Option<Criterion>, fromTables: Option<seq<Table>>)
    ensures StartsWith(UpdateToSql(column, expression, criterion, fromTables), "update " + TableToSql(column.table) + " set " + column.name + " = ")
    ensures EndsWith(UpdateToSql(column, expression, criterion, fromTables), ";")
  {
    var p := "update " + TableToSql(column.table) + " set " + column.name + " = ";
    var head := [p + ExpressionToSql(expression)];
    var frm := if fromTables.Some? then ["from " + Join(", ", TablesToSql(fromTables.value))] else [];
    var whr := if criterion.Some? then ["where " + CriterionToSql(criterion.value)] else [];
    var parts := head + frm + whr;
    JoinEnds(" ", parts);
    assert parts[0] == p + ExpressionToSql(expression);
    StartsWithBefore(p, ExpressionToSql(expression), p);
    StartsWithTrans(Join(" ", parts), parts[0], p);
    StartsWithBefore(Join(" ", parts), ";", p);
    Affixes(Join(" ", parts), "", ";");
    assert Join(" ", parts) + "" + ";" == Join(" ", parts) + ";";
  }

  /** An update has a FROM clause exactly when it has source tables and a WHERE clause exactly when
      it has a criterion: the bare update is `update T set c = e;`, and FROM inserts ` from t1, t2`
      and WHERE inserts ` where <c>`, in that order, before the single closing `;`. */
  lemma {:induction false} UpdateClauses(column: Column, expression: Expression, criterion: Option<Criterion>, fromTables: Option<seq<Table>>)
    ensures var head := "update " + TableToSql(column.table) + " set " + column.name + " = " + ExpressionToSql(expression);
      && UpdateToSql(column, expression, None, None) == head + ";"
      && UpdateToSql(column, expression, criterion, fromTables)
         == head
            + (if fromTables.Some? then " from " + Join(", ", TablesToSql(fromTables.value)) else "")
            + (if criterion.Some? then " where " + CriterionToSql(criterion.value) else "")
            + ";"
  {
    var head := "update " + TableToSql(column.table) + " set " + column.name + " = " + ExpressionToSql(expression);
    JoinClauses(head, [], []);
    var f := if fromTables.Some? then Join(", ", TablesToSql(fromTables.value)) else "";
    var w := if criterion.Some? then CriterionToSql(criterion.value) else "";
    ClauseText(head, fromTables.Some?, f, criterion.Some?, w);
  }

  /** The optional clauses as spaced text. */
  lemma {:induction false} ClauseText(head: string, hasFrom: bool, f: string, hasWhere: bool, w: string)
    ensures Join(" ", [head] + (if hasFrom then ["from " + f] else []) + (if hasWhere then ["where " + w] else []))
         == head + (if hasFrom then " from " + f else "") + (if hasWhere then " where " + w else "")
  {
    var frm := if hasFrom then ["from " + f] else [];
    var whr := if hasWhere then ["where " + w] else [];
    JoinClauses(head, frm, whr);
    assert hasFrom ==> " " + ("from " + f) == " from " + f;
    assert hasWhere ==> " " + ("where " + w) == " where " + w;
  }

  /** Joining a head clause and at most two optional clauses with single spaces. */
  lemma {:induction false} JoinClauses(head: string, frm: seq<string>, whr: seq<string>)
    requires |frm| <= 1 && |whr| <= 1
    ensures Join(" ", [head] + frm + whr)
         == head + (if |frm| == 1 then " " + frm[0] else "") + (if |whr| == 1 then " " + whr[0] else "")
  {
    if |frm| == 1 && |whr| == 1 {
      assert [head] + frm + whr == [head, frm[0], whr[0]];
      assert [head, frm[0], whr[0]][1..] == [frm[0], whr[0]];
      assert [frm[0], whr[0]][1..] == [whr[0]];
    } else if |frm| == 1 {
      assert [head] + frm + whr == [head, frm[0]];
      assert [head, frm[0]][1..] == [frm[0]];
    } else if |whr| == 1 {
      assert [head] + frm + whr == [head, whr[0]];
      assert [head, whr[0]][1..] == [whr[0]];
    } else {
      assert [head] + frm + whr == [head];
    }
  }

  /** An INSERT ... SELECT is `insert into T (c1, c2) ` followed by the select's own text
      unchanged: its only `;` is the select's. */
  lemma {:induction false} InsertEmbedsSelect(cols: seq<string>, target: Table, source: SelectStatement)
    ensures var r := StatementToSql(InsertFrom(cols, target, source));
      var sel := SelectToSql(source);
      && |r| > |sel|
      && r[..|r| - |sel|] == "insert into " + TableToSql(target) + " (" + Join(", ", cols) + ") "
      && r[|r| - |sel|..] == sel
      && r[|r| - 1] == ';'
  {
    SelectWhereClause(source, if source.criterion.Some? then source.criterion.value else []);
  }

  /** The primary-key name of a CREATE TABLE never reaches the text; with no column definitions
      the text keeps a dangling `, ` before the closing parenthesis. */
  lemma {:induction false} CreateTableIgnoresPrimaryKey(pk1: string, pk2: string, t: Table, defs: seq<ColumnDefinition>)
    ensures StatementToSql(CreateTable(pk1, t, defs)) == StatementToSql(CreateTable(pk2, t, defs))
    ensures StatementToSql(CreateTable(pk1, t, [])) == "create table " + TableToSql(t) + " (id serial PRIMARY KEY, );"
  {
  }

  /** The mapping table of a target `baz` with one source `foo` keyed by an integer `id`. */
  lemma {:induction false} CreateTableExample()
    ensures StatementToSql(CreateTable("id", Table("baz", Some("mapping")), [ColumnDefinition("foo_id", "integer")]))
         == "create table mapping.baz (id serial PRIMARY KEY, foo_id integer null);"
  {
    var t := Table("baz", Some("mapping"));
    var d := [ColumnDefinition("foo_id", "integer")];
    calc {
      StatementToSql(CreateTable("id", t, d));
      "create table " + TableToSql(t) + " (id serial PRIMARY KEY, " + DefinitionsToSql(d) + ");";
      { OneDefinitionText(d); }
      "create table " + TableToSql(t) + " (id serial PRIMARY KEY, " + "foo_id integer null" + ");";
      { MappingCreateText("foo_id integer null"); }
      "create table mapping.baz (id serial PRIMARY KEY, " + "foo_id integer null" + ");";
    }
  }

  /** The column list of the single definition `foo_id integer`. */
  lemma {:induction false} OneDefinitionText(d: seq<ColumnDefinition>)
    requires d == [ColumnDefinition("foo_id", "integer")]
    ensures DefinitionsToSql(d) == "foo_id integer null"
  {
    assert ColumnDefinitionToSql(d[0]) == "foo_id integer null";
    assert seq(|d|, i requires 0 <= i < |d| => ColumnDefinitionToSql(d[i])) == ["foo_id integer null"];
  }

  /** The CREATE TABLE text of `mapping.baz` around a given column list. */
  lemma {:induction false} MappingCreateText(cols: string)
    ensures "create table " + TableToSql(Table("baz", Some("mapping"))) + " (id serial PRIMARY KEY, " + cols + ");"
         == "create table mapping.baz (id serial PRIMARY KEY, " + cols + ");"
  {
    assert TableToSql(Table("baz", Some("mapping"))) == "mapping.baz";
    var x := "create table " + "mapping.baz";
    assert x == "create table mapping.baz";
    var y := x + " (id serial PRIMARY KEY, ";
    assert y == "create table mapping.baz (id serial PRIMARY KEY, ";
  }

  /** Two optional criteria compared field-wise, as a dataclass compares them. */
  predicate OptionalCriterionEquals(a: Option<Criterion>, b: Option<Criterion>) {
    (a.None? && b.None?) || (a.Some? && b.Some? && CriterionEquals(a.value, b.value))
  }

  /** Dataclass equality of two selects. */
  predicate SelectEquals(a: SelectStatement, b: SelectStatement) {
    a.expressions == b.expressions && a.source == b.source && OptionalCriterionEquals(a.criterion, b.criterion)
  }

  /** Dataclass equality of two statements: structural, except that criteria compare as sets. */
  predicate StatementEquals(a: Statement, b: Statement)
    ensures a == b ==> StatementEquals(a, b)
    ensures !(a.Select? || a.InsertFrom? || a.Update?) ==> (StatementEquals(a, b) <==> a == b)
    ensures StatementEquals(a, b) ==> a.Select? == b.Select? && a.InsertFrom? == b.InsertFrom? && a.Update? == b.Update?
  {
    match (a, b)
    case (Select(x), Select(y)) => SelectEquals(x, y)
    case (InsertFrom(c1, t1, s1), InsertFrom(c2, t2, s2)) => c1 == c2 && t1 == t2 && SelectEquals(s1, s2)
    case (Update(col1, e1, w1, f1), Update(col2, e2, w2, f2)) =>
      col1 == col2 && e1 == e2 && OptionalCriterionEquals(w1, w2) && f1 == f2
    case _ => a == b
  }

  /** Statement equality is an equivalence, and an update whose criterion is only reordered is
      equal to the original. */
  lemma {:induction false} StatementEqualsIsEquivalence(a: Statement, b: Statement, c: Statement)
    ensures StatementEquals(a, a)
    ensures StatementEquals(a, b) ==> StatementEquals(b, a)
    ensures StatementEquals(a, b) && StatementEquals(b, c) ==> StatementEquals(a, c)
    ensures a.Update? && a.criterion.Some? ==>
      forall w :: multiset(w) == multiset(a.criterion.value) ==> StatementEquals(a, a.(criterion := Some(w)))
  {
    if a.Update? && a.criterion.Some? {
      forall w | multiset(w) == multiset(a.criterion.value)
        ensures StatementEquals(a, a.(criterion := Some(w)))
      {
        CriterionEqualsIgnoresOrder(w, a.criterion.value, 0);
      }
    }
  }
}
