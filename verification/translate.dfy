/**
 * The steps of omop_etl/schema.py that update the environment in place, as methods on `Env`,
 * each proved to produce the statements and the environment its specification in `Rules`
 * describes. A step called without an environment starts from the rule's default one.
 */
module Translate {
  import opened Wrappers
  import opened Strings
  import opened Generation
  import opened Environment
  import opened Rules

  /** `env or self.default_env`: the given environment, else a fresh default one. */
  method OrDefault(env: Env?, defaultEnv: EnvState) returns (e: Env)
    ensures env != null ==> e == env
    ensures env == null ==> fresh(e) && e.State() == defaultEnv
  {
    if env != null {
      e := env;
    } else {
      e := new Env(defaultEnv);
    }
  }

  /** `TempTable.translate`: create the temporary table and register its alias. */
  method TranslateTempTable(q: Query, env: Env) returns (stmts: seq<Statement>)
    modifies env
    ensures stmts == [CreateTempTable(q.alias, q.query)]
    ensures env.State() == old(env.State()).(tempTables := old(env.tempTables) + {q.alias})
  {
    env.tempTables := env.tempTables + {q.alias};
    stmts := [CreateTempTable(q.alias, q.query)];
  }

  /** The loop over `pre_init` or `post_init`. */
  method TranslateTempTables(qs: seq<Query>, env: Env) returns (stmts: seq<Statement>)
    modifies env
    ensures stmts == TempTableStatements(qs)
    ensures env.State() == old(env.State()).(tempTables := old(env.tempTables) + Aliases(qs))
  {
    stmts := [];
    for i := 0 to |qs|
      invariant stmts == TempTableStatements(qs[..i])
      invariant env.State() == old(env.State()).(tempTables := old(env.tempTables) + Aliases(qs[..i]))
    {
      var created := TranslateTempTable(qs[i], env);
      assert Aliases(qs[..i + 1]) == Aliases(qs[..i]) + {qs[i].alias} by {
        assert forall k :: 0 <= k < i ==> qs[..i + 1][k] == qs[..i][k];
      }
      stmts := stmts + created;
    }
    assert qs[..|qs|] == qs;
  }

  /** `translate_pre_init`: `defaultEnv` is the rule's own `default_env`. */
  method TranslatePreInit(scripts: seq<string>, preInit: seq<Query>, env: Env?, defaultEnv: EnvState)
    returns (stmts: seq<Statement>, e: Env)
    modifies env
    ensures env != null ==> e == env && Translation(stmts, e.State()) == PreInitSpec(scripts, preInit, old(env.State()))
    ensures env == null ==> fresh(e) && Translation(stmts, e.State()) == PreInitSpec(scripts, preInit, defaultEnv)
  {
    e := OrDefault(env, defaultEnv);
    stmts := [];
    for i := 0 to |scripts|
      invariant stmts == ScriptStatements(scripts[..i])
    {
      stmts := stmts + [Script(scripts[i])];
    }
    assert scripts[..|scripts|] == scripts;
    var created := TranslateTempTables(preInit, e);
    stmts := stmts + created;
  }

  /** `translate_post_init`. */
  method TranslatePostInit(postInit: seq<Query>, env: Env?, defaultEnv: EnvState)
    returns (stmts: seq<Statement>, e: Env)
    modifies env
    ensures env != null ==> e == env && Translation(stmts, e.State()) == PostInitSpec(postInit, old(env.State()))
    ensures env == null ==> fresh(e) && Translation(stmts, e.State()) == PostInitSpec(postInit, defaultEnv)
  {
    e := OrDefault(env, defaultEnv);
    stmts := TranslateTempTables(postInit, e);
  }

  /** `Dependency.translate`. */
  method TranslateDependency(d: Dependency, env: Env?) returns (stmts: seq<Statement>, e: Env)
    modifies env
    ensures env != null ==> e == env && Translation(stmts, e.State()) == DependencySpec(d, old(env.State()))
    ensures env == null ==> fresh(e) && Translation(stmts, e.State()) == DependencySpec(d, DependencyDefaultEnv(d))
  {
    e := OrDefault(env, DependencyDefaultEnv(d));
    var pre, post;
    pre, e := TranslatePreInit(d.scripts, d.preInit, e, DependencyDefaultEnv(d));
    post, e := TranslatePostInit(d.postInit, e, DependencyDefaultEnv(d));
    stmts := pre + post;
  }

  /** `PrimaryKey.update_environment`: store the join conditions of every source under its tag. */
  method UpdateEnvironment(pk: PrimaryKey, env: Env)
    requires env.targetTable.Some? && env.mappingTable.Some?
    modifies env
    ensures env.State() == UpdatedEnvironment(pk, old(env.State()))
  {
    var constraints: map<string, Criterion> := map[];
    for i := 0 to |pk.sources|
      invariant constraints == PkConstraints(pk.name, pk.sources[..i], env.State())
    {
      var (k, source) := pk.sources[i];
      assert pk.sources[..i + 1][..i] == pk.sources[..i];
      constraints := constraints[k := SourceCriterion(pk.name, source, env.State())];
    }
    assert pk.sources[..|pk.sources|] == pk.sources;
    env.pkConstraints := Some(constraints);
  }

  /** `PrimaryKey.create_table`: collect the mapping columns source by source, column by
      column, then drop (when asked) and create the mapping table. */
  method CreateMappingTable(pk: PrimaryKey, env: Env) returns (stmts: seq<Statement>)
    requires env.targetTable.Some?
    ensures stmts == MappingTableStatements(pk, env.State())
  {
    var columns: seq<ColumnDefinition> := [];
    for i := 0 to |pk.sources|
      invariant columns == MappingColumns(pk.sources[..i])
    {
      var source := pk.sources[i].1;
      var table := source.table.Alias();
      for j := 0 to |source.columns|
        invariant columns == MappingColumns(pk.sources[..i]) + SourceDefinitions(source)[..j]
      {
        var (col, dtype) := source.columns[j];
        columns := columns + [ColumnDefinition(table + "_" + col, dtype)];
        assert SourceDefinitions(source)[..j + 1] == SourceDefinitions(source)[..j] + [SourceDefinitions(source)[j]];
      }
      assert SourceDefinitions(source)[..|source.columns|] == SourceDefinitions(source);
      assert pk.sources[..i + 1][..i] == pk.sources[..i];
    }
    assert pk.sources[..|pk.sources|] == pk.sources;
    var table := Table(env.targetTable.value, Some("mapping"));
    stmts := [];
    if env.dropTables.Some? && env.dropTables.value {
      stmts := stmts + [DropTable(table)];
    }
    stmts := stmts + [CreateTable(pk.name, table, columns)];
  }

  /** `PrimaryKey.translate`: update the environment, create the mapping table, fill it from
      every source, then insert one target row per mapping row. */
  method TranslatePrimaryKey(pk: PrimaryKey, env: Env) returns (stmts: seq<Statement>)
    requires env.targetTable.Some? && env.mappingTable.Some?
    modifies env
    ensures Translation(stmts, env.State()) == PrimaryKeySpec(pk, old(env.State()))
  {
    UpdateEnvironment(pk, env);
    var target := env.targetTable.value;
    stmts := CreateMappingTable(pk, env);
    var inserts: seq<Statement> := [];
    for i := 0 to |pk.sources|
      invariant inserts == PkSourceInserts(pk.sources[..i], env.State())
    {
      inserts := inserts + [PkSourceInsert(pk.sources[i].1, env.State())];
      assert pk.sources[..i + 1][..i] == pk.sources[..i];
    }
    assert pk.sources[..|pk.sources|] == pk.sources;
    var select := SelectStatement(["mapping." + target + ".id"], [Table(target, Some("mapping"))], None);
    stmts := stmts + inserts + [InsertFrom([pk.name], Table(target, Some("omop")), select)];
  }

  /** `TargetTable.translate_initialization`. */
  method TranslateInitialization(t: TargetTable, env: Env?) returns (stmts: seq<Statement>, e: Env)
    requires env != null ==> env.targetTable.Some? && env.mappingTable.Some?
    modifies env
    ensures env != null ==> e == env && Translation(stmts, e.State()) == InitializationSpec(t, old(env.State()))
    ensures env == null ==> fresh(e) && Translation(stmts, e.State()) == InitializationSpec(t, TableDefaultEnv(t))
  {
    e := OrDefault(env, TableDefaultEnv(t));
    var pre, key, post;
    pre, e := TranslatePreInit(t.scripts, t.preInit, e, TableDefaultEnv(t));
    key := TranslatePrimaryKey(t.primaryKey, e);
    post, e := TranslatePostInit(t.postInit, e, TableDefaultEnv(t));
    stmts := pre + key + post;
  }

  /** The loop over the columns in `TargetTable.translate`: each column's statements in
      order; a failing column stops the loop. */
  method TranslateColumns(cols: seq<ColumnRule>, env: Env) returns (r: Result<seq<Statement>, TranslateError>)
    requires ColumnsReady(cols, env.State())
    ensures r == ColumnPhase(cols, env.State())
  {
    var script: seq<Statement> := [];
    for i := 0 to |cols|
      invariant ColumnPhase(cols[..i], env.State()) == Ok(script)
    {
      assert cols[..i + 1][..i] == cols[..i];
      var statements := ColumnStatements(cols[i], env.State());
      if statements.Err? {
        ColumnPhaseStopsAt(cols, i, env.State());
        return Err(statements.error);
      }
      script := script + statements.value;
    }
    assert cols[..|cols|] == cols;
    r := Ok(script);
  }

  /** `TargetTable.translate`: initialization when asked for, then every column in order
      against the environment initialization left. */
  method TranslateTable(t: TargetTable, env: Env?, includeInit: bool, includeProcess: bool)
    returns (r: Result<seq<Statement>, TranslateError>, e: Env)
    requires env != null && includeInit ==> env.targetTable.Some? && env.mappingTable.Some?
    requires env != null && includeProcess && !includeInit ==> ColumnsReady(t.columns, env.State())
    requires env == null && includeProcess && !includeInit ==> ColumnsReady(t.columns, TableDefaultEnv(t))
    modifies env
    ensures env != null ==> e == env
    ensures env == null ==> fresh(e)
    ensures var start := if env == null then TableDefaultEnv(t) else old(env.State());
            var spec := TableSpec(t, start, includeInit, includeProcess);
            (r.Err? <==> spec.Err?) &&
            (r.Err? ==> r.error == spec.error) &&
            (r.Ok? ==> r.value == spec.value.statements && e.State() == spec.value.env)
  {
    ghost var start := if env == null then TableDefaultEnv(t) else env.State();
    e := OrDefault(env, TableDefaultEnv(t));
    ghost var init := if includeInit then InitializationSpec(t, start) else Translation([], start);
    var script: seq<Statement> := [];
    if includeInit {
      script, e := TranslateInitialization(t, e);
    }
    assert Translation(script, e.State()) == init;
    if includeProcess {
      assert ColumnsReady(t.columns, e.State());
      var columns := TranslateColumns(t.columns, e);
      if columns.Err? {
        return Err(columns.error), e;
      }
      script := script + columns.value;
    }
    r := Ok(script);
  }

  /** A failure at column `i`, after the columns before it succeeded, is the failure of the
      whole column phase. */
  lemma {:induction false} ColumnPhaseStopsAt(cols: seq<ColumnRule>, i: nat, s: EnvState)
    requires i < |cols| && ColumnsReady(cols, s)
    requires ColumnPhase(cols[..i], s).Ok? && ColumnStatements(cols[i], s).Err?
    ensures ColumnPhase(cols, s) == Err(ColumnStatements(cols[i], s).error)
  {
    ColumnPhaseAround(cols, i, s);
  }

  /** `f` applied to each element of `s`, in order. */
  function MapSeq<A, B>(f: A -> B, s: seq<A>): seq<B> {
    seq(|s|, i requires 0 <= i < |s| => f(s[i]))
  }

  /** Mapping over two runs one after the other is mapping over each. */
  lemma {:induction false} MapSeqConcat<A, B>(f: A -> B, a: seq<A>, b: seq<A>)
    ensures MapSeq(f, a + b) == MapSeq(f, a) + MapSeq(f, b)
  {
    var ma, mb, mab := MapSeq(f, a), MapSeq(f, b), MapSeq(f, a + b);
    forall i | 0 <= i < |mab| ensures mab[i] == (ma + mb)[i] {
      if i < |a| {
        assert (a + b)[i] == a[i];
      } else {
        assert (a + b)[i] == b[i - |a|];
      }
    }
  }

  /** The texts of a list of statements, in order. */
  function StatementTexts(stmts: seq<Statement>): seq<string> {
    MapSeq(StatementToSql, stmts)
  }

  /** The text of a list of statements, one per line, as `get_script` and `get_initialization`
      write it. */
  function RenderStatements(stmts: seq<Statement>): string {
    Join("\n", StatementTexts(stmts))
  }

  /** Every statement's text occurs in the rendered script. */
  lemma {:induction false} RenderStatementsContains(stmts: seq<Statement>, i: nat)
    requires i < |stmts|
    ensures IsInfix(StatementToSql(stmts[i]), RenderStatements(stmts))
  {
    JoinContainsPart("\n", StatementTexts(stmts), i);
  }

  /** The text of two runs of statements is the two texts on consecutive lines. */
  lemma {:induction false} RenderStatementsConcat(a: seq<Statement>, b: seq<Statement>)
    requires |a| > 0 && |b| > 0
    ensures RenderStatements(a + b) == RenderStatements(a) + "\n" + RenderStatements(b)
  {
    MapSeqConcat(StatementToSql, a, b);
    JoinConcat("\n", StatementTexts(a), StatementTexts(b));
  }

  /** `TargetTable.get_script`. */
  method TableScript(t: TargetTable, env: Env?, includeInit: bool, includeProcess: bool) returns (r: Result<string, TranslateError>)
    requires env != null && includeInit ==> env.targetTable.Some? && env.mappingTable.Some?
    requires env != null && includeProcess && !includeInit ==> ColumnsReady(t.columns, env.State())
    requires env == null && includeProcess && !includeInit ==> ColumnsReady(t.columns, TableDefaultEnv(t))
    modifies env
    ensures var start := if env == null then TableDefaultEnv(t) else old(env.State());
            var spec := TableSpec(t, start, includeInit, includeProcess);
            (r.Err? <==> spec.Err?) && (r.Err? ==> r.error == spec.error) &&
            (r.Ok? ==> r.value == RenderStatements(spec.value.statements))
  {
    var stmts, e := TranslateTable(t, env, includeInit, includeProcess);
    if stmts.Err? {
      return Err(stmts.error);
    }
    r := Ok(RenderStatements(stmts.value));
  }

  /** `TargetTable.get_initialization`. */
  method TableInitialization(t: TargetTable, env: Env?) returns (text: string, e: Env)
    requires env != null ==> env.targetTable.Some? && env.mappingTable.Some?
    modifies env
    ensures env != null ==> (e == env && text == RenderStatements(InitializationSpec(t, old(env.State())).statements)
                             && e.State() == InitializationSpec(t, old(env.State())).env)
    ensures env == null ==> (fresh(e) && text == RenderStatements(InitializationSpec(t, TableDefaultEnv(t)).statements)
                             && e.State() == InitializationSpec(t, TableDefaultEnv(t)).env)
  {
    var stmts;
    stmts, e := TranslateInitialization(t, env);
    text := RenderStatements(stmts);
  }
}
