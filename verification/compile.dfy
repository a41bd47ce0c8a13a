/**
 * The one-file compile of omop_etl/__main__.py: translate every dependency rule with its own
 * default environment and record the result under the rule's file name; give every table a
 * fresh default environment, fold the recorded environments of its dependencies into it and
 * initialise it; then translate every table's columns. The script is the dependency SQL, then
 * every table's initialisation, then every table's column statements.
 */
module Compile {
  import opened Wrappers
  import opened Strings
  import opened Generation
  import opened Environment
  import opened Rules
  import opened Translate

  /** A loaded rule file: a target table or, when it does not parse as one, a dependency. */
  datatype Rule = DependencyRule(dependency: Dependency) | TableRule(table: TargetTable)

  // ---------------------------------------------------------------- the merge loop

  /** True when `dep` was compiled and recorded a schema. */
  predicate HasSchema(dep: string, envs: map<string, EnvState>) {
    dep in envs && envs[dep].defaultSchema.Some?
  }

  /** The environment after folding in the recorded environments of `deps`, in order. */
  function MergeSpec(s: EnvState, deps: seq<string>, envs: map<string, EnvState>): (m: EnvState)
    ensures m.targetTable == s.targetTable && m.mappingTable == s.mappingTable
    ensures m.pkConstraints == s.pkConstraints && m.dropTables == s.dropTables
    ensures s.tempTables <= m.tempTables
  {
    if |deps| == 0 then s
    else
      var prev := MergeSpec(s, deps[..|deps| - 1], envs);
      var dep := deps[|deps| - 1];
      if dep !in envs then prev
      else
        var schema := envs[dep].defaultSchema;
        prev.(defaultSchema := if schema.Some? then schema else prev.defaultSchema,
              tempTables := prev.tempTables + envs[dep].tempTables)
  }

  /** The merged temporary tables are the table's own and those of every recorded dependency;
      names that were not compiled contribute nothing. */
  lemma {:induction false} MergeTempTables(s: EnvState, deps: seq<string>, envs: map<string, EnvState>, t: string)
    ensures t in MergeSpec(s, deps, envs).tempTables <==>
              t in s.tempTables || exists i :: 0 <= i < |deps| && deps[i] in envs && t in envs[deps[i]].tempTables
  {
    if |deps| > 0 {
      var n := |deps| - 1;
      MergeTempTables(s, deps[..n], envs, t);
      if exists i :: 0 <= i < |deps| && deps[i] in envs && t in envs[deps[i]].tempTables {
        var i :| 0 <= i < |deps| && deps[i] in envs && t in envs[deps[i]].tempTables;
        if i < n { assert deps[..n][i] == deps[i]; }
      }
      if exists i :: 0 <= i < n && deps[..n][i] in envs && t in envs[deps[..n][i]].tempTables {
        var i :| 0 <= i < n && deps[..n][i] in envs && t in envs[deps[..n][i]].tempTables;
        assert deps[i] == deps[..n][i];
      }
    }
  }

  /** With no recorded dependency that has a schema, the table keeps its own schema. */
  lemma {:induction false} MergeSchemaKept(s: EnvState, deps: seq<string>, envs: map<string, EnvState>)
    requires forall i :: 0 <= i < |deps| ==> !HasSchema(deps[i], envs)
    ensures MergeSpec(s, deps, envs).defaultSchema == s.defaultSchema
  {
    if |deps| > 0 {
      var n := |deps| - 1;
      assert forall i :: 0 <= i < n ==> deps[..n][i] == deps[i];
      MergeSchemaKept(s, deps[..n], envs);
    }
  }

  /** The last recorded dependency with a schema decides the table's schema. */
  lemma {:induction false} MergeSchemaLastWins(s: EnvState, deps: seq<string>, envs: map<string, EnvState>, i: nat)
    requires i < |deps| && HasSchema(deps[i], envs)
    requires forall j :: i < j < |deps| ==> !HasSchema(deps[j], envs)
    ensures MergeSpec(s, deps, envs).defaultSchema == envs[deps[i]].defaultSchema
  {
    var n := |deps| - 1;
    if i < n {
      assert forall j :: i < j < n ==> deps[..n][j] == deps[j];
      assert deps[..n][i] == deps[i];
      MergeSchemaLastWins(s, deps[..n], envs, i);
      assert !HasSchema(deps[n], envs);
    }
  }

  /** The loop over `depends_on` (lines 71-80): the env is updated in place. */
  method MergeDependencies(env: Env, deps: seq<string>, envs: map<string, EnvState>)
    modifies env
    ensures env.State() == MergeSpec(old(env.State()), deps, envs)
  {
    for i := 0 to |deps|
      invariant env.State() == MergeSpec(old(env.State()), deps[..i], envs)
    {
      var dep := deps[i];
      assert deps[..i + 1][..i] == deps[..i];
      if dep in envs {
        var schema := envs[dep].defaultSchema;
        if schema.Some? {
          env.defaultSchema := schema;
        }
        env.tempTables := env.tempTables + envs[dep].tempTables;
      }
    }
    assert deps[..|deps|] == deps;
  }

  // ---------------------------------------------------------------- the one-file script

  function Dependencies(rules: seq<(string, Rule)>): (r: seq<(string, Dependency)>) {
    if |rules| == 0 then []
    else
      var last := rules[|rules| - 1];
      Dependencies(rules[..|rules| - 1]) + (if last.1.DependencyRule? then [(last.0, last.1.dependency)] else [])
  }

  function Tables(rules: seq<(string, Rule)>): (r: seq<(string, TargetTable)>) {
    if |rules| == 0 then []
    else
      var last := rules[|rules| - 1];
      Tables(rules[..|rules| - 1]) + (if last.1.TableRule? then [(last.0, last.1.table)] else [])
  }

  /** The environments the dependency loop records, by file name; a later file with the same
      name replaces an earlier one. */
  function DependencyEnvs(deps: seq<(string, Dependency)>): map<string, EnvState> {
    if |deps| == 0 then map[]
    else
      var (name, d) := deps[|deps| - 1];
      DependencyEnvs(deps[..|deps| - 1])[name := DependencySpec(d, DependencyDefaultEnv(d)).env]
  }

  /** A file name has an environment exactly when some dependency has that name. */
  lemma {:induction false} DependencyEnvsKeys(deps: seq<(string, Dependency)>, k: string)
    ensures k in DependencyEnvs(deps) <==> exists i :: 0 <= i < |deps| && deps[i].0 == k
  {
    if |deps| > 0 {
      var n := |deps| - 1;
      var init := deps[..n];
      DependencyEnvsKeys(init, k);
      if k in DependencyEnvs(init) {
        var i :| 0 <= i < n && init[i].0 == k;
        assert deps[i].0 == k;
      }
      if exists i :: 0 <= i < |deps| && deps[i].0 == k {
        var i :| 0 <= i < |deps| && deps[i].0 == k;
        if i < n {
          assert init[i].0 == k;
        }
      }
    }
  }

  /** The environment recorded under a name is that of the last dependency with that name,
      translated in its own default environment. */
  lemma {:induction false} DependencyEnvsLastWins(deps: seq<(string, Dependency)>, i: nat)
    requires i < |deps|
    requires forall j :: i < j < |deps| ==> deps[j].0 != deps[i].0
    ensures deps[i].0 in DependencyEnvs(deps)
    ensures DependencyEnvs(deps)[deps[i].0] == DependencySpec(deps[i].1, DependencyDefaultEnv(deps[i].1)).env
  {
    var n := |deps| - 1;
    if i < n {
      var init := deps[..n];
      assert init[i] == deps[i];
      assert forall j :: i < j < n ==> init[j] == deps[j];
      DependencyEnvsLastWins(init, i);
    }
  }

  /** Texts one after another, each followed by a newline, as `script += f"{text}\n"` builds. */
  function Paragraphs(texts: seq<string>): string {
    if |texts| == 0 then "" else Paragraphs(texts[..|texts| - 1]) + texts[|texts| - 1] + "\n"
  }

  /** The dependency part of the script. */
  function DependencyText(deps: seq<(string, Dependency)>): string {
    Paragraphs(seq(|deps|, i requires 0 <= i < |deps| =>
      RenderStatements(DependencySpec(deps[i].1, DependencyDefaultEnv(deps[i].1)).statements)))
  }

  /** A table's environment before initialisation: its default, `DropTables` set to the flag,
      its dependencies folded in. */
  function TableStartEnv(t: TargetTable, dropTables: bool, envs: map<string, EnvState>): (s: EnvState)
    ensures s.targetTable == Some(t.name) && s.mappingTable == Some("mapping." + t.name)
    ensures s.dropTables == Some(dropTables) && s.pkConstraints.None?
  {
    MergeSpec(TableDefaultEnv(t).(dropTables := Some(dropTables)), t.dependsOn, envs)
  }

  /** A table's initialisation in its start environment. */
  function TableInit(t: TargetTable, dropTables: bool, envs: map<string, EnvState>): Translation {
    InitializationSpec(t, TableStartEnv(t, dropTables, envs))
  }

  /** Initialisation leaves every environment key the columns read. */
  lemma {:induction false} TableInitReady(t: TargetTable, dropTables: bool, envs: map<string, EnvState>)
    ensures ColumnsReady(t.columns, TableInit(t, dropTables, envs).env)
  {
    InitializationEnv(t, TableStartEnv(t, dropTables, envs));
  }

  /** The initialisation part of the script. */
  function InitText(tables: seq<(string, TargetTable)>, dropTables: bool, envs: map<string, EnvState>): string {
    Paragraphs(seq(|tables|, i requires 0 <= i < |tables| =>
      RenderStatements(TableInit(tables[i].1, dropTables, envs).statements)))
  }

  /** Each part's statements as text followed by a newline; the first failing part stops. */
  function Lines(parts: seq<Result<seq<Statement>, TranslateError>>): Result<string, TranslateError> {
    if |parts| == 0 then Ok("")
    else
      var n := |parts| - 1;
      match Lines(parts[..n])
      case Err(e) => Err(e)
      case Ok(prev) =>
        match parts[n]
        case Err(e) => Err(e)
        case Ok(ss) => Ok(prev + RenderStatements(ss) + "\n")
  }

  /** A failure of part `i`, after the parts before it succeeded, is the failure of all. */
  lemma {:induction false} LinesStopAt(parts: seq<Result<seq<Statement>, TranslateError>>, i: nat)
    requires i < |parts| && Lines(parts[..i]).Ok? && parts[i].Err?
    ensures Lines(parts) == Err(parts[i].error)
  {
    var n := |parts| - 1;
    var init := parts[..n];
    if i < n {
      assert init[..i] == parts[..i];
      assert init[i] == parts[i];
      LinesStopAt(init, i);
      assert Lines(init) == Err(parts[i].error);
    } else {
      assert init == parts[..i];
    }
  }

  /** The lines succeed exactly when every part does. */
  lemma {:induction false} LinesOk(parts: seq<Result<seq<Statement>, TranslateError>>)
    ensures Lines(parts).Ok? <==> forall i :: 0 <= i < |parts| ==> parts[i].Ok?
  {
    if |parts| > 0 {
      var n := |parts| - 1;
      var init := parts[..n];
      assert forall i :: 0 <= i < n ==> init[i] == parts[i];
      LinesOk(init);
      if forall i :: 0 <= i < |parts| ==> parts[i].Ok? {
        assert forall i :: 0 <= i < n ==> init[i].Ok?;
      }
    }
  }

  /** A table's column statements, in the environment its initialisation left. */
  function TableColumns(t: TargetTable, dropTables: bool, envs: map<string, EnvState>): Result<seq<Statement>, TranslateError> {
    ColumnPhase(t.columns, TableInit(t, dropTables, envs).env)
  }

  /** The column part of the script. */
  function ProcessText(tables: seq<(string, TargetTable)>, dropTables: bool, envs: map<string, EnvState>): Result<string, TranslateError> {
    Lines(seq(|tables|, i requires 0 <= i < |tables| => TableColumns(tables[i].1, dropTables, envs)))
  }

  /** The compile fails exactly when the columns of some table fail to translate. */
  lemma {:induction false} ProcessTextOk(tables: seq<(string, TargetTable)>, dropTables: bool, envs: map<string, EnvState>)
    ensures ProcessText(tables, dropTables, envs).Ok? <==>
              forall i :: 0 <= i < |tables| ==> TableColumns(tables[i].1, dropTables, envs).Ok?
  {
    var parts := seq(|tables|, i requires 0 <= i < |tables| => TableColumns(tables[i].1, dropTables, envs));
    LinesOk(parts);
    assert ProcessText(tables, dropTables, envs) == Lines(parts);
    assert forall i :: 0 <= i < |tables| ==> parts[i] == TableColumns(tables[i].1, dropTables, envs);
  }

  /** The whole one-file script. */
  function CompileSpec(rules: seq<(string, Rule)>, dropTables: bool): Result<string, TranslateError> {
    var deps := Dependencies(rules);
    var tables := Tables(rules);
    var envs := DependencyEnvs(deps);
    match ProcessText(tables, dropTables, envs)
    case Err(e) => Err(e)
    case Ok(process) => Ok(DependencyText(deps) + InitText(tables, dropTables, envs) + process)
  }

  /** The dependency loop (lines 59-65): each dependency translated in a fresh default
      environment, its SQL appended, its environment recorded under its file name. */
  method CompileDependencies(deps: seq<(string, Dependency)>) returns (script: string, envs: map<string, EnvState>)
    ensures script == DependencyText(deps)
    ensures envs == DependencyEnvs(deps)
  {
    ghost var texts := seq(|deps|, i requires 0 <= i < |deps| =>
      RenderStatements(DependencySpec(deps[i].1, DependencyDefaultEnv(deps[i].1)).statements));
    script := "";
    envs := map[];
    for i := 0 to |deps|
      invariant envs == DependencyEnvs(deps[..i])
      invariant script == Paragraphs(texts[..i])
    {
      assert deps[..i + 1][..i] == deps[..i];
      assert texts[..i + 1][..i] == texts[..i];
      var (name, d) := deps[i];
      var stmts, env := TranslateDependency(d, null);
      script := script + RenderStatements(stmts) + "\n";
      envs := envs[name := env.State()];
    }
    assert deps[..|deps|] == deps;
    assert texts[..|deps|] == texts;
  }

  /** One pass of the table loop: a fresh default environment holding the flag, the
      dependencies merged into it, the table initialised in it. */
  method InitializeTable(t: TargetTable, dropTables: bool, envs: map<string, EnvState>, ghost init: Translation)
    returns (text: string, env: Env)
    requires init == TableInit(t, dropTables, envs)
    ensures fresh(env)
    ensures env.State() == init.env
    ensures text == RenderStatements(init.statements)
  {
    env := new Env(TableDefaultEnv(t));
    env.dropTables := Some(dropTables);
    MergeDependencies(env, t.dependsOn, envs);
    assert env.State() == TableStartEnv(t, dropTables, envs);
    text, env := TableInitialization(t, env);
  }

  /** The link between the ghost initialisations and the tables, stated so that it is used only
      where an initialisation is named. */
  ghost predicate InitsOf(tables: seq<(string, TargetTable)>, dropTables: bool, envs: map<string, EnvState>,
                          inits: seq<Translation>)
  {
    |inits| == |tables| &&
    forall k {:trigger TableInit(tables[k].1, dropTables, envs)} :: 0 <= k < |tables| ==>
      inits[k] == TableInit(tables[k].1, dropTables, envs)
  }

  /** The `i`-th pass of the table loop. */
  method InitializeAt(tables: seq<(string, TargetTable)>, dropTables: bool, envs: map<string, EnvState>,
                      ghost inits: seq<Translation>, i: nat)
    returns (text: string, env: Env)
    requires i < |tables| && InitsOf(tables, dropTables, envs, inits)
    ensures fresh(env)
    ensures env.State() == inits[i].env
    ensures text == RenderStatements(inits[i].statements)
  {
    text, env := InitializeTable(tables[i].1, dropTables, envs, inits[i]);
  }

  /** The table loop (lines 67-83): every table initialised in order, its SQL appended, its
      environment kept for the column part (the k-th environment belongs to the k-th table). */
  method InitializeTables(tables: seq<(string, TargetTable)>, dropTables: bool, envs: map<string, EnvState>,
                          ghost inits: seq<Translation>)
    returns (script: string, tableEnvs: seq<Env>)
    requires InitsOf(tables, dropTables, envs, inits)
    ensures script == Paragraphs(seq(|inits|, k requires 0 <= k < |inits| => RenderStatements(inits[k].statements)))
    ensures |tableEnvs| == |tables|
    ensures forall k :: 0 <= k < |tables| ==> fresh(tableEnvs[k]) && tableEnvs[k].State() == inits[k].env
    ensures forall a, b :: 0 <= a < b < |tableEnvs| ==> tableEnvs[a] != tableEnvs[b]
  {
    ghost var texts := seq(|inits|, k requires 0 <= k < |inits| => RenderStatements(inits[k].statements));
    script := "";
    tableEnvs := [];
    for i := 0 to |tables|
      invariant |tableEnvs| == i
      invariant forall k :: 0 <= k < i ==> fresh(tableEnvs[k])
      invariant forall k :: 0 <= k < i ==> tableEnvs[k].State() == inits[k].env
      invariant forall a, b :: 0 <= a < b < i ==> tableEnvs[a] != tableEnvs[b]
      invariant script == Paragraphs(texts[..i])
    {
      assert texts[..i + 1][..i] == texts[..i];
      var init, env := InitializeAt(tables, dropTables, envs, inits, i);
      tableEnvs := tableEnvs + [env];
      script := script + init + "\n";
    }
    assert texts[..|tables|] == texts;
  }

  /** One pass of the column loop: the table's script without initialisation, in the
      environment its initialisation left, as the next line of the column part. */
  method ProcessTable(t: TargetTable, env: Env, ghost part: Result<seq<Statement>, TranslateError>)
    returns (r: Result<string, TranslateError>)
    requires ColumnsReady(t.columns, env.State())
    requires part == ColumnPhase(t.columns, env.State())
    modifies env
    ensures r.Err? <==> part.Err?
    ensures r.Err? ==> r.error == part.error
    ensures r.Ok? ==> r.value == RenderStatements(part.value)
  {
    ghost var spec := TableSpec(t, env.State(), false, true);
    assert spec.Ok? ==> spec.value.statements == [] + part.value == part.value;
    r := TableScript(t, env, false, true);
  }

  /** The column loop (lines 85-88): each table's script without initialisation, in the
      environment its initialisation left, followed by a newline. */
  method ProcessTables(tables: seq<(string, TargetTable)>, tableEnvs: seq<Env>, ghost starts: seq<EnvState>,
                       ghost results: seq<Result<seq<Statement>, TranslateError>>)
    returns (r: Result<string, TranslateError>)
    requires |tableEnvs| == |tables| == |starts| == |results|
    requires forall k :: 0 <= k < |tables| ==> tableEnvs[k].State() == starts[k]
    requires forall k :: 0 <= k < |tables| ==> ColumnsReady(tables[k].1.columns, starts[k])
    requires forall k :: 0 <= k < |tables| ==> results[k] == ColumnPhase(tables[k].1.columns, starts[k])
    requires forall a, b :: 0 <= a < b < |tableEnvs| ==> tableEnvs[a] != tableEnvs[b]
    modifies set k | 0 <= k < |tableEnvs| :: tableEnvs[k]
    ensures r == Lines(results)
  {
    var script := "";
    for i := 0 to |tables|
      invariant forall k :: i <= k < |tables| ==> tableEnvs[k].State() == starts[k]
      invariant Lines(results[..i]) == Ok(script)
    {
      assert results[..i + 1][..i] == results[..i];
      var text := ProcessTable(tables[i].1, tableEnvs[i], results[i]);
      if text.Err? {
        LinesStopAt(results, i);
        return Err(text.error);
      }
      script := script + text.value + "\n";
    }
    assert results[..|results|] == results;
    r := Ok(script);
  }

  /** The initialisations of `tables`, in order. */
  ghost function Inits(tables: seq<(string, TargetTable)>, dropTables: bool, envs: map<string, EnvState>): (r: seq<Translation>)
    ensures InitsOf(tables, dropTables, envs, r)
  {
    seq(|tables|, k requires 0 <= k < |tables| => TableInit(tables[k].1, dropTables, envs))
  }

  /** The initialisation texts of `inits` make up the initialisation part of the script. */
  lemma {:induction false} InitTextOf(tables: seq<(string, TargetTable)>, dropTables: bool, envs: map<string, EnvState>, inits: seq<Translation>)
    requires InitsOf(tables, dropTables, envs, inits)
    ensures Paragraphs(seq(|inits|, k requires 0 <= k < |inits| => RenderStatements(inits[k].statements)))
         == InitText(tables, dropTables, envs)
  {
    var a := seq(|inits|, k requires 0 <= k < |inits| => RenderStatements(inits[k].statements));
    var b := seq(|tables|, k requires 0 <= k < |tables| => RenderStatements(TableInit(tables[k].1, dropTables, envs).statements));
    assert forall k :: 0 <= k < |tables| ==> a[k] == b[k];
    assert a == b;
  }

  /** The environments that `inits` leave are ready for the columns, and the columns translated
      in them make up the column part of the script. */
  lemma {:induction false} ProcessTextOf(tables: seq<(string, TargetTable)>, dropTables: bool, envs: map<string, EnvState>, inits: seq<Translation>)
    requires InitsOf(tables, dropTables, envs, inits)
    ensures forall k :: 0 <= k < |tables| ==> ColumnsReady(tables[k].1.columns, inits[k].env)
    ensures Lines(seq(|inits|, k requires 0 <= k < |inits| => ColumnPhase(tables[k].1.columns, inits[k].env)))
         == ProcessText(tables, dropTables, envs)
  {
    forall k | 0 <= k < |tables|
      ensures ColumnsReady(tables[k].1.columns, inits[k].env)
    {
      TableInitReady(tables[k].1, dropTables, envs);
    }
    var a := seq(|inits|, k requires 0 <= k < |inits| => ColumnPhase(tables[k].1.columns, inits[k].env));
    var b := seq(|tables|, k requires 0 <= k < |tables| => TableColumns(tables[k].1, dropTables, envs));
    assert forall k :: 0 <= k < |tables| ==> a[k] == b[k];
    assert a == b;
  }

  /** `compile` with `one_file` set: the rules in load order, the script returned instead of
      written to `etl.sql`. */
  method CompileOneFile(rules: seq<(string, Rule)>, dropTables: bool) returns (r: Result<string, TranslateError>)
    ensures r == CompileSpec(rules, dropTables)
  {
    var deps := Dependencies(rules);
    var tables := Tables(rules);
    var depText, envs := CompileDependencies(deps);
    var tablesText := CompileTables(tables, dropTables, envs);
    if tablesText.Err? {
      return Err(tablesText.error);
    }
    ghost var init := InitText(tables, dropTables, envs);
    assert depText + tablesText.value == depText + init + (tablesText.value[|init|..]);
    r := Ok(depText + tablesText.value);
  }

  /** The two table loops (lines 67-88): every initialisation, then every column part. */
  method CompileTables(tables: seq<(string, TargetTable)>, dropTables: bool, envs: map<string, EnvState>)
    returns (r: Result<string, TranslateError>)
    ensures r.Err? <==> ProcessText(tables, dropTables, envs).Err?
    ensures r.Err? ==> r.error == ProcessText(tables, dropTables, envs).error
    ensures r.Ok? ==> r.value == InitText(tables, dropTables, envs) + ProcessText(tables, dropTables, envs).value
  {
    ghost var inits := Inits(tables, dropTables, envs);
    var init, tableEnvs := InitializeTables(tables, dropTables, envs, inits);
    InitTextOf(tables, dropTables, envs, inits);
    ProcessTextOf(tables, dropTables, envs, inits);
    ghost var starts := seq(|inits|, k requires 0 <= k < |inits| => inits[k].env);
    ghost var results := seq(|inits|, k requires 0 <= k < |inits| => ColumnPhase(tables[k].1.columns, inits[k].env));
    var process := ProcessTables(tables, tableEnvs, starts, results);
    if process.Err? {
      return Err(process.error);
    }
    r := Ok(init + process.value);
  }
}
