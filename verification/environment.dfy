/**
 * The translation environment of omop_etl/schema.py: a dict with the keys `TargetTable`,
 * `MappingTable`, `DefaultSchema`, `TempTables`, `PrimaryKeyConstraints` and `DropTables`,
 * shared by reference between translation steps and updated in place.
 */
module Environment {
  import opened Wrappers
  import opened Generation

  /** The contents of an environment at one moment. A key the dict does not hold is `None`;
      `DefaultSchema` and `TempTables` are held by every environment the compiler creates. */
  datatype EnvState = EnvState(
    targetTable: Option<string>,
    mappingTable: Option<string>,
    defaultSchema: Option<string>,
    tempTables: set<string>,
    pkConstraints: Option<map<string, Criterion>>,
    dropTables: Option<bool>)

  /** The environment dict itself: one object, mutated by the steps that receive it. */
  class Env {
    var targetTable: Option<string>
    var mappingTable: Option<string>
    var defaultSchema: Option<string>
    var tempTables: set<string>
    var pkConstraints: Option<map<string, Criterion>>
    var dropTables: Option<bool>

    /** A new dict holding the given contents. */
    constructor (s: EnvState)
      ensures State() == s
    {
      targetTable := s.targetTable;
      mappingTable := s.mappingTable;
      defaultSchema := s.defaultSchema;
      tempTables := s.tempTables;
      pkConstraints := s.pkConstraints;
      dropTables := s.dropTables;
    }

    /** The current contents. */
    function State(): EnvState
      reads this
    {
      EnvState(targetTable, mappingTable, defaultSchema, tempTables, pkConstraints, dropTables)
    }
  }
}
