/**
 * The migration unit phpbb_db_migration_data_extensions: what it depends on,
 * the schema it adds (the extensions table) and the one data step it runs
 * (registering the extensions module in the administration panel). Only the
 * declared values are modelled; executing them belongs to the schema mutator
 * and the module registrar.
 */
module ExtensionsMigration {

  /** A column default: the schema arrays use strings and integers. */
  datatype DefaultValue = StrDefault(s: string) | IntDefault(i: int)

  /** 'name' => array(TYPE, default) */
  datatype Column = Column(name: string, columnType: string, default: DefaultValue)

  datatype KeyKind = Unique | Index | Primary

  /** 'name' => array(KIND, column or columns) */
  datatype Key = Key(name: string, kind: KeyKind, columns: seq<string>)

  datatype TableDef = TableDef(name: string, columns: seq<Column>, keys: seq<Key>)

  /** The table-level parts of a schema delta: tables to add and table names to drop. */
  datatype SchemaDelta = SchemaDelta(addTables: seq<TableDef>, dropTables: seq<string>)

  /** The third parameter of module.add: the module basename and its enabled modes. */
  datatype ModuleData = ModuleData(basename: string, modes: seq<string>)

  /** One data step; this unit only uses module.add(area, parent, data). */
  datatype DataStep = ModuleAdd(area: string, parent: string, moduleData: ModuleData)

  datatype MigrationUnit = MigrationUnit(name: string, dependsOn: seq<string>, schema: SchemaDelta, data: seq<DataStep>)

  /** The operation name a data step is dispatched on. */
  function OperationName(step: DataStep): string
  {
    match step
    case ModuleAdd(_, _, _) => "module.add"
  }

  /** EXT_TABLE is a constant defined outside this unit; the model keeps its symbolic name. */
  const ExtTable := "EXT_TABLE"

  function DependsOn(): seq<string>
  {
    ["phpbb_db_migration_data_3_0_11"]
  }

  function UpdateSchema(): SchemaDelta
  {
    SchemaDelta(
      [TableDef(ExtTable,
        [ Column("ext_name", "VCHAR", StrDefault("")),
          Column("ext_active", "BOOL", IntDefault(0)),
          Column("ext_state", "TEXT", StrDefault("")) ],
        [ Key("ext_name", Unique, ["ext_name"]) ])],
      [])
  }

  function UpdateData(): seq<DataStep>
  {
    [ModuleAdd("acp", "ACP_GENERAL_TASKS", ModuleData("extensions", ["main"]))]
  }

  /** The migration class itself: its name and its three declarations. */
  function Extensions(): MigrationUnit
  {
    MigrationUnit("phpbb_db_migration_data_extensions", DependsOn(), UpdateSchema(), UpdateData())
  }

  predicate ColumnDeclared(t: TableDef, column: string)
  {
    exists i :: 0 <= i < |t.columns| && t.columns[i].name == column
  }

  /** Column names and key names are distinct, and every key is over declared columns. */
  predicate WellFormedTable(t: TableDef)
  {
    && (forall i, j :: 0 <= i < j < |t.columns| ==> t.columns[i].name != t.columns[j].name)
    && (forall i, j :: 0 <= i < j < |t.keys| ==> t.keys[i].name != t.keys[j].name)
    && (forall i :: 0 <= i < |t.keys| ==> |t.keys[i].columns| > 0)
    && (forall i, c :: 0 <= i < |t.keys| && c in t.keys[i].columns ==> ColumnDeclared(t, c))
  }

  /** A unit never depends on itself, lists each dependency once, and declares well-formed tables. */
  predicate WellFormed(u: MigrationUnit)
  {
    && u.name !in u.dependsOn
    && (forall i, j :: 0 <= i < j < |u.dependsOn| ==> u.dependsOn[i] != u.dependsOn[j])
    && (forall i :: 0 <= i < |u.schema.addTables| ==> WellFormedTable(u.schema.addTables[i]))
  }

  lemma ExtensionsDependencies()
    ensures Extensions().dependsOn == ["phpbb_db_migration_data_3_0_11"]
    ensures Extensions().name !in Extensions().dependsOn
  {
  }

  lemma ExtensionsSchemaAddsOneTable()
    ensures |Extensions().schema.addTables| == 1
    ensures Extensions().schema.addTables[0].name == ExtTable
    ensures Extensions().schema.dropTables == []
  {
  }

  lemma ExtensionsColumns()
    ensures Extensions().schema.addTables[0].columns ==
      [ Column("ext_name", "VCHAR", StrDefault("")),
        Column("ext_active", "BOOL", IntDefault(0)),
        Column("ext_state", "TEXT", StrDefault("")) ]
  {
  }

  /** The only key is the unique key ext_name, over the declared column ext_name. */
  lemma ExtensionsKey()
    ensures Extensions().schema.addTables[0].keys == [Key("ext_name", Unique, ["ext_name"])]
    ensures ColumnDeclared(Extensions().schema.addTables[0], "ext_name")
  {
    assert Extensions().schema.addTables[0].columns[0].name == "ext_name";
  }

  lemma ExtensionsDataStep()
    ensures |Extensions().data| == 1
    ensures OperationName(Extensions().data[0]) == "module.add"
    ensures Extensions().data[0] == ModuleAdd("acp", "ACP_GENERAL_TASKS", ModuleData("extensions", ["main"]))
  {
  }

  lemma ExtensionsWellFormed()
    ensures WellFormed(Extensions())
  {
    var t := Extensions().schema.addTables[0];
    assert t.columns[0].name == "ext_name";
    assert WellFormedTable(t);
  }
}
