/**
  * Relationship inference for a generated Eloquent model (src/ModelGenerator.php).
  *
  * For every relation touching the subject table, the generator decides whether
  * the accessor is `hasOne`, `hasMany` or nothing, appends a method fragment to
  * `functions` and, when a kind was chosen, a `@property` line to `properties`.
  * The database catalog is an input: the MySQL, PostgreSQL and SQL Server queries
  * are functions of the table name, and SQLite is modelled down to its pragma rows.
  */
module ModelGeneration {
  import opened PhpStrings
  import opened Inflection

  /** One row of the relation listing. `ref` is the truthiness of the `ref`
      column: '1' when another table holds a foreign key to the subject,
      '0' when the subject holds the foreign key. */
  datatype Relation = Relation(refTable: string, foreignKey: string, localKey: string, ref: bool)

  /** One row of `SHOW KEYS FROM t`, or of the engine's equivalent. */
  datatype KeyRow = KeyRow(keyName: string, columnName: string, nonUnique: int, seqInIndex: int)

  /** The relationship kind held in `$eloquent`: 'hasOne', 'hasMany' or ''. */
  datatype Eloquent = HasOne | HasMany | Unmatched {
    function Name(): string {
      match this
      case HasOne => "hasOne"
      case HasMany => "hasMany"
      case Unmatched => ""
    }

    /** `ucfirst($relation)`. */
    function RelClass(): string {
      match this
      case HasOne => "HasOne"
      case HasMany => "HasMany"
      case Unmatched => ""
    }
  }

  /** A row of `PRAGMA foreign_key_list(t)`. */
  datatype ForeignKeyRow = ForeignKeyRow(table: string, fromColumn: string, toColumn: string)
  /** A row of `PRAGMA index_list(t)`. */
  datatype IndexRow = IndexRow(name: string, unique: bool)
  /** A row of `PRAGMA index_info(i)`; SQLite numbers the columns of an index from 0. */
  datatype IndexColumnRow = IndexColumnRow(seqno: nat, name: string)

  /** What an SQLite database answers to the pragmas and to the `sqlite_master` query. */
  datatype SqliteCatalog = SqliteCatalog(
    foreignKeyList: string -> seq<ForeignKeyRow>,
    tableNames: seq<string>,
    indexList: string -> seq<IndexRow>,
    indexInfo: string -> seq<IndexColumnRow>)

  /** A database connection: its driver name and what each engine's catalog
      queries return for a table. */
  datatype Connection = Connection(
    driver: string,
    mysqlRelations: string -> seq<Relation>,
    mysqlKeys: string -> seq<KeyRow>,
    pgsqlRelations: string -> seq<Relation>,
    pgsqlKeys: string -> seq<KeyRow>,
    sqlsrvRelations: string -> seq<Relation>,
    sqlsrvKeys: string -> seq<KeyRow>,
    sqlite: SqliteCatalog)

  predicate KnownDriver(driver: string) {
    driver == "mysql" || driver == "pgsql" || driver == "sqlite" || driver == "sqlsrv"
  }

  // ---------------------------------------------------------------------------
  // Cardinality from key rows (_getEloquent)
  // ---------------------------------------------------------------------------

  /** The decision a single key row on the foreign-key column makes. */
  function Verdict(k: KeyRow): Eloquent {
    if k.keyName == "PRIMARY" || (k.nonUnique == 0 && k.seqInIndex == 1) then HasOne else HasMany
  }

  /** `j` is the last row of `keys` on column `fk`. */
  predicate IsLastMatch(fk: string, keys: seq<KeyRow>, j: int) {
    0 <= j < |keys| && keys[j].columnName == fk &&
    forall i :: j < i < |keys| ==> keys[i].columnName != fk
  }

  /** The last key row on column `fk`, in provider order. */
  function LastMatch(fk: string, keys: seq<KeyRow>): Option<KeyRow> {
    if keys == [] then None
    else if keys[|keys| - 1].columnName == fk then Some(keys[|keys| - 1])
    else LastMatch(fk, keys[..|keys| - 1])
  }

  /** The kind the key scan settles on: the last matching row decides, and no
      matching row leaves the initial ''. */
  function Cardinality(fk: string, keys: seq<KeyRow>): Eloquent {
    match LastMatch(fk, keys)
    case None => Unmatched
    case Some(k) => Verdict(k)
  }

  /** `_getEloquent`: the scan that overwrites its verdict on every matching row. */
  method GetEloquent(foreignKey: string, tableKeys: seq<KeyRow>) returns (eloquent: Eloquent)
    ensures eloquent == Cardinality(foreignKey, tableKeys)
  {
    eloquent := Unmatched;
    for i := 0 to |tableKeys|
      invariant eloquent == Cardinality(foreignKey, tableKeys[..i])
    {
      var tableKey := tableKeys[i];
      assert tableKeys[..i + 1][..i] == tableKeys[..i];
      if foreignKey == tableKey.columnName {
        eloquent := HasMany;
        if tableKey.keyName == "PRIMARY" {
          eloquent := HasOne;
        } else if tableKey.nonUnique == 0 && tableKey.seqInIndex == 1 {
          eloquent := HasOne;
        }
      }
    }
    assert tableKeys[..|tableKeys|] == tableKeys;
  }

  /** No key row on the column leaves the kind empty, and only then. */
  lemma {:induction false} CardinalityUnmatchedIff(fk: string, keys: seq<KeyRow>)
    ensures Cardinality(fk, keys) == Unmatched <==> forall i :: 0 <= i < |keys| ==> keys[i].columnName != fk
  {
    if keys != [] {
      var init := keys[..|keys| - 1];
      CardinalityUnmatchedIff(fk, init);
      assert forall i :: 0 <= i < |init| ==> init[i] == keys[i];
    }
  }

  /** The last row on the column decides: it gives `hasOne` when it is the primary
      key or the leading column of a unique index, and `hasMany` otherwise. */
  lemma {:induction false} CardinalityByLastRow(fk: string, keys: seq<KeyRow>, j: int)
    requires IsLastMatch(fk, keys, j)
    ensures Cardinality(fk, keys) == Verdict(keys[j])
    ensures Cardinality(fk, keys) == HasOne <==>
              keys[j].keyName == "PRIMARY" || (keys[j].nonUnique == 0 && keys[j].seqInIndex == 1)
    ensures Cardinality(fk, keys) == HasMany <==>
              keys[j].keyName != "PRIMARY" && !(keys[j].nonUnique == 0 && keys[j].seqInIndex == 1)
  {
    if j < |keys| - 1 {
      var init := keys[..|keys| - 1];
      assert init[j] == keys[j];
      CardinalityByLastRow(fk, init, j);
    }
  }

  /** Rows after the last match change nothing; a later match overrides every
      earlier decision (last write wins). */
  lemma {:induction false} CardinalityLaterRows(fk: string, a: seq<KeyRow>, b: seq<KeyRow>)
    ensures (forall i :: 0 <= i < |b| ==> b[i].columnName != fk) ==> Cardinality(fk, a + b) == Cardinality(fk, a)
    ensures (exists i :: 0 <= i < |b| && b[i].columnName == fk) ==> Cardinality(fk, a + b) == Cardinality(fk, b)
  {
    if b != [] {
      var ab := a + b;
      var bInit := b[..|b| - 1];
      assert ab[..|ab| - 1] == a + bInit;
      assert ab[|ab| - 1] == b[|b| - 1];
      CardinalityLaterRows(fk, a, bInit);
      if b[|b| - 1].columnName != fk {
        assert LastMatch(fk, ab) == LastMatch(fk, a + bInit);
        assert LastMatch(fk, b) == LastMatch(fk, bInit);
      }
      if b[|b| - 1].columnName != fk {
        assert forall i :: 0 <= i < |bInit| ==> bInit[i] == b[i];
        if exists i :: 0 <= i < |b| && b[i].columnName == fk {
          var i :| 0 <= i < |b| && b[i].columnName == fk;
          assert bInit[i].columnName == fk;
        }
      }
    } else {
      assert a + b == a;
    }
  }

  // ---------------------------------------------------------------------------
  // Driver dispatch (_getTableRelations, _getTableKeys)
  // ---------------------------------------------------------------------------

  function TableRelations(conn: Connection, table: string): seq<Relation> {
    if conn.driver == "mysql" then conn.mysqlRelations(table)
    else if conn.driver == "pgsql" then conn.pgsqlRelations(table)
    else if conn.driver == "sqlite" then SqliteRelations(conn.sqlite, table)
    else if conn.driver == "sqlsrv" then conn.sqlsrvRelations(table)
    else []
  }

  function TableKeys(conn: Connection, table: string): seq<KeyRow> {
    if conn.driver == "mysql" then conn.mysqlKeys(table)
    else if conn.driver == "pgsql" then conn.pgsqlKeys(table)
    else if conn.driver == "sqlite" then SqliteKeys(conn.sqlite, table)
    else if conn.driver == "sqlsrv" then conn.sqlsrvKeys(table)
    else []
  }

  method GetTableRelations(conn: Connection, table: string) returns (relations: seq<Relation>)
    ensures relations == TableRelations(conn, table)
    ensures !KnownDriver(conn.driver) ==> relations == []
  {
    match conn.driver
    case "mysql" => relations := conn.mysqlRelations(table);
    case "pgsql" => relations := conn.pgsqlRelations(table);
    case "sqlite" => relations := GetSqliteRelations(conn.sqlite, table);
    case "sqlsrv" => relations := conn.sqlsrvRelations(table);
    case _ => relations := [];
  }

  method GetTableKeys(conn: Connection, table: string) returns (keys: seq<KeyRow>)
    ensures keys == TableKeys(conn, table)
    ensures !KnownDriver(conn.driver) ==> keys == []
  {
    match conn.driver
    case "mysql" => keys := conn.mysqlKeys(table);
    case "pgsql" => keys := conn.pgsqlKeys(table);
    case "sqlite" => keys := GetSqliteKeys(conn.sqlite, table);
    case "sqlsrv" => keys := conn.sqlsrvKeys(table);
    case _ => keys := [];
  }

  // ---------------------------------------------------------------------------
  // SQLite relation listing (_getSQLiteRelations)
  // ---------------------------------------------------------------------------

  /** The subject's own foreign keys, as '0' rows pointing at the referenced table. */
  function OutgoingSqlite(fks: seq<ForeignKeyRow>): seq<Relation> {
    if fks == [] then []
    else
      var fk := fks[|fks| - 1];
      OutgoingSqlite(fks[..|fks| - 1]) + [Relation(fk.table, fk.toColumn, fk.fromColumn, false)]
  }

  /** The foreign keys of table `name` that point at `table`, as '1' rows. */
  function IncomingFrom(name: string, fks: seq<ForeignKeyRow>, table: string): seq<Relation> {
    if fks == [] then []
    else
      var fk := fks[|fks| - 1];
      IncomingFrom(name, fks[..|fks| - 1], table) +
        (if fk.table == table then [Relation(name, fk.fromColumn, fk.toColumn, true)] else [])
  }

  /** The second pass: every other table, in `sqlite_master` order. */
  function IncomingSqlite(cat: SqliteCatalog, tables: seq<string>, table: string): seq<Relation> {
    if tables == [] then []
    else
      var name := tables[|tables| - 1];
      IncomingSqlite(cat, tables[..|tables| - 1], table) +
        (if name == table then [] else IncomingFrom(name, cat.foreignKeyList(name), table))
  }

  function SqliteRelations(cat: SqliteCatalog, table: string): seq<Relation> {
    OutgoingSqlite(cat.foreignKeyList(table)) + IncomingSqlite(cat, cat.tableNames, table)
  }

  method GetSqliteRelations(cat: SqliteCatalog, table: string) returns (relations: seq<Relation>)
    ensures relations == SqliteRelations(cat, table)
  {
    var foreignKeys := cat.foreignKeyList(table);
    relations := OutgoingRows(foreignKeys);
    ghost var outgoing := relations;

    var tables := cat.tableNames;
    for t := 0 to |tables|
      invariant relations == outgoing + IncomingSqlite(cat, tables[..t], table)
    {
      var name := tables[t];
      assert tables[..t + 1][..t] == tables[..t];
      if name == table {
        continue;
      }
      var fks := cat.foreignKeyList(name);
      var rows := IncomingRows(name, fks, table);
      AppendAssoc(outgoing, IncomingSqlite(cat, tables[..t], table), rows);
      relations := relations + rows;
    }
    assert tables[..|tables|] == tables;
  }

  /** The first loop of `getSqliteRelations`: one row per foreign key of the subject. */
  method OutgoingRows(foreignKeys: seq<ForeignKeyRow>) returns (relations: seq<Relation>)
    ensures relations == OutgoingSqlite(foreignKeys)
  {
    relations := [];
    for i := 0 to |foreignKeys|
      invariant relations == OutgoingSqlite(foreignKeys[..i])
    {
      var fk := foreignKeys[i];
      assert foreignKeys[..i + 1][..i] == foreignKeys[..i];
      relations := relations + [Relation(fk.table, fk.toColumn, fk.fromColumn, false)];
    }
    assert foreignKeys[..|foreignKeys|] == foreignKeys;
  }

  /** The inner loop of `getSqliteRelations`: the keys of `name` that point at `table`. */
  method IncomingRows(name: string, fks: seq<ForeignKeyRow>, table: string) returns (rows: seq<Relation>)
    ensures rows == IncomingFrom(name, fks, table)
  {
    rows := [];
    for j := 0 to |fks|
      invariant rows == IncomingFrom(name, fks[..j], table)
    {
      var fk := fks[j];
      assert fks[..j + 1][..j] == fks[..j];
      if fk.table == table {
        rows := rows + [Relation(name, fk.fromColumn, fk.toColumn, true)];
      }
    }
    assert fks[..|fks|] == fks;
  }

  /** The first pass yields one '0' row per foreign key of the subject, in
      pragma order, with `foreign_key = to` and `local_key = from`. */
  lemma {:induction false} OutgoingSqliteRows(fks: seq<ForeignKeyRow>)
    ensures |OutgoingSqlite(fks)| == |fks|
    ensures forall i :: 0 <= i < |fks| ==>
              OutgoingSqlite(fks)[i] == Relation(fks[i].table, fks[i].toColumn, fks[i].fromColumn, false)
  {
    if fks != [] {
      OutgoingSqliteRows(fks[..|fks| - 1]);
    }
  }

  lemma {:induction false} IncomingFromRows(name: string, fks: seq<ForeignKeyRow>, table: string)
    ensures forall r :: r in IncomingFrom(name, fks, table) <==>
              exists fk :: fk in fks && fk.table == table && r == Relation(name, fk.fromColumn, fk.toColumn, true)
  {
    if fks != [] {
      var init := fks[..|fks| - 1];
      IncomingFromRows(name, init, table);
      assert fks == init + [fks[|fks| - 1]];
    }
  }

  /** The second pass yields exactly the foreign keys of OTHER tables that point
      at the subject, as '1' rows with `foreign_key = from` and `local_key = to`. */
  lemma {:induction false} IncomingSqliteRows(cat: SqliteCatalog, tables: seq<string>, table: string)
    ensures forall r :: r in IncomingSqlite(cat, tables, table) <==>
              exists name, fk :: name in tables && name != table && fk in cat.foreignKeyList(name) &&
                fk.table == table && r == Relation(name, fk.fromColumn, fk.toColumn, true)
    ensures forall r :: r in IncomingSqlite(cat, tables, table) ==> r.ref && r.refTable != table
  {
    if tables != [] {
      var init := tables[..|tables| - 1];
      var name := tables[|tables| - 1];
      IncomingSqliteRows(cat, init, table);
      IncomingFromRows(name, cat.foreignKeyList(name), table);
      assert tables == init + [name];
    }
  }

  /** The listing is the subject's own foreign keys first, then the incoming
      ones; it is not sorted. */
  lemma SqliteRelationsOrder(cat: SqliteCatalog, table: string)
    ensures var n := |cat.foreignKeyList(table)|;
            var rels := SqliteRelations(cat, table);
            n <= |rels| &&
            (forall i :: 0 <= i < n ==> !rels[i].ref) &&
            (forall i :: n <= i < |rels| ==> rels[i].ref && rels[i].refTable != table)
  {
    OutgoingSqliteRows(cat.foreignKeyList(table));
    IncomingSqliteRows(cat, cat.tableNames, table);
    var n := |cat.foreignKeyList(table)|;
    var rels := SqliteRelations(cat, table);
    var incoming := IncomingSqlite(cat, cat.tableNames, table);
    assert forall i :: n <= i < |rels| ==> rels[i] == incoming[i - n];
  }

  // ---------------------------------------------------------------------------
  // SQLite key rows (_getSQLiteKeys)
  // ---------------------------------------------------------------------------

  function IndexKeys(index: IndexRow, cols: seq<IndexColumnRow>): seq<KeyRow> {
    if cols == [] then []
    else
      var info := cols[|cols| - 1];
      IndexKeys(index, cols[..|cols| - 1]) +
        [KeyRow(index.name, info.name, if index.unique then 0 else 1, info.seqno + 1)]
  }

  function KeysOfIndexes(cat: SqliteCatalog, indexes: seq<IndexRow>): seq<KeyRow> {
    if indexes == [] then []
    else
      var index := indexes[|indexes| - 1];
      KeysOfIndexes(cat, indexes[..|indexes| - 1]) + IndexKeys(index, cat.indexInfo(index.name))
  }

  function SqliteKeys(cat: SqliteCatalog, table: string): seq<KeyRow> {
    KeysOfIndexes(cat, cat.indexList(table))
  }

  method GetSqliteKeys(cat: SqliteCatalog, table: string) returns (keys: seq<KeyRow>)
    ensures keys == SqliteKeys(cat, table)
  {
    var indexes := cat.indexList(table);
    keys := [];
    for i := 0 to |indexes|
      invariant keys == KeysOfIndexes(cat, indexes[..i])
    {
      var index := indexes[i];
      assert indexes[..i + 1][..i] == indexes[..i];
      var indexInfo := cat.indexInfo(index.name);
      for j := 0 to |indexInfo|
        invariant keys == KeysOfIndexes(cat, indexes[..i]) + IndexKeys(index, indexInfo[..j])
      {
        var info := indexInfo[j];
        assert indexInfo[..j + 1][..j] == indexInfo[..j];
        keys := keys + [KeyRow(index.name, info.name, if index.unique then 0 else 1, info.seqno + 1)];
      }
      assert indexInfo[..|indexInfo|] == indexInfo;
    }
    assert indexes[..|indexes|] == indexes;
  }

  /** The row SQLite reports for column `info` of index `index`. */
  function SqliteKeyRow(index: IndexRow, info: IndexColumnRow): KeyRow {
    KeyRow(index.name, info.name, if index.unique then 0 else 1, info.seqno + 1)
  }

  lemma {:induction false} IndexKeysRows(index: IndexRow, cols: seq<IndexColumnRow>)
    ensures |IndexKeys(index, cols)| == |cols|
    ensures forall i :: 0 <= i < |cols| ==> IndexKeys(index, cols)[i] == SqliteKeyRow(index, cols[i])
  {
    if cols != [] {
      IndexKeysRows(index, cols[..|cols| - 1]);
    }
  }

  lemma {:induction false} KeysOfIndexesRows(cat: SqliteCatalog, indexes: seq<IndexRow>)
    ensures forall k :: k in KeysOfIndexes(cat, indexes) <==>
              exists index, info :: index in indexes && info in cat.indexInfo(index.name) && k == SqliteKeyRow(index, info)
  {
    if indexes != [] {
      var init := indexes[..|indexes| - 1];
      var index := indexes[|indexes| - 1];
      KeysOfIndexesRows(cat, init);
      IndexKeysRows(index, cat.indexInfo(index.name));
      assert indexes == init + [index];
      forall k | k in IndexKeys(index, cat.indexInfo(index.name))
        ensures exists info :: info in cat.indexInfo(index.name) && k == SqliteKeyRow(index, info)
      {
        var i :| 0 <= i < |IndexKeys(index, cat.indexInfo(index.name))| && IndexKeys(index, cat.indexInfo(index.name))[i] == k;
        assert cat.indexInfo(index.name)[i] in cat.indexInfo(index.name);
      }
      forall info | info in cat.indexInfo(index.name)
        ensures SqliteKeyRow(index, info) in IndexKeys(index, cat.indexInfo(index.name))
      {
        var i :| 0 <= i < |cat.indexInfo(index.name)| && cat.indexInfo(index.name)[i] == info;
        assert IndexKeys(index, cat.indexInfo(index.name))[i] == SqliteKeyRow(index, info);
      }
    }
  }

  /** SQLite key rows: one per (index, column); `Key_name` is the index name,
      `Non_unique` is 0 exactly for a unique index, `Seq_in_index = seqno + 1 >= 1`. */
  lemma SqliteKeysRows(cat: SqliteCatalog, table: string)
    ensures forall k :: k in SqliteKeys(cat, table) <==>
              exists index, info :: index in cat.indexList(table) && info in cat.indexInfo(index.name) &&
                k == KeyRow(index.name, info.name, if index.unique then 0 else 1, info.seqno + 1)
    ensures forall k :: k in SqliteKeys(cat, table) ==>
              (k.nonUnique == 0 || k.nonUnique == 1) && k.seqInIndex >= 1
  {
    KeysOfIndexesRows(cat, cat.indexList(table));
  }

  // ---------------------------------------------------------------------------
  // Names and fragments (_getModelName, _getFunction)
  // ---------------------------------------------------------------------------

  /** `_getModelName`: the model class and the accessor name. */
  function ModelName(name: string, relation: Eloquent, inf: Inflector): (string, string) {
    var relationName :=
      match relation
      case HasOne => inf.camel(inf.singular(name))
      case HasMany => inf.camel(inf.plural(name))
      case Unmatched => "";
    (inf.ModelClass(name), relationName)
  }

  /** The start of a `@property` line in the model's doc block. */
  const PropertyTag: string := "\n * @property "

  /** The `@property` line `_getFunction` appends; nothing for ''. */
  function PropertyLine(relation: Eloquent, table: string, inf: Inflector): string {
    var (model, relationName) := ModelName(table, relation, inf);
    match relation
    case HasOne => PropertyTag + model + " $" + relationName
    case HasMany => PropertyTag + model + "[] $" + relationName
    case Unmatched => ""
  }

  /** The fixed text around the parts of an accessor method. */
  const DocOpen: string := "\n    /**\n     * @return \\Illuminate\\Database\\Eloquent\\Relations\\"
  const DocClose: string := "\n     */\n    public function "
  const BodyOpen: string := "()\n    {\n        return $this->"
  const BodyClose: string := "');\n    }\n    "

  /** The accessor method `_getFunction` returns. */
  function Fragment(relation: Eloquent, table: string, foreignKey: string, localKey: string,
                    modelNamespace: string, inf: Inflector): string
  {
    var (model, relationName) := ModelName(table, relation, inf);
    DocOpen + relation.RelClass() + DocClose + relationName + BodyOpen + relation.Name() +
    "('" + modelNamespace + "\\" + model + "', '" + foreignKey + "', '" + localKey + BodyClose
  }

  // ---------------------------------------------------------------------------
  // The whole generation (_init, getEloquentRelations)
  // ---------------------------------------------------------------------------

  /** The kind chosen for one relation: '0' rows are always `hasOne`; '1' rows
      are decided by the keys of the table that holds the foreign key. */
  function RelationKind(conn: Connection, r: Relation): Eloquent {
    if r.ref then Cardinality(r.foreignKey, TableKeys(conn, r.refTable)) else HasOne
  }

  function RelationFragment(conn: Connection, r: Relation, ns: string, inf: Inflector): string {
    Fragment(RelationKind(conn, r), r.refTable, r.foreignKey, r.localKey, ns, inf)
  }

  function RelationProperty(conn: Connection, r: Relation, inf: Inflector): string {
    PropertyLine(RelationKind(conn, r), r.refTable, inf)
  }

  /** All fragments, in relation order. */
  function FunctionsText(conn: Connection, ns: string, inf: Inflector, rels: seq<Relation>): string {
    if rels == [] then ""
    else FunctionsText(conn, ns, inf, rels[..|rels| - 1]) + RelationFragment(conn, rels[|rels| - 1], ns, inf)
  }

  /** All `@property` lines, in relation order. */
  function PropertiesText(conn: Connection, inf: Inflector, rels: seq<Relation>): string {
    if rels == [] then ""
    else PropertiesText(conn, inf, rels[..|rels| - 1]) + RelationProperty(conn, rels[|rels| - 1], inf)
  }

  lemma RelationsStep(conn: Connection, ns: string, inf: Inflector, rels: seq<Relation>, i: nat)
    requires i < |rels|
    ensures FunctionsText(conn, ns, inf, rels[..i + 1]) == FunctionsText(conn, ns, inf, rels[..i]) + RelationFragment(conn, rels[i], ns, inf)
    ensures PropertiesText(conn, inf, rels[..i + 1]) == PropertiesText(conn, inf, rels[..i]) + RelationProperty(conn, rels[i], inf)
    ensures KeyLookups(rels[..i + 1]) == KeyLookups(rels[..i]) + (if rels[i].ref then [rels[i].refTable] else [])
  {
    assert rels[..i + 1][..i] == rels[..i];
  }

  /** The tables whose keys are read: one lookup per '1' row, in order. */
  function KeyLookups(rels: seq<Relation>): seq<string> {
    if rels == [] then []
    else KeyLookups(rels[..|rels| - 1]) + (if rels[|rels| - 1].ref then [rels[|rels| - 1].refTable] else [])
  }

  /** PHP's `null . $s`: null concatenates as ''. */
  function OrEmpty(s: Option<string>): string {
    if s.Some? then s.value else ""
  }

  /** What `getEloquentRelations` returns for a freshly constructed generator. */
  function Generate(conn: Connection, table: string, properties: string, ns: string, inf: Inflector): (Option<string>, string) {
    var rels := TableRelations(conn, table);
    (if rels == [] then None else Some(FunctionsText(conn, ns, inf, rels)),
     properties + PropertiesText(conn, inf, rels))
  }

  /** With no relation rows, or an unknown driver, nothing is generated:
      `functions` stays null and `properties` is returned unchanged. */
  lemma GenerateWithoutRelations(conn: Connection, table: string, properties: string, ns: string, inf: Inflector)
    ensures Generate(conn, table, properties, ns, inf).0 == None <==> TableRelations(conn, table) == []
    ensures !KnownDriver(conn.driver) ==> Generate(conn, table, properties, ns, inf) == (None, properties)
  {
    if TableRelations(conn, table) == [] {
      assert PropertiesText(conn, inf, []) == "";
      assert properties + "" == properties;
    }
  }

  /** Keys are read once per '1' row, for the table holding the foreign key,
      and never for the subject's own foreign keys. */
  lemma {:induction false} KeyLookupsFollowIncomingRows(rels: seq<Relation>)
    ensures forall t :: t in KeyLookups(rels) <==> exists r :: r in rels && r.ref && r.refTable == t
    ensures (forall r :: r in rels ==> !r.ref) ==> KeyLookups(rels) == []
  {
    if rels != [] {
      var init := rels[..|rels| - 1];
      KeyLookupsFollowIncomingRows(init);
      assert rels == init + [rels[|rels| - 1]];
    }
  }

  /** A '0' row is `hasOne` whatever the keys say; a '1' row takes the verdict
      of the last key row on its foreign key in the other table, and adds no
      `@property` line when there is none. */
  lemma RelationKindByRow(conn: Connection, r: Relation, inf: Inflector)
    ensures !r.ref ==> RelationKind(conn, r) == HasOne && RelationProperty(conn, r, inf) != ""
    ensures r.ref ==>
              (RelationKind(conn, r) == Unmatched <==>
                 forall i :: 0 <= i < |TableKeys(conn, r.refTable)| ==> TableKeys(conn, r.refTable)[i].columnName != r.foreignKey)
    ensures r.ref && RelationKind(conn, r) == Unmatched ==> RelationProperty(conn, r, inf) == ""
    ensures forall j :: r.ref && IsLastMatch(r.foreignKey, TableKeys(conn, r.refTable), j) ==>
              RelationKind(conn, r) == Verdict(TableKeys(conn, r.refTable)[j])
  {
    var keys := TableKeys(conn, r.refTable);
    CardinalityUnmatchedIff(r.foreignKey, keys);
    forall j | r.ref && IsLastMatch(r.foreignKey, keys, j)
      ensures RelationKind(conn, r) == Verdict(keys[j])
    {
      CardinalityByLastRow(r.foreignKey, keys, j);
    }
  }

  /** A small SQLite database: `orders.customer_id` references `customers.id`
      and is covered by an index of `orders`, unique or not. */
  function ShopCatalog(unique: bool): SqliteCatalog {
    SqliteCatalog(
      t => if t == "orders" then [ForeignKeyRow("customers", "customer_id", "id")] else [],
      ["customers", "orders"],
      t => if t == "orders" then [IndexRow("orders_customer_id_index", unique)] else [],
      i => if i == "orders_customer_id_index" then [IndexColumnRow(0, "customer_id")] else [])
  }

  function ShopConnection(unique: bool): Connection {
    Connection("sqlite", _ => [], _ => [], _ => [], _ => [], _ => [], _ => [], ShopCatalog(unique))
  }

  /** The table holding the foreign key gets a `hasOne` accessor to the
      referenced model and reads no keys. */
  lemma ShopOrdersBelongToOneCustomer(unique: bool, ns: string, inf: Inflector)
    ensures TableRelations(ShopConnection(unique), "orders") == [Relation("customers", "id", "customer_id", false)]
    ensures Generate(ShopConnection(unique), "orders", "*", ns, inf) ==
              (Some(Fragment(HasOne, "customers", "id", "customer_id", ns, inf)),
               "*" + ("\n * @property " + inf.studly(inf.singular("customers")) + " $" + inf.camel(inf.singular("customers"))))
    ensures KeyLookups(TableRelations(ShopConnection(unique), "orders")) == []
  {
    var conn := ShopConnection(unique);
    var fks := conn.sqlite.foreignKeyList("orders");
    assert fks[..0] == [];
    assert OutgoingSqlite(fks) == [Relation("customers", "id", "customer_id", false)];
    var tables := ["customers", "orders"];
    assert tables[..1] == ["customers"];
    assert tables[..1][..0] == [];
    assert IncomingSqlite(conn.sqlite, tables, "orders") == [];
    var rels := TableRelations(conn, "orders");
    assert rels == [Relation("customers", "id", "customer_id", false)];
    assert rels[..0] == [];
    var line := RelationProperty(conn, rels[0], inf);
    assert PropertiesText(conn, inf, rels) == "" + line;
    assert "" + line == line;
    assert RelationKind(conn, rels[0]) == HasOne;
    assert line == "\n * @property " + inf.studly(inf.singular("customers")) + " $" + inf.camel(inf.singular("customers"));
    var fragment := RelationFragment(conn, rels[0], ns, inf);
    assert FunctionsText(conn, ns, inf, rels) == "" + fragment;
    assert "" + fragment == fragment;
  }

  /** The referenced table gets `hasMany` through a plain index and `hasOne`
      through a unique one. */
  lemma ShopCustomerHasOrders(unique: bool, ns: string, inf: Inflector)
    ensures TableRelations(ShopConnection(unique), "customers") == [Relation("orders", "customer_id", "id", true)]
    ensures var kind := if unique then HasOne else HasMany;
            var line := if unique then "\n * @property " + inf.studly(inf.singular("orders")) + " $" + inf.camel(inf.singular("orders"))
                        else "\n * @property " + inf.studly(inf.singular("orders")) + "[] $" + inf.camel(inf.plural("orders"));
            Generate(ShopConnection(unique), "customers", "*", ns, inf) ==
              (Some(Fragment(kind, "orders", "customer_id", "id", ns, inf)), "*" + line)
    ensures KeyLookups(TableRelations(ShopConnection(unique), "customers")) == ["orders"]
  {
    var conn := ShopConnection(unique);
    var cat := conn.sqlite;
    assert cat.foreignKeyList("customers") == [];
    var tables := ["customers", "orders"];
    assert tables[..1] == ["customers"];
    assert tables[..1][..0] == [];
    var ofks := cat.foreignKeyList("orders");
    assert ofks[..0] == [];
    assert IncomingFrom("orders", ofks, "customers") == [Relation("orders", "customer_id", "id", true)];
    assert IncomingSqlite(cat, tables, "customers") == [Relation("orders", "customer_id", "id", true)];
    var rels := TableRelations(conn, "customers");
    assert rels == [Relation("orders", "customer_id", "id", true)];
    assert rels[..0] == [];
    var indexes := cat.indexList("orders");
    assert indexes[..0] == [];
    var cols := cat.indexInfo("orders_customer_id_index");
    assert cols[..0] == [];
    var keys := TableKeys(conn, "orders");
    assert indexes == [IndexRow("orders_customer_id_index", unique)];
    assert IndexKeys(indexes[0], cols) == [KeyRow("orders_customer_id_index", "customer_id", if unique then 0 else 1, 1)];
    assert keys == KeysOfIndexes(cat, indexes[..0]) + IndexKeys(indexes[0], cols);
    assert keys == [KeyRow("orders_customer_id_index", "customer_id", if unique then 0 else 1, 1)];
    assert keys[..0] == [];
    assert Cardinality("customer_id", keys) == (if unique then HasOne else HasMany);
    var line := RelationProperty(conn, rels[0], inf);
    assert PropertiesText(conn, inf, rels) == "" + line;
    assert "" + line == line;
    var fragment := RelationFragment(conn, rels[0], ns, inf);
    assert FunctionsText(conn, ns, inf, rels) == "" + fragment;
    assert "" + fragment == fragment;
  }

  class ModelGenerator {
    var functions: Option<string>
    var properties: string
    const table: string
    const modelNamespace: string
    const connection: Connection
    const inflector: Inflector
    /** The tables whose keys `_getTableKeys` was asked for, in order. */
    ghost var keyLookups: seq<string>

    constructor (table: string, properties: string, modelNamespace: string, connection: Connection, inflector: Inflector)
      ensures functions == Generate(connection, table, properties, modelNamespace, inflector).0
      ensures this.properties == Generate(connection, table, properties, modelNamespace, inflector).1
      ensures keyLookups == KeyLookups(TableRelations(connection, table))
    {
      this.table := table;
      this.properties := properties;
      this.modelNamespace := modelNamespace;
      this.connection := connection;
      this.inflector := inflector;
      functions := None;
      keyLookups := [];
      new;
      Init();
      ghost var text := FunctionsText(connection, modelNamespace, inflector, TableRelations(connection, table));
      assert OrEmpty(None) + text == text;
    }

    /** `getEloquentRelations`. */
    method GetEloquentRelations() returns (relations: Option<string>, props: string)
      ensures relations == functions && props == properties
    {
      relations, props := functions, properties;
    }

    /** `_init`: one fragment per relation, appended in listing order. */
    method Init()
      modifies this
      ensures var rels := TableRelations(connection, table);
              functions == (if rels == [] then old(functions)
                            else Some(OrEmpty(old(functions)) + FunctionsText(connection, modelNamespace, inflector, rels)))
      ensures properties == old(properties) + PropertiesText(connection, inflector, TableRelations(connection, table))
      ensures keyLookups == old(keyLookups) + KeyLookups(TableRelations(connection, table))
    {
      var relations := GetTableRelations(connection, table);
      for i := 0 to |relations|
        invariant i == 0 ==> functions == old(functions)
        invariant i > 0 ==> functions == Some(OrEmpty(old(functions)) + FunctionsText(connection, modelNamespace, inflector, relations[..i]))
        invariant properties == old(properties) + PropertiesText(connection, inflector, relations[..i])
        invariant keyLookups == old(keyLookups) + KeyLookups(relations[..i])
      {
        RelationsStep(connection, modelNamespace, inflector, relations, i);
        ghost var functionsDone := FunctionsText(connection, modelNamespace, inflector, relations[..i]);
        ghost var propertiesDone := PropertiesText(connection, inflector, relations[..i]);
        ghost var lookupsDone := KeyLookups(relations[..i]);
        ghost var fragment := RelationFragment(connection, relations[i], modelNamespace, inflector);
        ghost var line := RelationProperty(connection, relations[i], inflector);
        ghost var lookup: seq<string> := if relations[i].ref then [relations[i].refTable] else [];
        if i == 0 {
          assert OrEmpty(old(functions)) + functionsDone == OrEmpty(old(functions));
        }
        AddRelation(relations[i]);
        AppendAssoc(OrEmpty(old(functions)), functionsDone, fragment);
        AppendAssoc(old(properties), propertiesDone, line);
        AppendAssoc(old(keyLookups), lookupsDone, lookup);
      }
      assert relations[..|relations|] == relations;
    }

    /** The body of the `_init` loop for one relation row. */
    method AddRelation(relation: Relation)
      modifies this
      ensures functions == Some(OrEmpty(old(functions)) + RelationFragment(connection, relation, modelNamespace, inflector))
      ensures properties == old(properties) + RelationProperty(connection, relation, inflector)
      ensures keyLookups == old(keyLookups) + (if relation.ref then [relation.refTable] else [])
    {
      var eloquent;
      if relation.ref {
        var tableKeys := GetTableKeys(connection, relation.refTable);
        keyLookups := keyLookups + [relation.refTable];
        eloquent := GetEloquent(relation.foreignKey, tableKeys);
      } else {
        eloquent := HasOne;
      }
      var fragment := GetFunction(eloquent, relation.refTable, relation.foreignKey, relation.localKey);
      functions := Some(OrEmpty(functions) + fragment);
    }

    /** `_getFunction`: appends the `@property` line and returns the fragment. */
    method GetFunction(relation: Eloquent, table: string, foreignKey: string, localKey: string) returns (fragment: string)
      modifies this`properties
      ensures properties == old(properties) + PropertyLine(relation, table, inflector)
      ensures fragment == Fragment(relation, table, foreignKey, localKey, modelNamespace, inflector)
    {
      var (model, relationName) := ModelName(table, relation, inflector);
      match relation {
        case HasOne => properties := properties + PropertyTag + model + " $" + relationName;
        case HasMany => properties := properties + PropertyTag + model + "[] $" + relationName;
        case Unmatched =>
      }
      fragment := Fragment(relation, table, foreignKey, localKey, modelNamespace, inflector);
    }
  }
}
