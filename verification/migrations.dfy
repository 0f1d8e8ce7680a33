/**
 * The three migrations as schema operations: each `up` creates a table and its indexes, each
 * `down` removes the indexes and drops the table. A schema maps table names to their column
 * lists and index names to their definitions.
 */
module Migrations {
  import opened Wrappers
  import opened Store

  datatype ColumnType = Uuid | Text | Enum(values: seq<string>) | Decimal(precision: nat, scale: nat) | Integer | Date

  datatype Default = NoDefault | UuidV4 | CurrentTimestamp | Literal(value: int)

  datatype Action = Cascade

  /** A foreign key: `references: { model, key }` with its update and delete actions. */
  datatype Reference = Reference(table: Table, key: string, onUpdate: Action, onDelete: Action)

  datatype Column = Column(
    name: string, kind: ColumnType, allowNull: bool, primaryKey: bool, unique: bool,
    default: Default, references: Option<Reference>)

  /** The three tables. */
  datatype Table = Users | Products | Inventories

  /** The five named indexes the migrations add. */
  datatype IndexName = UsersUsername | UsersEmail | ProductsSeller | ProductsCategory | InventoriesProductId

  function IndexNameText(n: IndexName): string {
    match n
    case UsersUsername => "users_username_unique_index"
    case UsersEmail => "users_email_unique_index"
    case ProductsSeller => "products_seller_index"
    case ProductsCategory => "products_category_index"
    case InventoriesProductId => "inventories_product_id_unique_index"
  }

  datatype Index = Index(table: Table, columns: seq<string>, unique: bool)

  datatype Op =
    | CreateTable(table: Table, columns: seq<Column>)
    | AddIndex(name: IndexName, index: Index)
    | RemoveIndex(table: Table, name: IndexName)
    | DropTable(table: Table)

  datatype MigrationError = NoSuchTable(table: Table) | IndexExists(name: IndexName)

  datatype Schema = Schema(tables: map<Table, seq<Column>>, indexes: map<IndexName, Index>)

  const EMPTY: Schema := Schema(map[], map[])

  /**
   * One `queryInterface` call. Creating an existing table and dropping a missing one do nothing
   * (`IF NOT EXISTS` / `IF EXISTS`); an index needs its table and a fresh name; removing an
   * index is SQLite's `DROP INDEX IF EXISTS` by name, so a missing index is no error. Dropping a
   * table drops the indexes still on it.
   */
  function Apply(s: Schema, op: Op): (r: Result<Schema, MigrationError>)
    ensures op.DropTable? ==> r.Ok? && op.table !in r.value.tables
    ensures op.DropTable? ==> forall n :: n in r.value.indexes ==> r.value.indexes[n].table != op.table
    ensures op.CreateTable? ==> r.Ok? && op.table in r.value.tables
    ensures op.AddIndex? && r.Ok? ==> r.value.indexes == s.indexes[op.name := op.index] && r.value.tables == s.tables
    ensures op.RemoveIndex? ==> r == Ok(s.(indexes := s.indexes - {op.name}))
  {
    match op
    case CreateTable(t, cols) =>
      if t in s.tables then Ok(s) else Ok(s.(tables := s.tables[t := cols]))
    case AddIndex(n, ix) =>
      if ix.table !in s.tables then Err(NoSuchTable(ix.table))
      else if n in s.indexes then Err(IndexExists(n))
      else Ok(s.(indexes := s.indexes[n := ix]))
    case RemoveIndex(_, n) =>
      Ok(s.(indexes := s.indexes - {n}))
    case DropTable(t) =>
      Ok(Schema(s.tables - {t}, map n | n in s.indexes && s.indexes[n].table != t :: s.indexes[n]))
  }

  /** The calls of a migration, awaited in order; the first failure stops it. */
  function Run(s: Schema, ops: seq<Op>): Result<Schema, MigrationError>
    decreases |ops|
  {
    if |ops| == 0 then Ok(s)
    else
      var r := Apply(s, ops[0]);
      if r.Err? then r else Run(r.value, ops[1..])
  }

  /** Carrying on with `ops` after a step, unless the step failed. */
  function Continue(r: Result<Schema, MigrationError>, ops: seq<Op>): Result<Schema, MigrationError> {
    if r.Err? then r else Run(r.value, ops)
  }

  /** Running one call and then the rest. */
  lemma RunCons(s: Schema, op: Op, rest: seq<Op>)
    ensures Run(s, [op] + rest) == Continue(Apply(s, op), rest)
  {
    assert ([op] + rest)[1..] == rest;
  }

  function Timestamp(name: string): Column {
    Column(name, Date, false, false, false, CurrentTimestamp, None)
  }

  function Plain(name: string, kind: ColumnType): Column {
    Column(name, kind, false, false, false, NoDefault, None)
  }

  const USER_COLUMNS: seq<Column> := [
    Column("id", Uuid, false, true, false, UuidV4, None),
    Plain("firstName", Text), Plain("lastName", Text),
    Column("username", Text, false, false, true, NoDefault, None),
    Column("email", Text, false, false, true, NoDefault, None),
    Plain("password", Text), Timestamp("createdAt"), Timestamp("updatedAt")]

  const USERNAME_INDEX: Index := Index(Users, ["username"], true)
  const EMAIL_INDEX: Index := Index(Users, ["email"], true)

  const USERS_UP: seq<Op> := [
    CreateTable(Users, USER_COLUMNS),
    AddIndex(UsersUsername, USERNAME_INDEX),
    AddIndex(UsersEmail, EMAIL_INDEX)]

  const USERS_DOWN: seq<Op> := [
    RemoveIndex(Users, UsersEmail),
    RemoveIndex(Users, UsersUsername),
    DropTable(Users)]

  const CATEGORY_VALUES: seq<string> := ["Electronics", "Books", "Clothing", "Home", "Sports"]

  const PRODUCT_COLUMNS: seq<Column> := [
    Column("id", Text, false, true, false, NoDefault, None),
    Plain("name", Text), Plain("description", Text),
    Plain("category", Enum(CATEGORY_VALUES)),
    Plain("price", Decimal(10, 2)),
    Column("seller", Uuid, false, false, false, NoDefault, Some(Reference(Users, "id", Cascade, Cascade))),
    Timestamp("createdAt"), Timestamp("updatedAt")]

  const SELLER_INDEX: Index := Index(Products, ["seller"], false)
  const CATEGORY_INDEX: Index := Index(Products, ["category"], false)

  const PRODUCTS_UP: seq<Op> := [
    CreateTable(Products, PRODUCT_COLUMNS),
    AddIndex(ProductsSeller, SELLER_INDEX),
    AddIndex(ProductsCategory, CATEGORY_INDEX)]

  const PRODUCTS_DOWN: seq<Op> := [
    RemoveIndex(Products, ProductsCategory),
    RemoveIndex(Products, ProductsSeller),
    DropTable(Products)]

  const INVENTORY_COLUMNS: seq<Column> := [
    Column("id", Uuid, false, true, false, UuidV4, None),
    Column("productId", Text, false, false, false, NoDefault, Some(Reference(Products, "id", Cascade, Cascade))),
    Column("quantity", Integer, false, false, false, Literal(0), None),
    Column("restockValue", Integer, false, false, false, Literal(10), None),
    Timestamp("createdAt"), Timestamp("updatedAt")]

  const PRODUCT_ID_INDEX: Index := Index(Inventories, ["productId"], true)

  const INVENTORIES_UP: seq<Op> := [
    CreateTable(Inventories, INVENTORY_COLUMNS),
    AddIndex(InventoriesProductId, PRODUCT_ID_INDEX)]

  const INVENTORIES_DOWN: seq<Op> := [
    RemoveIndex(Inventories, InventoriesProductId),
    DropTable(Inventories)]

  /** The column called `name`, if the list has one. */
  function ColumnNamed(cols: seq<Column>, name: string): (r: Option<Column>)
    ensures r.Some? ==> r.value in cols && r.value.name == name
    ensures r.None? ==> forall i :: 0 <= i < |cols| ==> cols[i].name != name
  {
    if |cols| == 0 then None
    else if cols[0].name == name then Some(cols[0])
    else ColumnNamed(cols[1..], name)
  }

  /** A column at a known position is found by name. */
  lemma {:induction false} ColumnNamedAt(cols: seq<Column>, i: nat, name: string)
    requires i < |cols| && cols[i].name == name
    ensures ColumnNamed(cols, name).Some?
    decreases i
  {
    if i > 0 && cols[0].name != name {
      ColumnNamedAt(cols[1..], i - 1, name);
    }
  }

  /** A foreign key resolves when its table exists and has the referenced column. */
  ghost predicate Resolves(s: Schema, r: Reference) {
    r.table in s.tables && ColumnNamed(s.tables[r.table], r.key).Some?
  }

  /** An index resolves when its table exists and has every indexed column. */
  ghost predicate Covers(s: Schema, ix: Index) {
    ix.table in s.tables && forall k :: 0 <= k < |ix.columns| ==> ColumnNamed(s.tables[ix.table], ix.columns[k]).Some?
  }

  /** Every foreign key and every index of `s` names a table and columns that exist. */
  ghost predicate WellFormed(s: Schema) {
    && (forall t, i :: t in s.tables && 0 <= i < |s.tables[t]| && s.tables[t][i].references.Some? ==>
          Resolves(s, s.tables[t][i].references.value))
    && (forall n :: n in s.indexes ==> Covers(s, s.indexes[n]))
  }

  /** Whether `column` of `table` is covered by a unique index. */
  ghost predicate UniquelyIndexed(s: Schema, table: Table, column: string) {
    exists n :: n in s.indexes && s.indexes[n] == Index(table, [column], true)
  }

  /** The schema after the users migration. */
  const USERS_SCHEMA: Schema := Schema(map[Users := USER_COLUMNS], map[UsersUsername := USERNAME_INDEX, UsersEmail := EMAIL_INDEX])

  /** The schema after the users and products migrations. */
  const PRODUCTS_SCHEMA: Schema := Schema(
    map[Users := USER_COLUMNS, Products := PRODUCT_COLUMNS],
    map[UsersUsername := USERNAME_INDEX, UsersEmail := EMAIL_INDEX,
        ProductsSeller := SELLER_INDEX, ProductsCategory := CATEGORY_INDEX])

  /** The schema after all three migrations. */
  const FULL_SCHEMA: Schema := Schema(
    map[Users := USER_COLUMNS, Products := PRODUCT_COLUMNS, Inventories := INVENTORY_COLUMNS],
    map[UsersUsername := USERNAME_INDEX, UsersEmail := EMAIL_INDEX,
        ProductsSeller := SELLER_INDEX, ProductsCategory := CATEGORY_INDEX,
        InventoriesProductId := PRODUCT_ID_INDEX])

  lemma Run2(s: Schema, a: Op, b: Op)
    ensures Run(s, [a, b]) ==
      Continue(Apply(s, a), [b])
    ensures Run(s, [b]) == Apply(s, b)
  {
    RunCons(s, a, [b]);
    assert [a, b] == [a] + [b];
    RunCons(s, b, []);
    assert [b] == [b] + [];
  }

  lemma Run3(s: Schema, a: Op, b: Op, c: Op)
    ensures Run(s, [a, b, c]) ==
      Continue(Apply(s, a), [b, c])
  {
    RunCons(s, a, [b, c]);
    assert [a, b, c] == [a] + [b, c];
  }

  /** Dropping a table that has no index left changes only the tables. */
  lemma DropUnindexed(s: Schema, t: Table)
    requires forall n :: n in s.indexes ==> s.indexes[n].table != t
    ensures Apply(s, DropTable(t)) == Ok(Schema(s.tables - {t}, s.indexes))
  {
    var m := map n | n in s.indexes && s.indexes[n].table != t :: s.indexes[n];
    assert m == s.indexes;
  }

  /** The users migration creates the table and both unique indexes. */
  lemma UsersUp()
    ensures Run(EMPTY, USERS_UP) == Ok(USERS_SCHEMA)
  {
    var s1 := Schema(map[Users := USER_COLUMNS], map[]);
    var s2 := Schema(map[Users := USER_COLUMNS], map[UsersUsername := USERNAME_INDEX]);
    Run3(EMPTY, USERS_UP[0], USERS_UP[1], USERS_UP[2]);
    Run2(s1, USERS_UP[1], USERS_UP[2]);
    Run2(s2, USERS_UP[1], USERS_UP[2]);
    assert Apply(EMPTY, USERS_UP[0]) == Ok(s1);
    assert Apply(s1, USERS_UP[1]) == Ok(s2);
  }

  lemma ProductsUp()
    ensures Run(USERS_SCHEMA, PRODUCTS_UP) == Ok(PRODUCTS_SCHEMA)
  {
    var s0 := USERS_SCHEMA;
    var s1 := s0.(tables := s0.tables[Products := PRODUCT_COLUMNS]);
    var s2 := s1.(indexes := s1.indexes[ProductsSeller := SELLER_INDEX]);
    Run3(s0, PRODUCTS_UP[0], PRODUCTS_UP[1], PRODUCTS_UP[2]);
    Run2(s1, PRODUCTS_UP[1], PRODUCTS_UP[2]);
    Run2(s2, PRODUCTS_UP[1], PRODUCTS_UP[2]);
    assert Apply(s0, PRODUCTS_UP[0]) == Ok(s1);
    assert Apply(s1, PRODUCTS_UP[1]) == Ok(s2);
  }

  lemma InventoriesUp()
    ensures Run(PRODUCTS_SCHEMA, INVENTORIES_UP) == Ok(FULL_SCHEMA)
  {
    var s0 := PRODUCTS_SCHEMA;
    var s1 := s0.(tables := s0.tables[Inventories := INVENTORY_COLUMNS]);
    Run2(s0, INVENTORIES_UP[0], INVENTORIES_UP[1]);
    Run2(s1, INVENTORIES_UP[0], INVENTORIES_UP[1]);
    assert Apply(s0, INVENTORIES_UP[0]) == Ok(s1);
  }

  /** The inventories `down` removes its index and then the table, giving back the earlier schema. */
  lemma InventoriesDown()
    ensures Run(FULL_SCHEMA, INVENTORIES_DOWN) == Ok(PRODUCTS_SCHEMA)
  {
    var s0 := FULL_SCHEMA;
    var s1 := s0.(indexes := s0.indexes - {InventoriesProductId});
    Run2(s0, INVENTORIES_DOWN[0], INVENTORIES_DOWN[1]);
    Run2(s1, INVENTORIES_DOWN[0], INVENTORIES_DOWN[1]);
    assert Apply(s0, INVENTORIES_DOWN[0]) == Ok(s1);
    assert s1.indexes == PRODUCTS_SCHEMA.indexes;
    DropUnindexed(s1, Inventories);
    assert s1.tables - {Inventories} == PRODUCTS_SCHEMA.tables;
  }

  lemma ProductsDown()
    ensures Run(PRODUCTS_SCHEMA, PRODUCTS_DOWN) == Ok(USERS_SCHEMA)
  {
    var s0 := PRODUCTS_SCHEMA;
    var s1 := s0.(indexes := s0.indexes - {ProductsCategory});
    var s2 := s1.(indexes := s1.indexes - {ProductsSeller});
    Run3(s0, PRODUCTS_DOWN[0], PRODUCTS_DOWN[1], PRODUCTS_DOWN[2]);
    Run2(s1, PRODUCTS_DOWN[1], PRODUCTS_DOWN[2]);
    Run2(s2, PRODUCTS_DOWN[1], PRODUCTS_DOWN[2]);
    assert Apply(s0, PRODUCTS_DOWN[0]) == Ok(s1);
    assert Apply(s1, PRODUCTS_DOWN[1]) == Ok(s2);
    assert s2.indexes == USERS_SCHEMA.indexes;
    DropUnindexed(s2, Products);
    assert s2.tables - {Products} == USERS_SCHEMA.tables;
  }

  lemma UsersDown()
    ensures Run(USERS_SCHEMA, USERS_DOWN) == Ok(EMPTY)
  {
    var s0 := USERS_SCHEMA;
    var s1 := s0.(indexes := s0.indexes - {UsersEmail});
    var s2 := s1.(indexes := s1.indexes - {UsersUsername});
    Run3(s0, USERS_DOWN[0], USERS_DOWN[1], USERS_DOWN[2]);
    Run2(s1, USERS_DOWN[1], USERS_DOWN[2]);
    Run2(s2, USERS_DOWN[1], USERS_DOWN[2]);
    assert Apply(s0, USERS_DOWN[0]) == Ok(s1);
    assert Apply(s1, USERS_DOWN[1]) == Ok(s2);
    assert s2.indexes == map[];
    assert s2.tables - {Users} == map[];
  }

  /** Running one sequence after another is running their concatenation. */
  lemma {:induction false} RunAppend(s: Schema, a: seq<Op>, b: seq<Op>)
    ensures Run(s, a + b) == Continue(Run(s, a), b)
    decreases |a|
  {
    if |a| == 0 {
      assert a + b == b;
    } else {
      assert (a + b)[1..] == a[1..] + b;
      var r := Apply(s, a[0]);
      if r.Ok? {
        RunAppend(r.value, a[1..], b);
      }
    }
  }

  /**
   * The three `up` migrations in file order build the full schema from an empty database, and
   * the three `down` migrations newest first take it back to empty.
   */
  lemma UpThenDownIsEmpty()
    ensures Run(EMPTY, USERS_UP + PRODUCTS_UP + INVENTORIES_UP) == Ok(FULL_SCHEMA)
    ensures Run(FULL_SCHEMA, INVENTORIES_DOWN + PRODUCTS_DOWN + USERS_DOWN) == Ok(EMPTY)
  {
    UsersUp(); ProductsUp(); InventoriesUp();
    InventoriesDown(); ProductsDown(); UsersDown();
    RunAppend(EMPTY, USERS_UP, PRODUCTS_UP);
    RunAppend(EMPTY, USERS_UP + PRODUCTS_UP, INVENTORIES_UP);
    RunAppend(FULL_SCHEMA, INVENTORIES_DOWN, PRODUCTS_DOWN);
    RunAppend(FULL_SCHEMA, INVENTORIES_DOWN + PRODUCTS_DOWN, USERS_DOWN);
  }

  /** Running an `up` twice fails: its first index already exists. */
  lemma UpIsNotRepeatable()
    ensures Run(USERS_SCHEMA, USERS_UP).Err?
  {
    Run3(USERS_SCHEMA, USERS_UP[0], USERS_UP[1], USERS_UP[2]);
    assert Apply(USERS_SCHEMA, USERS_UP[0]) == Ok(USERS_SCHEMA);
    Run2(USERS_SCHEMA, USERS_UP[1], USERS_UP[2]);
  }

  /**
   * Each `down` removes all of its table's indexes before it drops the table: just before the
   * drop, no index is left on that table.
   */
  lemma DownRemovesIndexesFirst()
    ensures forall n :: n in (FULL_SCHEMA.indexes - {InventoriesProductId}) ==>
              FULL_SCHEMA.indexes[n].table != Inventories
    ensures forall n :: n in (PRODUCTS_SCHEMA.indexes - {ProductsCategory, ProductsSeller}) ==>
              PRODUCTS_SCHEMA.indexes[n].table != Products
    ensures forall n :: n in (USERS_SCHEMA.indexes - {UsersEmail, UsersUsername}) ==>
              USERS_SCHEMA.indexes[n].table != Users
  {
  }

  /** The only foreign key of each table, if any. */
  lemma TableReferences()
    ensures forall i :: 0 <= i < |USER_COLUMNS| ==> USER_COLUMNS[i].references.None?
    ensures forall i :: 0 <= i < |PRODUCT_COLUMNS| && PRODUCT_COLUMNS[i].references.Some? ==>
              PRODUCT_COLUMNS[i].references.value.table == Users && PRODUCT_COLUMNS[i].references.value.key == "id"
    ensures forall i :: 0 <= i < |INVENTORY_COLUMNS| && INVENTORY_COLUMNS[i].references.Some? ==>
              INVENTORY_COLUMNS[i].references.value.table == Products && INVENTORY_COLUMNS[i].references.value.key == "id"
  {
  }

  lemma ReferencesResolve()
    ensures forall t, i :: (t in FULL_SCHEMA.tables && 0 <= i < |FULL_SCHEMA.tables[t]| &&
              FULL_SCHEMA.tables[t][i].references.Some?) ==> Resolves(FULL_SCHEMA, FULL_SCHEMA.tables[t][i].references.value)
  {
    var s := FULL_SCHEMA;
    TableReferences();
    ColumnNamedAt(USER_COLUMNS, 0, "id");
    ColumnNamedAt(PRODUCT_COLUMNS, 0, "id");
    forall t, i | t in s.tables && 0 <= i < |s.tables[t]| && s.tables[t][i].references.Some?
      ensures Resolves(s, s.tables[t][i].references.value)
    {
      if t == Products {
        assert s.tables[t] == PRODUCT_COLUMNS;
      } else if t == Inventories {
        assert s.tables[t] == INVENTORY_COLUMNS;
      }
    }
  }

  /** A one-column index is covered when its column sits at position `i` of its table. */
  lemma SingleColumnCovered(s: Schema, ix: Index, i: nat)
    requires ix.table in s.tables && |ix.columns| == 1
    requires i < |s.tables[ix.table]| && s.tables[ix.table][i].name == ix.columns[0]
    ensures Covers(s, ix)
  {
    ColumnNamedAt(s.tables[ix.table], i, ix.columns[0]);
  }

  lemma UserIndexesCovered()
    ensures Covers(FULL_SCHEMA, USERNAME_INDEX) && Covers(FULL_SCHEMA, EMAIL_INDEX)
  {
    assert FULL_SCHEMA.tables[Users] == USER_COLUMNS;
    SingleColumnCovered(FULL_SCHEMA, USERNAME_INDEX, 3);
    SingleColumnCovered(FULL_SCHEMA, EMAIL_INDEX, 4);
  }

  lemma ProductIndexesCovered()
    ensures Covers(FULL_SCHEMA, SELLER_INDEX) && Covers(FULL_SCHEMA, CATEGORY_INDEX)
  {
    assert FULL_SCHEMA.tables[Products] == PRODUCT_COLUMNS;
    SingleColumnCovered(FULL_SCHEMA, SELLER_INDEX, 5);
    SingleColumnCovered(FULL_SCHEMA, CATEGORY_INDEX, 3);
  }

  lemma InventoryIndexCovered()
    ensures Covers(FULL_SCHEMA, PRODUCT_ID_INDEX)
  {
    assert FULL_SCHEMA.tables[Inventories] == INVENTORY_COLUMNS;
    SingleColumnCovered(FULL_SCHEMA, PRODUCT_ID_INDEX, 1);
  }

  lemma IndexesCovered()
    ensures forall n :: n in FULL_SCHEMA.indexes ==> Covers(FULL_SCHEMA, FULL_SCHEMA.indexes[n])
  {
    UserIndexesCovered();
    ProductIndexesCovered();
    InventoryIndexCovered();
    var s := FULL_SCHEMA;
    forall n | n in s.indexes ensures Covers(s, s.indexes[n]) {
      match n
      case UsersUsername => assert s.indexes[n] == USERNAME_INDEX;
      case UsersEmail => assert s.indexes[n] == EMAIL_INDEX;
      case ProductsSeller => assert s.indexes[n] == SELLER_INDEX;
      case ProductsCategory => assert s.indexes[n] == CATEGORY_INDEX;
      case InventoriesProductId => assert s.indexes[n] == PRODUCT_ID_INDEX;
    }
  }

  /** After all `up` migrations every foreign key and index resolves. */
  lemma FullSchemaWellFormed()
    ensures WellFormed(FULL_SCHEMA)
  {
    ReferencesResolve();
    IndexesCovered();
  }

  /**
   * The schema agrees with the models: username, email and productId are uniquely indexed, the
   * ENUM lists exactly the model's categories, and the inventory count defaults are the model's.
   */
  lemma SchemaAgreesWithModels()
    ensures UniquelyIndexed(FULL_SCHEMA, Users, "username")
    ensures UniquelyIndexed(FULL_SCHEMA, Users, "email")
    ensures UniquelyIndexed(FULL_SCHEMA, Inventories, "productId")
    ensures forall c: Category :: CategoryName(c) in CATEGORY_VALUES
    ensures forall v :: v in CATEGORY_VALUES ==> ParseCategory(v).Some?
    ensures ColumnNamed(INVENTORY_COLUMNS, "quantity").value.default == Literal(DEFAULT_QUANTITY)
    ensures ColumnNamed(INVENTORY_COLUMNS, "restockValue").value.default == Literal(DEFAULT_RESTOCK_VALUE)
  {
    var s := FULL_SCHEMA;
    assert s.indexes[UsersUsername] == Index(Users, ["username"], true);
    assert s.indexes[UsersEmail] == Index(Users, ["email"], true);
    assert s.indexes[InventoriesProductId] == Index(Inventories, ["productId"], true);
  }

  /** Every column of the three tables is declared NOT NULL. */
  lemma AllColumnsNotNull()
    ensures forall t, i :: t in FULL_SCHEMA.tables && 0 <= i < |FULL_SCHEMA.tables[t]| ==>
              !FULL_SCHEMA.tables[t][i].allowNull
  {
  }
}
