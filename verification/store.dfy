/** The persisted state: the four reference tables (`reference/models.py`)
    and the transaction table (`transactions/models.py`), each a map from
    primary key to record, together with the constraints the schema and the
    application keep on them. */
module Store {
  import opened Base

  /** `max_length=100` on every catalog name. */
  const MaxNameLength: nat := 100

  datatype Status = Status(name: string)

  datatype OperationType = OperationType(name: string)

  /** `operation_type` is a CASCADE foreign key. */
  datatype Category = Category(name: string, operationType: Id)

  /** `category` is a CASCADE foreign key. */
  datatype SubCategory = SubCategory(name: string, category: Id)

  /** The fields a transaction form edits. Every foreign key is PROTECT; the
      subcategory may be null. `amount` is held in hundredths (kopecks). */
  datatype TxFields = TxFields(
    date: Date,
    status: Id,
    operationType: Id,
    category: Id,
    subcategory: Option<Id>,
    amount: int,
    comment: string)

  /** A stored transaction: its editable fields and the two timestamps
      (`auto_now_add` and `auto_now`), read from a monotone clock. */
  datatype Transaction = Transaction(fields: TxFields, createdAt: nat, updatedAt: nat)

  datatype Store = Store(
    statuses: map<Id, Status>,
    operationTypes: map<Id, OperationType>,
    categories: map<Id, Category>,
    subcategories: map<Id, SubCategory>,
    transactions: map<Id, Transaction>,
    /** the next primary key the database will hand out */
    nextId: Id,
    /** the timestamp the next write will record */
    clock: nat)

  /** The empty database. */
  const Empty: Store := Store(map[], map[], map[], map[], map[], 1, 0)

  /** The reply of a view: the store after the request and what was shown. */
  datatype Reply = Reply(store: Store, outcome: Outcome)

  /** A name a catalog form accepts: required, at most 100 characters, and
      free of NUL characters (every form `CharField` prohibits them). */
  predicate ValidName(name: string) {
    0 < |name| <= MaxNameLength && '\0' !in name
  }

  /** Every key of `m` is below `n`. */
  predicate KeysBelow<T>(m: map<Id, T>, n: int) {
    forall k :: k in m ==> k < n
  }

  /** Every primary key in use is below the next one to be handed out. */
  predicate FreshIds(s: Store) {
    && KeysBelow(s.statuses, s.nextId)
    && KeysBelow(s.operationTypes, s.nextId)
    && KeysBelow(s.categories, s.nextId)
    && KeysBelow(s.subcategories, s.nextId)
    && KeysBelow(s.transactions, s.nextId)
  }

  /** `unique=True` on a name column. */
  predicate StatusNamesDistinct(m: map<Id, Status>) {
    forall a, b :: a in m && b in m && m[a].name == m[b].name ==> a == b
  }

  predicate OperationTypeNamesDistinct(m: map<Id, OperationType>) {
    forall a, b :: a in m && b in m && m[a].name == m[b].name ==> a == b
  }

  /** No record is stored under two keys. */
  predicate RowsDistinct<T(==)>(m: map<Id, T>) {
    forall a, b :: a in m && b in m && m[a] == m[b] ==> a == b
  }

  /** `unique=True` on Status.name and OperationType.name;
      `unique_together` on (name, operation_type) and (name, category). As
      a Category record is exactly its (name, operation_type) pair, the
      latter two say that no record is stored twice. */
  predicate UniqueKeys(s: Store) {
    && StatusNamesDistinct(s.statuses)
    && OperationTypeNamesDistinct(s.operationTypes)
    && RowsDistinct(s.categories)
    && RowsDistinct(s.subcategories)
  }

  predicate StatusNamesValid(m: map<Id, Status>) {
    forall k :: k in m ==> ValidName(m[k].name)
  }

  predicate OperationTypeNamesValid(m: map<Id, OperationType>) {
    forall k :: k in m ==> ValidName(m[k].name)
  }

  predicate CategoryNamesValid(m: map<Id, Category>) {
    forall k :: k in m ==> ValidName(m[k].name)
  }

  predicate SubCategoryNamesValid(m: map<Id, SubCategory>) {
    forall k :: k in m ==> ValidName(m[k].name)
  }

  predicate NamesValid(s: Store) {
    && StatusNamesValid(s.statuses)
    && OperationTypeNamesValid(s.operationTypes)
    && CategoryNamesValid(s.categories)
    && SubCategoryNamesValid(s.subcategories)
  }

  predicate CategoryParentsExist(m: map<Id, Category>, operationTypes: map<Id, OperationType>) {
    forall k :: k in m ==> m[k].operationType in operationTypes
  }

  predicate SubCategoryParentsExist(m: map<Id, SubCategory>, categories: map<Id, Category>) {
    forall k :: k in m ==> m[k].category in categories
  }

  /** The catalog's own foreign keys point at existing rows. */
  predicate ParentsExist(s: Store) {
    && CategoryParentsExist(s.categories, s.operationTypes)
    && SubCategoryParentsExist(s.subcategories, s.categories)
  }

  predicate CatalogValid(s: Store) {
    FreshIds(s) && UniqueKeys(s) && NamesValid(s) && ParentsExist(s)
  }

  /** The rows a transaction's fields point at all exist. */
  predicate LinksExist(s: Store, f: TxFields) {
    && f.status in s.statuses
    && f.operationType in s.operationTypes
    && f.category in s.categories
    && (f.subcategory.Some? ==> f.subcategory.value in s.subcategories)
  }

  /** Every transaction's foreign keys point at existing rows. */
  predicate RefsExist(s: Store) {
    forall k :: k in s.transactions ==> LinksExist(s, s.transactions[k].fields)
  }

  /** Timestamps were read from the clock before its current value. */
  predicate TimestampsPast(s: Store) {
    forall k :: k in s.transactions ==>
      s.transactions[k].createdAt <= s.transactions[k].updatedAt < s.clock
  }

  /** What the schema and the database guarantee of every reachable store. */
  predicate Valid(s: Store) {
    CatalogValid(s) && RefsExist(s) && TimestampsPast(s)
  }

  /** I1: the category belongs to the transaction's operation type. */
  predicate CategoryFits(s: Store, f: TxFields) {
    f.category in s.categories && s.categories[f.category].operationType == f.operationType
  }

  /** I2: a subcategory, when given, belongs to the transaction's category. */
  predicate SubCategoryFits(s: Store, f: TxFields) {
    f.subcategory.Some? ==>
      f.subcategory.value in s.subcategories && s.subcategories[f.subcategory.value].category == f.category
  }

  /** I1 and I2 hold of every stored transaction. `Transaction.save` checks
      them, but editing a category or subcategory does not re-check the
      transactions that use it. */
  predicate Consistent(s: Store) {
    forall k :: k in s.transactions ==>
      CategoryFits(s, s.transactions[k].fields) && SubCategoryFits(s, s.transactions[k].fields)
  }

  /** I1 and I2 read only the categories, the subcategories and the
      transactions. */
  lemma ConsistentFrame(s: Store, t: Store)
    requires Consistent(s)
    requires t.categories == s.categories && t.subcategories == s.subcategories && t.transactions == s.transactions
    ensures Consistent(t)
  {
    forall k | k in t.transactions
      ensures CategoryFits(t, t.transactions[k].fields) && SubCategoryFits(t, t.transactions[k].fields)
    {
      assert CategoryFits(s, s.transactions[k].fields) && SubCategoryFits(s, s.transactions[k].fields);
    }
  }

  /** Links stay valid while the catalog only gains keys. */
  lemma RefsExistFrame(s: Store, t: Store)
    requires RefsExist(s) && t.transactions == s.transactions
    requires s.statuses.Keys <= t.statuses.Keys && s.operationTypes.Keys <= t.operationTypes.Keys
    requires s.categories.Keys <= t.categories.Keys && s.subcategories.Keys <= t.subcategories.Keys
    ensures RefsExist(t)
  {
    forall k | k in t.transactions ensures LinksExist(t, t.transactions[k].fields) {
      assert LinksExist(s, s.transactions[k].fields);
    }
  }

  lemma EmptyIsValid()
    ensures Valid(Empty) && Consistent(Empty)
  {
  }
}
