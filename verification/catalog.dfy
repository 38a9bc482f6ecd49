/** Row-level writes on the reference tables (`reference/models.py`):
    inserting and replacing rows, and deletion as Django's collector performs
    it. A delete gathers the row and everything that reaches it through
    CASCADE foreign keys (OperationType -> Category -> SubCategory); if any
    transaction still references a gathered row through one of its PROTECT
    foreign keys the whole delete fails and nothing is removed. */
module Catalog {
  import opened Base
  import opened Store

  /** `Model.objects.create(...)`: the row gets the next primary key. */
  function InsertStatus(s: Store, row: Status): Store {
    s.(statuses := s.statuses[s.nextId := row], nextId := s.nextId + 1)
  }

  function InsertOperationType(s: Store, row: OperationType): Store {
    s.(operationTypes := s.operationTypes[s.nextId := row], nextId := s.nextId + 1)
  }

  function InsertCategory(s: Store, row: Category): Store {
    s.(categories := s.categories[s.nextId := row], nextId := s.nextId + 1)
  }

  function InsertSubCategory(s: Store, row: SubCategory): Store {
    s.(subcategories := s.subcategories[s.nextId := row], nextId := s.nextId + 1)
  }

  /** Adding a status whose name is valid and not taken keeps the store
      valid; so for the other three tables, whose rows must also point at
      an existing parent. */
  lemma InsertStatusKeepsValid(s: Store, row: Status)
    requires Valid(s)
    requires ValidName(row.name)
    requires forall k :: k in s.statuses ==> s.statuses[k] != row
    ensures Valid(InsertStatus(s, row))
  {
    var t := InsertStatus(s, row);
    assert CatalogValid(t);
    assert RefsExist(t) by {
      forall k | k in t.transactions ensures LinksExist(t, t.transactions[k].fields) {
        assert LinksExist(s, s.transactions[k].fields);
      }
    }
  }

  lemma InsertOperationTypeKeepsValid(s: Store, row: OperationType)
    requires Valid(s)
    requires ValidName(row.name)
    requires forall k :: k in s.operationTypes ==> s.operationTypes[k] != row
    ensures Valid(InsertOperationType(s, row))
  {
    var t := InsertOperationType(s, row);
    assert CatalogValid(t);
    assert RefsExist(t) by {
      forall k | k in t.transactions ensures LinksExist(t, t.transactions[k].fields) {
        assert LinksExist(s, s.transactions[k].fields);
      }
    }
  }

  lemma InsertCategoryKeepsValid(s: Store, row: Category)
    requires Valid(s)
    requires ValidName(row.name) && row.operationType in s.operationTypes
    requires forall k :: k in s.categories ==> s.categories[k] != row
    ensures Valid(InsertCategory(s, row))
  {
    var t := InsertCategory(s, row);
    assert CatalogValid(t);
    assert RefsExist(t) by {
      forall k | k in t.transactions ensures LinksExist(t, t.transactions[k].fields) {
        assert LinksExist(s, s.transactions[k].fields);
      }
    }
  }

  lemma InsertSubCategoryKeepsValid(s: Store, row: SubCategory)
    requires Valid(s)
    requires ValidName(row.name) && row.category in s.categories
    requires forall k :: k in s.subcategories ==> s.subcategories[k] != row
    ensures Valid(InsertSubCategory(s, row))
  {
    var t := InsertSubCategory(s, row);
    assert CatalogValid(t);
    assert RefsExist(t) by {
      forall k | k in t.transactions ensures LinksExist(t, t.transactions[k].fields) {
        assert LinksExist(s, s.transactions[k].fields);
      }
    }
  }

  /** Renaming a status to a valid name no other status holds keeps the
      store valid; likewise for an operation type. */
  lemma RenameStatusKeepsValid(s: Store, id: Id, row: Status)
    requires Valid(s) && id in s.statuses
    requires ValidName(row.name)
    requires forall k :: k in s.statuses && k != id ==> s.statuses[k].name != row.name
    ensures Valid(s.(statuses := s.statuses[id := row]))
  {
    var t := s.(statuses := s.statuses[id := row]);
    assert TimestampsPast(t);
    assert t.statuses.Keys == s.statuses.Keys;
    RenameStatusKeepsCatalogValid(s, id, row);
    RefsExistFrame(s, t);
  }

  lemma RenameStatusKeepsCatalogValid(s: Store, id: Id, row: Status)
    requires CatalogValid(s) && id in s.statuses
    requires ValidName(row.name)
    requires forall k :: k in s.statuses && k != id ==> s.statuses[k].name != row.name
    ensures CatalogValid(s.(statuses := s.statuses[id := row]))
  {
    RenameStatusKeepsNamesDistinct(s.statuses, id, row);
  }

  lemma RenameStatusKeepsNamesDistinct(m: map<Id, Status>, id: Id, row: Status)
    requires StatusNamesDistinct(m)
    requires forall k :: k in m && k != id ==> m[k].name != row.name
    ensures StatusNamesDistinct(m[id := row])
  {
    var n := m[id := row];
    forall a, b | a in n && b in n && n[a].name == n[b].name
      ensures a == b
    {
      if a != id && b != id {
        assert m[a].name == m[b].name;
      }
    }
  }

  lemma RenameOperationTypeKeepsValid(s: Store, id: Id, row: OperationType)
    requires Valid(s) && id in s.operationTypes
    requires ValidName(row.name)
    requires forall k :: k in s.operationTypes && k != id ==> s.operationTypes[k].name != row.name
    ensures Valid(s.(operationTypes := s.operationTypes[id := row]))
  {
    var t := s.(operationTypes := s.operationTypes[id := row]);
    assert TimestampsPast(t);
    assert t.operationTypes.Keys == s.operationTypes.Keys;
    RenameOperationTypeKeepsCatalogValid(s, id, row);
    RefsExistFrame(s, t);
  }

  lemma RenameOperationTypeKeepsCatalogValid(s: Store, id: Id, row: OperationType)
    requires CatalogValid(s) && id in s.operationTypes
    requires ValidName(row.name)
    requires forall k :: k in s.operationTypes && k != id ==> s.operationTypes[k].name != row.name
    ensures CatalogValid(s.(operationTypes := s.operationTypes[id := row]))
  {
    RenameOperationTypeKeepsNamesDistinct(s.operationTypes, id, row);
  }

  lemma RenameOperationTypeKeepsNamesDistinct(m: map<Id, OperationType>, id: Id, row: OperationType)
    requires OperationTypeNamesDistinct(m)
    requires forall k :: k in m && k != id ==> m[k].name != row.name
    ensures OperationTypeNamesDistinct(m[id := row])
  {
    var n := m[id := row];
    forall a, b | a in n && b in n && n[a].name == n[b].name
      ensures a == b
    {
      if a != id && b != id {
        assert m[a].name == m[b].name;
      }
    }
  }

  /** Changing a category or a subcategory to a row no other key holds,
      under an existing parent, keeps the store valid. */
  lemma RenameCategoryKeepsValid(s: Store, id: Id, row: Category)
    requires Valid(s) && id in s.categories
    requires ValidName(row.name) && row.operationType in s.operationTypes
    requires forall k :: k in s.categories && k != id ==> s.categories[k] != row
    ensures Valid(s.(categories := s.categories[id := row]))
  {
    var t := s.(categories := s.categories[id := row]);
    assert TimestampsPast(t);
    assert t.categories.Keys == s.categories.Keys;
    RenameCategoryKeepsCatalogValid(s, id, row);
    RefsExistFrame(s, t);
  }

  lemma RenameCategoryKeepsCatalogValid(s: Store, id: Id, row: Category)
    requires CatalogValid(s) && id in s.categories
    requires ValidName(row.name) && row.operationType in s.operationTypes
    requires forall k :: k in s.categories && k != id ==> s.categories[k] != row
    ensures CatalogValid(s.(categories := s.categories[id := row]))
  {
    RenameKeepsRowsDistinct(s.categories, id, row);
  }

  lemma RenameSubCategoryKeepsValid(s: Store, id: Id, row: SubCategory)
    requires Valid(s) && id in s.subcategories
    requires ValidName(row.name) && row.category in s.categories
    requires forall k :: k in s.subcategories && k != id ==> s.subcategories[k] != row
    ensures Valid(s.(subcategories := s.subcategories[id := row]))
  {
    var t := s.(subcategories := s.subcategories[id := row]);
    assert TimestampsPast(t);
    assert t.subcategories.Keys == s.subcategories.Keys;
    RenameSubCategoryKeepsCatalogValid(s, id, row);
    RefsExistFrame(s, t);
  }

  lemma RenameSubCategoryKeepsCatalogValid(s: Store, id: Id, row: SubCategory)
    requires CatalogValid(s) && id in s.subcategories
    requires ValidName(row.name) && row.category in s.categories
    requires forall k :: k in s.subcategories && k != id ==> s.subcategories[k] != row
    ensures CatalogValid(s.(subcategories := s.subcategories[id := row]))
  {
    RenameKeepsRowsDistinct(s.subcategories, id, row);
  }

  lemma RenameKeepsRowsDistinct<T>(m: map<Id, T>, id: Id, row: T)
    requires RowsDistinct(m)
    requires forall k :: k in m && k != id ==> m[k] != row
    ensures RowsDistinct(m[id := row])
  {
    var n := m[id := row];
    forall a, b | a in n && b in n && n[a] == n[b]
      ensures a == b
    {
      if a != id && b != id {
        assert m[a] == m[b];
      }
    }
  }

  /** The rows one delete removes, table by table. */
  datatype DeleteSet = DeleteSet(
    statuses: set<Id>,
    operationTypes: set<Id>,
    categories: set<Id>,
    subcategories: set<Id>)

  /** The categories whose operation type is `op`. */
  function CategoriesOf(s: Store, op: Id): (r: set<Id>)
    ensures forall k :: k in r <==> k in s.categories && s.categories[k].operationType == op
  {
    set k | k in s.categories && s.categories[k].operationType == op
  }

  /** The subcategories whose category is one of `cats`. */
  function SubCategoriesOf(s: Store, cats: set<Id>): (r: set<Id>)
    ensures forall k :: k in r <==> k in s.subcategories && s.subcategories[k].category in cats
  {
    set k | k in s.subcategories && s.subcategories[k].category in cats
  }

  function StatusDeleteSet(id: Id): DeleteSet {
    DeleteSet({id}, {}, {}, {})
  }

  /** The operation type, its categories and, transitively, their subcategories. */
  function OperationTypeDeleteSet(s: Store, id: Id): DeleteSet {
    var cats := CategoriesOf(s, id);
    DeleteSet({}, {id}, cats, SubCategoriesOf(s, cats))
  }

  /** The category and its subcategories. */
  function CategoryDeleteSet(s: Store, id: Id): DeleteSet {
    DeleteSet({}, {}, {id}, SubCategoriesOf(s, {id}))
  }

  function SubCategoryDeleteSet(id: Id): DeleteSet {
    DeleteSet({}, {}, {}, {id})
  }

  /** A transaction with these fields points at a row of `d`. */
  predicate Touches(f: TxFields, d: DeleteSet) {
    || f.status in d.statuses
    || f.operationType in d.operationTypes
    || f.category in d.categories
    || (f.subcategory.Some? && f.subcategory.value in d.subcategories)
  }

  /** Some transaction protects a row of `d`. */
  predicate Protects(s: Store, d: DeleteSet) {
    exists k :: k in s.transactions && Touches(s.transactions[k].fields, d)
  }

  /** Removes every row of `d`, or none of them when one is protected. */
  function Collect(s: Store, d: DeleteSet): (r: Result<Store>)
    ensures r.Err? <==> Protects(s, d)
    ensures r.Err? ==> r.error == Protected
    ensures r.Ok? ==> r.value == s.(statuses := s.statuses - d.statuses,
                                    operationTypes := s.operationTypes - d.operationTypes,
                                    categories := s.categories - d.categories,
                                    subcategories := s.subcategories - d.subcategories)
  {
    if Protects(s, d) then
      Err(Protected)
    else
      Ok(s.(statuses := s.statuses - d.statuses,
            operationTypes := s.operationTypes - d.operationTypes,
            categories := s.categories - d.categories,
            subcategories := s.subcategories - d.subcategories))
  }

  /** Removing rows no transaction references keeps every invariant. */
  lemma CollectKeepsValid(s: Store, d: DeleteSet)
    requires Valid(s)
    requires Collect(s, d).Ok?
    requires forall k :: k in s.categories && k !in d.categories ==> s.categories[k].operationType !in d.operationTypes
    requires forall k :: k in s.subcategories && k !in d.subcategories ==> s.subcategories[k].category !in d.categories
    ensures Valid(Collect(s, d).value)
    ensures Consistent(s) ==> Consistent(Collect(s, d).value)
  {
    var r := Collect(s, d).value;
    forall k | k in r.transactions
      ensures LinksExist(r, r.transactions[k].fields)
    {
      assert !Touches(s.transactions[k].fields, d);
    }
    if Consistent(s) {
      forall k | k in r.transactions
        ensures CategoryFits(r, r.transactions[k].fields) && SubCategoryFits(r, r.transactions[k].fields)
      {
        assert !Touches(s.transactions[k].fields, d);
      }
    }
  }

  /** `status.delete()`; Status rows have no dependants. */
  function DeleteStatus(s: Store, id: Id): (r: Result<Store>)
    ensures id !in s.statuses ==> r == Err(NotFound(StatusEntity))
    ensures id in s.statuses ==>
      (r.Err? <==> exists k :: k in s.transactions && s.transactions[k].fields.status == id)
    ensures id in s.statuses && r.Err? ==> r.error == Protected
    ensures r.Ok? ==> r.value == s.(statuses := s.statuses - {id})
  {
    if id !in s.statuses then
      Err(NotFound(StatusEntity))
    else
      var d := StatusDeleteSet(id);
      assert Protects(s, d) <==> exists k :: k in s.transactions && s.transactions[k].fields.status == id by {
        assert forall k :: k in s.transactions ==> (Touches(s.transactions[k].fields, d) <==> s.transactions[k].fields.status == id);
      }
      Collect(s, d)
  }

  /** A transaction that an operation-type delete is blocked by: it names the
      type itself, a category of it, or a subcategory of such a category. */
  predicate UsesOperationType(s: Store, f: TxFields, id: Id) {
    || f.operationType == id
    || (f.category in s.categories && s.categories[f.category].operationType == id)
    || (f.subcategory.Some? && f.subcategory.value in s.subcategories
        && s.subcategories[f.subcategory.value].category in s.categories
        && s.categories[s.subcategories[f.subcategory.value].category].operationType == id)
  }

  /** `operation_type.delete()`: cascades to the type's categories and their
      subcategories, or fails as a whole. */
  function DeleteOperationType(s: Store, id: Id): (r: Result<Store>)
    ensures id !in s.operationTypes ==> r == Err(NotFound(OperationTypeEntity))
    ensures id in s.operationTypes ==>
      (r.Err? <==> exists k :: k in s.transactions && UsesOperationType(s, s.transactions[k].fields, id))
    ensures id in s.operationTypes && r.Err? ==> r.error == Protected
    ensures r.Ok? ==> r.value.operationTypes == s.operationTypes - {id}
    ensures r.Ok? ==> forall k :: k in r.value.categories <==>
      k in s.categories && s.categories[k].operationType != id
    ensures r.Ok? ==> forall k :: k in r.value.subcategories <==>
      k in s.subcategories && !(s.subcategories[k].category in s.categories
                                && s.categories[s.subcategories[k].category].operationType == id)
    ensures r.Ok? ==> forall k :: k in r.value.categories ==> r.value.categories[k] == s.categories[k]
    ensures r.Ok? ==> forall k :: k in r.value.subcategories ==> r.value.subcategories[k] == s.subcategories[k]
    ensures r.Ok? ==> r.value.statuses == s.statuses && r.value.transactions == s.transactions
  {
    if id !in s.operationTypes then
      Err(NotFound(OperationTypeEntity))
    else
      var d := OperationTypeDeleteSet(s, id);
      assert Protects(s, d) <==> exists k :: k in s.transactions && UsesOperationType(s, s.transactions[k].fields, id) by {
        assert forall k :: k in s.transactions ==>
          (Touches(s.transactions[k].fields, d) <==> UsesOperationType(s, s.transactions[k].fields, id));
      }
      Collect(s, d)
  }

  /** A transaction that a category delete is blocked by: it names the
      category or one of its subcategories. */
  predicate UsesCategory(s: Store, f: TxFields, id: Id) {
    || f.category == id
    || (f.subcategory.Some? && f.subcategory.value in s.subcategories
        && s.subcategories[f.subcategory.value].category == id)
  }

  /** `category.delete()`: removes the category and exactly its
      subcategories, or fails as a whole when a transaction uses one of them. */
  function DeleteCategory(s: Store, id: Id): (r: Result<Store>)
    ensures id !in s.categories ==> r == Err(NotFound(CategoryEntity))
    ensures id in s.categories ==>
      (r.Err? <==> exists k :: k in s.transactions && UsesCategory(s, s.transactions[k].fields, id))
    ensures id in s.categories && r.Err? ==> r.error == Protected
    ensures r.Ok? ==> r.value.categories == s.categories - {id}
    ensures r.Ok? ==> forall k :: k in r.value.subcategories <==>
      k in s.subcategories && s.subcategories[k].category != id
    ensures r.Ok? ==> forall k :: k in r.value.subcategories ==> r.value.subcategories[k] == s.subcategories[k]
    ensures r.Ok? ==> && r.value.statuses == s.statuses
                      && r.value.operationTypes == s.operationTypes
                      && r.value.transactions == s.transactions
  {
    if id !in s.categories then
      Err(NotFound(CategoryEntity))
    else
      var d := CategoryDeleteSet(s, id);
      assert Protects(s, d) <==> exists k :: k in s.transactions && UsesCategory(s, s.transactions[k].fields, id) by {
        assert forall k :: k in s.transactions ==>
          (Touches(s.transactions[k].fields, d) <==> UsesCategory(s, s.transactions[k].fields, id));
      }
      Collect(s, d)
  }

  /** `subcategory.delete()`: a leaf of the catalog tree. */
  function DeleteSubCategory(s: Store, id: Id): (r: Result<Store>)
    ensures id !in s.subcategories ==> r == Err(NotFound(SubCategoryEntity))
    ensures id in s.subcategories ==>
      (r.Err? <==> exists k :: k in s.transactions && s.transactions[k].fields.subcategory == Some(id))
    ensures id in s.subcategories && r.Err? ==> r.error == Protected
    ensures r.Ok? ==> r.value == s.(subcategories := s.subcategories - {id})
  {
    if id !in s.subcategories then
      Err(NotFound(SubCategoryEntity))
    else
      var d := SubCategoryDeleteSet(id);
      assert Protects(s, d) <==> exists k :: k in s.transactions && s.transactions[k].fields.subcategory == Some(id) by {
        assert forall k :: k in s.transactions ==>
          (Touches(s.transactions[k].fields, d) <==> s.transactions[k].fields.subcategory == Some(id));
      }
      Collect(s, d)
  }

  /** A successful delete keeps the store valid, and consistent if it was. */
  lemma DeleteStatusKeepsValid(s: Store, id: Id)
    requires Valid(s)
    requires DeleteStatus(s, id).Ok?
    ensures Valid(DeleteStatus(s, id).value)
    ensures Consistent(s) ==> Consistent(DeleteStatus(s, id).value)
  {
    assert DeleteStatus(s, id) == Collect(s, StatusDeleteSet(id));
    CollectKeepsValid(s, StatusDeleteSet(id));
  }

  /** A successful delete keeps the store valid, and consistent if it was. */
  lemma DeleteOperationTypeKeepsValid(s: Store, id: Id)
    requires Valid(s)
    requires DeleteOperationType(s, id).Ok?
    ensures Valid(DeleteOperationType(s, id).value)
    ensures Consistent(s) ==> Consistent(DeleteOperationType(s, id).value)
  {
    assert DeleteOperationType(s, id) == Collect(s, OperationTypeDeleteSet(s, id));
    CollectKeepsValid(s, OperationTypeDeleteSet(s, id));
  }

  /** A successful delete keeps the store valid, and consistent if it was. */
  lemma DeleteCategoryKeepsValid(s: Store, id: Id)
    requires Valid(s)
    requires DeleteCategory(s, id).Ok?
    ensures Valid(DeleteCategory(s, id).value)
    ensures Consistent(s) ==> Consistent(DeleteCategory(s, id).value)
  {
    assert DeleteCategory(s, id) == Collect(s, CategoryDeleteSet(s, id));
    CollectKeepsValid(s, CategoryDeleteSet(s, id));
  }

  /** A successful delete keeps the store valid, and consistent if it was. */
  lemma DeleteSubCategoryKeepsValid(s: Store, id: Id)
    requires Valid(s)
    requires DeleteSubCategory(s, id).Ok?
    ensures Valid(DeleteSubCategory(s, id).value)
    ensures Consistent(s) ==> Consistent(DeleteSubCategory(s, id).value)
  {
    assert DeleteSubCategory(s, id) == Collect(s, SubCategoryDeleteSet(id));
    CollectKeepsValid(s, SubCategoryDeleteSet(id));
  }

  /** Deleting an operation type that a transaction's category or
      subcategory reaches fails even when no transaction names the type
      itself: protection is checked over the whole cascade. */
  lemma {:induction false} CascadeIsProtectedAsAWhole(s: Store, op: Id, k: Id)
    requires op in s.operationTypes && k in s.transactions
    requires s.transactions[k].fields.category in s.categories
    requires s.categories[s.transactions[k].fields.category].operationType == op
    ensures DeleteOperationType(s, op) == Err(Protected)
  {
    assert UsesOperationType(s, s.transactions[k].fields, op);
  }

  /** After a successful category delete no subcategory names it. */
  lemma {:induction false} DeletedCategoryHasNoChildren(s: Store, id: Id)
    requires DeleteCategory(s, id).Ok?
    ensures forall k :: k in DeleteCategory(s, id).value.subcategories ==>
      DeleteCategory(s, id).value.subcategories[k].category != id
  {
    var r := DeleteCategory(s, id).value;
    forall k | k in r.subcategories ensures r.subcategories[k].category != id {
      assert k in s.subcategories && s.subcategories[k].category != id;
    }
  }
}
