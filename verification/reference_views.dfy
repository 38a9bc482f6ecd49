/** The views of the reference app (`reference/views.py`): the overview of
    all four catalogs, create / update / delete for each, the subcategory
    form pages, and the two option loaders. A view that does not report
    `Done` leaves the store as it was: an invalid form re-renders, a missing
    key is a 404, and a refused delete rolls back. */
module ReferenceViews {
  import opened Base
  import opened Store
  import opened Collections
  import opened Lookups
  import opened Forms
  import Catalog

  /** A form view: GET shows the blank or bound form; POST saves when the
      form is clean and re-renders it with its errors otherwise. */
  function Submit(s: Store, m: Method, errors: set<Field>, saved: Store): (r: Reply)
    ensures r.outcome.Done? <==> m == Post && errors == {}
    ensures r.outcome.Done? ==> r.store == saved
    ensures !r.outcome.Done? ==> r.store == s
    ensures m == Get ==> r.outcome == Shown
    ensures m == Post && errors != {} ==> r.outcome == Failed(InvalidForm(errors))
  {
    match m
    case Get => Reply(s, Shown)
    case Post => if errors == {} then Reply(saved, Done) else Reply(s, Failed(InvalidForm(errors)))
  }

  /** A delete view: GET shows the confirmation page; POST deletes, and a
      `ProtectedError` aborts the request with nothing removed. */
  function Confirm(s: Store, m: Method, deleted: Result<Store>): (r: Reply)
    ensures m == Get ==> r == Reply(s, Shown)
    ensures m == Post && deleted.Ok? ==> r == Reply(deleted.value, Done)
    ensures m == Post && deleted.Err? ==> r == Reply(s, Failed(deleted.error))
  {
    match m
    case Get => Reply(s, Shown)
    case Post =>
      match deleted
      case Ok(t) => Reply(t, Done)
      case Err(e) => Reply(s, Failed(e))
  }

  /** What `ReferenceView.get_queryset` hands the index template. */
  datatype Overview = Overview(
    statuses: seq<(Id, Status)>,
    operationTypes: seq<(Id, OperationType)>,
    categories: seq<(Id, Category)>,
    subcategories: seq<(Id, SubCategory)>)

  /** Every row of every catalog, each table ordered by name. */
  function ReferenceIndex(s: Store): (r: Overview)
    ensures forall e :: e in r.statuses <==> RowOf(e, s.statuses)
    ensures forall e :: e in r.operationTypes <==> RowOf(e, s.operationTypes)
    ensures forall e :: e in r.categories <==> RowOf(e, s.categories)
    ensures forall e :: e in r.subcategories <==> RowOf(e, s.subcategories)
    ensures SortedBy(r.statuses, StatusName) && SortedBy(r.operationTypes, OperationTypeName)
    ensures SortedBy(r.categories, CategoryName) && SortedBy(r.subcategories, SubCategoryName)
    ensures |r.statuses| == |s.statuses| && |r.operationTypes| == |s.operationTypes|
    ensures |r.categories| == |s.categories| && |r.subcategories| == |s.subcategories|
  {
    var r := Overview(
      SortedRows(s.statuses, (_: Status) => true, StatusName),
      SortedRows(s.operationTypes, (_: OperationType) => true, OperationTypeName),
      SortedRows(s.categories, (_: Category) => true, CategoryName),
      SortedRows(s.subcategories, (_: SubCategory) => true, SubCategoryName));
    ListsEveryRow(r.statuses, s.statuses);
    ListsEveryRow(r.operationTypes, s.operationTypes);
    ListsEveryRow(r.categories, s.categories);
    ListsEveryRow(r.subcategories, s.subcategories);
    r
  }

  /** A listing of distinct keys holding exactly the rows of `m` has one
      entry per row. */
  lemma {:induction false} ListsEveryRow<V>(r: seq<(Id, V)>, m: map<Id, V>)
    requires DistinctKeys(r)
    requires forall e :: e in r <==> RowOf(e, m)
    ensures |r| == |m|
  {
    assert KeysOf(r) == m.Keys by {
      forall k | k in m ensures k in KeysOf(r) {
        assert RowOf((k, m[k]), m);
        var i :| 0 <= i < |r| && r[i] == (k, m[k]);
      }
      forall k | k in KeysOf(r) ensures k in m {
        var i :| 0 <= i < |r| && r[i].0 == k;
        assert r[i] in r;
      }
    }
    DistinctKeysCount(r);
  }

  /** Distinct keys: as many keys as entries. */
  lemma {:induction false} DistinctKeysCount<V>(r: seq<(Id, V)>)
    requires DistinctKeys(r)
    ensures |KeysOf(r)| == |r|
    decreases |r|
  {
    if r != [] {
      var tail := r[1..];
      assert DistinctKeys(tail) by {
        forall i, j | 0 <= i < j < |tail| ensures tail[i].0 != tail[j].0 {
          assert r[i + 1].0 != r[j + 1].0;
        }
      }
      DistinctKeysCount(tail);
      KeysOfCons(r);
      assert r[0].0 !in KeysOf(tail) by {
        forall i | 0 <= i < |tail| ensures tail[i].0 != r[0].0 {
          assert r[i + 1].0 != r[0].0;
        }
      }
    }
  }

  /** The keys of a non-empty listing: its head's and its tail's. */
  lemma KeysOfCons<V>(r: seq<(Id, V)>)
    requires r != []
    ensures KeysOf(r) == {r[0].0} + KeysOf(r[1..])
  {
    forall k | k in KeysOf(r) ensures k in {r[0].0} + KeysOf(r[1..]) {
      var i :| 0 <= i < |r| && r[i].0 == k;
      if i > 0 { assert r[1..][i - 1].0 == k; }
    }
    forall k | k in KeysOf(r[1..]) ensures k in KeysOf(r) {
      var i :| 0 <= i < |r[1..]| && r[1..][i].0 == k;
      assert r[i + 1].0 == k;
    }
  }

  // ---- Status ----

  function StatusCreate(s: Store, m: Method, name: string): (r: Reply)
    ensures r.outcome.Done? <==> m == Post && ValidName(name) && StatusNameFree(s, name, None)
    ensures r.outcome.Done? ==> r.store == s.(statuses := s.statuses[s.nextId := Status(name)], nextId := s.nextId + 1)
    ensures !r.outcome.Done? ==> r.store == s
    ensures m == Post && !r.outcome.Done? ==> r.outcome == Failed(InvalidForm({NameField}))
  {
    Submit(s, m, StatusFormErrors(s, name, None), Catalog.InsertStatus(s, Status(name)))
  }

  function StatusUpdate(s: Store, m: Method, id: Id, name: string): (r: Reply)
    ensures id !in s.statuses ==> r == Reply(s, Failed(NotFound(StatusEntity)))
    ensures r.outcome.Done? <==> id in s.statuses && m == Post && ValidName(name) && StatusNameFree(s, name, Some(id))
    ensures r.outcome.Done? ==> r.store == s.(statuses := s.statuses[id := Status(name)])
    ensures !r.outcome.Done? ==> r.store == s
  {
    if id !in s.statuses then Reply(s, Failed(NotFound(StatusEntity)))
    else Submit(s, m, StatusFormErrors(s, name, Some(id)), s.(statuses := s.statuses[id := Status(name)]))
  }

  function StatusDelete(s: Store, m: Method, id: Id): (r: Reply)
    ensures id !in s.statuses ==> r == Reply(s, Failed(NotFound(StatusEntity)))
    ensures r.outcome.Done? <==> (id in s.statuses && m == Post &&
      forall k :: k in s.transactions ==> s.transactions[k].fields.status != id)
    ensures r.outcome.Done? ==> r.store == s.(statuses := s.statuses - {id})
    ensures !r.outcome.Done? ==> r.store == s
  {
    if id !in s.statuses then Reply(s, Failed(NotFound(StatusEntity)))
    else Confirm(s, m, Catalog.DeleteStatus(s, id))
  }

  // ---- OperationType ----

  function OperationTypeCreate(s: Store, m: Method, name: string): (r: Reply)
    ensures r.outcome.Done? <==> m == Post && ValidName(name) && OperationTypeNameFree(s, name, None)
    ensures r.outcome.Done? ==>
      r.store == s.(operationTypes := s.operationTypes[s.nextId := OperationType(name)], nextId := s.nextId + 1)
    ensures !r.outcome.Done? ==> r.store == s
    ensures m == Post && !r.outcome.Done? ==> r.outcome == Failed(InvalidForm({NameField}))
  {
    Submit(s, m, OperationTypeFormErrors(s, name, None), Catalog.InsertOperationType(s, OperationType(name)))
  }

  function OperationTypeUpdate(s: Store, m: Method, id: Id, name: string): (r: Reply)
    ensures id !in s.operationTypes ==> r == Reply(s, Failed(NotFound(OperationTypeEntity)))
    ensures r.outcome.Done? <==>
      id in s.operationTypes && m == Post && ValidName(name) && OperationTypeNameFree(s, name, Some(id))
    ensures r.outcome.Done? ==> r.store == s.(operationTypes := s.operationTypes[id := OperationType(name)])
    ensures !r.outcome.Done? ==> r.store == s
  {
    if id !in s.operationTypes then Reply(s, Failed(NotFound(OperationTypeEntity)))
    else Submit(s, m, OperationTypeFormErrors(s, name, Some(id)),
                s.(operationTypes := s.operationTypes[id := OperationType(name)]))
  }

  /** Deleting an operation type takes its categories and their
      subcategories with it, unless any transaction uses one of them. */
  function OperationTypeDelete(s: Store, m: Method, id: Id): (r: Reply)
    ensures id !in s.operationTypes ==> r == Reply(s, Failed(NotFound(OperationTypeEntity)))
    ensures r.outcome.Done? <==> (id in s.operationTypes && m == Post &&
      forall k :: k in s.transactions ==> !Catalog.UsesOperationType(s, s.transactions[k].fields, id))
    ensures r.outcome.Done? ==> r.store.operationTypes == s.operationTypes - {id}
    ensures r.outcome.Done? ==> forall k :: k in r.store.categories <==>
      k in s.categories && s.categories[k].operationType != id
    ensures !r.outcome.Done? ==> r.store == s
  {
    if id !in s.operationTypes then Reply(s, Failed(NotFound(OperationTypeEntity)))
    else Confirm(s, m, Catalog.DeleteOperationType(s, id))
  }

  // ---- Category ----

  function CategoryCreate(s: Store, m: Method, name: string, op: IdParam): (r: Reply)
    ensures r.outcome.Done? <==> m == Post && CategoryFormErrors(s, name, op, None) == {}
    ensures r.outcome.Done? ==> op.Number? && op.n in s.operationTypes && ValidName(name)
    ensures r.outcome.Done? ==>
      r.store == s.(categories := s.categories[s.nextId := Category(name, op.n)], nextId := s.nextId + 1)
    ensures !r.outcome.Done? ==> r.store == s
  {
    var row := if op.Number? && op.n >= 0 then Category(name, op.n) else Category(name, 0);
    Submit(s, m, CategoryFormErrors(s, name, op, None), Catalog.InsertCategory(s, row))
  }

  function CategoryUpdate(s: Store, m: Method, id: Id, name: string, op: IdParam): (r: Reply)
    ensures id !in s.categories ==> r == Reply(s, Failed(NotFound(CategoryEntity)))
    ensures r.outcome.Done? <==> id in s.categories && m == Post && CategoryFormErrors(s, name, op, Some(id)) == {}
    ensures r.outcome.Done? ==> op.Number? && op.n in s.operationTypes && ValidName(name)
    ensures r.outcome.Done? ==> r.store == s.(categories := s.categories[id := Category(name, op.n)])
    ensures !r.outcome.Done? ==> r.store == s
  {
    if id !in s.categories then Reply(s, Failed(NotFound(CategoryEntity)))
    else
      var row := if op.Number? && op.n >= 0 then Category(name, op.n) else Category(name, 0);
      Submit(s, m, CategoryFormErrors(s, name, op, Some(id)), s.(categories := s.categories[id := row]))
  }

  /** Deleting a category takes its subcategories with it, unless any
      transaction uses the category or one of them. */
  function CategoryDelete(s: Store, m: Method, id: Id): (r: Reply)
    ensures id !in s.categories ==> r == Reply(s, Failed(NotFound(CategoryEntity)))
    ensures r.outcome.Done? <==> (id in s.categories && m == Post &&
      forall k :: k in s.transactions ==> !Catalog.UsesCategory(s, s.transactions[k].fields, id))
    ensures r.outcome.Done? ==> r.store.categories == s.categories - {id}
    ensures r.outcome.Done? ==> forall k :: k in r.store.subcategories <==>
      k in s.subcategories && s.subcategories[k].category != id
    ensures !r.outcome.Done? ==> r.store == s
  {
    if id !in s.categories then Reply(s, Failed(NotFound(CategoryEntity)))
    else Confirm(s, m, Catalog.DeleteCategory(s, id))
  }

  // ---- SubCategory ----

  function SubCategoryCreate(s: Store, m: Method, name: string, category: IdParam): (r: Reply)
    ensures r.outcome.Done? <==> m == Post && SubCategoryFormErrors(s, name, category, None) == {}
    ensures r.outcome.Done? ==> category.Number? && category.n in s.categories && ValidName(name)
    ensures r.outcome.Done? ==>
      r.store == s.(subcategories := s.subcategories[s.nextId := SubCategory(name, category.n)], nextId := s.nextId + 1)
    ensures !r.outcome.Done? ==> r.store == s
  {
    var row := if category.Number? && category.n >= 0 then SubCategory(name, category.n) else SubCategory(name, 0);
    Submit(s, m, SubCategoryFormErrors(s, name, category, None), Catalog.InsertSubCategory(s, row))
  }

  function SubCategoryUpdate(s: Store, m: Method, id: Id, name: string, category: IdParam): (r: Reply)
    ensures id !in s.subcategories ==> r == Reply(s, Failed(NotFound(SubCategoryEntity)))
    ensures r.outcome.Done? <==>
      id in s.subcategories && m == Post && SubCategoryFormErrors(s, name, category, Some(id)) == {}
    ensures r.outcome.Done? ==> category.Number? && category.n in s.categories && ValidName(name)
    ensures r.outcome.Done? ==> r.store == s.(subcategories := s.subcategories[id := SubCategory(name, category.n)])
    ensures !r.outcome.Done? ==> r.store == s
  {
    if id !in s.subcategories then Reply(s, Failed(NotFound(SubCategoryEntity)))
    else
      var row := if category.Number? && category.n >= 0 then SubCategory(name, category.n) else SubCategory(name, 0);
      Submit(s, m, SubCategoryFormErrors(s, name, category, Some(id)), s.(subcategories := s.subcategories[id := row]))
  }

  function SubCategoryDelete(s: Store, m: Method, id: Id): (r: Reply)
    ensures id !in s.subcategories ==> r == Reply(s, Failed(NotFound(SubCategoryEntity)))
    ensures r.outcome.Done? <==> (id in s.subcategories && m == Post &&
      forall k :: k in s.transactions ==> s.transactions[k].fields.subcategory != Some(id))
    ensures r.outcome.Done? ==> r.store == s.(subcategories := s.subcategories - {id})
    ensures !r.outcome.Done? ==> r.store == s
  {
    if id !in s.subcategories then Reply(s, Failed(NotFound(SubCategoryEntity)))
    else Confirm(s, m, Catalog.DeleteSubCategory(s, id))
  }

  /** The category field of a subcategory form page: the value it starts
      with and the keys it offers. */
  datatype ParentChoice = ParentChoice(initial: Option<int>, offered: set<Id>)

  /** GET of `subcategory_create`: a non-empty `category` parameter
      preselects that category and offers only it (nothing, if it does not
      exist); otherwise the field offers nothing. A non-numeric parameter
      fails the lookup. */
  function SubCategoryCreatePage(s: Store, category: IdParam): (r: Result<ParentChoice>)
    ensures r.Err? <==> category.NotANumber?
    ensures r.Err? ==> r.error == BadLookupValue
    ensures (category.Absent? || category.Blank?) ==> r == Ok(ParentChoice(None, {}))
    ensures category.Number? ==> r.Ok? && r.value.initial == Some(category.n)
    ensures r.Ok? ==> r.value.offered == SubCategoryFormCategories(s, category)
    ensures r.Ok? ==> forall k :: k in r.value.offered <==> k in s.categories && category == Number(k)
  {
    match category
    case Absent => Ok(ParentChoice(None, {}))
    case Blank => Ok(ParentChoice(None, {}))
    case NotANumber => Err(BadLookupValue)
    case Number(n) => Ok(ParentChoice(Some(n), SubCategoryFormCategories(s, category)))
  }

  /** The hint and the form agree: a subcategory posted with the category
      the create page offered passes the category check. */
  lemma {:induction false} OfferedCategoryIsAccepted(s: Store, category: IdParam, k: Id)
    requires SubCategoryCreatePage(s, category).Ok?
    requires k in SubCategoryCreatePage(s, category).value.offered
    ensures CategoryField !in SubCategoryFormErrors(s, "", category, None)
  {
    assert category == Number(k);
  }

  /** GET of `subcategory_update`: the field starts at the current category
      and offers only it. */
  function SubCategoryUpdatePage(s: Store, id: Id): (r: Result<ParentChoice>)
    ensures r.Err? <==> id !in s.subcategories
    ensures r.Err? ==> r.error == NotFound(SubCategoryEntity)
    ensures r.Ok? ==> r.value.initial == Some(s.subcategories[id].category)
    ensures r.Ok? ==> forall k :: k in r.value.offered <==> k in s.categories && k == s.subcategories[id].category
    ensures r.Ok? && ParentsExist(s) ==> r.value.offered == {s.subcategories[id].category}
  {
    if id !in s.subcategories then Err(NotFound(SubCategoryEntity))
    else
      var c := s.subcategories[id].category;
      Ok(ParentChoice(Some(c), if c in s.categories then {c} else {}))
  }

  /** `load_categories` of the reference app: the categories of one
      operation type, by name. With no parameter the lookup is on NULL and
      finds nothing; a blank or non-numeric one fails. */
  function LoadCategories(s: Store, op: IdParam): (r: Result<seq<(Id, Category)>>)
    ensures r.Err? <==> op.Blank? || op.NotANumber?
    ensures r.Err? ==> r.error == BadLookupValue
    ensures op.Absent? ==> r == Ok([])
    ensures op.Number? ==> (r.Ok? && SortedBy(r.value, CategoryName) &&
      forall e :: e in r.value <==> RowOf(e, s.categories) && e.1.operationType == op.n)
  {
    match LookupValue(op)
    case Err(e) => Err(e)
    case Ok(None) => Ok([])
    case Ok(Some(n)) => Ok(CategoriesOfByName(s, n))
  }

  /** `load_subcategories` of the reference app. */
  function LoadSubCategories(s: Store, category: IdParam): (r: Result<seq<(Id, SubCategory)>>)
    ensures r.Err? <==> category.Blank? || category.NotANumber?
    ensures r.Err? ==> r.error == BadLookupValue
    ensures category.Absent? ==> r == Ok([])
    ensures category.Number? ==> (r.Ok? && SortedBy(r.value, SubCategoryName) &&
      forall e :: e in r.value <==> RowOf(e, s.subcategories) && e.1.category == category.n)
  {
    match LookupValue(category)
    case Err(e) => Err(e)
    case Ok(None) => Ok([])
    case Ok(Some(n)) => Ok(SubCategoriesOfByName(s, n))
  }

  // ---- What the views preserve ----

  lemma StatusCreateKeepsInvariants(s: Store, m: Method, name: string)
    requires Valid(s)
    ensures Valid(StatusCreate(s, m, name).store)
    ensures Consistent(s) ==> Consistent(StatusCreate(s, m, name).store)
  {
    var r := StatusCreate(s, m, name);
    if r.outcome.Done? {
      Catalog.InsertStatusKeepsValid(s, Status(name));
    }
    if Consistent(s) {
      ConsistentFrame(s, r.store);
    }
  }

  lemma StatusUpdateKeepsInvariants(s: Store, m: Method, id: Id, name: string)
    requires Valid(s)
    ensures Valid(StatusUpdate(s, m, id, name).store)
    ensures Consistent(s) ==> Consistent(StatusUpdate(s, m, id, name).store)
  {
    var r := StatusUpdate(s, m, id, name);
    if r.outcome.Done? {
      Catalog.RenameStatusKeepsValid(s, id, Status(name));
    }
    if Consistent(s) {
      ConsistentFrame(s, r.store);
    }
  }

  lemma StatusDeleteKeepsInvariants(s: Store, m: Method, id: Id)
    requires Valid(s)
    ensures Valid(StatusDelete(s, m, id).store)
    ensures Consistent(s) ==> Consistent(StatusDelete(s, m, id).store)
  {
    if StatusDelete(s, m, id).outcome.Done? {
      Catalog.DeleteStatusKeepsValid(s, id);
    }
  }

  lemma OperationTypeCreateKeepsInvariants(s: Store, m: Method, name: string)
    requires Valid(s)
    ensures Valid(OperationTypeCreate(s, m, name).store)
    ensures Consistent(s) ==> Consistent(OperationTypeCreate(s, m, name).store)
  {
    var r := OperationTypeCreate(s, m, name);
    if r.outcome.Done? {
      Catalog.InsertOperationTypeKeepsValid(s, OperationType(name));
    }
    if Consistent(s) {
      ConsistentFrame(s, r.store);
    }
  }

  lemma OperationTypeUpdateKeepsInvariants(s: Store, m: Method, id: Id, name: string)
    requires Valid(s)
    ensures Valid(OperationTypeUpdate(s, m, id, name).store)
    ensures Consistent(s) ==> Consistent(OperationTypeUpdate(s, m, id, name).store)
  {
    var r := OperationTypeUpdate(s, m, id, name);
    if r.outcome.Done? {
      Catalog.RenameOperationTypeKeepsValid(s, id, OperationType(name));
    }
    if Consistent(s) {
      ConsistentFrame(s, r.store);
    }
  }

  lemma OperationTypeDeleteKeepsInvariants(s: Store, m: Method, id: Id)
    requires Valid(s)
    ensures Valid(OperationTypeDelete(s, m, id).store)
    ensures Consistent(s) ==> Consistent(OperationTypeDelete(s, m, id).store)
  {
    if OperationTypeDelete(s, m, id).outcome.Done? {
      Catalog.DeleteOperationTypeKeepsValid(s, id);
    }
  }

  lemma CategoryCreateKeepsValid(s: Store, m: Method, name: string, op: IdParam)
    requires Valid(s)
    ensures Valid(CategoryCreate(s, m, name, op).store)
  {
    var t := CategoryCreate(s, m, name, op).store;
    if t != s {
      assert ParentsExist(t);
      assert UniqueKeys(t);
      assert RefsExist(t) by {
        forall k | k in t.transactions ensures LinksExist(t, t.transactions[k].fields) {
          assert LinksExist(s, s.transactions[k].fields);
        }
      }
    }
  }

  lemma CategoryCreateKeepsConsistent(s: Store, m: Method, name: string, op: IdParam)
    requires Valid(s) && Consistent(s)
    ensures Consistent(CategoryCreate(s, m, name, op).store)
  {
    var t := CategoryCreate(s, m, name, op).store;
    if t != s {
      forall k | k in t.transactions
        ensures CategoryFits(t, t.transactions[k].fields) && SubCategoryFits(t, t.transactions[k].fields)
      {
        assert CategoryFits(s, s.transactions[k].fields) && SubCategoryFits(s, s.transactions[k].fields);
      }
    }
  }

  /** Category names are unique per operation type only: an existing
      category's name is accepted under another operation type, and refused
      (as a `unique_together` error) under its own. */
  lemma {:induction false} CategoryNameIsPerOperationType(s: Store, k: Id, op: Id)
    requires k in s.categories && ValidName(s.categories[k].name)
    requires op in s.operationTypes && s.categories[k].operationType in s.operationTypes
    requires CategoryFree(s, Category(s.categories[k].name, op), None)
    ensures CategoryCreate(s, Post, s.categories[k].name, Number(op)).outcome == Done
    ensures CategoryCreate(s, Post, s.categories[k].name, Number(s.categories[k].operationType)).outcome
            == Failed(InvalidForm({NonFieldErrors}))
  {
    var row := s.categories[k];
    assert !CategoryFree(s, row, None);
    assert CategoryFormErrors(s, row.name, Number(op), None) == {};
    assert CategoryFormErrors(s, row.name, Number(row.operationType), None) == {NonFieldErrors};
  }

  /** Editing a category keeps the schema's guarantees, but not I1/I2 of the
      transactions that use it; see `CategoryUpdateCanBreakConsistency`. */
  lemma CategoryUpdateKeepsValid(s: Store, m: Method, id: Id, name: string, op: IdParam)
    requires Valid(s)
    ensures Valid(CategoryUpdate(s, m, id, name, op).store)
  {
    if CategoryUpdate(s, m, id, name, op).outcome.Done? {
      var row := Category(name, op.n);
      assert CategoryFormErrors(s, name, op, Some(id)) == {};
      assert CategoryFree(s, row, Some(id));
      Catalog.RenameCategoryKeepsValid(s, id, row);
    }
  }

  /** When the operation type is left as it was, no transaction's I1 or I2
      changes. */
  lemma CategoryRenameKeepsConsistent(s: Store, m: Method, id: Id, name: string, op: IdParam)
    requires Consistent(s)
    requires id in s.categories && op == Number(s.categories[id].operationType)
    ensures Consistent(CategoryUpdate(s, m, id, name, op).store)
  {
  }

  lemma CategoryDeleteKeepsInvariants(s: Store, m: Method, id: Id)
    requires Valid(s)
    ensures Valid(CategoryDelete(s, m, id).store)
    ensures Consistent(s) ==> Consistent(CategoryDelete(s, m, id).store)
  {
    if CategoryDelete(s, m, id).outcome.Done? {
      Catalog.DeleteCategoryKeepsValid(s, id);
    }
  }

  lemma SubCategoryCreateKeepsValid(s: Store, m: Method, name: string, category: IdParam)
    requires Valid(s)
    ensures Valid(SubCategoryCreate(s, m, name, category).store)
  {
    var r := SubCategoryCreate(s, m, name, category);
    if r.outcome.Done? {
      var row := SubCategory(name, category.n);
      assert SubCategoryFormErrors(s, name, category, None) == {};
      assert SubCategoryFree(s, row, None);
      Catalog.InsertSubCategoryKeepsValid(s, row);
    }
  }

  lemma SubCategoryCreateKeepsConsistent(s: Store, m: Method, name: string, category: IdParam)
    requires Valid(s) && Consistent(s)
    ensures Consistent(SubCategoryCreate(s, m, name, category).store)
  {
    var t := SubCategoryCreate(s, m, name, category).store;
    if t != s {
      forall k | k in t.transactions
        ensures CategoryFits(t, t.transactions[k].fields) && SubCategoryFits(t, t.transactions[k].fields)
      {
        assert CategoryFits(s, s.transactions[k].fields) && SubCategoryFits(s, s.transactions[k].fields);
      }
    }
  }

  lemma SubCategoryUpdateKeepsValid(s: Store, m: Method, id: Id, name: string, category: IdParam)
    requires Valid(s)
    ensures Valid(SubCategoryUpdate(s, m, id, name, category).store)
  {
    if SubCategoryUpdate(s, m, id, name, category).outcome.Done? {
      var row := SubCategory(name, category.n);
      assert SubCategoryFormErrors(s, name, category, Some(id)) == {};
      assert SubCategoryFree(s, row, Some(id));
      Catalog.RenameSubCategoryKeepsValid(s, id, row);
    }
  }

  /** When the parent category is left as it was, I2 is unaffected. */
  lemma SubCategoryRenameKeepsConsistent(s: Store, m: Method, id: Id, name: string, category: IdParam)
    requires Consistent(s)
    requires id in s.subcategories && category == Number(s.subcategories[id].category)
    ensures Consistent(SubCategoryUpdate(s, m, id, name, category).store)
  {
  }

  lemma SubCategoryDeleteKeepsInvariants(s: Store, m: Method, id: Id)
    requires Valid(s)
    ensures Valid(SubCategoryDelete(s, m, id).store)
    ensures Consistent(s) ==> Consistent(SubCategoryDelete(s, m, id).store)
  {
    if SubCategoryDelete(s, m, id).outcome.Done? {
      Catalog.DeleteSubCategoryKeepsValid(s, id);
    }
  }

  // ---- Editing the catalog under existing transactions ----

  /** `category_update` does not re-check the transactions of the category
      it edits: moving a used category to another operation type is
      accepted and leaves that transaction violating I1. */
  lemma {:induction false} CategoryUpdateCanBreakConsistency(s: Store, id: Id, op: Id)
    requires Valid(s) && Consistent(s)
    requires id in s.categories && op in s.operationTypes && op != s.categories[id].operationType
    requires CategoryFree(s, Category(s.categories[id].name, op), Some(id))
    requires exists k :: k in s.transactions && s.transactions[k].fields.category == id
    ensures CategoryUpdate(s, Post, id, s.categories[id].name, Number(op)).outcome == Done
    ensures !Consistent(CategoryUpdate(s, Post, id, s.categories[id].name, Number(op)).store)
  {
    var k :| k in s.transactions && s.transactions[k].fields.category == id;
    var t := CategoryUpdate(s, Post, id, s.categories[id].name, Number(op)).store;
    assert CategoryFits(s, s.transactions[k].fields);
    assert t.transactions[k] == s.transactions[k];
    assert !CategoryFits(t, t.transactions[k].fields);
  }

  /** Likewise `subcategory_update` accepts any existing category in POST
      data, whatever its page offered, and can leave a transaction
      violating I2. */
  lemma {:induction false} SubCategoryUpdateCanBreakConsistency(s: Store, id: Id, c: Id)
    requires Valid(s) && Consistent(s)
    requires id in s.subcategories && c in s.categories && c != s.subcategories[id].category
    requires SubCategoryFree(s, SubCategory(s.subcategories[id].name, c), Some(id))
    requires exists k :: k in s.transactions && s.transactions[k].fields.subcategory == Some(id)
    ensures SubCategoryUpdate(s, Post, id, s.subcategories[id].name, Number(c)).outcome == Done
    ensures !Consistent(SubCategoryUpdate(s, Post, id, s.subcategories[id].name, Number(c)).store)
  {
    var k :| k in s.transactions && s.transactions[k].fields.subcategory == Some(id);
    var t := SubCategoryUpdate(s, Post, id, s.subcategories[id].name, Number(c)).store;
    assert CategoryFits(s, s.transactions[k].fields);
    assert t.transactions[k] == s.transactions[k];
    assert !SubCategoryFits(t, t.transactions[k].fields);
  }
}
