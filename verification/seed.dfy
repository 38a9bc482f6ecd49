/** The data-seeding script (`initialize_data.py`): three statuses, two
    operation types, four categories and five subcategories, each obtained
    with `get_or_create`, so that running it again changes nothing. */
module Seed {
  import opened Base
  import opened Store
  import opened Collections
  import Catalog

  /** The lookup half of `get_or_create`: the key of the row equal to `row`.
      It is unique whenever the unique constraints hold; otherwise this model
      picks the least such key. */
  function Find<V(==, !new)>(m: map<Id, V>, row: V): (r: Option<Id>)
    ensures r.Some? ==> r.value in m && m[r.value] == row
    ensures r.Some? ==> forall k :: k in m && m[k] == row ==> r.value <= k
    ensures r.None? <==> row !in m.Values
  {
    var r := FirstKey(m, (x: V) => x == row);
    r
  }

  /** The catalog only grows: every row keeps its key and its value, and no
      key handed out is handed out again. */
  predicate Extends(s: Store, t: Store) {
    && (forall k :: k in s.statuses ==> k in t.statuses && t.statuses[k] == s.statuses[k])
    && (forall k :: k in s.operationTypes ==> k in t.operationTypes && t.operationTypes[k] == s.operationTypes[k])
    && (forall k :: k in s.categories ==> k in t.categories && t.categories[k] == s.categories[k])
    && (forall k :: k in s.subcategories ==> k in t.subcategories && t.subcategories[k] == s.subcategories[k])
    && t.transactions == s.transactions && t.clock == s.clock
    && s.nextId <= t.nextId
  }

  lemma ExtendsTransitive(s: Store, t: Store, u: Store)
    requires Extends(s, t) && Extends(t, u)
    ensures Extends(s, u)
  {
  }

  /** Growing the catalog leaves every transaction's I1 and I2 as they were. */
  lemma ExtendsKeepsConsistent(s: Store, t: Store)
    requires Extends(s, t) && Consistent(s) && RefsExist(s)
    ensures Consistent(t)
  {
    forall k | k in t.transactions
      ensures CategoryFits(t, t.transactions[k].fields) && SubCategoryFits(t, t.transactions[k].fields)
    {
      assert CategoryFits(s, s.transactions[k].fields) && SubCategoryFits(s, s.transactions[k].fields);
      assert LinksExist(s, s.transactions[k].fields);
    }
  }

  /** `Status.objects.get_or_create(name=...)`: the existing row with the
      least key, or a new row under the next key. */
  function GetOrCreateStatus(s: Store, row: Status): (r: (Store, Id))
    ensures r.1 in r.0.statuses && r.0.statuses[r.1] == row
    ensures row in s.statuses.Values ==> r.0 == s && forall k :: k in s.statuses && s.statuses[k] == row ==> r.1 <= k
    ensures row !in s.statuses.Values ==> r == (Catalog.InsertStatus(s, row), s.nextId)
    ensures r.0 == s.(statuses := r.0.statuses, nextId := r.0.nextId)
  {
    match Find(s.statuses, row)
    case Some(k) => (s, k)
    case None => (Catalog.InsertStatus(s, row), s.nextId)
  }

  function GetOrCreateOperationType(s: Store, row: OperationType): (r: (Store, Id))
    ensures r.1 in r.0.operationTypes && r.0.operationTypes[r.1] == row
    ensures row in s.operationTypes.Values ==>
      r.0 == s && forall k :: k in s.operationTypes && s.operationTypes[k] == row ==> r.1 <= k
    ensures row !in s.operationTypes.Values ==> r == (Catalog.InsertOperationType(s, row), s.nextId)
    ensures r.0 == s.(operationTypes := r.0.operationTypes, nextId := r.0.nextId)
  {
    match Find(s.operationTypes, row)
    case Some(k) => (s, k)
    case None => (Catalog.InsertOperationType(s, row), s.nextId)
  }

  /** `Category.objects.get_or_create(name=..., operation_type=...)`. */
  function GetOrCreateCategory(s: Store, row: Category): (r: (Store, Id))
    ensures r.1 in r.0.categories && r.0.categories[r.1] == row
    ensures row in s.categories.Values ==>
      r.0 == s && forall k :: k in s.categories && s.categories[k] == row ==> r.1 <= k
    ensures row !in s.categories.Values ==> r == (Catalog.InsertCategory(s, row), s.nextId)
    ensures r.0 == s.(categories := r.0.categories, nextId := r.0.nextId)
  {
    match Find(s.categories, row)
    case Some(k) => (s, k)
    case None => (Catalog.InsertCategory(s, row), s.nextId)
  }

  function GetOrCreateSubCategory(s: Store, row: SubCategory): (r: (Store, Id))
    ensures r.1 in r.0.subcategories && r.0.subcategories[r.1] == row
    ensures row in s.subcategories.Values ==>
      r.0 == s && forall k :: k in s.subcategories && s.subcategories[k] == row ==> r.1 <= k
    ensures row !in s.subcategories.Values ==> r == (Catalog.InsertSubCategory(s, row), s.nextId)
    ensures r.0 == s.(subcategories := r.0.subcategories, nextId := r.0.nextId)
  {
    match Find(s.subcategories, row)
    case Some(k) => (s, k)
    case None => (Catalog.InsertSubCategory(s, row), s.nextId)
  }

  /** With fresh keys, a `get_or_create` only grows the catalog. */
  lemma GetOrCreateStatusExtends(s: Store, row: Status)
    requires FreshIds(s)
    ensures Extends(s, GetOrCreateStatus(s, row).0) && FreshIds(GetOrCreateStatus(s, row).0)
  {
  }

  lemma GetOrCreateOperationTypeExtends(s: Store, row: OperationType)
    requires FreshIds(s)
    ensures Extends(s, GetOrCreateOperationType(s, row).0) && FreshIds(GetOrCreateOperationType(s, row).0)
  {
  }

  lemma GetOrCreateCategoryExtends(s: Store, row: Category)
    requires FreshIds(s)
    ensures Extends(s, GetOrCreateCategory(s, row).0) && FreshIds(GetOrCreateCategory(s, row).0)
  {
  }

  lemma GetOrCreateSubCategoryExtends(s: Store, row: SubCategory)
    requires FreshIds(s)
    ensures Extends(s, GetOrCreateSubCategory(s, row).0) && FreshIds(GetOrCreateSubCategory(s, row).0)
  {
  }

  /** A second `get_or_create` of the same row finds the first one's. */
  lemma {:induction false} GetOrCreateCategoryIdempotent(s: Store, row: Category)
    requires FreshIds(s)
    ensures GetOrCreateCategory(GetOrCreateCategory(s, row).0, row) == GetOrCreateCategory(s, row)
  {
    var (t, k) := GetOrCreateCategory(s, row);
    assert row in t.categories.Values;
    var (u, k') := GetOrCreateCategory(t, row);
    assert u == t;
    if row in s.categories.Values {
      assert k' <= k && t == s;
    } else {
      forall j | j in t.categories && t.categories[j] == row ensures j == k {
      }
    }
  }

  const Business := Status("Бизнес")
  const Personal := Status("Личное")
  const Tax := Status("Налог")
  const Income := OperationType("Пополнение")
  const Expense := OperationType("Списание")

  function Infrastructure(expense: Id): Category { Category("Инфраструктура", expense) }
  function Marketing(expense: Id): Category { Category("Маркетинг", expense) }
  function Salary(expense: Id): Category { Category("Зарплата", expense) }
  function Sales(income: Id): Category { Category("Продажи", income) }

  /** The three statuses. */
  function SeedStatuses(s: Store): (r: Store)
    ensures r.operationTypes == s.operationTypes && r.categories == s.categories && r.subcategories == s.subcategories
    ensures r.transactions == s.transactions && r.clock == s.clock
    ensures StatusesSeeded(s.statuses) ==> r == s
  {
    var (s1, business) := GetOrCreateStatus(s, Business);
    var (s2, personal) := GetOrCreateStatus(s1, Personal);
    var (s3, tax) := GetOrCreateStatus(s2, Tax);
    s3
  }

  lemma SeedStatusesExtends(s: Store)
    requires FreshIds(s)
    ensures Extends(s, SeedStatuses(s)) && FreshIds(SeedStatuses(s))
    ensures StatusesSeeded(SeedStatuses(s).statuses)
  {
    var (s1, business) := GetOrCreateStatus(s, Business);
    GetOrCreateStatusExtends(s, Business);
    var (s2, personal) := GetOrCreateStatus(s1, Personal);
    GetOrCreateStatusExtends(s1, Personal);
    var (s3, tax) := GetOrCreateStatus(s2, Tax);
    GetOrCreateStatusExtends(s2, Tax);
    ExtendsTransitive(s, s1, s2);
    ExtendsTransitive(s, s2, s3);
    assert s3.statuses[business] == Business && s3.statuses[personal] == Personal;
  }

  /** The two operation types and their keys (income, expense). */
  function SeedOperationTypes(s: Store): (r: (Store, Id, Id))
    ensures r.2 in r.0.operationTypes && r.0.operationTypes[r.2] == Expense
    ensures r.0.statuses == s.statuses && r.0.categories == s.categories && r.0.subcategories == s.subcategories
    ensures r.0.transactions == s.transactions && r.0.clock == s.clock
    ensures (Income in s.operationTypes.Values && Expense in s.operationTypes.Values) ==> r.0 == s
    ensures Income in s.operationTypes.Values ==> r.1 in s.operationTypes && s.operationTypes[r.1] == Income
  {
    var (s1, income) := GetOrCreateOperationType(s, Income);
    var (s2, expense) := GetOrCreateOperationType(s1, Expense);
    (s2, income, expense)
  }

  lemma SeedOperationTypesExtends(s: Store)
    requires FreshIds(s)
    ensures var r := SeedOperationTypes(s);
      Extends(s, r.0) && FreshIds(r.0) && r.1 in r.0.operationTypes && r.0.operationTypes[r.1] == Income
  {
    var (s1, income) := GetOrCreateOperationType(s, Income);
    GetOrCreateOperationTypeExtends(s, Income);
    var (s2, expense) := GetOrCreateOperationType(s1, Expense);
    GetOrCreateOperationTypeExtends(s1, Expense);
    ExtendsTransitive(s, s1, s2);
  }

  /** The four categories, three for expenses and one for income, and the
      keys of the two that get subcategories (infrastructure, marketing). */
  function SeedCategories(s: Store, income: Id, expense: Id): (r: (Store, Id, Id))
    ensures r.0.statuses == s.statuses && r.0.operationTypes == s.operationTypes && r.0.subcategories == s.subcategories
    ensures r.0.transactions == s.transactions && r.0.clock == s.clock
    ensures (Infrastructure(expense) in s.categories.Values && Marketing(expense) in s.categories.Values
      && Salary(expense) in s.categories.Values && Sales(income) in s.categories.Values) ==> r.0 == s
    ensures Infrastructure(expense) in s.categories.Values ==>
      r.1 in s.categories && s.categories[r.1] == Infrastructure(expense)
    ensures Infrastructure(expense) in s.categories.Values && Marketing(expense) in s.categories.Values ==>
      r.2 in s.categories && s.categories[r.2] == Marketing(expense)
  {
    var (s1, infrastructure) := GetOrCreateCategory(s, Infrastructure(expense));
    var (s2, marketing) := GetOrCreateCategory(s1, Marketing(expense));
    var (s3, salary) := GetOrCreateCategory(s2, Salary(expense));
    var (s4, sales) := GetOrCreateCategory(s3, Sales(income));
    (s4, infrastructure, marketing)
  }

  lemma SeedCategoriesExtends(s: Store, income: Id, expense: Id)
    requires FreshIds(s)
    ensures var r := SeedCategories(s, income, expense);
      && Extends(s, r.0) && FreshIds(r.0)
      && r.1 in r.0.categories && r.0.categories[r.1] == Infrastructure(expense)
      && r.2 in r.0.categories && r.0.categories[r.2] == Marketing(expense)
      && Salary(expense) in r.0.categories.Values && Sales(income) in r.0.categories.Values
  {
    var (s1, infrastructure) := GetOrCreateCategory(s, Infrastructure(expense));
    GetOrCreateCategoryExtends(s, Infrastructure(expense));
    var (s2, marketing) := GetOrCreateCategory(s1, Marketing(expense));
    GetOrCreateCategoryExtends(s1, Marketing(expense));
    var (s3, salary) := GetOrCreateCategory(s2, Salary(expense));
    GetOrCreateCategoryExtends(s2, Salary(expense));
    var (s4, sales) := GetOrCreateCategory(s3, Sales(income));
    GetOrCreateCategoryExtends(s3, Sales(income));
    ExtendsTransitive(s, s1, s2);
    ExtendsTransitive(s, s2, s3);
    ExtendsTransitive(s, s3, s4);
    assert s4.categories[infrastructure] == Infrastructure(expense);
    assert s4.categories[marketing] == Marketing(expense);
    assert s4.categories[salary] == Salary(expense);
  }

  predicate SubCategoriesSeeded(m: map<Id, SubCategory>, infrastructure: Id, marketing: Id) {
    && SubCategory("VPS", infrastructure) in m.Values
    && SubCategory("Proxy", infrastructure) in m.Values
    && SubCategory("Farpost", marketing) in m.Values
    && SubCategory("Avito", marketing) in m.Values
    && SubCategory("Офис", infrastructure) in m.Values
  }

  /** The five subcategories. */
  function SeedSubCategories(s: Store, infrastructure: Id, marketing: Id): (r: Store)
    ensures r.statuses == s.statuses && r.operationTypes == s.operationTypes && r.categories == s.categories
    ensures r.transactions == s.transactions && r.clock == s.clock
    ensures SubCategoriesSeeded(s.subcategories, infrastructure, marketing) ==> r == s
  {
    var (s1, vps) := GetOrCreateSubCategory(s, SubCategory("VPS", infrastructure));
    var (s2, proxy) := GetOrCreateSubCategory(s1, SubCategory("Proxy", infrastructure));
    var (s3, farpost) := GetOrCreateSubCategory(s2, SubCategory("Farpost", marketing));
    var (s4, avito) := GetOrCreateSubCategory(s3, SubCategory("Avito", marketing));
    var (s5, office) := GetOrCreateSubCategory(s4, SubCategory("Офис", infrastructure));
    s5
  }

  lemma SeedSubCategoriesExtends(s: Store, infrastructure: Id, marketing: Id)
    requires FreshIds(s)
    ensures var r := SeedSubCategories(s, infrastructure, marketing);
      Extends(s, r) && FreshIds(r) && SubCategoriesSeeded(r.subcategories, infrastructure, marketing)
  {
    var (s1, vps) := GetOrCreateSubCategory(s, SubCategory("VPS", infrastructure));
    GetOrCreateSubCategoryExtends(s, SubCategory("VPS", infrastructure));
    var (s2, proxy) := GetOrCreateSubCategory(s1, SubCategory("Proxy", infrastructure));
    GetOrCreateSubCategoryExtends(s1, SubCategory("Proxy", infrastructure));
    var (s3, farpost) := GetOrCreateSubCategory(s2, SubCategory("Farpost", marketing));
    GetOrCreateSubCategoryExtends(s2, SubCategory("Farpost", marketing));
    var (s4, avito) := GetOrCreateSubCategory(s3, SubCategory("Avito", marketing));
    GetOrCreateSubCategoryExtends(s3, SubCategory("Avito", marketing));
    var (s5, office) := GetOrCreateSubCategory(s4, SubCategory("Офис", infrastructure));
    GetOrCreateSubCategoryExtends(s4, SubCategory("Офис", infrastructure));
    ExtendsTransitive(s, s1, s2);
    ExtendsTransitive(s, s2, s3);
    ExtendsTransitive(s, s3, s4);
    ExtendsTransitive(s, s4, s5);
    assert s5.subcategories[vps] == SubCategory("VPS", infrastructure);
    assert s5.subcategories[proxy] == SubCategory("Proxy", infrastructure);
    assert s5.subcategories[farpost] == SubCategory("Farpost", marketing);
    assert s5.subcategories[avito] == SubCategory("Avito", marketing);
  }

  predicate StatusesSeeded(m: map<Id, Status>) {
    Business in m.Values && Personal in m.Values && Tax in m.Values
  }

  predicate OperationTypesSeeded(m: map<Id, OperationType>, income: Id, expense: Id) {
    && income in m && m[income] == Income
    && expense in m && m[expense] == Expense
  }

  predicate CategoriesSeeded(m: map<Id, Category>, income: Id, expense: Id, infrastructure: Id, marketing: Id) {
    && infrastructure in m && m[infrastructure] == Infrastructure(expense)
    && marketing in m && m[marketing] == Marketing(expense)
    && Salary(expense) in m.Values && Sales(income) in m.Values
  }

  /** The seeded rows, with the keys of the rows others point at. */
  predicate SeededWith(s: Store, income: Id, expense: Id, infrastructure: Id, marketing: Id) {
    && StatusesSeeded(s.statuses)
    && OperationTypesSeeded(s.operationTypes, income, expense)
    && CategoriesSeeded(s.categories, income, expense, infrastructure, marketing)
    && SubCategoriesSeeded(s.subcategories, infrastructure, marketing)
  }

  ghost predicate Seeded(s: Store) {
    exists income, expense, infrastructure, marketing :: SeededWith(s, income, expense, infrastructure, marketing)
  }

  lemma SeededWithIsSeeded(s: Store, income: Id, expense: Id, infrastructure: Id, marketing: Id)
    requires SeededWith(s, income, expense, infrastructure, marketing)
    ensures Seeded(s)
  {
  }

  /** `initialize_data()`: the rows are obtained in the script's order,
      each later stage pointing at keys the earlier ones returned. Only
      the catalog is written. */
  function InitializeData(s: Store): (r: Store)
    ensures r.transactions == s.transactions && r.clock == s.clock
  {
    var s1 := SeedStatuses(s);
    var (s2, income, expense) := SeedOperationTypes(s1);
    var (s3, infrastructure, marketing) := SeedCategories(s2, income, expense);
    SeedSubCategories(s3, infrastructure, marketing)
  }

  /** With fresh keys, the script only adds rows. */
  lemma {:induction false} InitializeDataExtends(s: Store)
    requires FreshIds(s)
    ensures Extends(s, InitializeData(s)) && FreshIds(InitializeData(s))
  {
    var s1 := SeedStatuses(s);
    SeedStatusesExtends(s);
    var (s2, income, expense) := SeedOperationTypes(s1);
    SeedOperationTypesExtends(s1);
    var (s3, infrastructure, marketing) := SeedCategories(s2, income, expense);
    SeedCategoriesExtends(s2, income, expense);
    var s4 := SeedSubCategories(s3, infrastructure, marketing);
    SeedSubCategoriesExtends(s3, infrastructure, marketing);
    ExtendsTransitive(s, s1, s2);
    ExtendsTransitive(s, s2, s3);
    ExtendsTransitive(s, s3, s4);
  }

  /** With fresh keys, every seeded row is present afterwards. */
  lemma {:induction false} InitializeDataSeeds(s: Store)
    requires FreshIds(s)
    ensures Seeded(InitializeData(s))
  {
    var s1 := SeedStatuses(s);
    assert FreshIds(s1) && StatusesSeeded(s1.statuses) by {
      SeedStatusesExtends(s);
    }
    var (s2, income, expense) := SeedOperationTypes(s1);
    assert FreshIds(s2) && OperationTypesSeeded(s2.operationTypes, income, expense) by {
      SeedOperationTypesExtends(s1);
    }
    var (s3, infrastructure, marketing) := SeedCategories(s2, income, expense);
    assert FreshIds(s3) && CategoriesSeeded(s3.categories, income, expense, infrastructure, marketing) by {
      SeedCategoriesExtends(s2, income, expense);
    }
    var s4 := SeedSubCategories(s3, infrastructure, marketing);
    assert SubCategoriesSeeded(s4.subcategories, infrastructure, marketing) by {
      SeedSubCategoriesExtends(s3, infrastructure, marketing);
    }
    assert s4.statuses == s1.statuses && s4.operationTypes == s2.operationTypes && s4.categories == s3.categories;
    assert InitializeData(s) == s4;
    SeededWithIsSeeded(s4, income, expense, infrastructure, marketing);
  }

  /** On a store that already holds the seeded rows, with no duplicates,
      the script finds every row and changes nothing. */
  lemma {:induction false} SeededIsFixedPoint(s: Store)
    requires UniqueKeys(s) && Seeded(s)
    ensures InitializeData(s) == s
  {
    var income, expense, infrastructure, marketing :| SeededWith(s, income, expense, infrastructure, marketing);
    assert SeedStatuses(s) == s;
    SeedOperationTypesFinds(s, income, expense);
    SeedCategoriesFinds(s, income, expense, infrastructure, marketing);
  }

  /** With both operation types stored once, the stage returns their keys. */
  lemma SeedOperationTypesFinds(s: Store, income: Id, expense: Id)
    requires UniqueKeys(s)
    requires income in s.operationTypes && s.operationTypes[income] == Income
    requires expense in s.operationTypes && s.operationTypes[expense] == Expense
    ensures SeedOperationTypes(s) == (s, income, expense)
  {
    var (t, i, e) := SeedOperationTypes(s);
    assert t == s;
    assert s.operationTypes[i].name == s.operationTypes[income].name;
  }

  /** With the four categories stored once, the stage returns the keys of
      the two that get subcategories. */
  lemma SeedCategoriesFinds(s: Store, income: Id, expense: Id, infrastructure: Id, marketing: Id)
    requires UniqueKeys(s)
    requires infrastructure in s.categories && s.categories[infrastructure] == Infrastructure(expense)
    requires marketing in s.categories && s.categories[marketing] == Marketing(expense)
    requires Salary(expense) in s.categories.Values && Sales(income) in s.categories.Values
    ensures SeedCategories(s, income, expense) == (s, infrastructure, marketing)
  {
    var (t, f, m) := SeedCategories(s, income, expense);
    assert t == s;
    assert s.categories[f] == s.categories[infrastructure];
    assert s.categories[m] == s.categories[marketing];
  }

  /** The seed keeps the store valid and its transactions consistent. */
  lemma {:induction false} InitializeDataKeepsValid(s: Store)
    requires Valid(s)
    ensures Valid(InitializeData(s))
    ensures Consistent(s) ==> Consistent(InitializeData(s))
  {
    var s1 := SeedStatuses(s);
    SeedStatusesKeepsValid(s);
    var (s2, income, expense) := SeedOperationTypes(s1);
    SeedOperationTypesKeepsValid(s1);
    SeedOperationTypesExtends(s1);
    var (s3, infrastructure, marketing) := SeedCategories(s2, income, expense);
    SeedCategoriesKeepsValid(s2, income, expense);
    SeedCategoriesExtends(s2, income, expense);
    SeedSubCategoriesKeepsValid(s3, infrastructure, marketing);
    if Consistent(s) {
      InitializeDataExtends(s);
      ExtendsKeepsConsistent(s, InitializeData(s));
    }
  }

  /** Running the script twice is running it once. */
  lemma {:induction false} InitializeDataIdempotent(s: Store)
    requires Valid(s)
    ensures InitializeData(InitializeData(s)) == InitializeData(s)
  {
    InitializeDataKeepsValid(s);
    InitializeDataSeeds(s);
    SeededIsFixedPoint(InitializeData(s));
  }

  lemma GetOrCreateStatusKeepsValid(s: Store, row: Status)
    requires Valid(s) && ValidName(row.name)
    ensures Valid(GetOrCreateStatus(s, row).0)
  {
    if row !in s.statuses.Values {
      Catalog.InsertStatusKeepsValid(s, row);
    }
  }

  lemma GetOrCreateOperationTypeKeepsValid(s: Store, row: OperationType)
    requires Valid(s) && ValidName(row.name)
    ensures Valid(GetOrCreateOperationType(s, row).0)
  {
    if row !in s.operationTypes.Values {
      Catalog.InsertOperationTypeKeepsValid(s, row);
    }
  }

  lemma GetOrCreateCategoryKeepsValid(s: Store, row: Category)
    requires Valid(s) && ValidName(row.name) && row.operationType in s.operationTypes
    ensures Valid(GetOrCreateCategory(s, row).0)
  {
    if row !in s.categories.Values {
      Catalog.InsertCategoryKeepsValid(s, row);
    }
  }

  lemma GetOrCreateSubCategoryKeepsValid(s: Store, row: SubCategory)
    requires Valid(s) && ValidName(row.name) && row.category in s.categories
    ensures Valid(GetOrCreateSubCategory(s, row).0)
  {
    if row !in s.subcategories.Values {
      Catalog.InsertSubCategoryKeepsValid(s, row);
    }
  }

  lemma SeedStatusesKeepsValid(s: Store)
    requires Valid(s)
    ensures Valid(SeedStatuses(s))
  {
    var s1 := GetOrCreateStatus(s, Business).0;
    GetOrCreateStatusKeepsValid(s, Business);
    var s2 := GetOrCreateStatus(s1, Personal).0;
    GetOrCreateStatusKeepsValid(s1, Personal);
    GetOrCreateStatusKeepsValid(s2, Tax);
  }

  lemma SeedOperationTypesKeepsValid(s: Store)
    requires Valid(s)
    ensures Valid(SeedOperationTypes(s).0)
  {
    var s1 := GetOrCreateOperationType(s, Income).0;
    GetOrCreateOperationTypeKeepsValid(s, Income);
    GetOrCreateOperationTypeKeepsValid(s1, Expense);
  }

  /** Every name the script writes is one a catalog form would accept. */
  lemma SeedNamesAreValid()
    ensures ValidName(Infrastructure(0).name) && ValidName(Marketing(0).name)
    ensures ValidName(Salary(0).name) && ValidName(Sales(0).name)
    ensures ValidName("VPS") && ValidName("Proxy") && ValidName("Farpost")
    ensures ValidName("Avito") && ValidName("Офис")
  {
  }

  lemma SeedCategoriesKeepsValid(s: Store, income: Id, expense: Id)
    requires Valid(s) && income in s.operationTypes && expense in s.operationTypes
    ensures Valid(SeedCategories(s, income, expense).0)
  {
    SeedNamesAreValid();
    var s1 := GetOrCreateCategory(s, Infrastructure(expense)).0;
    GetOrCreateCategoryKeepsValid(s, Infrastructure(expense));
    var s2 := GetOrCreateCategory(s1, Marketing(expense)).0;
    GetOrCreateCategoryKeepsValid(s1, Marketing(expense));
    var s3 := GetOrCreateCategory(s2, Salary(expense)).0;
    GetOrCreateCategoryKeepsValid(s2, Salary(expense));
    GetOrCreateCategoryKeepsValid(s3, Sales(income));
  }

  lemma SeedSubCategoriesKeepsValid(s: Store, infrastructure: Id, marketing: Id)
    requires Valid(s) && infrastructure in s.categories && marketing in s.categories
    ensures Valid(SeedSubCategories(s, infrastructure, marketing))
  {
    SeedNamesAreValid();
    var s1 := GetOrCreateSubCategory(s, SubCategory("VPS", infrastructure)).0;
    GetOrCreateSubCategoryKeepsValid(s, SubCategory("VPS", infrastructure));
    var s2 := GetOrCreateSubCategory(s1, SubCategory("Proxy", infrastructure)).0;
    GetOrCreateSubCategoryKeepsValid(s1, SubCategory("Proxy", infrastructure));
    var s3 := GetOrCreateSubCategory(s2, SubCategory("Farpost", marketing)).0;
    GetOrCreateSubCategoryKeepsValid(s2, SubCategory("Farpost", marketing));
    var s4 := GetOrCreateSubCategory(s3, SubCategory("Avito", marketing)).0;
    GetOrCreateSubCategoryKeepsValid(s3, SubCategory("Avito", marketing));
    GetOrCreateSubCategoryKeepsValid(s4, SubCategory("Офис", infrastructure));
  }
}
