# Cash-flow catalog and ledger — a Dafny model

This project models the core of a small Django application for recording
cash flows (ДДС). It has two parts.

- **The reference catalog** holds four tables:
  - statuses;
  - operation types (income, expense);
  - categories, each belonging to an operation type;
  - subcategories, each belonging to a category.
- **The ledger** holds transactions. Each transaction has a date, a status, an operation type, a category, an optional subcategory, an amount with two decimal places and a comment.

The model covers several things:

- the schema's constraints;
- the create, update and delete views of every table;
- the forms behind those views;
- the transaction list with its filters;
- the AJAX option loaders;
- the data-seeding script.

Every view is a pure function from a store and a request to a reply. The store is the database state.

Modules, in dependency order:

| module | file | what it holds |
|---|---|---|
| `Base` | base.dfy | Keys, `Option` and `Result`, error kinds, dates, HTTP methods. Also raw id parameters, classified by what `int()` makes of them. |
| `Store` | store.dfy | The five tables as maps from id to record, and the shared key counter. Also the schema invariant `Valid` and the application invariant `Consistent`. `Consistent` is I1 (a transaction's category belongs to its operation type) plus I2 (its subcategory belongs to its category). |
| `Collections` | collections.dfy | Listing rows: by primary key, filtered, and sorted by a key (`order_by`). |
| `Lookups` | lookups.dfy | The queries the views issue on the catalog. |
| `Catalog` | catalog.dfy | Inserts and renames, and deletion. Deletion gathers the rows reached by CASCADE and refuses if a transaction PROTECTs one of them. |
| `Ledger` | ledger.dfy | The amount field's decimal validation, `Transaction.save`, and the transaction writes. |
| `Forms` | forms.dfy | `StatusForm`, `OperationTypeForm`, `CategoryForm`, `SubCategoryForm`, `TransactionForm`. |
| `ReferenceViews` | reference_views.dfy | `reference/views.py`. |
| `TransactionViews` | transaction_views.dfy | `transactions/views.py`. |
| `Seed` | seed.dfy | `initialize_data.py`. |

Request inputs arrive as parameters:

- the current date;
- a date parser standing in for `strptime`;
- form fields.

A parameter that should hold a primary key is an `IdParam`:

- `Absent`: the key is missing from the query dict;
- `Blank`: the empty string;
- `Number(n)`: text that `int()` accepts;
- `NotANumber`: anything else.

A queryset lookup with a `NotANumber` or `Blank` value raises `ValueError` and is modelled as `Err(BadLookupValue)`. A lookup with `None` matches no row.

## Behaviour to note

- **Deleting catalog rows.** Every foreign key of `Transaction` is `PROTECT` (`transactions/models.py:31-56`). So deleting a status, operation type, category or subcategory that a transaction reaches fails with a protection error. For an operation type or category, "reaches" includes reaching it through the CASCADE to its categories and subcategories. `Catalog.DeleteOperationType`, `Catalog.DeleteCategory` and `Catalog.CascadeIsProtectedAsAWhole` state this.
- **Subcategory choices on bad input.** The comment at `transactions/forms.py:63` says invalid category data leaves the subcategory queryset empty. The code leaves the field's default queryset in place, which is every subcategory. `Forms.SubCategoryChoices` models the code.
- **Edits can break I1 and I2.** `Transaction.save` checks I1 and I2 only for the transaction being saved (`transactions/models.py:109-119`). Editing a category's operation type, or a subcategory's category, goes through the catalog forms, which do not look at transactions. It can therefore break I1 or I2 for transactions that already exist. `ReferenceViews.CategoryUpdateCanBreakConsistency` and `ReferenceViews.SubCategoryUpdateCanBreakConsistency` prove this. The view lemmas keep `Consistent` only where the code does.
- **Uniqueness errors.** A violated uniqueness constraint (`reference/models.py:19`, `reference/models.py:96`) is reported as a form error before any write: `InvalidForm` with `NameField` or `NonFieldErrors`.

## Model

| member | source | states |
|---|---|---|
| Base.FirstOfMonth | transactions/views.py:33-34 | The default start of the list range lies in today's month and year, no later than any day of that month, today included. |
| Store.ConsistentFrame | transactions/models.py:109-119 | I1 and I2 depend only on categories, subcategories and transactions. A store that agrees on those three stays consistent. |
| Store.RefsExistFrame | transactions/models.py:31-56 | Transactions' foreign keys stay resolvable while the catalog only gains keys. |
| Collections.Sort | reference/views.py:36-39 | `order_by` returns a permutation of the rows, sorted by the key. |
| Collections.Entries | transactions/views.py:177 | A query without `order_by` lists exactly the table's rows, each once. The model lists them in primary-key order. |
| Collections.Rows | transactions/views.py:193 | `filter(p)` lists exactly the rows satisfying `p`, each once. The model lists them in primary-key order. |
| Collections.FirstKey | initialize_data.py:37-39 | The lookup half of `get_or_create`: a key whose row satisfies the predicate, or `None` exactly when no row does. With several matches the model picks the least key. |
| Collections.SortedRows | reference/views.py:346 | `filter(...).order_by(...)` returns exactly the matching rows, sorted by the key, no primary key twice. |
| Lookups.CategoriesOf | transactions/views.py:73-74 | The categories listed are exactly those of the given operation type, each once. |
| Lookups.SubCategoriesOf | transactions/views.py:75 | The subcategories listed are exactly those of the given category, each once. |
| Lookups.CategoriesOfByName | reference/views.py:346 | Exactly the categories of the given operation type, sorted by name, each once. |
| Lookups.SubCategoriesOfByName | reference/views.py:362 | Exactly the subcategories of the given category, sorted by name, each once. |
| Lookups.AllRows | transactions/views.py:71-72 | `objects.all()` lists every row of the table, each once. |
| Catalog.InsertStatusKeepsValid | reference/models.py:17-21 | Inserting a status with a valid name not yet used keeps the schema invariant. |
| Catalog.InsertOperationTypeKeepsValid | reference/models.py:49-53 | Inserting an operation type with a valid, unused name keeps the schema invariant. |
| Catalog.InsertCategoryKeepsValid | reference/models.py:83-96 | Inserting a category keeps the schema invariant. Requires a valid name, an existing operation type and a new (name, operation type) pair. |
| Catalog.InsertSubCategoryKeepsValid | reference/models.py:122-135 | Inserting a subcategory keeps the schema invariant. Requires a valid name, an existing category and a new (name, category) pair. |
| Catalog.RenameStatusKeepsValid | reference/models.py:17-21 | Rewriting a status keeps the invariant when the new name is valid and held by no other status. |
| Catalog.RenameStatusKeepsNamesDistinct | reference/models.py:19 | A name held by no other key keeps status names unique. |
| Catalog.RenameOperationTypeKeepsValid | reference/models.py:49-53 | Rewriting an operation type keeps the invariant when the new name is valid and held by no other row. |
| Catalog.RenameOperationTypeKeepsNamesDistinct | reference/models.py:51 | A name held by no other key keeps operation-type names unique. |
| Catalog.RenameCategoryKeepsValid | reference/models.py:83-96 | Rewriting a category keeps the invariant. Requires a valid name, an existing parent and a pair held by no other category. |
| Catalog.RenameSubCategoryKeepsValid | reference/models.py:122-135 | Rewriting a subcategory keeps the invariant. Requires a valid name, an existing parent and a pair held by no other subcategory. |
| Catalog.RenameKeepsRowsDistinct | reference/models.py:96 | A record held by no other key keeps `unique_together` on the table. |
| Catalog.CollectKeepsValid | reference/models.py:87-130 | Removing a delete set that is closed under CASCADE keeps `Valid` and `Consistent`. |
| Catalog.DeleteStatus | transactions/models.py:31-36 | Unknown status: not found. Used by a transaction: protected. Otherwise exactly that status is removed. |
| Catalog.DeleteOperationType | reference/models.py:87-91 | Removes the operation type, its categories and their subcategories, and leaves every other row unchanged. Fails when a transaction uses any of them. |
| Catalog.DeleteCategory | reference/models.py:126-130 | Removes the category and its subcategories, and leaves other rows unchanged. Protected when a transaction uses either. |
| Catalog.DeleteSubCategory | transactions/models.py:49-56 | Unknown subcategory: not found. Referenced by a transaction: protected. Otherwise only that row is removed. |
| Catalog.DeleteStatusKeepsValid | reference/views.py:103-105 | A successful status delete keeps `Valid` and `Consistent`. |
| Catalog.DeleteOperationTypeKeepsValid | reference/views.py:175-177 | A successful operation-type delete keeps `Valid` and `Consistent`: no category is orphaned. |
| Catalog.DeleteCategoryKeepsValid | reference/views.py:247-249 | A successful category delete keeps `Valid` and `Consistent`: no subcategory is orphaned. |
| Catalog.DeleteSubCategoryKeepsValid | reference/views.py:324-326 | A successful subcategory delete keeps `Valid` and `Consistent`. |
| Catalog.CascadeIsProtectedAsAWhole | transactions/models.py:43-48 | An operation type whose category is used by a transaction cannot be deleted, even though the transaction does not name the type. |
| Catalog.DeletedCategoryHasNoChildren | reference/models.py:126-130 | After a category delete no subcategory points at it. |
| Forms.Choose | reference/forms.py:51-53 | A `ModelChoiceField` accepts a value exactly when it is the number of an offered key. |
| Forms.CategoryFormErrors | reference/forms.py:51-53 | Name error iff the name is invalid. Operation-type error iff the value names no operation type. `unique_together` error iff both are fine but another category holds the pair. |
| Forms.SubCategoryFormCategories | reference/forms.py:84-92 | The offered categories are empty unless the data holds a number, and then at most that existing category. |
| Forms.SubCategoryFormAcceptsExistingCategory | reference/forms.py:84-92 | The subcategory form accepts the category value exactly when it is the number of an existing category. |
| Forms.SubCategoryFormErrors | reference/forms.py:94-96 | Name, category and `unique_together` errors each arise exactly in their own case, as for categories. |
| Forms.SubCategoryChoices | transactions/forms.py:56-71 | The subcategory queryset depends on the input. Numeric category data gives that category's subcategories by name. Other category data keeps every subcategory. An edited transaction with no data gives its category's subcategories. Otherwise nothing. |
| Forms.SubCategoryKeys | transactions/forms.py:56-61 | The accepted subcategory keys are existing ones, and for numeric category data exactly that category's. |
| Forms.ChooseOptional | transactions/forms.py:53 | An optional choice accepts a missing or blank value as no subcategory. It rejects a non-number or a number not offered. |
| Forms.LinkErrors | transactions/forms.py:73-82 | Status, operation-type and category errors each arise exactly when the value names no row of that table. |
| Forms.SubCategoryErrors | transactions/forms.py:53-63 | A subcategory error arises exactly for a non-number or a number outside the offered keys. |
| Forms.TransactionFormErrors | transactions/forms.py:73-82 | Each transaction-form field has an error exactly in its own failing case: a link that names no row, a missing date, an amount out of range, a comment holding a NUL character. |
| Forms.CleanTransaction | transactions/forms.py:20-82 | The form is valid exactly when there are no field errors. The cleaned fields then link to existing rows, carry the submitted values, have the subcategory null exactly when left blank, and hold the amount in cents. |
| Forms.ForeignSubCategoryRejected | transactions/forms.py:56-61 | A subcategory of a different category than the submitted one is rejected on the subcategory field. |
| Forms.CleanedSubCategoryFits | transactions/forms.py:56-61 | With a numeric category, a valid form's subcategory belongs to that category, so I2 holds before `save`. |
| Ledger.AcceptedAmountIsBounded | transactions/models.py:57-62 | Every amount the decimal field accepts (at most 12 digits, at most 2 after the point) is a whole number of kopecks below 10^12 in absolute value. |
| Ledger.BoundedAmountIsAccepted | transactions/models.py:57-62 | Conversely, every number of kopecks below 10^12 in absolute value is an accepted amount that reads back as the same number of kopecks, so the bound is exact. |
| Ledger.CheckLinks | transactions/models.py:99-121 | `save` succeeds exactly when every link exists and I1 and I2 hold. A category of another operation type gives the I1 error. The I2 error arises only when I1 holds. |
| Ledger.CreateTransaction | transactions/models.py:99-121 | Creating stores the transaction under the next key, stamped with the clock on both timestamps, and leaves the catalog unchanged. It fails with the `save` error otherwise. |
| Ledger.UpdateTransaction | transactions/models.py:68-77 | Updating replaces the fields, keeps `created_at`, stamps `updated_at` from the clock, and leaves the catalog unchanged. Unknown key: not found. |
| Ledger.DeleteTransaction | transactions/views.py:156-158 | Deleting removes exactly that transaction. Unknown key: not found. |
| Ledger.CreateKeepsValid | transactions/models.py:99-121 | A successful create keeps the schema invariant. |
| Ledger.CreateKeepsTimestamps | transactions/models.py:68-77 | A create keeps every timestamp in the past of the clock. |
| Ledger.CreateKeepsConsistent | transactions/models.py:109-119 | A create keeps I1 and I2 for every transaction. |
| Ledger.UpdateKeepsValid | transactions/models.py:99-121 | A successful update keeps the schema invariant. |
| Ledger.UpdateKeepsTimestamps | transactions/models.py:68-77 | An update keeps `created_at <= updated_at <` clock for every transaction. |
| Ledger.UpdateKeepsConsistent | transactions/models.py:109-119 | An update keeps I1 and I2. |
| Ledger.DeleteKeepsInvariants | transactions/views.py:156-158 | A transaction delete keeps `Valid` and `Consistent`. |
| Ledger.CreationStampsIncrease | transactions/models.py:68-72 | Of two successive creates, the later one has the strictly larger `created_at`. So do both, compared with every transaction already stored. |
| ReferenceViews.ReferenceIndex | reference/views.py:29-40 | The index lists every row of the four tables exactly once, each table sorted by name. |
| ReferenceViews.DistinctKeysCount | reference/views.py:36-39 | A listing with no repeated key has as many keys as entries. |
| ReferenceViews.StatusCreate | reference/views.py:43-64 | A status is created exactly on a POST with a valid (non-empty, at most 100 characters, no NUL character), unused name, under the next key. Otherwise the name error is reported. |
| ReferenceViews.StatusUpdate | reference/views.py:67-90 | Unknown status: 404. A status is renamed exactly on a POST with a valid name no other status holds. |
| ReferenceViews.StatusDelete | reference/views.py:93-112 | Unknown status: 404. The status is removed exactly on POST when no transaction uses it. |
| ReferenceViews.OperationTypeCreate | reference/views.py:115-136 | An operation type is created exactly on a POST with a valid, unused name. |
| ReferenceViews.OperationTypeUpdate | reference/views.py:139-162 | Unknown row: 404. Renamed exactly on a POST with a valid name no other row holds. |
| ReferenceViews.OperationTypeDelete | reference/views.py:165-184 | Unknown row: 404. Removed, with its categories, exactly on POST when no transaction uses it or them. |
| ReferenceViews.CategoryCreate | reference/views.py:187-208 | A category is created exactly on a POST whose form has no errors, under the next key, with an existing operation type. |
| ReferenceViews.CategoryUpdate | reference/views.py:211-234 | Unknown row: 404. Rewritten exactly on a POST whose form has no errors. |
| ReferenceViews.CategoryDelete | reference/views.py:237-256 | Unknown row: 404. Removed, with its subcategories, exactly on POST when no transaction uses it or them. |
| ReferenceViews.SubCategoryCreate | reference/views.py:259-284 | A subcategory is created exactly on a POST whose form has no errors, with an existing category. |
| ReferenceViews.SubCategoryUpdate | reference/views.py:287-311 | Unknown row: 404. Rewritten exactly on a POST whose form has no errors. |
| ReferenceViews.SubCategoryDelete | reference/views.py:314-333 | Unknown row: 404. Removed exactly on POST when no transaction references it. |
| ReferenceViews.SubCategoryCreatePage | reference/views.py:274-279 | The GET page pre-selects a numeric category parameter and offers that category if it exists. It offers nothing without one, and raises on a non-number. |
| ReferenceViews.OfferedCategoryIsAccepted | reference/views.py:274-279 | A category the create page offers is one the form's POST accepts. |
| ReferenceViews.SubCategoryUpdatePage | reference/views.py:299-306 | The edit page pre-selects and offers exactly the subcategory's current category. Unknown row: 404. |
| ReferenceViews.LoadCategories | reference/views.py:336-349 | The loader returns exactly the categories of the operation type, sorted by name. A missing parameter gives none. A blank or bad one raises. |
| ReferenceViews.LoadSubCategories | reference/views.py:352-364 | The loader returns exactly the subcategories of the category, sorted by name, under the same parameter rules. |
| ReferenceViews.StatusCreateKeepsInvariants | reference/views.py:43-64 | Every outcome of the view keeps `Valid` and `Consistent`. |
| ReferenceViews.StatusUpdateKeepsInvariants | reference/views.py:67-90 | Every outcome keeps `Valid` and `Consistent`. |
| ReferenceViews.StatusDeleteKeepsInvariants | reference/views.py:93-112 | Every outcome keeps `Valid` and `Consistent`. |
| ReferenceViews.OperationTypeCreateKeepsInvariants | reference/views.py:115-136 | Every outcome keeps `Valid` and `Consistent`. |
| ReferenceViews.OperationTypeUpdateKeepsInvariants | reference/views.py:139-162 | Every outcome keeps `Valid` and `Consistent`. I1 compares ids, so renaming does not affect it. |
| ReferenceViews.OperationTypeDeleteKeepsInvariants | reference/views.py:165-184 | Every outcome keeps `Valid` and `Consistent`. |
| ReferenceViews.CategoryCreateKeepsValid | reference/views.py:187-208 | Every outcome keeps `Valid`. |
| ReferenceViews.CategoryCreateKeepsConsistent | reference/views.py:187-208 | Every outcome keeps `Consistent`. |
| ReferenceViews.CategoryNameIsPerOperationType | reference/models.py:96 | A category name already used under one operation type is accepted under another. Under its own type it is refused with only the `unique_together` error. |
| ReferenceViews.CategoryUpdateKeepsValid | reference/views.py:211-234 | Every outcome keeps `Valid`. |
| ReferenceViews.CategoryRenameKeepsConsistent | reference/views.py:211-234 | An update that keeps the category's operation type keeps `Consistent`. |
| ReferenceViews.CategoryDeleteKeepsInvariants | reference/views.py:237-256 | Every outcome keeps `Valid` and `Consistent`. |
| ReferenceViews.SubCategoryCreateKeepsValid | reference/views.py:259-284 | Every outcome keeps `Valid`. |
| ReferenceViews.SubCategoryCreateKeepsConsistent | reference/views.py:259-284 | Every outcome keeps `Consistent`. |
| ReferenceViews.SubCategoryUpdateKeepsValid | reference/views.py:287-311 | Every outcome keeps `Valid`. |
| ReferenceViews.SubCategoryRenameKeepsConsistent | reference/views.py:287-311 | An update that keeps the subcategory's category keeps `Consistent`. |
| ReferenceViews.SubCategoryDeleteKeepsInvariants | reference/views.py:314-333 | Every outcome keeps `Valid` and `Consistent`. |
| ReferenceViews.CategoryUpdateCanBreakConsistency | reference/views.py:211-234 | Moving a category that a transaction uses to another operation type succeeds, and leaves I1 broken. |
| ReferenceViews.SubCategoryUpdateCanBreakConsistency | reference/views.py:287-311 | Moving a subcategory that a transaction uses to another category succeeds, and leaves I2 broken. |
| TransactionViews.DateRange | transactions/views.py:33-51 | A missing bound defaults: the first of the month, or today. If either given bound fails to parse, both fall back to the defaults. Otherwise the parsed bounds are used. |
| TransactionViews.TxKeyOrder | transactions/views.py:58 | The sort key orders transactions by date descending, then by creation time descending. |
| TransactionViews.ListFilters | transactions/views.py:40-43 | The list raises exactly when some filter parameter is a non-number. Each filter is that parameter's `EqFilter`. |
| TransactionViews.TransactionList | transactions/views.py:18-92 | The list is exactly the stored transactions in the date range matching every given filter. It is ordered newest first, each once. The option lists are all statuses and operation types, plus the categories and subcategories narrowed by the selected parent. |
| TransactionViews.DefaultRangeIsCurrentMonth | transactions/views.py:33-39 | With no dates given, every listed transaction falls in the current month, no later than today. |
| TransactionViews.StatusFilterNarrows | transactions/views.py:61-62 | Adding a status filter lists exactly the previously listed transactions with that status. |
| TransactionViews.OperationTypeFilterNarrows | transactions/views.py:63-64 | Adding an operation-type filter lists exactly the previously listed transactions of that type. |
| TransactionViews.CategoryFilterNarrows | transactions/views.py:65-66 | Adding a category filter lists exactly the previously listed transactions of that category. |
| TransactionViews.SubCategoryFilterNarrows | transactions/views.py:67-68 | Adding a subcategory filter lists exactly the previously listed transactions of that subcategory. |
| TransactionViews.LoadCategories | transactions/views.py:167-180 | The loader returns exactly the operation type's categories, each once. A missing parameter gives none. A blank or bad one raises. |
| TransactionViews.LoadSubCategories | transactions/views.py:183-195 | The loader returns exactly the category's subcategories, each once, under the same parameter rules. |
| TransactionViews.CreateView | transactions/views.py:95-116 | A transaction is created exactly on a POST whose form is valid and whose category fits the operation type. It goes under the next key. The only failures are form errors and the I1 error. |
| TransactionViews.UpdateView | transactions/views.py:119-143 | Unknown key: 404. The transaction is rewritten, keeping `created_at`, exactly on a valid POST whose category fits. |
| TransactionViews.DeleteView | transactions/views.py:146-164 | Unknown key: 404. GET changes nothing. POST removes exactly that transaction. |
| TransactionViews.CreateViewKeepsInvariants | transactions/views.py:95-116 | Every outcome keeps `Valid` and `Consistent`. |
| TransactionViews.UpdateViewKeepsInvariants | transactions/views.py:119-143 | Every outcome keeps `Valid` and `Consistent`. |
| TransactionViews.DeleteViewKeepsInvariants | transactions/views.py:146-164 | Every outcome keeps `Valid` and `Consistent`. |
| Seed.Find | initialize_data.py:37-70 | The lookup half of `get_or_create` finds the key of a row equal to the one sought, and none exactly when no row equals it. The key is unique whenever the unique constraints hold. |
| Seed.ExtendsKeepsConsistent | initialize_data.py:23-70 | Growing the catalog without changing any row keeps I1 and I2. |
| Seed.GetOrCreateStatus | initialize_data.py:37-39 | Returns a key holding the status. An existing row is reused with the store unchanged. Otherwise it is inserted under the next key. Other tables are untouched. |
| Seed.GetOrCreateOperationType | initialize_data.py:42-43 | The same for operation types. |
| Seed.GetOrCreateCategory | initialize_data.py:46-63 | The same for (name, operation type) pairs. |
| Seed.GetOrCreateSubCategory | initialize_data.py:66-70 | The same for (name, category) pairs. |
| Seed.GetOrCreateStatusExtends | initialize_data.py:37-39 | `get_or_create` only grows the catalog and keeps keys fresh. |
| Seed.GetOrCreateOperationTypeExtends | initialize_data.py:42-43 | `get_or_create` only grows the catalog and keeps keys fresh. |
| Seed.GetOrCreateCategoryExtends | initialize_data.py:46-63 | `get_or_create` only grows the catalog and keeps keys fresh. |
| Seed.GetOrCreateSubCategoryExtends | initialize_data.py:66-70 | `get_or_create` only grows the catalog and keeps keys fresh. |
| Seed.GetOrCreateCategoryIdempotent | initialize_data.py:46-63 | A second `get_or_create` of the same category returns the same key and store. |
| Seed.SeedStatuses | initialize_data.py:37-39 | Seeding statuses touches only statuses, and changes nothing when all three exist. |
| Seed.SeedStatusesExtends | initialize_data.py:37-39 | After seeding, the three statuses exist and the catalog has only grown. |
| Seed.SeedOperationTypes | initialize_data.py:42-43 | Returns keys for income and expense. Touches only operation types. A no-op when both exist. |
| Seed.SeedOperationTypesExtends | initialize_data.py:42-43 | After seeding, the returned key holds income, and the catalog has only grown. |
| Seed.SeedCategories | initialize_data.py:46-63 | Touches only categories, and is a no-op when all four exist. The returned keys are the existing infrastructure and marketing rows. |
| Seed.SeedCategoriesExtends | initialize_data.py:46-63 | After seeding, all four categories exist under their operation types and the returned keys hold them. |
| Seed.SeedSubCategories | initialize_data.py:66-70 | Touches only subcategories, and is a no-op when all five exist. |
| Seed.SeedSubCategoriesExtends | initialize_data.py:66-70 | After seeding, all five subcategories exist under their categories. |
| Seed.SeededWithIsSeeded | initialize_data.py:23-70 | Seeding with particular keys witnesses the seeded state. |
| Seed.InitializeData | initialize_data.py:23-70 | The script never touches transactions or the clock. |
| Seed.InitializeDataExtends | initialize_data.py:23-70 | The script only adds catalog rows. Existing rows keep their keys and values. |
| Seed.InitializeDataSeeds | initialize_data.py:23-70 | After the script, every seeded row exists with its parent links. |
| Seed.SeededIsFixedPoint | initialize_data.py:34 | On a store that already holds the seed, the script changes nothing. |
| Seed.SeedOperationTypesFinds | initialize_data.py:42-43 | With both operation types present, seeding returns their keys and the same store. |
| Seed.SeedCategoriesFinds | initialize_data.py:46-63 | With the four categories present, seeding returns the existing keys and the same store. |
| Seed.InitializeDataKeepsValid | initialize_data.py:23-70 | The script keeps `Valid` and `Consistent`. |
| Seed.InitializeDataIdempotent | initialize_data.py:34 | Running the script twice gives the same store as running it once. |
| Seed.GetOrCreateStatusKeepsValid | initialize_data.py:37-39 | `get_or_create` of a status with a valid name keeps `Valid`. |
| Seed.GetOrCreateOperationTypeKeepsValid | initialize_data.py:42-43 | `get_or_create` of an operation type with a valid name keeps `Valid`. |
| Seed.GetOrCreateCategoryKeepsValid | initialize_data.py:46-63 | `get_or_create` of a category under an existing operation type keeps `Valid`. |
| Seed.GetOrCreateSubCategoryKeepsValid | initialize_data.py:66-70 | `get_or_create` of a subcategory under an existing category keeps `Valid`. |
| Seed.SeedStatusesKeepsValid | initialize_data.py:37-39 | Seeding statuses keeps `Valid`. |
| Seed.SeedOperationTypesKeepsValid | initialize_data.py:42-43 | Seeding operation types keeps `Valid`. |
| Seed.SeedCategoriesKeepsValid | initialize_data.py:46-63 | Seeding categories under existing operation types keeps `Valid`. |
| Seed.SeedSubCategoriesKeepsValid | initialize_data.py:66-70 | Seeding subcategories under existing categories keeps `Valid`. |

## Left out

- Rendering is not modelled: HTML templates, flash messages, redirects and the context values that only echo the request. A view's visible result is reduced to `Shown`, `Done` or `Failed`.
- The REST API, the admin, URL routing, the JavaScript and the Django setup preamble of the seeding script are not modelled. They are outside the core.
- Today's date is a parameter. So is `datetime.strptime`, which appears as the `parse` parameter; the model does not check calendar validity of dates.
- Python's `int()` on request text is not parsed character by character. Its outcome is the `IdParam` classification.
- Form fields' whitespace stripping is not modelled. Names are compared as given. Django's rejection of NUL characters in text fields is modelled.
- Name ordering is by code point, which is SQLite's default BINARY collation. Ties between equal sort keys come out in no specified order.
- The database hands out keys from one counter shared by all tables rather than one sequence per table. Keys are fresh either way, and no property depends on the difference.
- Decimal amounts have no NaN or infinity. Those values are rejected by Django's field before the digit check.
- Transactions (atomicity) and concurrent requests are not modelled. Each view is one step on one store.
- Seed.InitializeDataIdempotent: requires `Valid`. With duplicate rows, `get_or_create` raises `MultipleObjectsReturned`, and that error is not modelled.
- Seed.InitializeDataSeeds: requires that every key in use is below the next key. The same holds for Seed.InitializeDataExtends. That precondition is part of `Valid` and holds for every store the application reaches.
- ReferenceViews.CategoryRenameKeepsConsistent: holds only when the operation type is unchanged. A changed parent can break I1 (see ReferenceViews.CategoryUpdateCanBreakConsistency).
- ReferenceViews.SubCategoryRenameKeepsConsistent: holds only when the category is unchanged. A changed parent can break I2 (see ReferenceViews.SubCategoryUpdateCanBreakConsistency).
- Collections.Entries, Collections.Rows, TransactionViews.LoadCategories, TransactionViews.LoadSubCategories: the querysets have no `order_by` and the models declare no `Meta.ordering`, so the database promises no order. The model lists the rows in primary-key order, and that order is not part of what the code promises.
- Seed.Find, Collections.FirstKey, Seed.GetOrCreateStatus, Seed.GetOrCreateOperationType, Seed.GetOrCreateCategory, Seed.GetOrCreateSubCategory: with duplicate rows Django's `get()` raises `MultipleObjectsReturned`, while the model picks the least key.
