/** The model forms of both apps (`reference/forms.py`,
    `transactions/forms.py`): which rows a choice field offers, and which
    fields of a bound form carry errors. A form is valid exactly when no
    field does. The fields each form lists are the fields its save writes:
    the name for Status and OperationType, name and parent for Category and
    SubCategory, and `TxFields` for a transaction (never the timestamps). */
module Forms {
  import opened Base
  import opened Store
  import opened Collections
  import opened Lookups
  import opened Ledger

  /** A required `ModelChoiceField` over `choices`: the submitted value must
      be the key of an offered row. */
  function Choose(p: IdParam, choices: set<Id>): (r: Option<Id>)
    ensures r.Some? ==> r.value in choices && p == Number(r.value)
    ensures r.None? ==> forall k :: k in choices ==> p != Number(k)
  {
    if p.Number? && p.n >= 0 && p.n as Id in choices then Some(p.n as Id) else None
  }

  /** No other status than `self` is named `name`. */
  predicate StatusNameFree(s: Store, name: string, self: Option<Id>) {
    forall k :: k in s.statuses && Some(k) != self ==> s.statuses[k].name != name
  }

  predicate OperationTypeNameFree(s: Store, name: string, self: Option<Id>) {
    forall k :: k in s.operationTypes && Some(k) != self ==> s.operationTypes[k].name != name
  }

  /** No other category than `self` has this (name, operation type) pair. */
  predicate CategoryFree(s: Store, row: Category, self: Option<Id>) {
    forall k :: k in s.categories && Some(k) != self ==> s.categories[k] != row
  }

  predicate SubCategoryFree(s: Store, row: SubCategory, self: Option<Id>) {
    forall k :: k in s.subcategories && Some(k) != self ==> s.subcategories[k] != row
  }

  /** `StatusForm`: the name is required, at most 100 characters and unique
      among the other statuses; every failure is reported on the name. */
  function StatusFormErrors(s: Store, name: string, self: Option<Id>): (r: set<Field>)
    ensures r == {} <==> ValidName(name) && StatusNameFree(s, name, self)
    ensures r <= {NameField}
  {
    if ValidName(name) && StatusNameFree(s, name, self) then {} else {NameField}
  }

  /** `OperationTypeForm`: as `StatusForm`. */
  function OperationTypeFormErrors(s: Store, name: string, self: Option<Id>): (r: set<Field>)
    ensures r == {} <==> ValidName(name) && OperationTypeNameFree(s, name, self)
    ensures r <= {NameField}
  {
    if ValidName(name) && OperationTypeNameFree(s, name, self) then {} else {NameField}
  }

  /** `CategoryForm`: a valid name, an existing operation type, and the
      `unique_together` check, which runs only once both fields are clean. */
  function CategoryFormErrors(s: Store, name: string, op: IdParam, self: Option<Id>): (r: set<Field>)
    ensures NameField in r <==> !ValidName(name)
    ensures OperationTypeField in r <==> forall k :: k in s.operationTypes ==> op != Number(k)
    ensures NonFieldErrors in r <==>
      ValidName(name) && op.Number? && op.n >= 0 && op.n in s.operationTypes
      && !CategoryFree(s, Category(name, op.n), self)
    ensures r <= {NameField, OperationTypeField, NonFieldErrors}
  {
    var chosen := Choose(op, s.operationTypes.Keys);
    (if ValidName(name) then {} else {NameField})
    + (if chosen.Some? then {} else {OperationTypeField})
    + (if ValidName(name) && chosen.Some? && !CategoryFree(s, Category(name, chosen.value), self)
       then {NonFieldErrors} else {})
  }

  /** `SubCategoryForm.__init__`: the category field offers nothing, unless
      the data carries an integer category, in which case it offers the
      category with that key (if there is one). */
  function SubCategoryFormCategories(s: Store, category: IdParam): (r: set<Id>)
    ensures forall k :: k in r <==> k in s.categories && category == Number(k)
    ensures !category.Number? ==> r == {}
  {
    if category.Number? && category.n >= 0 && category.n as Id in s.categories then {category.n as Id} else {}
  }

  /** A subcategory form's category is accepted exactly when the data names
      an existing category. */
  lemma {:induction false} SubCategoryFormAcceptsExistingCategory(s: Store, category: IdParam)
    ensures Choose(category, SubCategoryFormCategories(s, category)).Some? <==>
      category.Number? && category.n >= 0 && category.n in s.categories
  {
    if category.Number? && category.n >= 0 && category.n in s.categories {
      assert category.n as Id in SubCategoryFormCategories(s, category);
    }
  }

  /** `SubCategoryForm`: a valid name, a category from the narrowed choices,
      and `unique_together` on (name, category). */
  function SubCategoryFormErrors(s: Store, name: string, category: IdParam, self: Option<Id>): (r: set<Field>)
    ensures NameField in r <==> !ValidName(name)
    ensures CategoryField in r <==> forall k :: k in s.categories ==> category != Number(k)
    ensures NonFieldErrors in r <==>
      ValidName(name) && category.Number? && category.n >= 0 && category.n in s.categories
      && !SubCategoryFree(s, SubCategory(name, category.n), self)
    ensures r <= {NameField, CategoryField, NonFieldErrors}
  {
    var chosen := Choose(category, SubCategoryFormCategories(s, category));
    (if ValidName(name) then {} else {NameField})
    + (if chosen.Some? then {} else {CategoryField})
    + (if ValidName(name) && chosen.Some? && !SubCategoryFree(s, SubCategory(name, chosen.value), self)
       then {NonFieldErrors} else {})
  }

  /** `TransactionForm.__init__`: the rows the subcategory field offers.
      An integer category in the data narrows them to that category's
      subcategories by name; any other category value leaves the field's
      default queryset, every subcategory (the code never empties it); with
      no category in the data, an existing transaction offers its current
      category's subcategories and a new one offers none. */
  function SubCategoryChoices(s: Store, category: IdParam, instance: Option<Transaction>): (r: seq<(Id, SubCategory)>)
    ensures category.Number? ==>
      && (forall e :: e in r <==> RowOf(e, s.subcategories) && e.1.category == category.n)
      && SortedBy(r, SubCategoryName)
    ensures (category.Blank? || category.NotANumber?) ==>
      forall e :: e in r <==> RowOf(e, s.subcategories)
    ensures category.Absent? && instance.Some? ==>
      && (forall e :: e in r <==> RowOf(e, s.subcategories) && e.1.category == instance.value.fields.category)
      && SortedBy(r, SubCategoryName)
    ensures category.Absent? && instance.None? ==> r == []
    ensures forall e :: e in r ==> RowOf(e, s.subcategories)
    ensures DistinctKeys(r)
  {
    match category
    case Number(n) => SubCategoriesOfByName(s, n)
    case Absent =>
      if instance.Some? then SubCategoriesOfByName(s, instance.value.fields.category) else []
    case _ => AllRows(s.subcategories)
  }

  lemma KeysOfRows<V>(r: seq<(Id, V)>, m: map<Id, V>)
    requires forall e :: e in r ==> RowOf(e, m)
    ensures KeysOf(r) <= m.Keys
  {
    forall k | k in KeysOf(r) ensures k in m {
      var i :| 0 <= i < |r| && r[i].0 == k;
      assert r[i] in r;
    }
  }

  lemma KeysOfChildren(r: seq<(Id, SubCategory)>, s: Store, c: int)
    requires forall e :: e in r <==> RowOf(e, s.subcategories) && e.1.category == c
    ensures forall k :: k in KeysOf(r) <==> k in s.subcategories && s.subcategories[k].category == c
  {
    KeysOfRows(r, s.subcategories);
    forall k | k in s.subcategories && s.subcategories[k].category == c ensures k in KeysOf(r) {
      assert RowOf((k, s.subcategories[k]), s.subcategories);
      var i :| 0 <= i < |r| && r[i] == (k, s.subcategories[k]);
    }
    forall k | k in KeysOf(r) ensures s.subcategories[k].category == c {
      var i :| 0 <= i < |r| && r[i].0 == k;
      assert r[i] in r;
    }
  }

  /** The keys of the subcategories offered, which is what the field
      accepts. */
  function SubCategoryKeys(s: Store, category: IdParam, instance: Option<Transaction>): (ks: set<Id>)
    ensures ks <= s.subcategories.Keys
    ensures category.Number? ==> forall k :: k in ks <==> k in s.subcategories && s.subcategories[k].category == category.n
  {
    var r := SubCategoryChoices(s, category, instance);
    KeysOfRows(r, s.subcategories);
    if category.Number? then
      KeysOfChildren(r, s, category.n);
      KeysOf(r)
    else
      KeysOf(r)
  }

  /** The raw values of a submitted transaction form. `date` and `amount`
      are `None` when missing or unparsable. */
  datatype TxInput = TxInput(
    date: Option<Date>,
    status: IdParam,
    operationType: IdParam,
    category: IdParam,
    subcategory: IdParam,
    amount: Option<Decimal>,
    comment: string)

  /** The optional subcategory field: empty input means none, anything else
      must be an offered row. */
  function ChooseOptional(p: IdParam, choices: set<Id>): (r: Option<Option<Id>>)
    ensures (p.Absent? || p.Blank?) ==> r == Some(None)
    ensures r.Some? && r.value.Some? ==> r.value.value in choices && p == Number(r.value.value)
    ensures r.None? <==> (p.NotANumber? || (p.Number? && forall k :: k in choices ==> p != Number(k)))
  {
    if p.Absent? || p.Blank? then Some(None)
    else match Choose(p, choices)
      case Some(k) => Some(Some(k))
      case None => None
  }

  /** The errors of the three required catalog choices of a transaction
      form; each offers every row of its table. */
  function LinkErrors(s: Store, input: TxInput): (r: set<Field>)
    ensures StatusField in r <==> forall k :: k in s.statuses ==> input.status != Number(k)
    ensures OperationTypeField in r <==> forall k :: k in s.operationTypes ==> input.operationType != Number(k)
    ensures CategoryField in r <==> forall k :: k in s.categories ==> input.category != Number(k)
    ensures r <= {StatusField, OperationTypeField, CategoryField}
  {
    (if Choose(input.status, s.statuses.Keys).Some? then {} else {StatusField})
    + (if Choose(input.operationType, s.operationTypes.Keys).Some? then {} else {OperationTypeField})
    + (if Choose(input.category, s.categories.Keys).Some? then {} else {CategoryField})
  }

  /** The optional subcategory choice over the offered keys `choices`:
      empty input means none, anything else must be an offered key. */
  function SubCategoryErrors(p: IdParam, choices: set<Id>): (r: set<Field>)
    ensures SubCategoryField in r <==> p.NotANumber? || (p.Number? && forall k :: k in choices ==> p != Number(k))
    ensures r <= {SubCategoryField}
  {
    if ChooseOptional(p, choices).Some? then {} else {SubCategoryField}
  }

  /** The date must parse, the amount must pass `DecimalValidator`, and the
      comment, though it may be blank, must hold no NUL character. */
  function ValueErrors(input: TxInput): (r: set<Field>)
    ensures DateField in r <==> input.date.None?
    ensures AmountField in r <==> !(input.amount.Some? && AmountFits(input.amount.value))
    ensures CommentField in r <==> '\0' in input.comment
    ensures r <= {DateField, AmountField, CommentField}
  {
    (if input.date.Some? then {} else {DateField})
    + (if input.amount.Some? && AmountFits(input.amount.value) then {} else {AmountField})
    + (if '\0' in input.comment then {CommentField} else {})
  }

  /** The fields of a bound `TransactionForm` that carry errors, given the
      keys its subcategory field offers (`SubCategoryKeys`). The comment may
      be blank; the subcategory is optional. */
  function TransactionFormErrors(s: Store, input: TxInput, subcategories: set<Id>): (r: set<Field>)
    ensures DateField in r <==> input.date.None?
    ensures StatusField in r <==> forall k :: k in s.statuses ==> input.status != Number(k)
    ensures OperationTypeField in r <==> forall k :: k in s.operationTypes ==> input.operationType != Number(k)
    ensures CategoryField in r <==> forall k :: k in s.categories ==> input.category != Number(k)
    ensures SubCategoryField in r <==>
      input.subcategory.NotANumber? || (input.subcategory.Number? && forall k :: k in subcategories ==> input.subcategory != Number(k))
    ensures AmountField in r <==> !(input.amount.Some? && AmountFits(input.amount.value))
    ensures CommentField in r <==> '\0' in input.comment
    ensures r <= {DateField, StatusField, OperationTypeField, CategoryField, SubCategoryField, AmountField, CommentField}
  {
    LinkErrors(s, input) + SubCategoryErrors(input.subcategory, subcategories) + ValueErrors(input)
  }

  /** `form.is_valid()` followed by building the instance: the cleaned
      fields, or the fields that carry errors. */
  function CleanTransaction(s: Store, input: TxInput, instance: Option<Transaction>): (r: Result<TxFields>)
    ensures r.Err? <==> TransactionFormErrors(s, input, SubCategoryKeys(s, input.category, instance)) != {}
    ensures r.Err? ==> r.error == InvalidForm(TransactionFormErrors(s, input, SubCategoryKeys(s, input.category, instance)))
    ensures r.Ok? ==> LinksExist(s, r.value)
    ensures r.Ok? ==> && input.date == Some(r.value.date)
                      && input.status == Number(r.value.status)
                      && input.operationType == Number(r.value.operationType)
                      && input.category == Number(r.value.category)
                      && r.value.comment == input.comment && '\0' !in r.value.comment
    ensures r.Ok? ==> (r.value.subcategory.None? <==> input.subcategory.Absent? || input.subcategory.Blank?)
    ensures r.Ok? && r.value.subcategory.Some? ==>
      && input.subcategory == Number(r.value.subcategory.value)
      && r.value.subcategory.value in SubCategoryKeys(s, input.category, instance)
    ensures r.Ok? ==> input.amount.Some? && AmountFits(input.amount.value)
                      && r.value.amount == Cents(input.amount.value)
  {
    var subChoices := SubCategoryKeys(s, input.category, instance);
    var errors := TransactionFormErrors(s, input, subChoices);
    if errors != {} then
      Err(InvalidForm(errors))
    else
      var sub := ChooseOptional(input.subcategory, subChoices).value;
      Ok(TxFields(
        input.date.value,
        Choose(input.status, s.statuses.Keys).value,
        Choose(input.operationType, s.operationTypes.Keys).value,
        Choose(input.category, s.categories.Keys).value,
        sub,
        Cents(input.amount.value),
        input.comment))
  }

  /** With an integer category in the data, a subcategory of another
      category is not among the choices, so the form rejects it before
      `save` is reached. */
  lemma {:induction false} ForeignSubCategoryRejected(s: Store, input: TxInput, instance: Option<Transaction>, k: Id)
    requires input.category.Number? && input.subcategory == Number(k)
    requires k in s.subcategories && s.subcategories[k].category != input.category.n
    ensures CleanTransaction(s, input, instance).Err?
    ensures SubCategoryField in CleanTransaction(s, input, instance).error.fields
  {
  }

  /** Hence a form that binds an integer category only ever yields
      fields satisfying I2. */
  lemma {:induction false} CleanedSubCategoryFits(s: Store, input: TxInput, instance: Option<Transaction>)
    requires input.category.Number?
    requires CleanTransaction(s, input, instance).Ok?
    ensures SubCategoryFits(s, CleanTransaction(s, input, instance).value)
  {
  }
}
