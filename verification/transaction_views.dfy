/** The views of the transactions app (`transactions/views.py`): the
    filtered list, create / update / delete, and the two option loaders,
    whose querysets carry no `order_by`. The current date and the `%Y-%m-%d` parser are parameters. */
module TransactionViews {
  import opened Base
  import opened Store
  import opened Collections
  import opened Lookups
  import opened Forms
  import Ledger

  /** The query string of the list page. */
  datatype ListQuery = ListQuery(
    dateFrom: Option<string>,
    dateTo: Option<string>,
    status: IdParam,
    operationType: IdParam,
    category: IdParam,
    subcategory: IdParam)

  /** The inclusive date range shown. Each bound defaults to the first of
      the current month and today; if either given bound fails to parse,
      BOTH fall back to their defaults. */
  function DateRange(q: ListQuery, today: Date, parse: string -> Option<Date>): (r: (Date, Date))
    ensures q.dateFrom.None? && q.dateTo.None? ==> r == (FirstOfMonth(today), today)
    ensures (q.dateFrom.Some? && parse(q.dateFrom.value).None?) || (q.dateTo.Some? && parse(q.dateTo.value).None?)
      ==> r == (FirstOfMonth(today), today)
    ensures q.dateFrom.Some? && parse(q.dateFrom.value).Some? && (q.dateTo.None? || parse(q.dateTo.value).Some?)
      ==> r.0 == parse(q.dateFrom.value).value
    ensures q.dateTo.Some? && parse(q.dateTo.value).Some? && (q.dateFrom.None? || parse(q.dateFrom.value).Some?)
      ==> r.1 == parse(q.dateTo.value).value
    ensures q.dateFrom.None? && (q.dateTo.None? || parse(q.dateTo.value).Some?) ==> r.0 == FirstOfMonth(today)
    ensures q.dateTo.None? && (q.dateFrom.None? || parse(q.dateFrom.value).Some?) ==> r.1 == today
  {
    var from := if q.dateFrom.Some? then parse(q.dateFrom.value) else Some(FirstOfMonth(today));
    var to := if q.dateTo.Some? then parse(q.dateTo.value) else Some(today);
    if from.Some? && to.Some? then (from.value, to.value) else (FirstOfMonth(today), today)
  }

  /** `if param: qs = qs.filter(field_id=param)`: a missing or empty
      parameter adds no condition; a non-numeric one fails the lookup. */
  function EqFilter(p: IdParam): (r: Result<Option<int>>)
    ensures (p.Absent? || p.Blank?) ==> r == Ok(None)
    ensures p.Number? ==> r == Ok(Some(p.n))
    ensures r.Err? <==> p.NotANumber?
    ensures r.Err? ==> r.error == BadLookupValue
  {
    match p
    case Absent => Ok(None)
    case Blank => Ok(None)
    case NotANumber => Err(BadLookupValue)
    case Number(n) => Ok(Some(n))
  }

  /** The equality conditions of one list request. */
  datatype Filters = Filters(status: Option<int>, operationType: Option<int>, category: Option<int>, subcategory: Option<int>)

  /** A transaction passes the range and every condition; a subcategory
      condition never matches a transaction without one. */
  predicate Shows(t: Transaction, from: Date, to: Date, flt: Filters) {
    && DateLeq(from, t.fields.date) && DateLeq(t.fields.date, to)
    && (flt.status.Some? ==> t.fields.status == flt.status.value)
    && (flt.operationType.Some? ==> t.fields.operationType == flt.operationType.value)
    && (flt.category.Some? ==> t.fields.category == flt.category.value)
    && (flt.subcategory.Some? ==> t.fields.subcategory == Some(flt.subcategory.value))
  }

  /** The key of `order_by('-date', '-created_at')`. */
  function TxKey(e: (Id, Transaction)): seq<int> {
    [-e.1.fields.date.year, -e.1.fields.date.month, -e.1.fields.date.day, -(e.1.createdAt as int)]
  }

  /** `a` may be listed before `b`: a later date, or the same date and a
      creation no earlier. */
  predicate ListedBefore(a: Transaction, b: Transaction) {
    DateLeq(b.fields.date, a.fields.date) && (a.fields.date == b.fields.date ==> b.createdAt <= a.createdAt)
  }

  /** The sort key orders by date descending, then creation descending. */
  lemma {:induction false} TxKeyOrder(a: (Id, Transaction), b: (Id, Transaction))
    ensures LexLeq(TxKey(a), TxKey(b)) <==> ListedBefore(a.1, b.1)
  {
    var ka, kb := TxKey(a), TxKey(b);
    var a3, b3 := ka[1..][1..][1..], kb[1..][1..][1..];
    assert a3 == [ka[3]] && b3 == [kb[3]];
    assert a3[1..] == [];
    assert LexLeq(a3, b3) <==> ka[3] <= kb[3];
    var a2, b2 := ka[1..][1..], kb[1..][1..];
    assert a2[0] == ka[2] && b2[0] == kb[2] && a2[1..] == a3 && b2[1..] == b3;
    assert LexLeq(a2, b2) <==> ka[2] < kb[2] || (ka[2] == kb[2] && ka[3] <= kb[3]);
    var a1, b1 := ka[1..], kb[1..];
    assert a1[0] == ka[1] && b1[0] == kb[1] && a1[1..] == a2 && b1[1..] == b2;
    assert LexLeq(a1, b1) <==> ka[1] < kb[1] || (ka[1] == kb[1] && LexLeq(a2, b2));
  }

  /** What the list template receives. */
  datatype ListPage = ListPage(
    dateFrom: Date,
    dateTo: Date,
    transactions: seq<(Id, Transaction)>,
    statuses: seq<(Id, Status)>,
    operationTypes: seq<(Id, OperationType)>,
    categories: seq<(Id, Category)>,
    subcategories: seq<(Id, SubCategory)>)

  function ListFilters(q: ListQuery): (r: Result<Filters>)
    ensures r.Err? <==> q.status.NotANumber? || q.operationType.NotANumber? || q.category.NotANumber? || q.subcategory.NotANumber?
    ensures r.Err? ==> r.error == BadLookupValue
    ensures r.Ok? ==> && r.value.status == EqFilter(q.status).value
                      && r.value.operationType == EqFilter(q.operationType).value
                      && r.value.category == EqFilter(q.category).value
                      && r.value.subcategory == EqFilter(q.subcategory).value
  {
    match (EqFilter(q.status), EqFilter(q.operationType), EqFilter(q.category), EqFilter(q.subcategory))
    case (Ok(a), Ok(b), Ok(c), Ok(d)) => Ok(Filters(a, b, c, d))
    case _ => Err(BadLookupValue)
  }

  /** `transaction_list`: the transactions in the date range that pass
      every given condition, newest date first and, within a date, the
      latest created first; the option lists of the filter form, where the
      category list follows the chosen operation type and the subcategory
      list the chosen category. */
  function TransactionList(s: Store, q: ListQuery, today: Date, parse: string -> Option<Date>): (r: Result<ListPage>)
    ensures r.Err? <==> ListFilters(q).Err?
    ensures r.Err? ==> r.error == BadLookupValue
    ensures r.Ok? ==> (r.value.dateFrom, r.value.dateTo) == DateRange(q, today, parse)
    ensures r.Ok? ==> forall e :: e in r.value.transactions <==>
      RowOf(e, s.transactions) && Shows(e.1, r.value.dateFrom, r.value.dateTo, ListFilters(q).value)
    ensures r.Ok? ==> forall i, j :: 0 <= i < j < |r.value.transactions| ==>
      ListedBefore(r.value.transactions[i].1, r.value.transactions[j].1)
    ensures r.Ok? ==> DistinctKeys(r.value.transactions)
    ensures r.Ok? ==> (forall e :: e in r.value.statuses <==> RowOf(e, s.statuses))
                      && (forall e :: e in r.value.operationTypes <==> RowOf(e, s.operationTypes))
    ensures r.Ok? ==> forall e :: e in r.value.categories <==>
      RowOf(e, s.categories) && (q.operationType.Number? ==> e.1.operationType == q.operationType.n)
    ensures r.Ok? ==> forall e :: e in r.value.subcategories <==>
      RowOf(e, s.subcategories) && (q.category.Number? ==> e.1.category == q.category.n)
  {
    match ListFilters(q)
    case Err(e) => Err(e)
    case Ok(flt) =>
      var (from, to) := DateRange(q, today, parse);
      var listed := SortedRows(s.transactions, (t: Transaction) => Shows(t, from, to, flt), TxKey);
      assert forall i, j :: 0 <= i < j < |listed| ==> ListedBefore(listed[i].1, listed[j].1) by {
        forall i, j | 0 <= i < j < |listed| ensures ListedBefore(listed[i].1, listed[j].1) {
          TxKeyOrder(listed[i], listed[j]);
        }
      }
      Ok(ListPage(
        from, to, listed,
        AllRows(s.statuses),
        AllRows(s.operationTypes),
        if q.operationType.Number? then CategoriesOf(s, q.operationType.n) else AllRows(s.categories),
        if q.category.Number? then SubCategoriesOf(s, q.category.n) else AllRows(s.subcategories)))
  }

  /** Without date parameters the page shows the current month up to today. */
  lemma {:induction false} DefaultRangeIsCurrentMonth(s: Store, q: ListQuery, today: Date, parse: string -> Option<Date>)
    requires q.dateFrom.None? && q.dateTo.None?
    requires TransactionList(s, q, today, parse).Ok?
    ensures forall e :: e in TransactionList(s, q, today, parse).value.transactions ==>
      && e.1.fields.date.year == today.year && e.1.fields.date.month == today.month
      && DateLeq(e.1.fields.date, today)
  {
    var page := TransactionList(s, q, today, parse).value;
    forall e | e in page.transactions
      ensures e.1.fields.date.year == today.year && e.1.fields.date.month == today.month
    {
      assert DateLeq(FirstOfMonth(today), e.1.fields.date) && DateLeq(e.1.fields.date, today);
    }
  }

  /** Setting a condition that was absent only narrows the list: the new
      list is the old one restricted to rows that meet the condition. */
  lemma {:induction false} StatusFilterNarrows(s: Store, q: ListQuery, today: Date, parse: string -> Option<Date>, n: int)
    requires q.status.Absent? || q.status.Blank?
    requires TransactionList(s, q, today, parse).Ok?
    ensures TransactionList(s, q.(status := Number(n)), today, parse).Ok?
    ensures forall e :: e in TransactionList(s, q.(status := Number(n)), today, parse).value.transactions <==>
      e in TransactionList(s, q, today, parse).value.transactions && e.1.fields.status == n
  {
    var q' := q.(status := Number(n));
    assert DateRange(q', today, parse) == DateRange(q, today, parse);
    var flt := ListFilters(q).value;
    assert ListFilters(q') == Ok(flt.(status := Some(n)));
    var page, page' := TransactionList(s, q, today, parse).value, TransactionList(s, q', today, parse).value;
    forall e ensures e in page'.transactions <==> e in page.transactions && e.1.fields.status == n {
      assert Shows(e.1, page.dateFrom, page.dateTo, flt.(status := Some(n))) <==>
        Shows(e.1, page.dateFrom, page.dateTo, flt) && e.1.fields.status == n;
    }
  }

  lemma {:induction false} CategoryFilterNarrows(s: Store, q: ListQuery, today: Date, parse: string -> Option<Date>, n: int)
    requires q.category.Absent? || q.category.Blank?
    requires TransactionList(s, q, today, parse).Ok?
    ensures TransactionList(s, q.(category := Number(n)), today, parse).Ok?
    ensures forall e :: e in TransactionList(s, q.(category := Number(n)), today, parse).value.transactions <==>
      e in TransactionList(s, q, today, parse).value.transactions && e.1.fields.category == n
  {
    var q' := q.(category := Number(n));
    assert DateRange(q', today, parse) == DateRange(q, today, parse);
    var flt := ListFilters(q).value;
    assert ListFilters(q') == Ok(flt.(category := Some(n)));
    var page, page' := TransactionList(s, q, today, parse).value, TransactionList(s, q', today, parse).value;
    forall e ensures e in page'.transactions <==> e in page.transactions && e.1.fields.category == n {
      assert Shows(e.1, page.dateFrom, page.dateTo, flt.(category := Some(n))) <==>
        Shows(e.1, page.dateFrom, page.dateTo, flt) && e.1.fields.category == n;
    }
  }

  lemma {:induction false} OperationTypeFilterNarrows(s: Store, q: ListQuery, today: Date, parse: string -> Option<Date>, n: int)
    requires q.operationType.Absent? || q.operationType.Blank?
    requires TransactionList(s, q, today, parse).Ok?
    ensures TransactionList(s, q.(operationType := Number(n)), today, parse).Ok?
    ensures forall e :: e in TransactionList(s, q.(operationType := Number(n)), today, parse).value.transactions <==>
      e in TransactionList(s, q, today, parse).value.transactions && e.1.fields.operationType == n
  {
    var q' := q.(operationType := Number(n));
    assert DateRange(q', today, parse) == DateRange(q, today, parse);
    var flt := ListFilters(q).value;
    assert ListFilters(q') == Ok(flt.(operationType := Some(n)));
    var page, page' := TransactionList(s, q, today, parse).value, TransactionList(s, q', today, parse).value;
    forall e ensures e in page'.transactions <==> e in page.transactions && e.1.fields.operationType == n {
      assert Shows(e.1, page.dateFrom, page.dateTo, flt.(operationType := Some(n))) <==>
        Shows(e.1, page.dateFrom, page.dateTo, flt) && e.1.fields.operationType == n;
    }
  }

  lemma {:induction false} SubCategoryFilterNarrows(s: Store, q: ListQuery, today: Date, parse: string -> Option<Date>, n: int)
    requires q.subcategory.Absent? || q.subcategory.Blank?
    requires TransactionList(s, q, today, parse).Ok?
    ensures TransactionList(s, q.(subcategory := Number(n)), today, parse).Ok?
    ensures forall e :: e in TransactionList(s, q.(subcategory := Number(n)), today, parse).value.transactions <==>
      e in TransactionList(s, q, today, parse).value.transactions && e.1.fields.subcategory == Some(n)
  {
    var q' := q.(subcategory := Number(n));
    assert DateRange(q', today, parse) == DateRange(q, today, parse);
    var flt := ListFilters(q).value;
    assert ListFilters(q') == Ok(flt.(subcategory := Some(n)));
    var page, page' := TransactionList(s, q, today, parse).value, TransactionList(s, q', today, parse).value;
    forall e ensures e in page'.transactions <==> e in page.transactions && e.1.fields.subcategory == Some(n) {
      assert Shows(e.1, page.dateFrom, page.dateTo, flt.(subcategory := Some(n))) <==>
        Shows(e.1, page.dateFrom, page.dateTo, flt) && e.1.fields.subcategory == Some(n);
    }
  }

  /** `load_categories` of the transactions app: as the reference one, but
      with no `order_by`, so only the set of rows is promised; this model
      lists them in primary-key order. */
  function LoadCategories(s: Store, op: IdParam): (r: Result<seq<(Id, Category)>>)
    ensures r.Err? <==> op.Blank? || op.NotANumber?
    ensures r.Err? ==> r.error == BadLookupValue
    ensures op.Absent? ==> r == Ok([])
    ensures op.Number? ==> (r.Ok? && IncreasingKeys(r.value) &&
      forall e :: e in r.value <==> RowOf(e, s.categories) && e.1.operationType == op.n)
  {
    match LookupValue(op)
    case Err(e) => Err(e)
    case Ok(None) => Ok([])
    case Ok(Some(n)) => Ok(Rows(s.categories, (c: Category) => c.operationType == n))
  }

  /** `load_subcategories` of the transactions app. */
  function LoadSubCategories(s: Store, category: IdParam): (r: Result<seq<(Id, SubCategory)>>)
    ensures r.Err? <==> category.Blank? || category.NotANumber?
    ensures r.Err? ==> r.error == BadLookupValue
    ensures category.Absent? ==> r == Ok([])
    ensures category.Number? ==> (r.Ok? && IncreasingKeys(r.value) &&
      forall e :: e in r.value <==> RowOf(e, s.subcategories) && e.1.category == category.n)
  {
    match LookupValue(category)
    case Err(e) => Err(e)
    case Ok(None) => Ok([])
    case Ok(Some(n)) => Ok(Rows(s.subcategories, (x: SubCategory) => x.category == n))
  }

  /** Saving cleaned form data: `Transaction.save` runs the I1/I2 checks,
      whose `ValueError` aborts the request. */
  function Save(s: Store, clean: Result<TxFields>, save: (Store, TxFields) -> Result<Store>): (r: Reply)
    ensures clean.Err? ==> r == Reply(s, Failed(clean.error))
    ensures clean.Ok? && save(s, clean.value).Ok? ==> r == Reply(save(s, clean.value).value, Done)
    ensures clean.Ok? && save(s, clean.value).Err? ==> r == Reply(s, Failed(save(s, clean.value).error))
  {
    match clean
    case Err(e) => Reply(s, Failed(e))
    case Ok(f) =>
      match save(s, f)
      case Ok(t) => Reply(t, Done)
      case Err(e) => Reply(s, Failed(e))
  }

  /** `create_transaction`. A form that passes validation names existing
      rows and, its category being a number, offers only that category's
      subcategories; so the one way a clean form can still fail is I1. */
  function CreateView(s: Store, m: Method, input: TxInput): (r: Reply)
    ensures m == Get ==> r == Reply(s, Shown)
    ensures r.outcome.Done? <==> (m == Post && CleanTransaction(s, input, None).Ok?
      && CategoryFits(s, CleanTransaction(s, input, None).value))
    ensures r.outcome.Done? ==> (r.store.transactions ==
      s.transactions[s.nextId := Transaction(CleanTransaction(s, input, None).value, s.clock, s.clock)])
    ensures !r.outcome.Done? ==> r.store == s
    ensures r.outcome.Failed? ==> r.outcome.error.InvalidForm? || r.outcome.error == CategoryMismatch
  {
    match m
    case Get => Reply(s, Shown)
    case Post =>
      var clean := CleanTransaction(s, input, None);
      assert clean.Ok? ==> SubCategoryFits(s, clean.value) by {
        if clean.Ok? { CleanedSubCategoryFits(s, input, None); }
      }
      Save(s, clean, Ledger.CreateTransaction)
  }

  /** `update_transaction`: a 404 for a missing key; the bound form falls
      back to the current category's subcategories only when the data has
      no category at all. */
  function UpdateView(s: Store, m: Method, id: Id, input: TxInput): (r: Reply)
    ensures id !in s.transactions ==> r == Reply(s, Failed(NotFound(TransactionEntity)))
    ensures id in s.transactions && m == Get ==> r == Reply(s, Shown)
    ensures r.outcome.Done? <==> (id in s.transactions && m == Post
      && CleanTransaction(s, input, Some(s.transactions[id])).Ok?
      && CategoryFits(s, CleanTransaction(s, input, Some(s.transactions[id])).value))
    ensures r.outcome.Done? ==> (r.store.transactions == s.transactions[id :=
      Transaction(CleanTransaction(s, input, Some(s.transactions[id])).value, s.transactions[id].createdAt, s.clock)])
    ensures !r.outcome.Done? ==> r.store == s
    ensures r.outcome.Failed? ==>
      r.outcome.error.InvalidForm? || r.outcome.error in {CategoryMismatch, NotFound(TransactionEntity)}
  {
    if id !in s.transactions then Reply(s, Failed(NotFound(TransactionEntity)))
    else match m
      case Get => Reply(s, Shown)
      case Post =>
        var clean := CleanTransaction(s, input, Some(s.transactions[id]));
        assert clean.Ok? ==> SubCategoryFits(s, clean.value) by {
          if clean.Ok? { CleanedSubCategoryFits(s, input, Some(s.transactions[id])); }
        }
        Save(s, clean, (t: Store, f: TxFields) => Ledger.UpdateTransaction(t, id, f))
  }

  /** `delete_transaction`: nothing protects a transaction. */
  function DeleteView(s: Store, m: Method, id: Id): (r: Reply)
    ensures id !in s.transactions ==> r == Reply(s, Failed(NotFound(TransactionEntity)))
    ensures r.outcome.Done? <==> id in s.transactions && m == Post
    ensures r.outcome.Done? ==> r.store == s.(transactions := s.transactions - {id})
    ensures !r.outcome.Done? ==> r.store == s
  {
    if id !in s.transactions then Reply(s, Failed(NotFound(TransactionEntity)))
    else match m
      case Get => Reply(s, Shown)
      case Post =>
        var t := Ledger.DeleteTransaction(s, id).value;
        assert t.transactions == s.transactions - {id};
        Reply(t, Done)
  }

  lemma CreateViewKeepsInvariants(s: Store, m: Method, input: TxInput)
    requires Valid(s)
    ensures Valid(CreateView(s, m, input).store)
    ensures Consistent(s) ==> Consistent(CreateView(s, m, input).store)
  {
    if CreateView(s, m, input).outcome.Done? {
      var f := CleanTransaction(s, input, None).value;
      Ledger.CreateKeepsValid(s, f);
      if Consistent(s) {
        Ledger.CreateKeepsConsistent(s, f);
      }
    }
  }

  lemma UpdateViewKeepsInvariants(s: Store, m: Method, id: Id, input: TxInput)
    requires Valid(s)
    ensures Valid(UpdateView(s, m, id, input).store)
    ensures Consistent(s) ==> Consistent(UpdateView(s, m, id, input).store)
  {
    if UpdateView(s, m, id, input).outcome.Done? {
      var f := CleanTransaction(s, input, Some(s.transactions[id])).value;
      Ledger.UpdateKeepsValid(s, id, f);
      if Consistent(s) {
        Ledger.UpdateKeepsConsistent(s, id, f);
      }
    }
  }

  lemma DeleteViewKeepsInvariants(s: Store, m: Method, id: Id)
    requires Valid(s)
    ensures Valid(DeleteView(s, m, id).store)
    ensures Consistent(s) ==> Consistent(DeleteView(s, m, id).store)
  {
    if DeleteView(s, m, id).outcome.Done? {
      Ledger.DeleteKeepsInvariants(s, id);
    }
  }
}
