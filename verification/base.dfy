/** Shared vocabulary of the cash-flow model: primary keys, optional values,
    results, the error kinds the application raises or reports, calendar
    dates, HTTP methods and raw request parameters. */
module Base {

  /** Primary keys. The database hands out fresh integers and never reuses one. */
  type Id = nat

  datatype Option<+T> = None | Some(value: T)

  /** The five tables of the application. */
  datatype Entity =
    | StatusEntity
    | OperationTypeEntity
    | CategoryEntity
    | SubCategoryEntity
    | TransactionEntity

  /** Form fields that can carry a validation error; `NonFieldErrors` holds
      the message of a violated `unique_together` constraint. */
  datatype Field =
    | NameField
    | DateField
    | StatusField
    | OperationTypeField
    | CategoryField
    | SubCategoryField
    | AmountField
    | CommentField
    | NonFieldErrors

  datatype Error =
    /** `get_object_or_404`, `DoesNotExist`, or a dangling foreign key at commit */
    | NotFound(entity: Entity)
    /** `ProtectedError`: a transaction still references a row of the delete set */
    | Protected
    /** `ValueError` from `Transaction.save`: the category belongs to another operation type */
    | CategoryMismatch
    /** `ValueError` from `Transaction.save`: the subcategory belongs to another category */
    | SubCategoryMismatch
    /** a bound form that is not valid, with the fields that carry errors */
    | InvalidForm(fields: set<Field>)
    /** `ValueError` raised when a queryset lookup gets a value `int()` rejects */
    | BadLookupValue

  datatype Result<+T> = Ok(value: T) | Err(error: Error)

  /** A calendar date; dates compare by year, then month, then day. */
  datatype Date = Date(year: int, month: int, day: int)

  predicate DateLeq(a: Date, b: Date) {
    a.year < b.year
    || (a.year == b.year && (a.month < b.month || (a.month == b.month && a.day <= b.day)))
  }

  /** `today.replace(day=1)`: the earliest day of today's month, so no
      later than today itself. */
  function FirstOfMonth(today: Date): (r: Date)
    ensures r.year == today.year && r.month == today.month && r.day >= 1
    ensures forall d: Date :: d.year == today.year && d.month == today.month && d.day >= 1 ==> DateLeq(r, d)
    ensures today.day >= 1 ==> DateLeq(r, today)
  {
    Date(today.year, today.month, 1)
  }

  datatype Method = Get | Post

  /** A request or form parameter that should hold a primary key, classified
      by what Python's `int()` makes of it. `Absent` is a key missing from the
      query dict; `Blank` is the empty string. */
  datatype IdParam = Absent | Blank | Number(n: int) | NotANumber

  /** A lookup on a foreign-key column with a raw parameter: `None` matches
      no row (Django turns `= None` into `IS NULL`, and foreign keys here are
      never null), a number matches that key, anything else makes the lookup
      raise. */
  function LookupValue(p: IdParam): (r: Result<Option<int>>)
    ensures p.Absent? <==> r == Ok(None)
    ensures p.Number? ==> r == Ok(Some(p.n))
    ensures r.Err? <==> p.Blank? || p.NotANumber?
    ensures r.Err? ==> r.error == BadLookupValue
  {
    match p
    case Absent => Ok(None)
    case Number(n) => Ok(Some(n))
    case _ => Err(BadLookupValue)
  }

  /** What a view reports after handling a request. */
  datatype Outcome =
    /** GET: the form or confirmation page is rendered */
    | Shown
    /** POST: the change was persisted and the browser redirected */
    | Done
    /** the form was re-rendered with errors, or the request raised */
    | Failed(error: Error)
}
