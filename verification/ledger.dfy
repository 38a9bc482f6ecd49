/** The transaction table (`transactions/models.py`): the amount column's
    precision, the link check `Transaction.save` runs before every write,
    and inserting, updating and deleting transactions. */
module Ledger {
  import opened Base
  import opened Store

  /** `max_digits=12, decimal_places=2` */
  const MaxDigits: nat := 12
  const DecimalPlaces: nat := 2

  /** 10^12: amounts in hundredths stay strictly below this in magnitude. */
  const CentsLimit: int := 1_000_000_000_000

  function Pow10(n: nat): (r: nat)
    ensures r >= 1
  {
    if n == 0 then 1 else 10 * Pow10(n - 1)
  }

  /** The number of decimal digits of `n`; zero is written with one digit. */
  function DigitCount(n: nat): (r: nat)
    ensures r >= 1
    ensures n < Pow10(r)
    ensures r > 1 ==> Pow10(r - 1) <= n
  {
    if n < 10 then 1 else 1 + DigitCount(n / 10)
  }

  /** A decimal as Python's `Decimal` holds it: a sign, a coefficient and
      a power-of-ten exponent; value = (-1)^sign * coefficient * 10^exponent.
      "1.50" is `Decimal(false, 150, -2)`, "1.500" is `Decimal(false, 1500, -3)`. */
  datatype Decimal = Decimal(negative: bool, coefficient: nat, exponent: int)

  /** Digits and decimals as Django's `DecimalValidator` counts them. */
  function Digits(d: Decimal): nat {
    if d.exponent >= 0 then
      (if d.coefficient == 0 then 1 else DigitCount(d.coefficient) + d.exponent)
    else if -d.exponent > DigitCount(d.coefficient) then
      -d.exponent
    else
      DigitCount(d.coefficient)
  }

  function Decimals(d: Decimal): nat {
    if d.exponent >= 0 then 0 else -d.exponent
  }

  /** `DecimalValidator(max_digits=12, decimal_places=2)`: at most 12 digits,
      at most 2 after the point, at most 10 before it. */
  predicate AmountFits(d: Decimal) {
    && Digits(d) <= MaxDigits
    && Decimals(d) <= DecimalPlaces
    && Digits(d) - Decimals(d) <= MaxDigits - DecimalPlaces
  }

  /** The amount in hundredths; exact because at most two decimals are allowed. */
  function Cents(d: Decimal): (r: int)
    requires AmountFits(d)
  {
    if d.negative then -(Magnitude(d) as int) else Magnitude(d)
  }

  /** The absolute value in hundredths of a decimal with at most two places. */
  function Magnitude(d: Decimal): nat
    requires d.exponent >= -2
  {
    d.coefficient * Pow10((d.exponent + 2) as nat)
  }

  lemma {:induction false} Pow10Monotone(a: nat, b: nat)
    requires a <= b
    ensures Pow10(a) <= Pow10(b)
    decreases b
  {
    if a < b {
      Pow10Monotone(a, b - 1);
    }
  }

  lemma {:induction false} Pow10Add(a: nat, b: nat)
    ensures Pow10(a + b) == Pow10(a) * Pow10(b)
    decreases a
  {
    if a > 0 {
      Pow10Add(a - 1, b);
    }
  }

  lemma {:induction false} DigitCountBound(n: nat, k: nat)
    requires 1 <= k && n < Pow10(k)
    ensures DigitCount(n) <= k
  {
    if DigitCount(n) > k {
      Pow10Monotone(k, DigitCount(n) - 1);
    }
  }

  lemma MulStrict(a: nat, b: nat, c: nat)
    requires a < b && 1 <= c
    ensures a * c < b * c
  {
  }

  lemma Pow10Values()
    ensures Pow10(0) == 1 && Pow10(1) == 10 && Pow10(2) == 100
    ensures Pow10(11) == 100_000_000_000
    ensures Pow10(12) == CentsLimit
  {
  }

  /** The magnitude of an accepted amount, in hundredths. */
  lemma {:induction false} AcceptedMagnitude(d: Decimal)
    requires AmountFits(d)
    ensures d.exponent >= -2
    ensures Magnitude(d) < CentsLimit
  {
    var c := d.coefficient;
    var len := DigitCount(c);
    if d.exponent >= 0 {
      WholeMagnitude(d);
    } else {
      assert Decimals(d) == -d.exponent;
      assert len <= 10 + Decimals(d);
      Pow10Monotone(len, 10 + Decimals(d));
      Pow10Values();
      if d.exponent == -1 {
        assert c * Pow10(1) == c * 10;
      } else {
        assert c * Pow10(0) == c;
      }
    }
  }

  lemma {:induction false} WholeMagnitude(d: Decimal)
    requires AmountFits(d) && d.exponent >= 0
    ensures d.coefficient * Pow10((d.exponent + 2) as nat) < CentsLimit
  {
    var c := d.coefficient;
    var e := (d.exponent + 2) as nat;
    Pow10Values();
    if c == 0 {
      assert c * Pow10(e) == 0;
    } else {
      var len := DigitCount(c);
      assert len + e <= 12;
      Pow10Add(len, e);
      Pow10Monotone(len + e, 12);
      MulStrict(c, Pow10(len), Pow10(e));
    }
  }

  /** Every accepted amount is a whole number of hundredths below 10^12 in
      magnitude: ten digits before the point and two after. */
  lemma AcceptedAmountIsBounded(d: Decimal)
    requires AmountFits(d)
    ensures -CentsLimit < Cents(d) < CentsLimit
  {
    AcceptedMagnitude(d);
  }

  /** The canonical two-place form of an amount in hundredths. */
  function FromCents(cents: int): Decimal {
    Decimal(cents < 0, if cents < 0 then -cents else cents, -2)
  }

  /** Every amount below 10^12 hundredths in magnitude is accepted in its
      two-place form, and reads back as the same number of hundredths. */
  lemma {:induction false} BoundedAmountIsAccepted(cents: int)
    requires -CentsLimit < cents < CentsLimit
    ensures AmountFits(FromCents(cents))
    ensures Cents(FromCents(cents)) == cents
  {
    var d := FromCents(cents);
    Pow10Values();
    DigitCountBound(d.coefficient, 12);
    assert Pow10(0) == 1;
  }

  /** `Transaction.save`: the attribute accesses load the category, the
      operation type and the subcategory in that order (a missing row raises
      `DoesNotExist`), I1 is checked before I2, and the insert itself fails
      on a dangling status at commit. The first failure is reported. */
  function CheckLinks(s: Store, f: TxFields): (r: Result<()>)
    ensures r.Ok? <==> LinksExist(s, f) && CategoryFits(s, f) && SubCategoryFits(s, f)
    ensures f.category in s.categories && f.operationType in s.operationTypes && !CategoryFits(s, f) ==>
      r == Err(CategoryMismatch)
    ensures r == Err(SubCategoryMismatch) ==> CategoryFits(s, f) && !SubCategoryFits(s, f)
    ensures r.Err? ==> r.error in {NotFound(StatusEntity), NotFound(OperationTypeEntity), NotFound(CategoryEntity),
                                   NotFound(SubCategoryEntity), CategoryMismatch, SubCategoryMismatch}
  {
    if f.category !in s.categories then
      Err(NotFound(CategoryEntity))
    else if f.operationType !in s.operationTypes then
      Err(NotFound(OperationTypeEntity))
    else if s.categories[f.category].operationType != f.operationType then
      Err(CategoryMismatch)
    else if f.subcategory.Some? && f.subcategory.value !in s.subcategories then
      Err(NotFound(SubCategoryEntity))
    else if f.subcategory.Some? && s.subcategories[f.subcategory.value].category != f.category then
      Err(SubCategoryMismatch)
    else if f.status !in s.statuses then
      Err(NotFound(StatusEntity))
    else
      Ok(())
  }

  /** `Transaction.objects.create(...)`: checks the links, then inserts with
      `created_at = updated_at = now`. */
  function CreateTransaction(s: Store, f: TxFields): (r: Result<Store>)
    ensures r.Ok? <==> CheckLinks(s, f).Ok?
    ensures r.Err? ==> r.error == CheckLinks(s, f).error
    ensures r.Ok? ==> r.value.transactions == s.transactions[s.nextId := Transaction(f, s.clock, s.clock)]
    ensures r.Ok? ==> r.value.nextId == s.nextId + 1 && r.value.clock == s.clock + 1
    ensures r.Ok? ==> && r.value.statuses == s.statuses
                      && r.value.operationTypes == s.operationTypes
                      && r.value.categories == s.categories
                      && r.value.subcategories == s.subcategories
  {
    match CheckLinks(s, f)
    case Err(e) => Err(e)
    case Ok(_) =>
      Ok(s.(transactions := s.transactions[s.nextId := Transaction(f, s.clock, s.clock)],
            nextId := s.nextId + 1,
            clock := s.clock + 1))
  }

  /** `save()` on an existing transaction with new field values: the check
      runs against the new values, `created_at` is kept and `updated_at`
      refreshed. */
  function UpdateTransaction(s: Store, id: Id, f: TxFields): (r: Result<Store>)
    ensures id !in s.transactions ==> r == Err(NotFound(TransactionEntity))
    ensures id in s.transactions ==> (r.Ok? <==> CheckLinks(s, f).Ok?)
    ensures id in s.transactions && r.Err? ==> r.error == CheckLinks(s, f).error
    ensures r.Ok? ==>
      r.value.transactions == s.transactions[id := Transaction(f, s.transactions[id].createdAt, s.clock)]
    ensures r.Ok? ==> r.value.nextId == s.nextId && r.value.clock == s.clock + 1
    ensures r.Ok? ==> && r.value.statuses == s.statuses
                      && r.value.operationTypes == s.operationTypes
                      && r.value.categories == s.categories
                      && r.value.subcategories == s.subcategories
  {
    if id !in s.transactions then
      Err(NotFound(TransactionEntity))
    else
      match CheckLinks(s, f)
      case Err(e) => Err(e)
      case Ok(_) =>
        Ok(s.(transactions := s.transactions[id := Transaction(f, s.transactions[id].createdAt, s.clock)],
              clock := s.clock + 1))
  }

  /** `transaction.delete()`: a transaction has no dependants. */
  function DeleteTransaction(s: Store, id: Id): (r: Result<Store>)
    ensures id !in s.transactions <==> r.Err?
    ensures r.Err? ==> r.error == NotFound(TransactionEntity)
    ensures r.Ok? ==> r.value.transactions.Keys == s.transactions.Keys - {id}
    ensures r.Ok? ==> forall k :: k in r.value.transactions ==> r.value.transactions[k] == s.transactions[k]
    ensures r.Ok? ==> r.value == s.(transactions := r.value.transactions)
  {
    if id !in s.transactions then
      Err(NotFound(TransactionEntity))
    else
      Ok(s.(transactions := s.transactions - {id}))
  }

  /** The ledger writes keep every invariant, and I1/I2 for every stored
      transaction: they only ever store fields that passed the check. */
  lemma CreateKeepsValid(s: Store, f: TxFields)
    requires Valid(s)
    requires CreateTransaction(s, f).Ok?
    ensures Valid(CreateTransaction(s, f).value)
  {
    CreateKeepsCatalog(s, f);
    CreateKeepsRefs(s, f);
    CreateKeepsTimestamps(s, f);
  }

  lemma CreateKeepsCatalog(s: Store, f: TxFields)
    requires CatalogValid(s)
    requires CreateTransaction(s, f).Ok?
    ensures CatalogValid(CreateTransaction(s, f).value)
  {
    var r := CreateTransaction(s, f).value;
    assert FreshIds(r);
  }

  lemma CreateKeepsRefs(s: Store, f: TxFields)
    requires RefsExist(s)
    requires CreateTransaction(s, f).Ok?
    ensures RefsExist(CreateTransaction(s, f).value)
  {
    var r := CreateTransaction(s, f).value;
    assert LinksExist(r, f);
  }

  lemma CreateKeepsTimestamps(s: Store, f: TxFields)
    requires TimestampsPast(s)
    requires CreateTransaction(s, f).Ok?
    ensures TimestampsPast(CreateTransaction(s, f).value)
  {
  }

  lemma CreateKeepsConsistent(s: Store, f: TxFields)
    requires Consistent(s)
    requires CreateTransaction(s, f).Ok?
    ensures Consistent(CreateTransaction(s, f).value)
  {
    var r := CreateTransaction(s, f).value;
    assert CategoryFits(r, f) && SubCategoryFits(r, f);
  }

  lemma UpdateKeepsValid(s: Store, id: Id, f: TxFields)
    requires Valid(s)
    requires UpdateTransaction(s, id, f).Ok?
    ensures Valid(UpdateTransaction(s, id, f).value)
  {
    UpdateKeepsCatalog(s, id, f);
    UpdateKeepsRefs(s, id, f);
    UpdateKeepsTimestamps(s, id, f);
  }

  lemma UpdateKeepsCatalog(s: Store, id: Id, f: TxFields)
    requires CatalogValid(s)
    requires UpdateTransaction(s, id, f).Ok?
    ensures CatalogValid(UpdateTransaction(s, id, f).value)
  {
    var r := UpdateTransaction(s, id, f).value;
    assert r.transactions.Keys == s.transactions.Keys;
  }

  lemma UpdateKeepsRefs(s: Store, id: Id, f: TxFields)
    requires RefsExist(s)
    requires UpdateTransaction(s, id, f).Ok?
    ensures RefsExist(UpdateTransaction(s, id, f).value)
  {
    var r := UpdateTransaction(s, id, f).value;
    assert LinksExist(r, f);
  }

  lemma UpdateKeepsTimestamps(s: Store, id: Id, f: TxFields)
    requires TimestampsPast(s)
    requires UpdateTransaction(s, id, f).Ok?
    ensures TimestampsPast(UpdateTransaction(s, id, f).value)
  {
  }

  lemma UpdateKeepsConsistent(s: Store, id: Id, f: TxFields)
    requires Consistent(s)
    requires UpdateTransaction(s, id, f).Ok?
    ensures Consistent(UpdateTransaction(s, id, f).value)
  {
    var r := UpdateTransaction(s, id, f).value;
    assert CategoryFits(r, f) && SubCategoryFits(r, f);
  }

  lemma DeleteKeepsInvariants(s: Store, id: Id)
    requires DeleteTransaction(s, id).Ok?
    ensures Valid(s) ==> Valid(DeleteTransaction(s, id).value)
    ensures Consistent(s) ==> Consistent(DeleteTransaction(s, id).value)
  {
  }

  /** Transactions written through `CreateTransaction` get strictly
      increasing creation stamps, the tie-breaker of the ledger's order. */
  lemma CreationStampsIncrease(s: Store, f: TxFields, g: TxFields)
    requires FreshIds(s) && TimestampsPast(s)
    requires CreateTransaction(s, f).Ok?
    requires CreateTransaction(CreateTransaction(s, f).value, g).Ok?
    ensures var s1 := CreateTransaction(s, f).value;
            var s2 := CreateTransaction(s1, g).value;
            s2.transactions[s.nextId].createdAt < s2.transactions[s1.nextId].createdAt
            && forall k :: k in s.transactions ==> s2.transactions[k].createdAt < s2.transactions[s.nextId].createdAt
  {
    var s1 := CreateTransaction(s, f).value;
    assert s.nextId !in s.transactions;
  }
}
