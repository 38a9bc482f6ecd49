/** The parent-to-children querysets the views and forms share:
    `Category.objects.filter(operation_type_id=...)` and
    `SubCategory.objects.filter(category_id=...)`, with or without
    `order_by('name')`. Names order by code point. */
module Lookups {
  import opened Base
  import opened Store
  import opened Collections

  function StatusName(e: (Id, Status)): seq<int> {
    Codes(e.1.name)
  }

  function OperationTypeName(e: (Id, OperationType)): seq<int> {
    Codes(e.1.name)
  }

  function CategoryName(e: (Id, Category)): seq<int> {
    Codes(e.1.name)
  }

  function SubCategoryName(e: (Id, SubCategory)): seq<int> {
    Codes(e.1.name)
  }

  /** The primary keys a listing offers. */
  function KeysOf<V>(r: seq<(Id, V)>): (ks: set<Id>)
    ensures forall k :: k in ks <==> exists i :: 0 <= i < |r| && r[i].0 == k
  {
    set i | 0 <= i < |r| :: r[i].0
  }

  /** `Category.objects.filter(operation_type_id=op)`, in no particular order. */
  function CategoriesOf(s: Store, op: int): (r: seq<(Id, Category)>)
    ensures forall e :: e in r <==> RowOf(e, s.categories) && e.1.operationType == op
    ensures DistinctKeys(r)
  {
    Rows(s.categories, (c: Category) => c.operationType == op)
  }

  /** `SubCategory.objects.filter(category_id=c)`, in no particular order. */
  function SubCategoriesOf(s: Store, c: int): (r: seq<(Id, SubCategory)>)
    ensures forall e :: e in r <==> RowOf(e, s.subcategories) && e.1.category == c
    ensures DistinctKeys(r)
  {
    Rows(s.subcategories, (x: SubCategory) => x.category == c)
  }

  /** `Category.objects.filter(operation_type_id=op).order_by('name')` */
  function CategoriesOfByName(s: Store, op: int): (r: seq<(Id, Category)>)
    ensures forall e :: e in r <==> RowOf(e, s.categories) && e.1.operationType == op
    ensures SortedBy(r, CategoryName)
    ensures DistinctKeys(r)
  {
    SortedRows(s.categories, (c: Category) => c.operationType == op, CategoryName)
  }

  /** `SubCategory.objects.filter(category_id=c).order_by('name')` */
  function SubCategoriesOfByName(s: Store, c: int): (r: seq<(Id, SubCategory)>)
    ensures forall e :: e in r <==> RowOf(e, s.subcategories) && e.1.category == c
    ensures SortedBy(r, SubCategoryName)
    ensures DistinctKeys(r)
  {
    SortedRows(s.subcategories, (x: SubCategory) => x.category == c, SubCategoryName)
  }

  /** `Model.objects.all()`: every row, by primary key. */
  function AllRows<V(==, !new)>(m: map<Id, V>): (r: seq<(Id, V)>)
    ensures forall e :: e in r <==> RowOf(e, m)
    ensures DistinctKeys(r)
  {
    Entries(m)
  }
}
