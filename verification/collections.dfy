/** Listing rows out of the id -> record maps of the store: enumeration of
    every row once (a query without `order_by`, which promises no order; this
    model fixes primary-key order), selection by a predicate (`filter`), and
    sorting by a key (`order_by`). */
module Collections {
  import opened Base

  /** Lexicographic order on integer sequences; a proper prefix sorts first.
      Names compare by code point this way, and descending orders are
      written with negated components. */
  predicate LexLeq(a: seq<int>, b: seq<int>)
    decreases |a|
  {
    |a| == 0 || (|b| > 0 && (a[0] < b[0] || (a[0] == b[0] && LexLeq(a[1..], b[1..]))))
  }

  lemma {:induction false} LexLeqReflexive(a: seq<int>)
    ensures LexLeq(a, a)
    decreases |a|
  {
    if |a| > 0 {
      LexLeqReflexive(a[1..]);
    }
  }

  lemma {:induction false} LexLeqTotal(a: seq<int>, b: seq<int>)
    ensures LexLeq(a, b) || LexLeq(b, a)
    decreases |a|
  {
    if |a| > 0 && |b| > 0 && a[0] == b[0] {
      LexLeqTotal(a[1..], b[1..]);
    }
  }

  lemma {:induction false} LexLeqTransitive(a: seq<int>, b: seq<int>, c: seq<int>)
    requires LexLeq(a, b) && LexLeq(b, c)
    ensures LexLeq(a, c)
    decreases |a|
  {
    if |a| > 0 && a[0] == b[0] && b[0] == c[0] {
      LexLeqTransitive(a[1..], b[1..], c[1..]);
    }
  }

  lemma {:induction false} LexLeqAntisymmetric(a: seq<int>, b: seq<int>)
    requires LexLeq(a, b) && LexLeq(b, a)
    ensures a == b
    decreases |a|
  {
    if |a| > 0 {
      LexLeqAntisymmetric(a[1..], b[1..]);
      assert a == [a[0]] + a[1..] && b == [b[0]] + b[1..];
    }
  }

  /** The code points of a string, the key SQLite's BINARY collation compares. */
  function Codes(s: string): (r: seq<int>)
    ensures |r| == |s|
    ensures forall i :: 0 <= i < |s| ==> r[i] == s[i] as int
  {
    seq(|s|, i requires 0 <= i < |s| => s[i] as int)
  }

  /** Distinct strings have distinct keys, so the name order is antisymmetric. */
  lemma CodesInjective(a: string, b: string)
    requires Codes(a) == Codes(b)
    ensures a == b
  {
    assert |a| == |b|;
    forall i | 0 <= i < |a| ensures a[i] == b[i] {
      assert Codes(a)[i] == Codes(b)[i];
    }
  }

  predicate SortedBy<T>(s: seq<T>, key: T -> seq<int>) {
    forall i, j :: 0 <= i < j < |s| ==> LexLeq(key(s[i]), key(s[j]))
  }

  lemma ConsSorted<T>(x: T, t: seq<T>, key: T -> seq<int>)
    requires SortedBy(t, key)
    requires forall y :: y in t ==> LexLeq(key(x), key(y))
    ensures SortedBy([x] + t, key)
  {
    var r := [x] + t;
    forall i, j | 0 <= i < j < |r| ensures LexLeq(key(r[i]), key(r[j])) {
      assert r[j] == t[j - 1];
      if i > 0 {
        assert r[i] == t[i - 1];
      } else {
        assert t[j - 1] in t;
      }
    }
  }

  /** An element ordered before the head of a sorted sequence is ordered
      before all of it. */
  lemma BelowHead<T>(x: T, s: seq<T>, key: T -> seq<int>)
    requires |s| > 0 && SortedBy(s, key) && LexLeq(key(x), key(s[0]))
    ensures forall y :: y in s ==> LexLeq(key(x), key(y))
  {
    forall y | y in s ensures LexLeq(key(x), key(y)) {
      var j :| 0 <= j < |s| && s[j] == y;
      if j > 0 {
        LexLeqTransitive(key(x), key(s[0]), key(s[j]));
      }
    }
  }

  /** Inserting an element that sorts after the head of `s` into the rest
      of `s` leaves only elements the head sorts before. */
  lemma InsertedAboveHead<T>(x: T, s: seq<T>, t: seq<T>, key: T -> seq<int>)
    requires |s| > 0 && SortedBy(s, key) && !LexLeq(key(x), key(s[0]))
    requires multiset(t) == multiset(s[1..]) + multiset{x}
    ensures forall y :: y in t ==> LexLeq(key(s[0]), key(y))
  {
    LexLeqTotal(key(x), key(s[0]));
    LexLeqReflexive(key(s[0]));
    BelowHead(s[0], s, key);
    forall y | y in t ensures LexLeq(key(s[0]), key(y)) {
      assert y in multiset(t);
      if y != x {
        assert y in multiset(s[1..]);
        assert y in s;
      }
    }
  }

  /** Inserts `x` into a sorted sequence, keeping it sorted. */
  function Insert<T>(x: T, s: seq<T>, key: T -> seq<int>): (r: seq<T>)
    requires SortedBy(s, key)
    ensures SortedBy(r, key)
    ensures multiset(r) == multiset(s) + multiset{x}
    decreases |s|
  {
    if |s| == 0 then
      [x]
    else if LexLeq(key(x), key(s[0])) then
      BelowHead(x, s, key);
      ConsSorted(x, s, key);
      [x] + s
    else
      var t := Insert(x, s[1..], key);
      InsertedAboveHead(x, s, t, key);
      ConsSorted(s[0], t, key);
      assert s == [s[0]] + s[1..];
      [s[0]] + t
  }

  /** Insertion sort; ties keep no particular order. */
  function Sort<T>(s: seq<T>, key: T -> seq<int>): (r: seq<T>)
    ensures SortedBy(r, key)
    ensures multiset(r) == multiset(s)
    decreases |s|
  {
    if |s| == 0 then
      []
    else
      assert s == [s[0]] + s[1..];
      Insert(s[0], Sort(s[1..], key), key)
  }

  /** Entry sequences whose primary keys strictly increase. */
  predicate IncreasingKeys<V>(s: seq<(Id, V)>) {
    forall i, j :: 0 <= i < j < |s| ==> s[i].0 < s[j].0
  }

  /** No primary key is listed twice. */
  predicate DistinctKeys<V>(s: seq<(Id, V)>) {
    forall i, j :: 0 <= i < j < |s| ==> s[i].0 != s[j].0
  }

  /** `e` is a row of the table `m`. */
  predicate RowOf<V(==)>(e: (Id, V), m: map<Id, V>) {
    e.0 in m && m[e.0] == e.1
  }

  lemma {:induction false} HasLeast(keys: set<Id>)
    requires keys != {}
    ensures exists k :: k in keys && forall j :: j in keys ==> k <= j
    decreases |keys|
  {
    var x :| x in keys;
    if !forall j :: j in keys ==> x <= j {
      var y :| y in keys && y < x;
      var rest := keys - {x};
      assert y in rest;
      HasLeast(rest);
      var m :| m in rest && forall j :: j in rest ==> m <= j;
      forall j | j in keys ensures m <= j {
        if j != x { assert j in rest; }
      }
    }
  }

  function LeastKey<V>(m: map<Id, V>): (k: Id)
    requires |m| > 0
    ensures k in m
    ensures forall j :: j in m ==> k <= j
  {
    assert m.Keys != {} by {
      var x :| x in m;
    }
    HasLeast(m.Keys);
    var k :| k in m && forall j :: j in m ==> k <= j; k
  }

  /** Every row of a table, in primary-key order. */
  function Entries<V(==, !new)>(m: map<Id, V>): (r: seq<(Id, V)>)
    ensures forall e :: e in r <==> RowOf(e, m)
    ensures IncreasingKeys(r)
    ensures |r| == |m|
    decreases |m|
  {
    if |m| == 0 then
      []
    else
      var k := LeastKey(m);
      var rest := m - {k};
      assert rest.Keys == m.Keys - {k};
      var tail := Entries(rest);
      assert forall e :: e in tail ==> k < e.0 by {
        forall e | e in tail ensures k < e.0 {
          assert RowOf(e, rest);
        }
      }
      ConsIncreasing((k, m[k]), tail);
      [(k, m[k])] + tail
  }

  lemma ConsIncreasing<V>(x: (Id, V), t: seq<(Id, V)>)
    requires IncreasingKeys(t)
    requires forall e :: e in t ==> x.0 < e.0
    ensures IncreasingKeys([x] + t)
  {
    var r := [x] + t;
    forall i, j | 0 <= i < j < |r| ensures r[i].0 < r[j].0 {
      assert r[j] == t[j - 1];
      if i > 0 {
        assert r[i] == t[i - 1];
      } else {
        assert t[j - 1] in t;
      }
    }
  }

  /** In a key-ordered listing, every later entry has a greater key than the first. */
  lemma HeadKeyLeast<V>(s: seq<(Id, V)>)
    requires |s| > 0 && IncreasingKeys(s)
    ensures forall e :: e in s[1..] ==> s[0].0 < e.0
  {
    forall e | e in s[1..] ensures s[0].0 < e.0 {
      var i :| 0 <= i < |s[1..]| && s[1..][i] == e;
      assert s[i + 1] == e;
    }
  }

  /** The entries whose record satisfies `p`, in their original order. */
  function Select<V(==, !new)>(s: seq<(Id, V)>, p: V -> bool): (r: seq<(Id, V)>)
    ensures forall e :: e in r <==> e in s && p(e.1)
    ensures IncreasingKeys(s) ==> IncreasingKeys(r)
    ensures |r| <= |s|
    decreases |s|
  {
    if |s| == 0 then
      []
    else
      var tail := Select(s[1..], p);
      assert forall e :: e in s <==> e == s[0] || e in s[1..] by {
        assert s == [s[0]] + s[1..];
      }
      if p(s[0].1) then
        assert IncreasingKeys(s) ==> IncreasingKeys([s[0]] + tail) by {
          if IncreasingKeys(s) {
            HeadKeyLeast(s);
            ConsIncreasing(s[0], tail);
          }
        }
        [s[0]] + tail
      else
        tail
  }

  /** The rows of `m` whose record satisfies `p`, by primary key. */
  function Rows<V(==, !new)>(m: map<Id, V>, p: V -> bool): (r: seq<(Id, V)>)
    ensures forall e :: e in r <==> RowOf(e, m) && p(e.1)
    ensures IncreasingKeys(r)
  {
    Select(Entries(m), p)
  }

  /** The lookup half of `get_or_create`: a primary key whose record
      satisfies `p`. It is unique whenever a unique constraint covers `p`;
      otherwise this model picks the least such key. */
  function FirstKey<V(==, !new)>(m: map<Id, V>, p: V -> bool): (r: Option<Id>)
    ensures r.Some? ==> r.value in m && p(m[r.value])
    ensures r.Some? ==> forall j :: j in m && p(m[j]) ==> r.value <= j
    ensures r.None? ==> forall j :: j in m ==> !p(m[j])
  {
    var rows := Rows(m, p);
    if |rows| == 0 then
      assert forall j :: j in m ==> !p(m[j]) by {
        forall j | j in m ensures !p(m[j]) {
          assert RowOf((j, m[j]), m);
          assert (j, m[j]) !in rows;
        }
      }
      None
    else
      assert forall j :: j in m && p(m[j]) ==> rows[0].0 <= j by {
        forall j | j in m && p(m[j]) ensures rows[0].0 <= j {
          assert (j, m[j]) in rows;
          var i :| 0 <= i < |rows| && rows[i] == (j, m[j]);
        }
      }
      assert rows[0] in rows;
      Some(rows[0].0)
  }

  lemma {:induction false} IncreasingCountsAtMostOne<V>(s: seq<(Id, V)>, x: (Id, V))
    requires IncreasingKeys(s)
    ensures multiset(s)[x] <= 1
    decreases |s|
  {
    if |s| > 0 {
      assert s == [s[0]] + s[1..];
      IncreasingCountsAtMostOne(s[1..], x);
      if x == s[0] {
        assert x !in s[1..];
      }
    }
  }

  lemma TwiceCountsTwo<T>(t: seq<T>, i: int, j: int)
    requires 0 <= i < j < |t| && t[i] == t[j]
    ensures multiset(t)[t[i]] >= 2
  {
    assert t == t[..j] + t[j..];
    assert t[i] in t[..j];
    assert t[j..][0] == t[j];
  }

  /** Reordering a key-ordered listing lists no key twice. */
  lemma PermutationKeepsDistinctKeys<V>(s: seq<(Id, V)>, t: seq<(Id, V)>, m: map<Id, V>)
    requires IncreasingKeys(s)
    requires multiset(t) == multiset(s)
    requires forall e :: e in t ==> RowOf(e, m)
    ensures DistinctKeys(t)
  {
    forall i, j | 0 <= i < j < |t| ensures t[i].0 != t[j].0 {
      if t[i].0 == t[j].0 {
        assert RowOf(t[i], m) && RowOf(t[j], m);
        TwiceCountsTwo(t, i, j);
        IncreasingCountsAtMostOne(s, t[i]);
      }
    }
  }

  /** The rows of `m` satisfying `p`, sorted by `key`, each listed once:
      `filter(...).order_by(...)`. */
  function SortedRows<V(==, !new)>(m: map<Id, V>, p: V -> bool, key: ((Id, V)) -> seq<int>): (r: seq<(Id, V)>)
    ensures forall e :: e in r <==> RowOf(e, m) && p(e.1)
    ensures SortedBy(r, key)
    ensures DistinctKeys(r)
  {
    var rows := Rows(m, p);
    var r := Sort(rows, key);
    assert forall e :: e in r <==> e in rows by {
      forall e ensures e in r <==> e in rows {
        assert e in r <==> e in multiset(r);
      }
    }
    PermutationKeepsDistinctKeys(rows, r, m);
    r
  }
}
