/** Strict total orders, the sorted duplicate-free list of some values, and its bounded prefix. */
module Ordering {
  type Less<!T> = (T, T) -> bool

  ghost predicate StrictTotal<T(!new)>(lt: Less<T>) {
    && (forall x :: !lt(x, x))
    && (forall x, y, z :: lt(x, y) && lt(y, z) ==> lt(x, z))
    && (forall x, y :: lt(x, y) || x == y || lt(y, x))
  }

  predicate IntLess(a: int, b: int) {
    a < b
  }

  /** Python's order on strings: by code point, a proper prefix first. */
  predicate TextLess(a: string, b: string) {
    if b == [] then false
    else if a == [] then true
    else a[0] < b[0] || (a[0] == b[0] && TextLess(a[1..], b[1..]))
  }

  /** One text comes before another where the first letters that differ say so, or where it ends first. */
  lemma {:induction false} TextOrder(a: string, b: string)
    ensures TextLess(a, b) <==>
            exists k: nat :: k <= |a| && k < |b| && a[..k] == b[..k] && (k == |a| || a[k] < b[k])
    decreases |a|
  {
    if a == [] {
      assert b != [] ==> a[..0] == b[..0];
    } else if b != [] && a[0] == b[0] {
      TextOrder(a[1..], b[1..]);
      if TextLess(a, b) {
        var k: nat :| k <= |a[1..]| && k < |b[1..]| && a[1..][..k] == b[1..][..k] && (k == |a[1..]| || a[1..][k] < b[1..][k]);
        assert a[..k + 1] == [a[0]] + a[1..][..k] && b[..k + 1] == [b[0]] + b[1..][..k];
        assert k + 1 <= |a| && k + 1 < |b| && a[..k + 1] == b[..k + 1] && (k + 1 == |a| || a[k + 1] < b[k + 1]);
      }
      forall k: nat | k <= |a| && k < |b| && a[..k] == b[..k] && (k == |a| || a[k] < b[k])
        ensures TextLess(a, b)
      {
        assert k > 0;
        assert a[1..][..k - 1] == a[..k][1..] && b[1..][..k - 1] == b[..k][1..];
        assert k - 1 <= |a[1..]| && (k - 1 == |a[1..]| || a[1..][k - 1] < b[1..][k - 1]);
      }
    } else if b != [] {
      assert a[..0] == b[..0];
      forall k: nat | k <= |a| && k < |b| && a[..k] == b[..k] && (k == |a| || a[k] < b[k])
        ensures k == 0
      {
        if k > 0 {
          FirstOf(a, b, k);
          assert false;
        }
      }
    }
  }

  lemma FirstOf(a: string, b: string, k: nat)
    requires 0 < k <= |a| && k <= |b| && a[..k] == b[..k]
    ensures a[0] == b[0]
  {
    assert a[..k][0] == a[0] && b[..k][0] == b[0];
  }

  lemma IntLessIsTotal()
    ensures StrictTotal(IntLess)
  {
  }

  lemma {:induction false} TextIrreflexive(a: string)
    ensures !TextLess(a, a)
  {
    if a != [] {
      TextIrreflexive(a[1..]);
    }
  }

  lemma {:induction false} TextTransitive(a: string, b: string, c: string)
    requires TextLess(a, b) && TextLess(b, c)
    ensures TextLess(a, c)
    decreases |a|
  {
    if a != [] && a[0] == b[0] && b[0] == c[0] {
      TextTransitive(a[1..], b[1..], c[1..]);
    }
  }

  lemma {:induction false} TextTrichotomy(a: string, b: string)
    ensures TextLess(a, b) || a == b || TextLess(b, a)
    decreases |a|
  {
    if a != [] && b != [] && a[0] == b[0] {
      TextTrichotomy(a[1..], b[1..]);
      assert a == [a[0]] + a[1..] && b == [b[0]] + b[1..];
    }
  }

  lemma TextLessIsTotal()
    ensures StrictTotal(TextLess)
  {
    forall x: string
      ensures !TextLess(x, x)
    {
      TextIrreflexive(x);
    }
    forall x: string, y: string, z: string | TextLess(x, y) && TextLess(y, z)
      ensures TextLess(x, z)
    {
      TextTransitive(x, y, z);
    }
    forall x: string, y: string
      ensures TextLess(x, y) || x == y || TextLess(y, x)
    {
      TextTrichotomy(x, y);
    }
  }

  // ---- Sorted duplicate-free lists ----

  predicate Ascending<T>(lt: Less<T>, s: seq<T>) {
    forall i, j | 0 <= i < j < |s| :: lt(s[i], s[j])
  }

  predicate NoDuplicates<T(==)>(s: seq<T>) {
    forall i, j | 0 <= i < j < |s| :: s[i] != s[j]
  }

  function Elems<T>(s: seq<T>): set<T> {
    set x | x in s
  }

  function Insert<T(==)>(lt: Less<T>, x: T, s: seq<T>): seq<T> {
    if s == [] then [x]
    else if x == s[0] then s
    else if lt(x, s[0]) then [x] + s
    else [s[0]] + Insert(lt, x, s[1..])
  }

  /** `sorted(set(s))` */
  function SortUnique<T(==)>(lt: Less<T>, s: seq<T>): seq<T> {
    if s == [] then [] else Insert(lt, s[0], SortUnique(lt, s[1..]))
  }

  lemma ElemsCons<T>(x: T, s: seq<T>)
    ensures Elems([x] + s) == {x} + Elems(s)
  {
    assert forall y | y in [x] + s :: y == x || y in s;
    assert ([x] + s)[0] == x;
    assert forall i | 0 <= i < |s| :: ([x] + s)[i + 1] == s[i];
  }

  lemma AscendingCons<T(!new)>(lt: Less<T>, x: T, s: seq<T>)
    requires StrictTotal(lt) && Ascending(lt, s)
    requires forall y | y in s :: lt(x, y)
    ensures Ascending(lt, [x] + s)
  {
  }

  lemma AscendingHead<T(!new)>(lt: Less<T>, s: seq<T>)
    requires StrictTotal(lt) && Ascending(lt, s) && s != []
    ensures Ascending(lt, s[1..]) && forall y | y in s[1..] :: lt(s[0], y)
    ensures s == [s[0]] + s[1..] && Elems(s) == {s[0]} + Elems(s[1..])
  {
    ElemsCons(s[0], s[1..]);
    assert s == [s[0]] + s[1..];
  }

  lemma {:induction false} InsertSorts<T(!new)>(lt: Less<T>, x: T, s: seq<T>)
    requires StrictTotal(lt) && Ascending(lt, s)
    ensures Ascending(lt, Insert(lt, x, s))
    ensures Elems(Insert(lt, x, s)) == Elems(s) + {x}
  {
    if s == [] {
      ElemsCons(x, s);
      assert [x] + s == [x];
    } else if x != s[0] {
      AscendingHead(lt, s);
      if lt(x, s[0]) {
        AscendingCons(lt, x, s);
        ElemsCons(x, s);
      } else {
        InsertSorts(lt, x, s[1..]);
        var r := Insert(lt, x, s[1..]);
        assert forall y | y in r :: y in Elems(r);
        AscendingCons(lt, s[0], r);
        ElemsCons(s[0], r);
      }
    } else {
      assert x in Elems(s);
    }
  }

  lemma {:induction false} SortUniqueSorts<T(!new)>(lt: Less<T>, s: seq<T>)
    requires StrictTotal(lt)
    ensures Ascending(lt, SortUnique(lt, s))
    ensures Elems(SortUnique(lt, s)) == Elems(s)
  {
    if s != [] {
      SortUniqueSorts(lt, s[1..]);
      InsertSorts(lt, s[0], SortUnique(lt, s[1..]));
      ElemsCons(s[0], s[1..]);
      assert s == [s[0]] + s[1..];
    }
  }

  lemma {:induction false} AscendingSize<T(!new)>(lt: Less<T>, s: seq<T>)
    requires StrictTotal(lt) && Ascending(lt, s)
    ensures |Elems(s)| == |s|
  {
    if s != [] {
      AscendingHead(lt, s);
      AscendingSize(lt, s[1..]);
      assert s[0] !in Elems(s[1..]);
    }
  }

  /** An ascending list is determined by its elements. */
  lemma {:induction false} AscendingUnique<T(!new)>(lt: Less<T>, a: seq<T>, b: seq<T>)
    requires StrictTotal(lt) && Ascending(lt, a) && Ascending(lt, b) && Elems(a) == Elems(b)
    ensures a == b
  {
    AscendingSize(lt, a);
    AscendingSize(lt, b);
    if a != [] {
      AscendingHead(lt, a);
      AscendingHead(lt, b);
      assert a[0] in Elems(b) && b[0] in Elems(a);
      assert a[0] == b[0];
      assert a[0] !in Elems(a[1..]) && b[0] !in Elems(b[1..]);
      assert Elems(a[1..]) == Elems(a) - {a[0]} && Elems(b[1..]) == Elems(b) - {b[0]};
      AscendingUnique(lt, a[1..], b[1..]);
    }
  }

  // ---- The n smallest ----

  function Take<T>(n: nat, s: seq<T>): seq<T> {
    if |s| <= n then s else s[..n]
  }

  /** `r` lists, in order, the `n` smallest members of `all`, or all of them if there are fewer. */
  ghost predicate Smallest<T(!new)>(lt: Less<T>, n: nat, all: set<T>, r: seq<T>) {
    && Ascending(lt, r) && Elems(r) <= all && |r| <= n
    && forall x | x in all && x !in r :: |r| == n && forall y | y in r :: lt(y, x)
  }

  lemma TakeIsSmallest<T(!new)>(lt: Less<T>, n: nat, s: seq<T>)
    requires StrictTotal(lt) && Ascending(lt, s)
    ensures Smallest(lt, n, Elems(s), Take(n, s))
  {
    var r := Take(n, s);
    forall x | x in Elems(s) && x !in r
      ensures |r| == n && forall y | y in r :: lt(y, x)
    {
      assert forall i | 0 <= i < |r| :: r[i] == s[i] && s[i] in r;
      var k :| 0 <= k < |s| && s[k] == x;
    }
  }

  lemma SmallestUnique<T(!new)>(lt: Less<T>, n: nat, all: set<T>, a: seq<T>, b: seq<T>)
    requires StrictTotal(lt) && Smallest(lt, n, all, a) && Smallest(lt, n, all, b)
    ensures a == b
  {
    AscendingSize(lt, a);
    AscendingSize(lt, b);
    if x :| x in a && x !in b {
      // b is full and lies below x; then all of b is in a, and a has one more.
      assert x in Elems(a);
      forall y | y in Elems(b)
        ensures y in Elems(a)
      {
        assert y in b && lt(y, x) && y in all;
      }
      SmallerSubset(Elems(b), Elems(a), x);
      assert false;
    }
    if x :| x in b && x !in a {
      assert x in Elems(b);
      forall y | y in Elems(a)
        ensures y in Elems(b)
      {
        assert y in a;
      }
      SmallerSubset(Elems(a), Elems(b), x);
      assert false;
    }
    assert Elems(a) == Elems(b);
    AscendingUnique(lt, a, b);
  }

  lemma SmallerSubset<T>(a: set<T>, b: set<T>, x: T)
    requires a <= b && x in b && x !in a
    ensures |a| < |b|
  {
    assert b == a + (b - a) && x in b - a;
  }

  lemma SubsetSize<T>(a: set<T>, b: set<T>)
    requires a <= b
    ensures |a| <= |b|
  {
    assert b == a + (b - a);
  }

  /** Forgetting everything beyond the n smallest loses nothing that a later merge would keep. */
  lemma SmallestOfSmallest<T(!new)>(lt: Less<T>, n: nat, a: set<T>, b: set<T>, r: seq<T>, s: seq<T>)
    requires StrictTotal(lt) && Smallest(lt, n, a, r) && Smallest(lt, n, Elems(r) + b, s)
    ensures Smallest(lt, n, a + b, s)
  {
    AscendingSize(lt, r);
    AscendingSize(lt, s);
    forall x | x in a + b && x !in s
      ensures |s| == n && forall y | y in s :: lt(y, x)
    {
      if x !in Elems(r) + b {
        assert x in a && x !in r;
        if |s| < n {
          assert Elems(r) <= Elems(s);
          SubsetSize(Elems(r), Elems(s));
          assert false;
        }
        forall y | y in s
          ensures lt(y, x)
        {
          assert y in Elems(s);
          if y !in r {
            if Elems(r) <= Elems(s) {
              SmallerSubset(Elems(r), Elems(s), y);
              assert false;
            }
            var z :| z in Elems(r) && z !in Elems(s);
            assert lt(y, z) && lt(z, x);
          }
        }
      }
    }
  }
}
