/** Strict total orders, sorting, and the decimal notation used in idempotency keys. */
module Ordering {

  /** Byte-wise lexicographic order, as Go and Python compare ASCII strings. */
  predicate StringLess(a: string, b: string) {
    b != "" && (a == "" || a[0] < b[0] || (a[0] == b[0] && StringLess(a[1..], b[1..])))
  }

  lemma {:induction false} StringLessTotal(a: string, b: string)
    ensures !(StringLess(a, b) && StringLess(b, a))
    ensures StringLess(a, b) || StringLess(b, a) <==> a != b
  {
    if a != "" && b != "" {
      StringLessTotal(a[1..], b[1..]);
      assert a == [a[0]] + a[1..] && b == [b[0]] + b[1..];
    }
  }

  lemma {:induction false} StringLessTransitive(a: string, b: string, c: string)
    requires StringLess(a, b) && StringLess(b, c)
    ensures StringLess(a, c)
  {
    if a != "" && a[0] == b[0] == c[0] {
      StringLessTransitive(a[1..], b[1..], c[1..]);
    }
  }

  /** The first difference decides, or the shorter string comes first. */
  lemma {:induction false} StringLessMeans(a: string, b: string)
    ensures StringLess(a, b) <==> exists i :: 0 <= i <= |a| && i < |b| && a[..i] == b[..i] && (i == |a| || a[i] < b[i])
  {
    if a != "" && b != "" {
      var a', b' := a[1..], b[1..];
      StringLessMeans(a', b');
      if a[0] == b[0] {
        if i :| 0 <= i <= |a'| && i < |b'| && a'[..i] == b'[..i] && (i == |a'| || a'[i] < b'[i]) {
          assert a[..i + 1] == [a[0]] + a'[..i] && b[..i + 1] == [b[0]] + b'[..i];
        }
        if i :| 0 <= i <= |a| && i < |b| && a[..i] == b[..i] && (i == |a| || a[i] < b[i]) {
          assert i > 0;
          assert a'[..i - 1] == a[..i][1..] && b'[..i - 1] == b[..i][1..];
        }
      } else {
        assert a[..0] == b[..0];
        assert forall i :: 0 < i <= |a| && i < |b| ==> a[..i][0] != b[..i][0];
      }
    } else {
      assert a[..0] == b[..0];
    }
  }

  ghost predicate StrictOrder<T(!new)>(less: (T, T) -> bool) {
    && (forall x :: !less(x, x))
    && (forall x, y, z :: less(x, y) && less(y, z) ==> less(x, z))
  }

  ghost predicate TotalOn<T>(less: (T, T) -> bool, s: set<T>) {
    forall x, y :: x in s && y in s && x != y ==> less(x, y) || less(y, x)
  }

  lemma StringLessIsStrictOrder(s: set<string>)
    ensures StrictOrder(StringLess) && TotalOn(StringLess, s)
  {
    forall a ensures !StringLess(a, a) {
      StringLessTotal(a, a);
    }
    forall a, b | a != b ensures StringLess(a, b) || StringLess(b, a) {
      StringLessTotal(a, b);
    }
    forall a, b, c | StringLess(a, b) && StringLess(b, c) ensures StringLess(a, c) {
      StringLessTransitive(a, b, c);
    }
  }

  ghost predicate StrictlySorted<T>(less: (T, T) -> bool, s: seq<T>) {
    forall i, j :: 0 <= i < j < |s| ==> less(s[i], s[j])
  }

  /** Two strictly sorted sequences with the same elements are the same sequence. */
  lemma {:induction false} SortedUnique<T(!new)>(less: (T, T) -> bool, s: seq<T>, t: seq<T>)
    requires StrictOrder(less)
    requires StrictlySorted(less, s) && StrictlySorted(less, t)
    requires forall x :: x in s <==> x in t
    ensures s == t
  {
    assert t == [] || t[0] in t;
    if s != [] {
      assert s[0] in t;
      SortedHead(less, s, t[0]);
      SortedHead(less, t, s[0]);
      forall x ensures x in s[1..] <==> x in t[1..] {
        assert x in s[1..] ==> x in s && x != s[0];
        assert x in t[1..] ==> x in t && x != t[0];
      }
      SortedUnique(less, s[1..], t[1..]);
      assert s == [s[0]] + s[1..] && t == [t[0]] + t[1..];
    }
  }

  lemma SortedHead<T(!new)>(less: (T, T) -> bool, s: seq<T>, x: T)
    requires StrictlySorted(less, s)
    requires s != [] && x in s
    ensures x == s[0] || less(s[0], x)
  {
    var i :| 0 <= i < |s| && s[i] == x;
    assert i == 0 || less(s[0], s[i]);
  }

  /** Insertion into a sorted sequence, after every element that is not greater. */
  function Insert<T>(less: (T, T) -> bool, x: T, s: seq<T>): (r: seq<T>)
    ensures |r| == |s| + 1
    ensures multiset(r) == multiset(s) + multiset{x}
  {
    if s == [] then [x]
    else if less(x, s[0]) then [x] + s
    else
      assert s == [s[0]] + s[1..];
      [s[0]] + Insert(less, x, s[1..])
  }

  lemma {:induction false} InsertSorted<T(!new)>(less: (T, T) -> bool, x: T, s: seq<T>)
    requires StrictOrder(less)
    requires StrictlySorted(less, s)
    requires forall y :: y in s ==> less(x, y) || less(y, x)
    ensures StrictlySorted(less, Insert(less, x, s))
  {
    if s != [] && !less(x, s[0]) {
      InsertSorted(less, x, s[1..]);
      var r := Insert(less, x, s[1..]);
      forall k | 0 <= k < |r| ensures less(s[0], r[k]) {
        assert r[k] in multiset(r);
        assert r[k] == x || r[k] in s[1..];
      }
    }
  }

  lemma {:induction false} InsertLast<T>(less: (T, T) -> bool, x: T, s: seq<T>)
    requires forall y :: y in s ==> !less(x, y)
    ensures Insert(less, x, s) == s + [x]
  {
    if s != [] {
      InsertLast(less, x, s[1..]);
      assert s + [x] == [s[0]] + (s[1..] + [x]);
    }
  }

  /** The sort used by directory listings and by the environment writer. */
  function Sort<T>(less: (T, T) -> bool, s: seq<T>): (r: seq<T>)
    ensures |r| == |s|
    ensures multiset(r) == multiset(s)
  {
    if s == [] then []
    else
      assert s == [s[0]] + s[1..];
      Insert(less, s[0], Sort(less, s[1..]))
  }

  lemma {:induction false} SortSorts<T(!new)>(less: (T, T) -> bool, s: seq<T>)
    requires StrictOrder(less) && TotalOn(less, set x | x in s)
    requires forall i, j :: 0 <= i < j < |s| ==> s[i] != s[j]
    ensures StrictlySorted(less, Sort(less, s))
    ensures forall x :: x in Sort(less, s) <==> x in s
  {
    SameElements(s, Sort(less, s));
    if s != [] {
      SortSorts(less, s[1..]);
      SameElements(s[1..], Sort(less, s[1..]));
      assert s[0] in s && s[0] !in s[1..];
      InsertSorted(less, s[0], Sort(less, s[1..]));
    }
  }

  lemma SameElements<T>(s: seq<T>, t: seq<T>)
    requires multiset(s) == multiset(t)
    ensures forall x :: x in s <==> x in t
  {
    forall x ensures x in s <==> x in t {
      assert x in s <==> x in multiset(s);
      assert x in t <==> x in multiset(t);
    }
  }

  /** Decimal notation of an integer, as `%d` prints it. */
  function Decimal(n: int): (s: string)
    ensures s != ""
    ensures forall c :: c in s ==> c == '-' || '0' <= c <= '9'
    decreases n < 0, if n < 0 then -n else n
  {
    if n < 0 then "-" + Decimal(-n)
    else if n < 10 then [Digit(n)]
    else Decimal(n / 10) + [Digit(n % 10)]
  }

  function Digit(d: int): (c: char)
    requires 0 <= d < 10
    ensures '0' <= c <= '9'
    ensures c as int == '0' as int + d
  {
    ('0' as int + d) as char
  }

  lemma {:induction false} DecimalNatural(n: nat)
    ensures '-' !in Decimal(n)
  {
    if n >= 10 { DecimalNatural(n / 10); }
  }

  lemma {:induction false} DecimalInjectiveNat(m: nat, n: nat)
    requires Decimal(m) == Decimal(n)
    ensures m == n
  {
    var s := Decimal(m);
    if m >= 10 && n >= 10 {
      assert Decimal(m / 10) == s[..|s| - 1] == Decimal(n / 10);
      assert Digit(m % 10) == s[|s| - 1] == Digit(n % 10);
      DecimalInjectiveNat(m / 10, n / 10);
    }
  }

  lemma DecimalInjective(m: int, n: int)
    requires Decimal(m) == Decimal(n)
    ensures m == n
  {
    assert m < 0 ==> Decimal(m)[0] == '-' && Decimal(m)[1..] == Decimal(-m);
    assert n < 0 ==> Decimal(n)[0] == '-' && Decimal(n)[1..] == Decimal(-n);
    if m >= 0 { DecimalNatural(m); }
    if n >= 0 { DecimalNatural(n); }
    if m >= 0 && n >= 0 {
      DecimalInjectiveNat(m, n);
    } else if m < 0 && n < 0 {
      DecimalInjectiveNat(-m, -n);
    }
  }
}
