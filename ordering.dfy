/** Sequence utilities behind the declarative queries: filtering (SQL WHERE),
    ordering by name or by a descending integer key (ORDER BY), LIMIT, and
    listing a set of row ids. */
module Ordering {

  /** A sequence in which no value occurs twice. */
  ghost predicate Distinct<T(!new)>(s: seq<T>) {
    forall x :: multiset(s)[x] <= 1
  }

  lemma DistinctAt<T(!new)>(s: seq<T>, i: int, j: int)
    requires Distinct(s)
    requires 0 <= i < j < |s|
    ensures s[i] != s[j]
  {
    var front, back := s[..j], s[j..];
    assert s == front + back;
    assert multiset(s) == multiset(front) + multiset(back);
    assert s[i] == front[i] && s[j] == back[0];
    assert multiset(front)[s[i]] >= 1 && multiset(back)[s[j]] >= 1;
    assert multiset(s)[s[i]] <= 1;
  }

  lemma DistinctCons<T(!new)>(s: seq<T>)
    requires |s| > 0
    ensures Distinct(s) <==> s[0] !in s[1..] && Distinct(s[1..])
  {
    assert s == [s[0]] + s[1..];
    assert multiset(s) == multiset{s[0]} + multiset(s[1..]);
    if Distinct(s) {
      assert multiset(s)[s[0]] == 1 + multiset(s[1..])[s[0]];
      forall x ensures multiset(s[1..])[x] <= 1 {
        assert multiset(s[1..])[x] <= multiset(s)[x];
      }
    }
    if s[0] !in s[1..] && Distinct(s[1..]) {
      forall x ensures multiset(s)[x] <= 1 {
        if x == s[0] {
          assert multiset(s[1..])[x] == 0;
        }
      }
    }
  }

  /** Two sequences with the same multiset have the same elements, and
      either both repeat a value or neither does. */
  lemma SameElements<T(!new)>(a: seq<T>, b: seq<T>)
    requires multiset(a) == multiset(b)
    ensures forall x :: x in a <==> x in b
    ensures Distinct(a) ==> Distinct(b)
  {
    forall x ensures x in a <==> x in b {
      assert x in a <==> x in multiset(a);
      assert x in b <==> x in multiset(b);
    }
  }

  // ---------------------------------------------------------------------
  // Filtering

  /** The elements of `s` that satisfy `keep`, in their original order. */
  function Filter<T(!new)>(s: seq<T>, keep: T -> bool): (r: seq<T>)
    ensures forall x :: multiset(r)[x] == if keep(x) then multiset(s)[x] else 0
    ensures forall x :: x in r <==> x in s && keep(x)
    ensures |r| <= |s|
    ensures Distinct(s) ==> Distinct(r)
  {
    if s == [] then []
    else
      assert s == [s[0]] + s[1..];
      if keep(s[0]) then [s[0]] + Filter(s[1..], keep) else Filter(s[1..], keep)
  }

  // ---------------------------------------------------------------------
  // Lexicographic order on names

  /** `a` sorts no later than `b`: characters are compared by code point and
      a proper prefix sorts first. */
  predicate NameLe(a: string, b: string)
    decreases |a|
  {
    if a == [] then true
    else if b == [] then false
    else if a[0] != b[0] then a[0] < b[0]
    else NameLe(a[1..], b[1..])
  }

  lemma {:induction false} NameLeTotal(a: string, b: string)
    ensures NameLe(a, b) || NameLe(b, a)
    decreases |a|
  {
    if a != [] && b != [] && a[0] == b[0] {
      NameLeTotal(a[1..], b[1..]);
    }
  }

  lemma {:induction false} NameLeTransitive(a: string, b: string, c: string)
    requires NameLe(a, b) && NameLe(b, c)
    ensures NameLe(a, c)
    decreases |a|
  {
    if a != [] && b != [] && c != [] && a[0] == b[0] && b[0] == c[0] {
      NameLeTransitive(a[1..], b[1..], c[1..]);
    }
  }

  /** Each element's name sorts no later than the next one's. */
  predicate SortedByName<T>(s: seq<T>, name: T -> string) {
    forall i :: 0 < i < |s| ==> NameLe(name(s[i - 1]), name(s[i]))
  }

  /** Sortedness between neighbours extends to every pair. */
  lemma {:induction false} SortedByNamePairwise<T>(s: seq<T>, name: T -> string, i: int, j: int)
    requires SortedByName(s, name)
    requires 0 <= i <= j < |s|
    ensures NameLe(name(s[i]), name(s[j]))
    decreases j - i
  {
    if i == j {
      NameLeTotal(name(s[i]), name(s[j]));
    } else {
      SortedByNamePairwise(s, name, i + 1, j);
      NameLeTransitive(name(s[i]), name(s[i + 1]), name(s[j]));
    }
  }

  function InsertByName<T>(x: T, s: seq<T>, name: T -> string): (r: seq<T>)
    requires SortedByName(s, name)
    ensures SortedByName(r, name)
    ensures multiset(r) == multiset(s) + multiset{x}
    ensures |r| == |s| + 1 && (r[0] == x || (s != [] && r[0] == s[0]))
  {
    if s == [] || NameLe(name(x), name(s[0])) then
      [x] + s
    else
      NameLeTotal(name(x), name(s[0]));
      assert s == [s[0]] + s[1..];
      [s[0]] + InsertByName(x, s[1..], name)
  }

  /** `s` ordered by name; elements with equal names keep no promised order. */
  function SortByName<T>(s: seq<T>, name: T -> string): (r: seq<T>)
    ensures SortedByName(r, name)
    ensures multiset(r) == multiset(s)
  {
    if s == [] then []
    else
      assert s == [s[0]] + s[1..];
      InsertByName(s[0], SortByName(s[1..], name), name)
  }

  // ---------------------------------------------------------------------
  // Descending order on an integer key

  /** Each element's key is at least the next one's. */
  predicate SortedDesc<T>(s: seq<T>, key: T -> int) {
    forall i :: 0 < i < |s| ==> key(s[i - 1]) >= key(s[i])
  }

  /** Sortedness between neighbours extends to every pair. */
  lemma {:induction false} SortedDescPairwise<T>(s: seq<T>, key: T -> int, i: int, j: int)
    requires SortedDesc(s, key)
    requires 0 <= i <= j < |s|
    ensures key(s[i]) >= key(s[j])
    decreases j - i
  {
    if i < j {
      SortedDescPairwise(s, key, i + 1, j);
    }
  }

  function InsertDesc<T>(x: T, s: seq<T>, key: T -> int): (r: seq<T>)
    requires SortedDesc(s, key)
    ensures SortedDesc(r, key)
    ensures multiset(r) == multiset(s) + multiset{x}
    ensures |r| == |s| + 1 && (r[0] == x || (s != [] && r[0] == s[0]))
  {
    if s == [] || key(x) >= key(s[0]) then [x] + s
    else
      assert s == [s[0]] + s[1..];
      [s[0]] + InsertDesc(x, s[1..], key)
  }

  /** `s` ordered by non-increasing `key`; ties keep no promised order. */
  function SortDesc<T>(s: seq<T>, key: T -> int): (r: seq<T>)
    ensures SortedDesc(r, key)
    ensures multiset(r) == multiset(s)
  {
    if s == [] then []
    else
      assert s == [s[0]] + s[1..];
      InsertDesc(s[0], SortDesc(s[1..], key), key)
  }

  // ---------------------------------------------------------------------
  // LIMIT

  /** The first `n` elements of `s`, or all of them when there are fewer. */
  function Limit<T>(s: seq<T>, n: nat): (r: seq<T>)
    ensures |r| == if |s| < n then |s| else n
    ensures r == s[..|r|]
  {
    if |s| <= n then s else s[..n]
  }

  /** Limiting a descending sequence keeps its largest elements: nothing that
      is cut off has a larger key than anything that is kept. */
  lemma LimitKeepsLargest<T>(s: seq<T>, key: T -> int, n: nat)
    requires SortedDesc(s, key)
    ensures SortedDesc(Limit(s, n), key)
    ensures multiset(Limit(s, n)) <= multiset(s)
    ensures forall x, y :: x in Limit(s, n) && y in multiset(s) - multiset(Limit(s, n))
              ==> key(x) >= key(y)
  {
    var r := Limit(s, n);
    var k := |r|;
    var rest := s[k..];
    assert s == r + rest;
    assert multiset(s) == multiset(r) + multiset(rest);
    forall x, y | x in r && y in multiset(s) - multiset(r) ensures key(x) >= key(y) {
      assert y in multiset(rest);
      var i :| 0 <= i < k && r[i] == x;
      var j :| 0 <= j < |rest| && rest[j] == y;
      assert s[i] == x && s[k + j] == y;
      SortedDescPairwise(s, key, i, k + j);
    }
  }

  // ---------------------------------------------------------------------
  // Listing a set of ids

  predicate IsMin(m: int, s: set<int>) {
    m in s && forall y :: y in s ==> m <= y
  }

  lemma Pick(s: set<int>) returns (z: int)
    requires |s| != 0
    ensures z in s
  {
    if forall x :: x !in s {
      assert false;
    }
    z :| z in s;
  }

  lemma {:induction false} MinOf(s: set<int>) returns (m: int)
    requires |s| > 0
    ensures IsMin(m, s)
    decreases |s|
  {
    var z := Pick(s);
    var t := s - {z};
    if |t| == 0 {
      m := z;
    } else {
      var u := MinOf(t);
      m := if z < u then z else u;
    }
    forall y | y in s ensures m <= y {
      if y != z { assert y in t; }
    }
  }

  lemma MinExists(s: set<int>)
    requires |s| > 0
    ensures exists m :: IsMin(m, s)
  {
    var m := MinOf(s);
  }

  /** The ids of `s` in ascending order. */
  function SortedIds(s: set<int>): (r: seq<int>)
    ensures forall x :: x in r <==> x in s
    ensures forall i, j :: 0 <= i < j < |r| ==> r[i] < r[j]
    ensures Distinct(r)
    decreases |s|
  {
    if |s| == 0 then []
    else
      MinExists(s);
      var m :| IsMin(m, s);
      var rest := SortedIds(s - {m});
      assert m !in multiset(rest);
      [m] + rest
  }
}
