/**
 * JavaScript string order and the default `Array.prototype.sort`.
 *
 * JavaScript strings are sequences of UTF-16 code units, and the sort used
 * without a comparator orders them code unit by code unit, a proper prefix
 * coming first. Dafny's `char` is a Unicode scalar value, so each character is
 * first expanded to its one or two UTF-16 code units.
 */
module JsStrings {
  import opened Sequences

  /** The UTF-16 code units of one character (a surrogate pair above U+FFFF). */
  function CodeUnits(c: char): (u: seq<int>)
    ensures 1 <= |u| <= 2
    ensures forall k :: 0 <= k < |u| ==> 0 <= u[k] < 0x10000
    ensures |u| == 2 <==> 0xD800 <= u[0] < 0xDC00
  {
    var v := c as int;
    if v < 0x10000 then [v]
    else [0xD800 + (v - 0x10000) / 0x400, 0xDC00 + (v - 0x10000) % 0x400]
  }

  /** A string as JavaScript stores it. */
  function Utf16(s: string): (u: seq<int>)
    ensures |s| <= |u| <= 2 * |s|
  {
    if s == [] then [] else CodeUnits(s[0]) + Utf16(s[1..])
  }

  /** Lexicographic "at most" on code-unit sequences. */
  predicate UnitsAtMost(a: seq<int>, b: seq<int>)
  {
    a == [] || (b != [] && (a[0] < b[0] || (a[0] == b[0] && UnitsAtMost(a[1..], b[1..]))))
  }

  /** `a` sorts no later than `b` under the default sort. */
  predicate AtMost(a: string, b: string)
  {
    UnitsAtMost(Utf16(a), Utf16(b))
  }

  lemma {:induction false} UnitsTotal(a: seq<int>, b: seq<int>)
    ensures UnitsAtMost(a, b) || UnitsAtMost(b, a)
  {
    if a != [] && b != [] && a[0] == b[0] {
      UnitsTotal(a[1..], b[1..]);
    }
  }

  lemma {:induction false} UnitsAntisymmetric(a: seq<int>, b: seq<int>)
    requires UnitsAtMost(a, b) && UnitsAtMost(b, a)
    ensures a == b
  {
    if a != [] && b != [] {
      UnitsAntisymmetric(a[1..], b[1..]);
      assert a == [a[0]] + a[1..] && b == [b[0]] + b[1..];
    }
  }

  lemma {:induction false} UnitsTransitive(a: seq<int>, b: seq<int>, c: seq<int>)
    requires UnitsAtMost(a, b) && UnitsAtMost(b, c)
    ensures UnitsAtMost(a, c)
  {
    if a != [] && b != [] && c != [] && a[0] == b[0] && b[0] == c[0] {
      UnitsTransitive(a[1..], b[1..], c[1..]);
    }
  }

  /** A character is recovered from its code units. */
  lemma CodeUnitsInjective(c: char, d: char)
    requires CodeUnits(c) == CodeUnits(d)
    ensures c == d
  {
    var v, w := c as int, d as int;
    if v >= 0x10000 {
      assert v == 0x10000 + ((v - 0x10000) / 0x400) * 0x400 + (v - 0x10000) % 0x400;
      assert w == 0x10000 + ((w - 0x10000) / 0x400) * 0x400 + (w - 0x10000) % 0x400;
    }
  }

  /** Different strings have different UTF-16 forms. */
  lemma {:induction false} Utf16Injective(s: string, t: string)
    requires Utf16(s) == Utf16(t)
    ensures s == t
  {
    if s != [] && t != [] {
      var u, v := CodeUnits(s[0]), CodeUnits(t[0]);
      assert Utf16(s) == u + Utf16(s[1..]);
      assert Utf16(t) == v + Utf16(t[1..]);
      assert u[0] == Utf16(s)[0] == Utf16(t)[0] == v[0];
      assert |u| == |v|;
      assert u == Utf16(s)[..|u|] == Utf16(t)[..|v|] == v;
      CodeUnitsInjective(s[0], t[0]);
      assert Utf16(s[1..]) == Utf16(s)[|u|..] == Utf16(t)[|v|..] == Utf16(t[1..]);
      Utf16Injective(s[1..], t[1..]);
      assert s == [s[0]] + s[1..] && t == [t[0]] + t[1..];
    }
  }

  /** The default sort order is a total order on strings. */
  lemma AtMostTotalOrder(a: string, b: string, c: string)
    ensures AtMost(a, a)
    ensures AtMost(a, b) || AtMost(b, a)
    ensures AtMost(a, b) && AtMost(b, a) ==> a == b
    ensures AtMost(a, b) && AtMost(b, c) ==> AtMost(a, c)
  {
    UnitsTotal(Utf16(a), Utf16(b));
    UnitsTotal(Utf16(a), Utf16(a));
    if AtMost(a, b) && AtMost(b, a) {
      UnitsAntisymmetric(Utf16(a), Utf16(b));
      Utf16Injective(a, b);
    }
    if AtMost(a, b) && AtMost(b, c) {
      UnitsTransitive(Utf16(a), Utf16(b), Utf16(c));
    }
  }

  /** Each element sorts no later than its successor. */
  predicate Sorted(s: seq<string>)
  {
    forall i :: 0 < i < |s| ==> AtMost(s[i - 1], s[i])
  }

  /** Inserts `x` into a sorted sequence before the first element it sorts before. */
  function Insert(x: string, s: seq<string>): (r: seq<string>)
    ensures multiset(r) == multiset(s) + multiset{x}
    ensures |r| == |s| + 1 && (r[0] == x || (s != [] && r[0] == s[0]))
  {
    if s == [] then [x]
    else if AtMost(x, s[0]) then [x] + s
    else
      assert s == [s[0]] + s[1..];
      [s[0]] + Insert(x, s[1..])
  }

  /** Inserting into a sorted sequence keeps it sorted. */
  lemma {:induction false} InsertSorted(x: string, s: seq<string>)
    requires Sorted(s)
    ensures Sorted(Insert(x, s))
  {
    if s == [] {
    } else if AtMost(x, s[0]) {
      SortedCons(x, s);
    } else {
      AtMostTotalOrder(x, s[0], x);
      SortedTail(s);
      InsertSorted(x, s[1..]);
      SortedCons(s[0], Insert(x, s[1..]));
    }
  }

  /** A string no later than the head of a sorted sequence can go in front of it. */
  lemma SortedCons(a: string, t: seq<string>)
    requires Sorted(t) && (t != [] ==> AtMost(a, t[0]))
    ensures Sorted([a] + t)
  {
    var r := [a] + t;
    forall i | 0 < i < |r|
      ensures AtMost(r[i - 1], r[i])
    {
      if i > 1 {
        assert r[i - 1] == t[i - 2] && r[i] == t[i - 1];
      }
    }
  }

  /** The tail of a sorted sequence is sorted, and its head follows the first element. */
  lemma SortedTail(s: seq<string>)
    requires Sorted(s) && s != []
    ensures Sorted(s[1..]) && (|s| > 1 ==> AtMost(s[0], s[1..][0]))
  {
    var t := s[1..];
    forall i | 0 < i < |t|
      ensures AtMost(t[i - 1], t[i])
    {
      assert t[i - 1] == s[i] && t[i] == s[i + 1];
    }
    if |s| > 1 {
      assert t[0] == s[1];
    }
  }

  /** The result of `Array.prototype.sort()` without a comparator. */
  function Sort(s: seq<string>): (r: seq<string>)
    ensures Sorted(r)
    ensures multiset(r) == multiset(s)
  {
    if s == [] then []
    else
      assert s == s[..|s| - 1] + [s[|s| - 1]];
      InsertSorted(s[|s| - 1], Sort(s[..|s| - 1]));
      Insert(s[|s| - 1], Sort(s[..|s| - 1]))
  }

  /** In a sorted sequence every earlier element sorts no later than every later one. */
  lemma {:induction false} SortedAllPairs(s: seq<string>, i: nat, j: nat)
    requires Sorted(s) && i <= j < |s|
    ensures AtMost(s[i], s[j])
  {
    if i == j {
      AtMostTotalOrder(s[i], s[i], s[i]);
    } else {
      SortedAllPairs(s, i, j - 1);
      AtMostTotalOrder(s[i], s[j - 1], s[j]);
    }
  }

  /** Inserting a new string into a duplicate-free sequence keeps it duplicate-free. */
  lemma {:induction false} InsertDistinct(x: string, s: seq<string>)
    requires Distinct(s) && x !in s
    ensures Distinct(Insert(x, s))
  {
    if s == [] {
    } else if AtMost(x, s[0]) {
      DistinctCons(x, s);
    } else {
      assert s == [s[0]] + s[1..];
      InsertDistinct(x, s[1..]);
      var rest := Insert(x, s[1..]);
      assert s[0] !in multiset(rest);
      DistinctCons(s[0], rest);
    }
  }

  /** A new element in front of a duplicate-free sequence keeps it duplicate-free. */
  lemma DistinctCons(a: string, t: seq<string>)
    requires Distinct(t) && a !in t
    ensures Distinct([a] + t)
  {
    var r := [a] + t;
    forall i, j | 0 <= i < j < |r|
      ensures r[i] != r[j]
    {
      assert r[j] == t[j - 1];
      if i > 0 {
        assert r[i] == t[i - 1];
      }
    }
  }


  /** Sorting a duplicate-free sequence gives a duplicate-free sequence. */
  lemma {:induction false} SortDistinct(s: seq<string>)
    requires Distinct(s)
    ensures Distinct(Sort(s))
  {
    if s != [] {
      var init := s[..|s| - 1];
      assert s == init + [s[|s| - 1]];
      SortDistinct(init);
      assert s[|s| - 1] !in multiset(Sort(init));
      InsertDistinct(s[|s| - 1], Sort(init));
    }
  }
}
