// `sortByName` (src/App.tsx): a stable sort of a copy of the current list,
// by name, ascending or descending. The comparison is `localeCompare`; it is
// modelled here by lexicographic order on character codes.

module Sorting {
  import opened Countries
  import opened Lists

  /** Lexicographic order on names: the stand-in for `localeCompare(...) <= 0`. */
  predicate NameLe(a: string, b: string)
    decreases |a|
  {
    |a| == 0 || (|b| > 0 && (a[0] < b[0] || (a[0] == b[0] && NameLe(a[1..], b[1..]))))
  }

  lemma {:induction false} NameLeReflexive(a: string)
    ensures NameLe(a, a)
    decreases |a|
  {
    if |a| > 0 { NameLeReflexive(a[1..]); }
  }

  lemma {:induction false} NameLeTotal(a: string, b: string)
    ensures NameLe(a, b) || NameLe(b, a)
    decreases |a|
  {
    if |a| > 0 && |b| > 0 && a[0] == b[0] { NameLeTotal(a[1..], b[1..]); }
  }

  lemma {:induction false} NameLeAntisymmetric(a: string, b: string)
    requires NameLe(a, b) && NameLe(b, a)
    ensures a == b
    decreases |a|
  {
    if |a| > 0 {
      NameLeAntisymmetric(a[1..], b[1..]);
      assert a == [a[0]] + a[1..] && b == [b[0]] + b[1..];
    }
  }

  lemma {:induction false} NameLeTransitive(a: string, b: string, c: string)
    requires NameLe(a, b) && NameLe(b, c)
    ensures NameLe(a, c)
    decreases |a|
  {
    if |a| > 0 && a[0] == b[0] && b[0] == c[0] { NameLeTransitive(a[1..], b[1..], c[1..]); }
  }

  /** The two arrangements `sortByName` accepts. */
  datatype Arrangement = Ascending | Descending

  /** The comparator says `a` may stay before `b`: `a.name.localeCompare(b.name) <= 0`
      when ascending, `b.name.localeCompare(a.name) <= 0` when descending. */
  predicate Before(dir: Arrangement, a: Country, b: Country)
  {
    match dir
    case Ascending => NameLe(a.name, b.name)
    case Descending => NameLe(b.name, a.name)
  }

  lemma BeforeTotal(dir: Arrangement, a: Country, b: Country)
    ensures Before(dir, a, b) || Before(dir, b, a)
  {
    NameLeTotal(a.name, b.name);
  }

  lemma BeforeTransitive(dir: Arrangement, a: Country, b: Country, c: Country)
    requires Before(dir, a, b) && Before(dir, b, c)
    ensures Before(dir, a, c)
  {
    if dir == Ascending {
      NameLeTransitive(a.name, b.name, c.name);
    } else {
      NameLeTransitive(c.name, b.name, a.name);
    }
  }

  /** Only countries with different names are ever strictly out of order. */
  lemma NotBeforeDiffers(dir: Arrangement, a: Country, b: Country)
    requires !Before(dir, a, b)
    ensures a.name != b.name
  {
    NameLeReflexive(a.name);
  }

  lemma BeforeBothWays(dir: Arrangement, a: Country, b: Country)
    requires Before(dir, a, b) && Before(dir, b, a)
    ensures a.name == b.name
  {
    NameLeAntisymmetric(a.name, b.name);
  }

  /** Every pair of entries is in the comparator's order. */
  predicate SortedBy(dir: Arrangement, s: seq<Country>)
  {
    forall i, j :: 0 <= i < j < |s| ==> Before(dir, s[i], s[j])
  }

  /** Inserts `x`, which comes after every element of `s` in the input, behind
      every element it does not strictly precede. */
  function Insert(dir: Arrangement, s: seq<Country>, x: Country): (r: seq<Country>)
    ensures multiset(r) == multiset(s) + multiset{x}
  {
    if s == [] then [x]
    else if Before(dir, s[|s| - 1], x) then s + [x]
    else
      SplitLast(s);
      Insert(dir, s[..|s| - 1], x) + [s[|s| - 1]]
  }

  /** The result of `[...countries].sort(cmp)`: a stable sort, here by insertion. */
  function StableSort(dir: Arrangement, s: seq<Country>): (r: seq<Country>)
    ensures multiset(r) == multiset(s)
  {
    if s == [] then []
    else
      SplitLast(s);
      Insert(dir, StableSort(dir, s[..|s| - 1]), s[|s| - 1])
  }

  /** Selects the countries called `k`: the ties the sort must keep in order. */
  function HasName(k: string): Country -> bool
  {
    (c: Country) => c.name == k
  }

  /** Appending an element that every entry may precede keeps a list sorted. */
  lemma AppendSorted(dir: Arrangement, s: seq<Country>, x: Country)
    requires SortedBy(dir, s)
    requires forall y :: y in s ==> Before(dir, y, x)
    ensures SortedBy(dir, s + [x])
  {
    var r := s + [x];
    forall i, j | 0 <= i < j < |r| ensures Before(dir, r[i], r[j]) {
      if j < |s| {
        assert r[i] == s[i] && r[j] == s[j];
      } else {
        assert r[i] == s[i] && s[i] in s;
      }
    }
  }

  lemma {:induction false} InsertSorted(dir: Arrangement, s: seq<Country>, x: Country)
    requires SortedBy(dir, s)
    ensures SortedBy(dir, Insert(dir, s, x))
  {
    if s == [] {
    } else {
      var front, last := s[..|s| - 1], s[|s| - 1];
      forall y | y in front ensures Before(dir, y, last) {
        var k :| 0 <= k < |front| && front[k] == y;
        assert s[k] == y;
      }
      if Before(dir, last, x) {
        forall y | y in s ensures Before(dir, y, x) {
          if y != last {
            SplitLast(s);
            BeforeTransitive(dir, y, last, x);
          }
        }
        AppendSorted(dir, s, x);
      } else {
        assert SortedBy(dir, front);
        InsertSorted(dir, front, x);
        InsertBeforeLast(dir, front, last, x);
        AppendSorted(dir, Insert(dir, front, x), last);
      }
    }
  }

  /** When `x` goes in front of `last`, everything in front of `last` may precede it. */
  lemma InsertBeforeLast(dir: Arrangement, front: seq<Country>, last: Country, x: Country)
    requires forall y :: y in front ==> Before(dir, y, last)
    requires !Before(dir, last, x)
    ensures forall y :: y in Insert(dir, front, x) ==> Before(dir, y, last)
  {
    BeforeTotal(dir, last, x);
    forall y | y in Insert(dir, front, x) ensures Before(dir, y, last) {
      assert y in multiset(Insert(dir, front, x));
    }
  }

  lemma {:induction false} StableSortSorted(dir: Arrangement, s: seq<Country>)
    ensures SortedBy(dir, StableSort(dir, s))
  {
    if s != [] {
      StableSortSorted(dir, s[..|s| - 1]);
      InsertSorted(dir, StableSort(dir, s[..|s| - 1]), s[|s| - 1]);
    }
  }

  /** Two countries with different names never both belong to one run of ties. */
  lemma TiesSwap(a: Country, b: Country, k: string)
    requires a.name != b.name
    ensures Filter([a], HasName(k)) + Filter([b], HasName(k)) ==
            Filter([b], HasName(k)) + Filter([a], HasName(k))
  {
    assert Filter([a], HasName(k)) == [] || Filter([b], HasName(k)) == [];
  }

  lemma {:induction false} InsertKeepsTies(dir: Arrangement, s: seq<Country>, x: Country, k: string)
    ensures Filter(Insert(dir, s, x), HasName(k)) == Filter(s, HasName(k)) + Filter([x], HasName(k))
  {
    var p := HasName(k);
    if s == [] {
    } else if Before(dir, s[|s| - 1], x) {
      FilterAppend(s, [x], p);
    } else {
      var front, last := s[..|s| - 1], s[|s| - 1];
      var t := Insert(dir, front, x);
      SplitLast(s);
      calc {
        Filter(Insert(dir, s, x), p);
      == { FilterAppend(t, [last], p); }
        Filter(t, p) + Filter([last], p);
      == { InsertKeepsTies(dir, front, x, k); }
        Filter(front, p) + Filter([x], p) + Filter([last], p);
      == { NotBeforeDiffers(dir, last, x); TiesSwap(x, last, k); }
        Filter(front, p) + Filter([last], p) + Filter([x], p);
      == { FilterAppend(front, [last], p); }
        Filter(s, p) + Filter([x], p);
      }
    }
  }

  /** Stability: countries with equal names come out in their input order. */
  lemma {:induction false} StableSortKeepsTies(dir: Arrangement, s: seq<Country>, k: string)
    ensures Filter(StableSort(dir, s), HasName(k)) == Filter(s, HasName(k))
  {
    if s != [] {
      var front, last := s[..|s| - 1], s[|s| - 1];
      StableSortKeepsTies(dir, front, k);
      InsertKeepsTies(dir, StableSort(dir, front), last, k);
      FilterAppend(front, [last], HasName(k));
      SplitLast(s);
    }
  }

  /** Sorting is a permutation, ordered by the comparator, and stable. */
  lemma StableSortCorrect(dir: Arrangement, s: seq<Country>)
    ensures multiset(StableSort(dir, s)) == multiset(s)
    ensures SortedBy(dir, StableSort(dir, s))
    ensures forall k :: Filter(StableSort(dir, s), HasName(k)) == Filter(s, HasName(k))
  {
    StableSortSorted(dir, s);
    forall k ensures Filter(StableSort(dir, s), HasName(k)) == Filter(s, HasName(k)) {
      StableSortKeepsTies(dir, s, k);
    }
  }

  /** A non-empty list has at least one entry with the name of its head. */
  lemma HeadHasTies(r: seq<Country>)
    ensures r != [] ==> Filter(r, HasName(r[0].name)) != []
  {
    if r != [] {
      FilterMembers(r, HasName(r[0].name));
      assert r[0] in Filter(r, HasName(r[0].name));
    }
  }

  /** Two sorted lists with the same groups of ties start with the same name. */
  lemma SameFirstName(dir: Arrangement, r1: seq<Country>, r2: seq<Country>)
    requires SortedBy(dir, r1) && SortedBy(dir, r2) && r1 != [] && r2 != []
    requires forall k :: Filter(r1, HasName(k)) == Filter(r2, HasName(k))
    ensures r1[0].name == r2[0].name
  {
    var a, b := r1[0], r2[0];
    FilterMembers(r1, HasName(b.name));
    FilterMembers(r2, HasName(b.name));
    FilterMembers(r1, HasName(a.name));
    FilterMembers(r2, HasName(a.name));
    assert b in Filter(r2, HasName(b.name));
    assert a in Filter(r1, HasName(a.name));
    var i :| 0 <= i < |r1| && r1[i] == b;
    var j :| 0 <= j < |r2| && r2[j] == a;
    NameLeReflexive(a.name);
    NameLeReflexive(b.name);
    assert Before(dir, a, b);
    assert Before(dir, b, a);
    BeforeBothWays(dir, a, b);
  }

  /** Splitting off the head of a list splits off the head of its group. */
  lemma FilterCons(x: Country, r: seq<Country>, k: string)
    ensures Filter([x] + r, HasName(k)) == Filter([x], HasName(k)) + Filter(r, HasName(k))
  {
    FilterAppend([x], r, HasName(k));
  }

  /** Two lists with the same groups of ties and the same head have the same
      groups of ties after the head. */
  lemma SameTiesAfterHead(r1: seq<Country>, r2: seq<Country>)
    requires r1 != [] && r2 != [] && r1[0].name == r2[0].name
    requires forall k :: Filter(r1, HasName(k)) == Filter(r2, HasName(k))
    ensures r1[0] == r2[0]
    ensures forall k :: Filter(r1[1..], HasName(k)) == Filter(r2[1..], HasName(k))
  {
    var a, b := r1[0], r2[0];
    assert r1 == [a] + r1[1..] && r2 == [b] + r2[1..];
    assert a == b by {
      FilterCons(a, r1[1..], a.name);
      FilterCons(b, r2[1..], a.name);
      assert Filter(r1, HasName(a.name))[0] == a;
      assert Filter(r2, HasName(a.name))[0] == b;
    }
    forall k ensures Filter(r1[1..], HasName(k)) == Filter(r2[1..], HasName(k)) {
      FilterCons(a, r1[1..], k);
      FilterCons(b, r2[1..], k);
      var n := |Filter([a], HasName(k))|;
      assert Filter(r1[1..], HasName(k)) == Filter(r1, HasName(k))[n..];
      assert Filter(r2[1..], HasName(k)) == Filter(r2, HasName(k))[n..];
    }
  }

  /** Two sorted lists whose groups of ties agree are the same list. */
  lemma {:induction false} SortedTiesDetermine(dir: Arrangement, r1: seq<Country>, r2: seq<Country>)
    requires SortedBy(dir, r1) && SortedBy(dir, r2)
    requires forall k :: Filter(r1, HasName(k)) == Filter(r2, HasName(k))
    ensures r1 == r2
    decreases |r1| + |r2|
  {
    HeadHasTies(r1);
    HeadHasTies(r2);
    if r1 != [] && r2 != [] {
      SameFirstName(dir, r1, r2);
      SameTiesAfterHead(r1, r2);
      SortedTiesDetermine(dir, r1[1..], r2[1..]);
      assert r1 == [r1[0]] + r1[1..] && r2 == [r2[0]] + r2[1..];
    }
  }

  /** Any sorted list that keeps the input's ties in order is the stable sort of
      the input: the model does not depend on which stable algorithm the host uses. */
  lemma StableSortUnique(dir: Arrangement, s: seq<Country>, r: seq<Country>)
    requires SortedBy(dir, r)
    requires forall k :: Filter(r, HasName(k)) == Filter(s, HasName(k))
    ensures r == StableSort(dir, s)
  {
    StableSortCorrect(dir, s);
    SortedTiesDetermine(dir, r, StableSort(dir, s));
  }

  /** Sorting an already sorted list in the same direction changes nothing. */
  lemma StableSortIdempotent(dir: Arrangement, s: seq<Country>)
    ensures StableSort(dir, StableSort(dir, s)) == StableSort(dir, s)
  {
    var t := StableSort(dir, s);
    StableSortCorrect(dir, s);
    StableSortCorrect(dir, t);
    SortedTiesDetermine(dir, StableSort(dir, t), t);
  }
}
