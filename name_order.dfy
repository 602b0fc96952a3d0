/** The order `fetchMeals` sorts by: `$0.strMeal < $1.strMeal`, Swift's `<` on
    strings, taken here as the lexicographic order on characters. */
module NameOrder {
  import opened MealData

  /** `a < b`: at the first position where they differ, `a` has the smaller
      character, or `a` is a proper prefix of `b`. */
  predicate Less(a: string, b: string)
    decreases |a|
  {
    |b| > 0 && (|a| == 0 || a[0] < b[0] || (a[0] == b[0] && Less(a[1..], b[1..])))
  }

  lemma {:induction false} LessIrreflexive(a: string)
    ensures !Less(a, a)
    decreases |a|
  {
    if |a| > 0 {
      LessIrreflexive(a[1..]);
    }
  }

  lemma {:induction false} LessTransitive(a: string, b: string, c: string)
    requires Less(a, b) && Less(b, c)
    ensures Less(a, c)
    decreases |a|
  {
    if |a| > 0 && a[0] == b[0] && b[0] == c[0] {
      LessTransitive(a[1..], b[1..], c[1..]);
    }
  }

  lemma {:induction false} LessTrichotomy(a: string, b: string)
    ensures Less(a, b) || a == b || Less(b, a)
    decreases |a|
  {
    if |a| > 0 && |b| > 0 && a[0] == b[0] {
      LessTrichotomy(a[1..], b[1..]);
      if a[1..] == b[1..] {
        assert a == [a[0]] + a[1..] && b == [b[0]] + b[1..];
      }
    }
  }

  /** "Not less than" is transitive: the relation a sorted list keeps
      between neighbours carries over to any two of its elements. */
  lemma NotLessTransitive(a: string, b: string, c: string)
    requires !Less(b, a) && !Less(c, b)
    ensures !Less(c, a)
  {
    LessTrichotomy(a, b);
    if Less(a, b) && Less(c, a) {
      LessTransitive(c, a, b);
    }
  }

  /** Of two names, one is never less than the other. */
  lemma LessAsymmetric(a: string, b: string)
    ensures !(Less(a, b) && Less(b, a))
  {
    LessIrreflexive(a);
    if Less(a, b) && Less(b, a) {
      LessTransitive(a, b, a);
    }
  }

  /** What `sorted { $0.strMeal < $1.strMeal }` promises: no meal has a name
      less than that of a meal before it. */
  ghost predicate SortedByName(ms: seq<Meal>) {
    forall i, j :: 0 <= i < j < |ms| ==> !Less(ms[j].strMeal, ms[i].strMeal)
  }

  /** Inserts `m` before the first meal whose name is not less than its own. */
  function InsertByName(m: Meal, ms: seq<Meal>): (r: seq<Meal>)
    requires SortedByName(ms)
    ensures SortedByName(r)
    ensures multiset(r) == multiset(ms) + multiset{m}
  {
    if ms == [] then [m]
    else if !Less(ms[0].strMeal, m.strMeal) then
      InsertFirstKeepsOrder(m, ms);
      [m] + ms
    else
      var rest := InsertByName(m, ms[1..]);
      assert ms == [ms[0]] + ms[1..];
      InsertAfterKeepsOrder(m, ms, rest);
      [ms[0]] + rest
  }

  lemma InsertFirstKeepsOrder(m: Meal, ms: seq<Meal>)
    requires SortedByName(ms) && ms != [] && !Less(ms[0].strMeal, m.strMeal)
    ensures SortedByName([m] + ms)
  {
    var r := [m] + ms;
    forall i, j | 0 <= i < j < |r| ensures !Less(r[j].strMeal, r[i].strMeal) {
      if i == 0 {
        if j > 1 {
          NotLessTransitive(m.strMeal, ms[0].strMeal, ms[j - 1].strMeal);
        }
      } else {
        assert r[i] == ms[i - 1] && r[j] == ms[j - 1];
      }
    }
  }

  lemma InsertAfterKeepsOrder(m: Meal, ms: seq<Meal>, rest: seq<Meal>)
    requires SortedByName(ms) && ms != [] && Less(ms[0].strMeal, m.strMeal)
    requires SortedByName(rest) && multiset(rest) == multiset(ms[1..]) + multiset{m}
    ensures SortedByName([ms[0]] + rest)
  {
    var r := [ms[0]] + rest;
    forall i, j | 0 <= i < j < |r| ensures !Less(r[j].strMeal, r[i].strMeal) {
      if i == 0 {
        var x := r[j];
        assert x == rest[j - 1];
        assert x in multiset(rest);
        if x == m {
          LessAsymmetric(ms[0].strMeal, m.strMeal);
        } else {
          assert x in multiset(ms[1..]);
          var k :| 0 <= k < |ms[1..]| && ms[1..][k] == x;
          assert ms[k + 1] == x;
        }
      } else {
        assert r[i] == rest[i - 1] && r[j] == rest[j - 1];
      }
    }
  }

  /** `sorted(by:)`: a permutation of `ms` in name order. Meals with equal
      names keep no particular order in the source; this one keeps them in
      input order. */
  function SortByName(ms: seq<Meal>): (r: seq<Meal>)
    ensures SortedByName(r)
    ensures multiset(r) == multiset(ms)
  {
    if ms == [] then []
    else
      assert ms == [ms[0]] + ms[1..];
      InsertByName(ms[0], SortByName(ms[1..]))
  }

  /** Two distinct names are ordered one way or the other. */
  lemma NotLessBothWaysEqual(a: string, b: string)
    requires !Less(a, b) && !Less(b, a)
    ensures a == b
  {
    LessTrichotomy(a, b);
  }

  /** The names of a list of meals, in order. */
  function Names(ms: seq<Meal>): (ns: seq<string>)
    ensures |ns| == |ms| && forall k :: 0 <= k < |ms| ==> ns[k] == ms[k].strMeal
  {
    seq(|ms|, k requires 0 <= k < |ms| => ms[k].strMeal)
  }

  /** Taking one meal out of a sorted list leaves it sorted. */
  lemma SortedWithout(ms: seq<Meal>, k: nat)
    requires SortedByName(ms) && k < |ms|
    ensures SortedByName(ms[..k] + ms[k + 1..])
  {
    var r := ms[..k] + ms[k + 1..];
    forall i, j | 0 <= i < j < |r| ensures !Less(r[j].strMeal, r[i].strMeal) {
      var i' := if i < k then i else i + 1;
      var j' := if j < k then j else j + 1;
      assert r[i] == ms[i'] && r[j] == ms[j'];
    }
  }

  lemma SortedTail(ms: seq<Meal>)
    requires SortedByName(ms) && ms != []
    ensures SortedByName(ms[1..])
  {
    forall i, j | 0 <= i < j < |ms| - 1
      ensures !Less(ms[1..][j].strMeal, ms[1..][i].strMeal)
    {
      assert ms[1..][i] == ms[i + 1] && ms[1..][j] == ms[j + 1];
    }
  }

  /** In a sorted list, the meals from the first to one of the same name all
      carry that name. */
  lemma SameNameUpTo(ms: seq<Meal>, k: nat)
    requires SortedByName(ms) && k < |ms| && ms[0].strMeal == ms[k].strMeal
    ensures forall i :: 0 <= i <= k ==> ms[i].strMeal == ms[k].strMeal
  {
    forall i | 0 < i < k
      ensures ms[i].strMeal == ms[k].strMeal
    {
      NotLessBothWaysEqual(ms[i].strMeal, ms[k].strMeal);
    }
  }

  /** Taking out the k-th meal of a list whose first k+1 meals share one name
      takes one copy of that name off the front of its names. */
  lemma NamesWithout(ms: seq<Meal>, k: nat)
    requires k < |ms| && forall i :: 0 <= i <= k ==> ms[i].strMeal == ms[k].strMeal
    ensures Names(ms) == [ms[k].strMeal] + Names(ms[..k] + ms[k + 1..])
  {
    var rest := ms[..k] + ms[k + 1..];
    forall i | 0 <= i < |ms|
      ensures Names(ms)[i] == ([ms[k].strMeal] + Names(rest))[i]
    {
      if 0 < i <= k {
        assert rest[i - 1] == ms[i - 1];
      } else if i > k {
        assert rest[i - 1] == ms[i];
      }
    }
  }

  /** No meal of a sorted list has a name less than the first. */
  lemma FirstIsLeast(ms: seq<Meal>, i: nat)
    requires SortedByName(ms) && i < |ms|
    ensures !Less(ms[i].strMeal, ms[0].strMeal)
  {
    LessIrreflexive(ms[0].strMeal);
  }

  lemma MultisetWithout(ms: seq<Meal>, k: nat)
    requires k < |ms|
    ensures multiset(ms[..k] + ms[k + 1..]) == multiset(ms) - multiset{ms[k]}
  {
    assert ms == ms[..k] + ([ms[k]] + ms[k + 1..]);
    assert multiset(ms) == multiset(ms[..k]) + multiset{ms[k]} + multiset(ms[k + 1..]);
  }

  /** Taking the first meal out of one list and the same meal out of a
      permutation of it leaves two permutations. */
  lemma TailsSameMultiset(xs: seq<Meal>, ys: seq<Meal>, k: nat)
    requires multiset(xs) == multiset(ys) && xs != [] && k < |ys| && ys[k] == xs[0]
    ensures multiset(xs[1..]) == multiset(ys[..k] + ys[k + 1..])
  {
    MultisetWithout(ys, k);
    assert xs == [xs[0]] + xs[1..];
    assert multiset(xs) == multiset{xs[0]} + multiset(xs[1..]);
  }

  lemma NamesCons(ms: seq<Meal>)
    requires ms != []
    ensures Names(ms) == [ms[0].strMeal] + Names(ms[1..])
  {
  }

  /** The sorted order is unique up to meals with equal names: two sorted
      permutations of one list list the same names in the same order. */
  lemma {:induction false} SortedNamesUnique(xs: seq<Meal>, ys: seq<Meal>)
    requires SortedByName(xs) && SortedByName(ys)
    requires multiset(xs) == multiset(ys)
    ensures Names(xs) == Names(ys)
    decreases |xs|
  {
    if xs == [] {
      assert |ys| == |multiset(ys)| == 0;
    } else {
      var x := xs[0];
      assert x in multiset(ys);
      var k :| 0 <= k < |ys| && ys[k] == x;
      var tail, rest := xs[1..], ys[..k] + ys[k + 1..];
      TailsSameMultiset(xs, ys, k);
      SortedTail(xs);
      SortedWithout(ys, k);
      SortedNamesUnique(tail, rest);
      // ys[0] is in xs, so its name is not less than that of x, and the
      // other way round since x is in ys.
      assert ys[0] in multiset(xs);
      var j :| 0 <= j < |xs| && xs[j] == ys[0];
      FirstIsLeast(xs, j);
      FirstIsLeast(ys, k);
      NotLessBothWaysEqual(ys[0].strMeal, x.strMeal);
      SameNameUpTo(ys, k);
      NamesWithout(ys, k);
      NamesCons(xs);
    }
  }
}
