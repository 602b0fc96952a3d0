/** The search box of the meal list: `filteredMeals` keeps the meals whose
    lowercased name starts with the lowercased query, in list order. */
module Search {
  import opened Json
  import opened MealData
  import opened NameOrder

  predicate IsUpper(c: char) {
    'A' <= c <= 'Z'
  }

  /** `lowercased()` on one character, for the ASCII letters: an upper-case
      letter becomes the lower-case letter 32 code points above it. */
  function LowerChar(c: char): (l: char)
    ensures IsUpper(c) ==> 'a' <= l <= 'z' && l as int == c as int + 32
    ensures !IsUpper(c) ==> l == c
    ensures !IsUpper(l)
  {
    if IsUpper(c) then (c as int + 32) as char else c
  }

  /** Two characters lower alike exactly when they are equal or are the
      upper- and lower-case forms of one letter. */
  lemma LowerCharSameIff(c: char, d: char)
    ensures LowerChar(c) == LowerChar(d) <==>
      || c == d
      || (IsUpper(c) && d as int == c as int + 32)
      || (IsUpper(d) && c as int == d as int + 32)
  {
    if IsUpper(c) && IsUpper(d) && LowerChar(c) == LowerChar(d) {
      assert c as int == d as int;
    }
  }

  /** `lowercased()`: each character lowered in place. */
  function Lowercased(s: string): (r: string)
    ensures |r| == |s|
    ensures forall i :: 0 <= i < |s| ==> r[i] == LowerChar(s[i])
    ensures forall i :: 0 <= i < |r| ==> !IsUpper(r[i])
  {
    seq(|s|, i requires 0 <= i < |s| => LowerChar(s[i]))
  }

  /** Lowering twice is lowering once. */
  lemma LowercasedIdempotent(s: string)
    ensures Lowercased(Lowercased(s)) == Lowercased(s)
  {
    var l := Lowercased(s);
    forall i | 0 <= i < |l|
      ensures Lowercased(l)[i] == l[i]
    {
      assert !IsUpper(l[i]);
    }
  }

  /** `s.hasPrefix(p)`. */
  predicate HasPrefix(s: string, p: string) {
    |p| <= |s| && s[..|p|] == p
  }

  /** The test the `filter` closure applies to each meal. */
  predicate Matches(m: Meal, query: string) {
    HasPrefix(Lowercased(m.strMeal), Lowercased(query))
  }

  /** `s` is `t` with some elements left out, the rest in the same order. */
  ghost predicate IsSubsequence<T>(s: seq<T>, t: seq<T>)
    decreases |t|
  {
    if s == [] then true
    else if t == [] then false
    else (s[0] == t[0] && IsSubsequence(s[1..], t[1..])) || IsSubsequence(s, t[1..])
  }

  /** `meals.filter { ... }`. */
  function KeepMatching(meals: seq<Meal>, query: string): (r: seq<Meal>)
    ensures IsSubsequence(r, meals)
    ensures forall k :: 0 <= k < |r| ==> Matches(r[k], query)
    ensures forall k :: 0 <= k < |meals| && Matches(meals[k], query) ==> meals[k] in r
  {
    if meals == [] then []
    else
      var rest := KeepMatching(meals[1..], query);
      assert meals == [meals[0]] + meals[1..];
      if Matches(meals[0], query) then
        assert ([meals[0]] + rest)[1..] == rest;
        [meals[0]] + rest
      else
        assert forall k :: 1 <= k < |meals| ==> meals[k] == meals[1..][k - 1];
        rest
  }

  /** `filteredMeals`: the whole list for an empty query, otherwise exactly
      the matching meals, each as often as it occurs, in list order. */
  function FilteredMeals(meals: seq<Meal>, query: string): (r: seq<Meal>)
    ensures query == [] ==> r == meals
    ensures IsSubsequence(r, meals)
    ensures forall k :: 0 <= k < |r| ==> Matches(r[k], query)
    ensures forall k :: 0 <= k < |meals| && Matches(meals[k], query) ==> meals[k] in r
    ensures forall m :: multiset(r)[m] == if Matches(m, query) then multiset(meals)[m] else 0
  {
    if query == [] then
      EmptyQueryMatchesAll(meals);
      meals
    else
      KeepMatchingCounts(meals, query);
      KeepMatching(meals, query)
  }

  /** Every matching meal is kept as often as it occurs, and no other meal. */
  lemma {:induction false} KeepMatchingCounts(meals: seq<Meal>, query: string)
    ensures forall m :: multiset(KeepMatching(meals, query))[m]
                     == if Matches(m, query) then multiset(meals)[m] else 0
    decreases |meals|
  {
    if meals != [] {
      KeepMatchingCounts(meals[1..], query);
      assert meals == [meals[0]] + meals[1..];
    }
  }

  lemma {:induction false} SubsequenceOfItself<T>(s: seq<T>)
    ensures IsSubsequence(s, s)
    decreases |s|
  {
    if s != [] {
      SubsequenceOfItself(s[1..]);
    }
  }

  lemma EmptyQueryMatchesAll(meals: seq<Meal>)
    ensures IsSubsequence(meals, meals)
    ensures forall m :: Matches(m, [])
  {
    SubsequenceOfItself(meals);
  }

  /** The `isEmpty` branch only saves work: filtering with the empty query
      keeps every meal as well. */
  lemma {:induction false} EmptyQueryFilterKeepsAll(meals: seq<Meal>)
    ensures KeepMatching(meals, []) == meals
    decreases |meals|
  {
    if meals != [] {
      EmptyQueryFilterKeepsAll(meals[1..]);
      assert Matches(meals[0], []);
      assert meals == [meals[0]] + meals[1..];
    }
  }

  /** Two names that differ only in the case of their letters match the
      same queries. */
  lemma NameCaseIgnored(m1: Meal, m2: Meal, query: string)
    requires |m1.strMeal| == |m2.strMeal|
    requires forall i :: 0 <= i < |m1.strMeal| ==> LowerChar(m1.strMeal[i]) == LowerChar(m2.strMeal[i])
    ensures Matches(m1, query) <==> Matches(m2, query)
  {
    assert Lowercased(m1.strMeal) == Lowercased(m2.strMeal);
  }

  /** Matching ignores the case of the query. */
  lemma QueryCaseIgnored(m: Meal, query: string)
    ensures Matches(m, Lowercased(query)) <==> Matches(m, query)
  {
    LowercasedIdempotent(query);
  }

  lemma {:induction false} SubsequenceElements<T>(s: seq<T>, t: seq<T>)
    requires IsSubsequence(s, t)
    ensures forall x :: x in s ==> x in t
    decreases |t|
  {
    if s != [] {
      if s[0] == t[0] && IsSubsequence(s[1..], t[1..]) {
        SubsequenceElements(s[1..], t[1..]);
        assert s == [s[0]] + s[1..];
        assert t == [t[0]] + t[1..];
      } else {
        SubsequenceElements(s, t[1..]);
      }
    }
  }

  /** Leaving meals out of a name-sorted list keeps it name-sorted. */
  lemma {:induction false} SubsequenceKeepsNameOrder(s: seq<Meal>, t: seq<Meal>)
    requires IsSubsequence(s, t) && SortedByName(t)
    ensures SortedByName(s)
    decreases |t|
  {
    if s != [] {
      assert SortedByName(t[1..]) by {
        forall i, j | 0 <= i < j < |t[1..]|
          ensures !Less(t[1..][j].strMeal, t[1..][i].strMeal)
        {
          assert t[1..][i] == t[i + 1] && t[1..][j] == t[j + 1];
        }
      }
      if s[0] == t[0] && IsSubsequence(s[1..], t[1..]) {
        SubsequenceKeepsNameOrder(s[1..], t[1..]);
        SubsequenceElements(s[1..], t[1..]);
        forall i, j | 0 <= i < j < |s|
          ensures !Less(s[j].strMeal, s[i].strMeal)
        {
          if i == 0 {
            assert s[j] == s[1..][j - 1];
            assert s[j] in s[1..];
            var k :| 0 <= k < |t[1..]| && t[1..][k] == s[j];
            assert t[k + 1] == s[j];
          } else {
            assert s[i] == s[1..][i - 1] && s[j] == s[1..][j - 1];
          }
        }
      } else {
        SubsequenceKeepsNameOrder(s, t[1..]);
      }
    }
  }

  /** The list shown while searching keeps the name order of `meals`. */
  lemma FilteredKeepsNameOrder(meals: seq<Meal>, query: string)
    requires SortedByName(meals)
    ensures SortedByName(FilteredMeals(meals, query))
  {
    SubsequenceKeepsNameOrder(FilteredMeals(meals, query), meals);
  }

  /** A meal with only a name, for the examples below. */
  function Named(name: string): Meal {
    Meal("0", name, "", None, None)
  }

  lemma ChocolateCakeMatches()
    ensures Matches(Named("Chocolate Cake"), "choc")
  {
    var l := Lowercased("Chocolate Cake");
    assert l[0] == 'c' && l[1] == 'h' && l[2] == 'o' && l[3] == 'c';
    assert l[..4] == "choc";
  }

  lemma ChocolateMousseMatches()
    ensures Matches(Named("chocolate Mousse"), "CHOC")
  {
    var l := Lowercased("chocolate Mousse");
    assert l[0] == 'c' && l[1] == 'h' && l[2] == 'o' && l[3] == 'c';
    var q := Lowercased("CHOC");
    assert q[0] == 'c' && q[1] == 'h' && q[2] == 'o' && q[3] == 'c';
    assert l[..4] == "choc" == q;
  }

  lemma ApplePieMisses()
    ensures !Matches(Named("Apple Pie"), "choc")
  {
    assert Lowercased("Apple Pie")[0] == 'a';
  }

  /** Only a prefix counts: a meal whose lowercased name does not start with
      the lowercased query is not shown, wherever else the query occurs in
      its name. */
  lemma PrefixOnly(meals: seq<Meal>, query: string, k: nat)
    requires k < |meals| && !HasPrefix(Lowercased(meals[k].strMeal), Lowercased(query))
    ensures meals[k] !in FilteredMeals(meals, query)
  {
    var r := FilteredMeals(meals, query);
    assert multiset(r)[meals[k]] == 0;
  }

  /** "Apple Chocolate Pie" holds "choc" but does not start with it. */
  lemma ContainsButDoesNotStartWith()
    ensures Lowercased("Apple Chocolate Pie")[6..10] == "choc"
    ensures !Matches(Named("Apple Chocolate Pie"), "choc")
  {
    var l := Lowercased("Apple Chocolate Pie");
    assert l[6] == 'c' && l[7] == 'h' && l[8] == 'o' && l[9] == 'c';
    assert l[0] == 'a';
  }

  /** The query is not trimmed: a single blank is not empty, and it shows
      exactly the meals whose name starts with a blank, each as often as it
      occurs. */
  lemma BlankQueryFilters(meals: seq<Meal>)
    ensures forall m :: multiset(FilteredMeals(meals, " "))[m]
                     == if |m.strMeal| > 0 && m.strMeal[0] == ' ' then multiset(meals)[m] else 0
  {
    assert Lowercased(" ") == " ";
    forall m: Meal
      ensures Matches(m, " ") <==> |m.strMeal| > 0 && m.strMeal[0] == ' '
    {
      if |m.strMeal| > 0 {
        assert Lowercased(m.strMeal)[..1] == [LowerChar(m.strMeal[0])];
      }
    }
  }

  /** One step of `filter`: the head is kept exactly when it matches. */
  lemma KeepMatchingStep(meals: seq<Meal>, query: string)
    requires meals != []
    ensures KeepMatching(meals, query)
         == (if Matches(meals[0], query) then [meals[0]] else []) + KeepMatching(meals[1..], query)
  {
  }

  /** Filtering four meals of which the first and third match. */
  lemma KeepFirstAndThird(a: Meal, b: Meal, c: Meal, d: Meal, query: string)
    requires Matches(a, query) && !Matches(b, query)
    requires Matches(c, query) && !Matches(d, query)
    ensures KeepMatching([a, b, c, d], query) == [a, c]
  {
    KeepMatchingStep([a, b, c, d], query);
    KeepMatchingStep([b, c, d], query);
    KeepMatchingStep([c, d], query);
    KeepMatchingStep([d], query);
  }

  /** Searching "CHOC" in a list of four keeps the two chocolate meals, in
      list order, whatever the case of their names. */
  lemma SearchExample()
    ensures FilteredMeals(
              [Named("Chocolate Cake"), Named("Apple Pie"),
               Named("chocolate Mousse"), Named("Apple Chocolate Pie")],
              "CHOC")
         == [Named("Chocolate Cake"), Named("chocolate Mousse")]
  {
    ChocolateCakeMatches();
    QueryCaseIgnored(Named("Chocolate Cake"), "CHOC");
    ChocolateMousseMatches();
    ApplePieMisses();
    QueryCaseIgnored(Named("Apple Pie"), "CHOC");
    ContainsButDoesNotStartWith();
    QueryCaseIgnored(Named("Apple Chocolate Pie"), "CHOC");
    assert Lowercased("CHOC") == "choc" by {
      var q := Lowercased("CHOC");
      assert q[0] == 'c' && q[1] == 'h' && q[2] == 'o' && q[3] == 'c';
    }
    KeepFirstAndThird(Named("Chocolate Cake"), Named("Apple Pie"),
                      Named("chocolate Mousse"), Named("Apple Chocolate Pie"), "CHOC");
  }
}
