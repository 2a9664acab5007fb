/**
  The per-user list of recently used foods. After a meal is saved, the old
  list and one entry per meal food are combined, sorted by food id, reduced
  to the first entry of each id and cut to twenty entries.
 */
module RecentFoods {
  import opened Models

  const MaxRecentFoods := 20

  datatype RecentFood = RecentFood(foodItem: FoodId, dateUsed: Instant)

  /** A user's RecentFoods document; only `foods` is ever rewritten. */
  class RecentFoodsRecord {
    var user: UserId
    var foods: seq<RecentFood>

    constructor (user: UserId)
      ensures this.user == user && foods == []
    {
      this.user := user;
      foods := [];
    }
  }

  /** The food ids that occur in a list. */
  function FoodIds(s: seq<RecentFood>): set<FoodId>
  {
    set i | 0 <= i < |s| :: s[i].foodItem
  }

  /** The ids of the food items a meal uses. */
  function MealFoodIds(meal: Meal): set<FoodId>
  {
    set i | 0 <= i < |meal.foodList| :: meal.foodList[i].foodItem.id
  }

  /** One entry per food of the meal, in food-list order, stamped with the meal's date. */
  function Stamped(meal: Meal): seq<RecentFood>
  {
    seq(|meal.foodList|, i requires 0 <= i < |meal.foodList| => RecentFood(meal.foodList[i].foodItem.id, meal.date))
  }

  /** The list before sorting: the old entries followed by the meal's. */
  function Candidates(foods: seq<RecentFood>, meal: Meal): seq<RecentFood>
  {
    foods + Stamped(meal)
  }

  predicate SortedByFood(s: seq<RecentFood>)
  {
    forall i, j :: 0 <= i < j < |s| ==> s[i].foodItem <= s[j].foodItem
  }

  predicate StrictlyAscending(s: seq<RecentFood>)
  {
    forall i, j :: 0 <= i < j < |s| ==> s[i].foodItem < s[j].foodItem
  }

  function Insert(x: RecentFood, s: seq<RecentFood>): (r: seq<RecentFood>)
    requires SortedByFood(s)
    ensures SortedByFood(r)
    ensures multiset(r) == multiset(s) + multiset{x}
    ensures forall e :: e in r ==> e == x || e in s
  {
    if s == [] then [x]
    else if x.foodItem <= s[0].foodItem then [x] + s
    else
      var rest := Insert(x, s[1..]);
      PrependSorted(s[0], x, s[1..], rest);
      assert s == [s[0]] + s[1..];
      [s[0]] + rest
  }

  /** Putting back in front the head that Insert stepped past keeps the list sorted. */
  lemma PrependSorted(y: RecentFood, x: RecentFood, tail: seq<RecentFood>, rest: seq<RecentFood>)
    requires SortedByFood([y] + tail) && SortedByFood(rest) && y.foodItem < x.foodItem
    requires forall e :: e in rest ==> e == x || e in tail
    ensures SortedByFood([y] + rest)
  {
    forall i | 0 <= i < |rest| ensures y.foodItem <= rest[i].foodItem {
      assert rest[i] in rest;
      if rest[i] != x {
        var k :| 0 <= k < |tail| && tail[k] == rest[i];
        assert ([y] + tail)[0] == y && ([y] + tail)[k + 1] == tail[k];
      }
    }
  }

  /**
    The in-place sort by food id. The JavaScript comparator never reports a tie,
    so the order among equal ids depends on the engine; this is one such order,
    and the lemmas below hold for every other.
   */
  function SortByFood(s: seq<RecentFood>): (r: seq<RecentFood>)
    ensures SortedByFood(r)
    ensures multiset(r) == multiset(s)
  {
    if s == [] then []
    else
      assert s == s[..|s| - 1] + [s[|s| - 1]];
      Insert(s[|s| - 1], SortByFood(s[..|s| - 1]))
  }

  lemma FoodIdsAppend(s: seq<RecentFood>, x: RecentFood)
    ensures FoodIds(s + [x]) == FoodIds(s) + {x.foodItem}
  {
    var t := s + [x];
    forall id | id in FoodIds(t) ensures id in FoodIds(s) + {x.foodItem} {
      var i :| 0 <= i < |t| && t[i].foodItem == id;
      if i < |s| { assert t[i] == s[i]; }
    }
    forall id | id in FoodIds(s) + {x.foodItem} ensures id in FoodIds(t) {
      if id in FoodIds(s) {
        var i :| 0 <= i < |s| && s[i].foodItem == id;
        assert t[i] == s[i];
      } else {
        assert t[|s|] == x;
      }
    }
  }

  /**
    The duplicate filter: an entry is kept exactly when no earlier entry has
    its food id, i.e. when it is the first entry of its id.
   */
  function KeepFirst(s: seq<RecentFood>): (r: seq<RecentFood>)
    ensures forall e :: e in r ==> e in s
    ensures FoodIds(r) == FoodIds(s)
    ensures forall i, j :: 0 <= i < j < |r| ==> r[i].foodItem != r[j].foodItem
    ensures SortedByFood(s) ==> StrictlyAscending(r)
  {
    if s == [] then []
    else
      var init := s[..|s| - 1];
      var last := s[|s| - 1];
      assert s == init + [last];
      FoodIdsAppend(init, last);
      SortedInit(init, last);
      var kept := KeepFirst(init);
      if last.foodItem in FoodIds(init) then kept
      else
        FoodIdsAppend(kept, last);
        KeepFirstStep(init, last, kept);
        kept + [last]
  }

  lemma SortedInit(init: seq<RecentFood>, last: RecentFood)
    ensures SortedByFood(init + [last]) ==> SortedByFood(init)
  {
    if SortedByFood(init + [last]) {
      forall i, j | 0 <= i < j < |init| ensures init[i].foodItem <= init[j].foodItem {
        assert (init + [last])[i] == init[i] && (init + [last])[j] == init[j];
      }
    }
  }

  /** Appending an entry whose id is new keeps the ids distinct, and ascending when the input was sorted. */
  lemma KeepFirstStep(init: seq<RecentFood>, last: RecentFood, kept: seq<RecentFood>)
    requires FoodIds(kept) == FoodIds(init) && last.foodItem !in FoodIds(init)
    requires forall i, j :: 0 <= i < j < |kept| ==> kept[i].foodItem != kept[j].foodItem
    requires SortedByFood(init) ==> StrictlyAscending(kept)
    ensures forall i, j :: 0 <= i < j < |kept + [last]| ==> (kept + [last])[i].foodItem != (kept + [last])[j].foodItem
    ensures SortedByFood(init + [last]) ==> StrictlyAscending(kept + [last])
  {
    forall i | 0 <= i < |kept| ensures kept[i].foodItem != last.foodItem {
      assert kept[i].foodItem in FoodIds(kept);
    }
    if SortedByFood(init + [last]) {
      SortedInit(init, last);
      forall i | 0 <= i < |kept| ensures kept[i].foodItem < last.foodItem {
        assert kept[i].foodItem in FoodIds(kept);
        var j :| 0 <= j < |init| && init[j].foodItem == kept[i].foodItem;
        assert (init + [last])[j] == init[j] && (init + [last])[|init|] == last;
      }
    }
  }

  /** The cut to at most twenty entries, keeping the front of the list. */
  function Cap(s: seq<RecentFood>): (r: seq<RecentFood>)
    ensures |r| <= MaxRecentFoods && |r| <= |s| && r == s[..|r|]
    ensures |r| < MaxRecentFoods ==> r == s
  {
    if |s| > MaxRecentFoods then s[..MaxRecentFoods] else s
  }

  /** The new `foods` of a record whose old list is `foods`, after `meal` is saved. */
  function UpdatedFoods(foods: seq<RecentFood>, meal: Meal): seq<RecentFood>
  {
    Cap(KeepFirst(SortByFood(Candidates(foods, meal))))
  }

  lemma FoodIdsConcat(s: seq<RecentFood>, t: seq<RecentFood>)
    ensures FoodIds(s + t) == FoodIds(s) + FoodIds(t)
  {
    var u := s + t;
    forall id | id in FoodIds(u) ensures id in FoodIds(s) + FoodIds(t) {
      var i :| 0 <= i < |u| && u[i].foodItem == id;
      if i < |s| { assert u[i] == s[i]; } else { assert u[i] == t[i - |s|]; }
    }
    forall id | id in FoodIds(s) + FoodIds(t) ensures id in FoodIds(u) {
      if id in FoodIds(s) {
        var i :| 0 <= i < |s| && s[i].foodItem == id;
        assert u[i] == s[i];
      } else {
        var i :| 0 <= i < |t| && t[i].foodItem == id;
        assert u[|s| + i] == t[i];
      }
    }
  }

  lemma FoodIdsPermutation(s: seq<RecentFood>, t: seq<RecentFood>)
    requires multiset(s) == multiset(t)
    ensures FoodIds(s) == FoodIds(t)
  {
    forall id | id in FoodIds(s) ensures id in FoodIds(t) {
      var i :| 0 <= i < |s| && s[i].foodItem == id;
      assert s[i] in multiset(t);
      var j :| 0 <= j < |t| && t[j] == s[i];
    }
    forall id | id in FoodIds(t) ensures id in FoodIds(s) {
      var j :| 0 <= j < |t| && t[j].foodItem == id;
      assert t[j] in multiset(s);
      var i :| 0 <= i < |s| && s[i] == t[j];
    }
  }

  /** A list without repeated ids has as many ids as entries. */
  lemma {:induction false} DistinctIdsCount(d: seq<RecentFood>)
    requires forall i, j :: 0 <= i < j < |d| ==> d[i].foodItem != d[j].foodItem
    ensures |FoodIds(d)| == |d|
  {
    if d != [] {
      var init := d[..|d| - 1];
      var last := d[|d| - 1];
      assert d == init + [last];
      DistinctIdsCount(init);
      FoodIdsAppend(init, last);
      forall i | 0 <= i < |init| ensures init[i].foodItem != last.foodItem {
        assert d[i] == init[i];
      }
    }
  }

  /** In a list strictly ascending by id, the head holds the smallest id and the tail holds all the others. */
  lemma AscendingHeadTail(d: seq<RecentFood>)
    requires StrictlyAscending(d) && d != []
    ensures forall id :: id in FoodIds(d) ==> d[0].foodItem <= id
    ensures FoodIds(d[1..]) == FoodIds(d) - {d[0].foodItem}
  {
    var t := d[1..];
    assert d == [d[0]] + t;
    FoodIdsConcat([d[0]], t);
    assert FoodIds([d[0]]) == {d[0].foodItem};
    forall k | 0 <= k < |t| ensures t[k].foodItem != d[0].foodItem {
      assert d[k + 1] == t[k];
    }
  }

  /** Two lists strictly ascending by id that hold the same ids hold them at the same positions. */
  lemma {:induction false} AscendingDeterminedByIds(d1: seq<RecentFood>, d2: seq<RecentFood>)
    requires StrictlyAscending(d1) && StrictlyAscending(d2)
    requires FoodIds(d1) == FoodIds(d2)
    ensures |d1| == |d2|
    ensures forall i :: 0 <= i < |d1| ==> d1[i].foodItem == d2[i].foodItem
  {
    DistinctIdsCount(d1);
    DistinctIdsCount(d2);
    if d1 != [] {
      AscendingHeadTail(d1);
      AscendingHeadTail(d2);
      assert d1[0].foodItem in FoodIds(d1);
      assert d2[0].foodItem in FoodIds(d2);
      assert d1[0].foodItem == d2[0].foodItem;
      var t1, t2 := d1[1..], d2[1..];
      AscendingDeterminedByIds(t1, t2);
      forall i | 0 <= i < |d1| ensures d1[i].foodItem == d2[i].foodItem {
        if i > 0 { assert d1[i] == t1[i - 1] && d2[i] == t2[i - 1]; }
      }
    }
  }

  /**
    For every order the sort may leave equal ids in: the new list has at most
    twenty entries, is strictly ascending by food id (so no id occurs twice),
    and holds only candidate entries.
   */
  lemma RecentFoodsShape(candidates: seq<RecentFood>, sorted: seq<RecentFood>)
    requires SortedByFood(sorted) && multiset(sorted) == multiset(candidates)
    ensures |Cap(KeepFirst(sorted))| <= MaxRecentFoods
    ensures StrictlyAscending(Cap(KeepFirst(sorted)))
    ensures forall e :: e in Cap(KeepFirst(sorted)) ==> e in candidates
  {
    var d := KeepFirst(sorted);
    forall e | e in Cap(d) ensures e in candidates {
      assert e in d;
      assert e in multiset(sorted);
    }
  }

  /**
    Which ids survive, for every order the sort may leave equal ids in: all of
    them when there are at most twenty distinct ids, otherwise exactly the
    twenty smallest, however recently the others were used.
   */
  lemma RecentFoodsKeptIds(candidates: seq<RecentFood>, sorted: seq<RecentFood>)
    requires SortedByFood(sorted) && multiset(sorted) == multiset(candidates)
    ensures |FoodIds(candidates)| <= MaxRecentFoods ==> FoodIds(Cap(KeepFirst(sorted))) == FoodIds(candidates)
    ensures |FoodIds(candidates)| > MaxRecentFoods ==>
      && |Cap(KeepFirst(sorted))| == MaxRecentFoods
      && forall kept, dropped ::
           kept in FoodIds(Cap(KeepFirst(sorted))) && dropped in FoodIds(candidates) - FoodIds(Cap(KeepFirst(sorted)))
           ==> kept < dropped
  {
    var d := KeepFirst(sorted);
    FoodIdsPermutation(sorted, candidates);
    DistinctIdsCount(d);
    if |d| > MaxRecentFoods {
      CapKeepsSmallest(d);
    }
  }

  /** Cutting a list strictly ascending by id keeps ids smaller than every id it drops. */
  lemma CapKeepsSmallest(d: seq<RecentFood>)
    requires StrictlyAscending(d) && |d| > MaxRecentFoods
    ensures forall kept, dropped :: kept in FoodIds(Cap(d)) && dropped in FoodIds(d) - FoodIds(Cap(d)) ==> kept < dropped
  {
    var r := Cap(d);
    assert forall k :: 0 <= k < |r| ==> r[k] == d[k];
    forall kept, dropped | kept in FoodIds(r) && dropped in FoodIds(d) - FoodIds(r)
      ensures kept < dropped
    {
      var i :| 0 <= i < |r| && r[i].foodItem == kept;
      var j :| 0 <= j < |d| && d[j].foodItem == dropped;
      assert j >= |r|;
      assert d[i].foodItem < d[j].foodItem;
    }
  }

  /** The sort's order among equal ids decides only which date survives, never which ids or where. */
  lemma SortOrderOnlyChoosesDates(candidates: seq<RecentFood>, sorted1: seq<RecentFood>, sorted2: seq<RecentFood>)
    requires SortedByFood(sorted1) && multiset(sorted1) == multiset(candidates)
    requires SortedByFood(sorted2) && multiset(sorted2) == multiset(candidates)
    ensures |Cap(KeepFirst(sorted1))| == |Cap(KeepFirst(sorted2))|
    ensures forall i :: 0 <= i < |Cap(KeepFirst(sorted1))| ==>
      Cap(KeepFirst(sorted1))[i].foodItem == Cap(KeepFirst(sorted2))[i].foodItem
  {
    FoodIdsPermutation(sorted1, candidates);
    FoodIdsPermutation(sorted2, candidates);
    AscendingDeterminedByIds(KeepFirst(sorted1), KeepFirst(sorted2));
  }

  /** The candidate ids are the old list's ids together with the meal's food ids. */
  lemma CandidateIds(foods: seq<RecentFood>, meal: Meal)
    ensures FoodIds(Candidates(foods, meal)) == FoodIds(foods) + MealFoodIds(meal)
  {
    FoodIdsConcat(foods, Stamped(meal));
    var st := Stamped(meal);
    forall id | id in MealFoodIds(meal) ensures id in FoodIds(st) {
      var i :| 0 <= i < |meal.foodList| && meal.foodList[i].foodItem.id == id;
      assert st[i].foodItem == id;
    }
  }

  /**
    The list the update stores: at most twenty entries, strictly ascending by
    food id, each an old entry or a meal food stamped with the meal's date.
   */
  lemma UpdatedFoodsShape(foods: seq<RecentFood>, meal: Meal)
    ensures |UpdatedFoods(foods, meal)| <= MaxRecentFoods
    ensures StrictlyAscending(UpdatedFoods(foods, meal))
    ensures forall e :: e in UpdatedFoods(foods, meal) ==>
      e in foods || (e.dateUsed == meal.date && e.foodItem in MealFoodIds(meal))
  {
    var cands := Candidates(foods, meal);
    RecentFoodsShape(cands, SortByFood(cands));
    forall e | e in UpdatedFoods(foods, meal)
      ensures e in foods || (e.dateUsed == meal.date && e.foodItem in MealFoodIds(meal))
    {
      assert e in cands;
      if e !in foods {
        var k :| 0 <= k < |cands| && cands[k] == e;
        assert k >= |foods|;
        assert e == Stamped(meal)[k - |foods|];
      }
    }
  }

  /**
    The ids the update keeps: the old ids plus the meal's when they number at
    most twenty, otherwise the twenty smallest of them.
   */
  lemma UpdatedFoodsIds(foods: seq<RecentFood>, meal: Meal)
    ensures |FoodIds(foods) + MealFoodIds(meal)| <= MaxRecentFoods ==>
      FoodIds(UpdatedFoods(foods, meal)) == FoodIds(foods) + MealFoodIds(meal)
    ensures |FoodIds(foods) + MealFoodIds(meal)| > MaxRecentFoods ==>
      && |UpdatedFoods(foods, meal)| == MaxRecentFoods
      && forall kept, dropped ::
           kept in FoodIds(UpdatedFoods(foods, meal)) && dropped in FoodIds(foods) + MealFoodIds(meal) - FoodIds(UpdatedFoods(foods, meal))
           ==> kept < dropped
  {
    var cands := Candidates(foods, meal);
    CandidateIds(foods, meal);
    RecentFoodsKeptIds(cands, SortByFood(cands));
  }

  /**
    The update itself, given the user's record as the lookup found it (null
    when there is none): find-or-create the record, push one stamped entry per
    meal food, sort, drop duplicates, cut, and replace `foods`.
   */
  method UpdateRecentFoods(found: RecentFoodsRecord?, meal: Meal) returns (recentFoods: RecentFoodsRecord)
    requires found != null ==> found.user == meal.user
    modifies found
    ensures recentFoods.user == meal.user
    ensures found == null ==> fresh(recentFoods) && recentFoods.foods == UpdatedFoods([], meal)
    ensures found != null ==> recentFoods == found
    ensures found != null ==> recentFoods.foods == UpdatedFoods(old(found.foods), meal)
  {
    if found == null {
      recentFoods := new RecentFoodsRecord(meal.user);
    } else {
      recentFoods := found;
    }
    var allFoods := recentFoods.foods;
    ghost var oldFoods := allFoods;
    var i := 0;
    while i < |meal.foodList|
      invariant 0 <= i <= |meal.foodList|
      invariant allFoods == oldFoods + Stamped(meal)[..i]
    {
      allFoods := allFoods + [RecentFood(meal.foodList[i].foodItem.id, meal.date)];
      i := i + 1;
    }
    assert Stamped(meal)[..i] == Stamped(meal);
    allFoods := SortByFood(allFoods);
    allFoods := KeepFirst(allFoods);
    if |allFoods| > MaxRecentFoods {
      allFoods := allFoods[..MaxRecentFoods];
    }
    recentFoods.foods := allFoods;
  }
}
