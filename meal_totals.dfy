/**
  The `totals` virtual attribute of a meal: each food-list entry contributes
  its food item's nutrients scaled by (servings used / servings described),
  and the four sums start at zero.
 */
module MealTotals {
  import opened Models

  datatype Totals = Totals(calories: real, fats: real, carbs: real, proteins: real)

  const Zero := Totals(0.0, 0.0, 0.0, 0.0)

  function Add(a: Totals, b: Totals): Totals
  {
    Totals(a.calories + b.calories, a.fats + b.fats, a.carbs + b.carbs, a.proteins + b.proteins)
  }

  function Scale(k: real, t: Totals): Totals
  {
    Totals(k * t.calories, k * t.fats, k * t.carbs, k * t.proteins)
  }

  /** What one entry adds to each nutrient: its food item's values scaled by servings used over servings described. */
  function Contribution(e: FoodEntry): Totals
    requires e.foodItem.servingSize > 0.0
  {
    var multiplier := e.servingSize / e.foodItem.servingSize;
    Totals(multiplier * e.foodItem.calories, multiplier * e.foodItem.fats,
           multiplier * e.foodItem.carbs, multiplier * e.foodItem.proteins)
  }

  /** Per unit of serving, an entry contributes exactly what its food item gives per unit. */
  lemma ContributionPerUnit(e: FoodEntry)
    requires e.foodItem.servingSize > 0.0
    ensures Contribution(e).calories * e.foodItem.servingSize == e.servingSize * e.foodItem.calories
    ensures Contribution(e).fats * e.foodItem.servingSize == e.servingSize * e.foodItem.fats
    ensures Contribution(e).carbs * e.foodItem.servingSize == e.servingSize * e.foodItem.carbs
    ensures Contribution(e).proteins * e.foodItem.servingSize == e.servingSize * e.foodItem.proteins
  {
    var m, d := e.servingSize / e.foodItem.servingSize, e.foodItem.servingSize;
    assert m * d == e.servingSize;
  }

  /** Specification of the getter: the contributions of the entries, summed in list order. */
  function SumTotals(foodList: seq<FoodEntry>): Totals
    requires Resolved(foodList)
  {
    if foodList == [] then Zero
    else Add(SumTotals(foodList[..|foodList| - 1]), Contribution(foodList[|foodList| - 1]))
  }

  /** The getter itself: a zeroed accumulator updated entry by entry. The meal is a value, so it is left as it was. */
  method GetTotals(meal: Meal) returns (totals: Totals)
    requires Resolved(meal.foodList)
    ensures totals == SumTotals(meal.foodList)
    ensures meal.foodList == [] ==> totals == Zero
  {
    totals := Totals(0.0, 0.0, 0.0, 0.0);
    var i := 0;
    while i < |meal.foodList|
      invariant 0 <= i <= |meal.foodList|
      invariant totals == SumTotals(meal.foodList[..i])
    {
      var food := meal.foodList[i];
      ghost var before := totals;
      var multiplier := food.servingSize / food.foodItem.servingSize;
      totals := Totals(totals.calories + multiplier * food.foodItem.calories,
                       totals.fats + multiplier * food.foodItem.fats,
                       totals.carbs + multiplier * food.foodItem.carbs,
                       totals.proteins + multiplier * food.foodItem.proteins);
      ContributionByMultiplier(food, multiplier);
      assert totals == Add(before, Contribution(food));
      SumTotalsPrefix(meal.foodList, i);
      i := i + 1;
    }
    assert meal.foodList[..i] == meal.foodList;
  }

  /** An entry's contribution, written with its multiplier named. */
  lemma ContributionByMultiplier(e: FoodEntry, multiplier: real)
    requires e.foodItem.servingSize > 0.0
    requires multiplier == e.servingSize / e.foodItem.servingSize
    ensures Contribution(e) == Totals(multiplier * e.foodItem.calories, multiplier * e.foodItem.fats,
                                      multiplier * e.foodItem.carbs, multiplier * e.foodItem.proteins)
  {
  }

  /** Extending a prefix of the list by one entry adds that entry's contribution. */
  lemma SumTotalsPrefix(foodList: seq<FoodEntry>, i: nat)
    requires Resolved(foodList) && i < |foodList|
    ensures Resolved(foodList[..i]) && Resolved(foodList[..i + 1])
    ensures SumTotals(foodList[..i + 1]) == Add(SumTotals(foodList[..i]), Contribution(foodList[i]))
  {
    assert foodList[..i + 1][..i] == foodList[..i];
  }

  /** Additivity: the totals of a concatenation are the component-wise sum of the totals of its parts. */
  lemma {:induction false} SumTotalsAppend(xs: seq<FoodEntry>, ys: seq<FoodEntry>)
    requires Resolved(xs) && Resolved(ys)
    ensures Resolved(xs + ys)
    ensures SumTotals(xs + ys) == Add(SumTotals(xs), SumTotals(ys))
  {
    assert Resolved(xs + ys) by {
      forall i | 0 <= i < |xs + ys| ensures (xs + ys)[i].foodItem.servingSize > 0.0 {
        if i >= |xs| { assert (xs + ys)[i] == ys[i - |xs|]; }
      }
    }
    if ys == [] {
      assert xs + ys == xs;
    } else {
      var init := ys[..|ys| - 1];
      assert Resolved(init);
      assert (xs + ys)[..|xs + ys| - 1] == xs + init;
      assert (xs + ys)[|xs + ys| - 1] == ys[|ys| - 1];
      SumTotalsAppend(xs, init);
    }
  }

  /** A single entry's totals are its contribution. */
  lemma SumTotalsSingle(e: FoodEntry)
    requires e.foodItem.servingSize > 0.0
    ensures Resolved([e]) && SumTotals([e]) == Contribution(e)
  {
    assert [e][..0] == [];
  }

  /** An entry that uses exactly the described serving contributes the food item's four values unchanged. */
  lemma FullServingContribution(e: FoodEntry)
    requires e.foodItem.servingSize > 0.0
    requires e.servingSize == e.foodItem.servingSize
    ensures Contribution(e) == Totals(e.foodItem.calories, e.foodItem.fats, e.foodItem.carbs, e.foodItem.proteins)
  {
  }

  /** Linearity: multiplying an entry's serving size by k multiplies its contribution by k. */
  lemma ContributionScales(e: FoodEntry, k: real)
    requires e.foodItem.servingSize > 0.0
    ensures Contribution(e.(servingSize := k * e.servingSize)) == Scale(k, Contribution(e))
  {
    var m := e.servingSize / e.foodItem.servingSize;
    assert (k * e.servingSize) / e.foodItem.servingSize == k * m;
    ContributionByMultiplier(e, m);
    ContributionByMultiplier(e.(servingSize := k * e.servingSize), k * m);
  }

  /** The entry's serving unit plays no part in its contribution. */
  lemma ContributionIgnoresUnit(e: FoodEntry, unit: string)
    requires e.foodItem.servingSize > 0.0
    ensures Contribution(e.(servingUnit := unit)) == Contribution(e)
  {
  }

  /** Two food lists that differ only in their entries' serving units have the same totals: units are never read. */
  lemma {:induction false} TotalsIgnoreUnits(xs: seq<FoodEntry>, ys: seq<FoodEntry>)
    requires Resolved(xs)
    requires |xs| == |ys|
    requires forall i :: 0 <= i < |xs| ==> ys[i].foodItem == xs[i].foodItem && ys[i].servingSize == xs[i].servingSize
    ensures Resolved(ys) && SumTotals(ys) == SumTotals(xs)
  {
    if xs != [] {
      var n := |xs| - 1;
      TotalsIgnoreUnits(xs[..n], ys[..n]);
      assert ys[n] == xs[n].(servingUnit := ys[n].servingUnit);
      ContributionIgnoresUnit(xs[n], ys[n].servingUnit);
    }
  }

  const GroundBeef := FoodItem(1, "Ground Beef", 100.0, "g", 332.0, 30.0, 0.0, 14.0)
  const Tomato := FoodItem(2, "Tomato", 100.0, "g", 18.0, 0.2, 3.9, 0.9)

  /** The documented example meal: 50 g of ground beef and 10 g of tomato. */
  lemma DinnerExample()
    ensures Resolved([FoodEntry(GroundBeef, 50.0, "g"), FoodEntry(Tomato, 10.0, "g")])
    ensures SumTotals([FoodEntry(GroundBeef, 50.0, "g"), FoodEntry(Tomato, 10.0, "g")])
         == Totals(167.8, 15.02, 0.39, 7.09)
  {
    var meal := [FoodEntry(GroundBeef, 50.0, "g"), FoodEntry(Tomato, 10.0, "g")];
    assert meal[..1] == [meal[0]];
    SumTotalsSingle(meal[0]);
    assert Contribution(meal[0]) == Totals(166.0, 15.0, 0.0, 7.0);
    assert Contribution(meal[1]) == Totals(1.8, 0.02, 0.39, 0.09);
  }
}
