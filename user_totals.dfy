/**
  A user's nutrition totals over a time window chosen by the optional query
  parameters `date`, `startDate` and `endDate`: a cascade of checks turns the
  parameters into an error or a window, the user's meals inside the window
  (both ends included) are selected, and their totals are summed.
 */
module UserTotals {
  import opened Models
  import opened MealTotals
  import opened DateParam

  /** One day in milliseconds; calendar days of other lengths (daylight saving) are not modelled. */
  const DayMs := 86_400_000

  /** The parsed query string: parameter name to value. */
  type Query = map<string, ParamValue>

  datatype Window = Window(start: Instant, end: Instant)

  /**
    The first response the handler sends: 401, one of three 400s, the meal
    query's failure on an Invalid Date bound (passed on to Express by the
    async wrapper), or 200 with the totals.
   */
  datatype TotalsResponse =
    | Unauthorized
    | TooManyOptions
    | InvalidDateParam
    | MissingRangeBound
    | QueryFailed
    | Found(user: UserId, query: Query, totals: Totals)

  /**
    How the branch chain leaves the search bounds: a readable window, a bound
    that `new Date` could not read (Invalid Date), or only one end of a range.
   */
  datatype WindowChoice = Chosen(w: Window) | UnreadableBound | OneBoundOnly

  /** `new Date(s)`: the instant a string denotes, or None for Invalid Date. */
  type DateParser = string -> Option<Instant>

  /** `req.query[key]` used as a condition: present, and not the empty string. */
  predicate Truthy(query: Query, key: string)
  {
    key in query && (query[key].NonString? || query[key].s != "")
  }

  predicate AllParamsValid(query: Query)
  {
    forall key :: key in query ==> IsValidParamDate(query[key])
  }

  /** Every parameter came as a single string (none was repeated or nested). */
  predicate AllStrings(query: Query)
  {
    forall key :: key in query ==> query[key].Str?
  }

  /** The start of the day that contains `now`. */
  function Midnight(now: Instant): (midnight: Instant)
    ensures midnight <= now < midnight + DayMs
    ensures midnight % DayMs == 0
  {
    now - now % DayMs
  }

  predicate AllResolved(meals: seq<Meal>)
  {
    forall m :: m in meals ==> Resolved(m.foodList)
  }

  predicate InWindow(m: Meal, user: UserId, w: Window)
  {
    m.user == user && w.start <= m.date <= w.end
  }

  /**
    The window that well-formed parameters ask for: one day from `date`, or
    `startDate` to `endDate`, or today; UnreadableBound when a date the
    parameters name is Invalid Date, OneBoundOnly when only one end of a range
    is given.
   */
  function SearchWindow(query: Query, now: Instant, parse: DateParser): WindowChoice
    requires AllStrings(query)
  {
    if Truthy(query, "date") then
      match parse(query["date"].s)
      case None => UnreadableBound
      case Some(start) => Chosen(Window(start, start + DayMs))
    else if Truthy(query, "startDate") && Truthy(query, "endDate") then
      match (parse(query["startDate"].s), parse(query["endDate"].s))
      case (Some(start), Some(end)) => Chosen(Window(start, end))
      case _ => UnreadableBound
    else if Truthy(query, "startDate") || Truthy(query, "endDate") then
      OneBoundOnly
    else
      Chosen(Window(Midnight(now), Midnight(now) + DayMs))
  }

  /** The database query: the user's meals dated inside the window, in stored order. */
  function SelectMeals(meals: seq<Meal>, user: UserId, w: Window): (found: seq<Meal>)
    ensures forall m :: m in found <==> m in meals && InWindow(m, user, w)
    ensures forall m :: multiset(found)[m] == if InWindow(m, user, w) then multiset(meals)[m] else 0
  {
    if meals == [] then []
    else
      var last := meals[|meals| - 1];
      assert meals == meals[..|meals| - 1] + [last];
      SelectMeals(meals[..|meals| - 1], user, w) + (if InWindow(last, user, w) then [last] else [])
  }

  /** The totals of several meals, summed component by component. */
  function MealsTotals(meals: seq<Meal>): Totals
    requires AllResolved(meals)
  {
    if meals == [] then Zero
    else Add(MealsTotals(meals[..|meals| - 1]), SumTotals(meals[|meals| - 1].foodList))
  }

  /** Specification of the handler: the first response it sends. */
  function UserTotals(userId: Option<UserId>, query: Query, now: Instant, parse: DateParser, meals: seq<Meal>): (r: TotalsResponse)
    requires AllResolved(meals)
    ensures r == Unauthorized <==> userId.None?
    ensures r.Found? ==> r.user == userId.value && r.query == query
  {
    if userId.None? then Unauthorized
    else if Truthy(query, "date") && Truthy(query, "startDate") && Truthy(query, "endDate") then TooManyOptions
    else if !AllParamsValid(query) then InvalidDateParam
    else
      ValidParamsAreStrings(query);
      match SearchWindow(query, now, parse)
      case OneBoundOnly => MissingRangeBound
      case UnreadableBound => QueryFailed
      case Chosen(w) => Found(userId.value, query, MealsTotals(SelectMeals(meals, userId.value, w)))
  }

  /** Only a string can pass the format check. */
  lemma ValidParamsAreStrings(query: Query)
    requires AllParamsValid(query)
    ensures AllStrings(query)
  {
  }

  /** The validation pass: every query parameter, under any key, must look like YYYY-MM-DD. */
  method ValidateParams(query: Query) returns (allValid: bool)
    ensures allValid <==> forall key :: key in query ==> IsValidParamDate(query[key])
  {
    var unchecked := query.Keys;
    allValid := true;
    while unchecked != {}
      invariant unchecked <= query.Keys
      invariant allValid <==> forall key :: key in query.Keys - unchecked ==> IsValidParamDate(query[key])
      decreases unchecked
    {
      var key :| key in unchecked;
      if !IsValidParamDate(query[key]) {
        allValid := false;
      }
      unchecked := unchecked - {key};
    }
  }

  /** The accumulation over the meals found: each meal's totals added to a zeroed accumulator. */
  method SumMealTotals(found: seq<Meal>) returns (totals: Totals)
    requires AllResolved(found)
    ensures totals == MealsTotals(found)
  {
    totals := Totals(0.0, 0.0, 0.0, 0.0);
    var i := 0;
    while i < |found|
      invariant 0 <= i <= |found|
      invariant AllResolved(found[..i])
      invariant totals == MealsTotals(found[..i])
    {
      assert found[i] in found;
      var mealTotals := GetTotals(found[i]);
      totals := Totals(totals.calories + mealTotals.calories, totals.fats + mealTotals.fats,
                       totals.carbs + mealTotals.carbs, totals.proteins + mealTotals.proteins);
      assert found[..i + 1][..i] == found[..i];
      i := i + 1;
    }
    assert found[..i] == found;
  }

  /**
    The reassignments of the search bounds, branch by branch; a bound is None
    while it holds Invalid Date, and moving an Invalid Date by a day leaves it
    invalid. OneBoundOnly is where the handler answers 400; UnreadableBound is
    where the meal query will refuse its bounds.
   */
  method ResolveWindow(query: Query, now: Instant, parse: DateParser) returns (window: WindowChoice)
    requires AllStrings(query)
    ensures window == SearchWindow(query, now, parse)
  {
    var searchStart: Option<Instant>, searchEnd: Option<Instant>;
    if Truthy(query, "date") {
      searchStart := parse(query["date"].s);
      searchEnd := if searchStart.Some? then Some(searchStart.value + DayMs) else None;
    } else if Truthy(query, "startDate") && Truthy(query, "endDate") {
      searchStart := parse(query["startDate"].s);
      searchEnd := parse(query["endDate"].s);
    } else if Truthy(query, "startDate") || Truthy(query, "endDate") {
      return OneBoundOnly;
    } else {
      searchStart := Some(Midnight(now));
      searchEnd := Some(Midnight(now) + DayMs);
    }
    if searchStart.None? || searchEnd.None? {
      return UnreadableBound;
    }
    window := Chosen(Window(searchStart.value, searchEnd.value));
  }

  /** The handler: the checks in order, the window, the meal query and the sum. */
  method GetUserTotals(userId: Option<UserId>, query: Query, now: Instant, parse: DateParser, meals: seq<Meal>)
    returns (response: TotalsResponse)
    requires AllResolved(meals)
    ensures userId.None? <==> response == Unauthorized
    ensures response == UserTotals(userId, query, now, parse, meals)
  {
    if userId.None? {
      return Unauthorized;
    }
    var user := userId.value;
    if Truthy(query, "date") && Truthy(query, "startDate") && Truthy(query, "endDate") {
      return TooManyOptions;
    }
    var allValid := ValidateParams(query);
    if !allValid {
      return InvalidDateParam;
    }
    ValidParamsAreStrings(query);
    var window := ResolveWindow(query, now, parse);
    if window.OneBoundOnly? {
      return MissingRangeBound;
    }
    if window.UnreadableBound? {
      return QueryFailed;
    }
    var found := SelectMeals(meals, user, window.w);
    var totals := SumMealTotals(found);
    response := Found(user, query, totals);
  }

  /** Supplying date, startDate and endDate together is refused before any parameter's format is looked at. */
  lemma TooManyOptionsFirst(user: UserId, query: Query, now: Instant, parse: DateParser, meals: seq<Meal>)
    requires AllResolved(meals)
    requires Truthy(query, "date") && Truthy(query, "startDate") && Truthy(query, "endDate")
    ensures UserTotals(Some(user), query, now, parse, meals) == TooManyOptions
  {
  }

  /** Any parameter, under any key, that fails the format check gives 400. */
  lemma InvalidParamRejected(user: UserId, query: Query, now: Instant, parse: DateParser, meals: seq<Meal>, key: string)
    requires AllResolved(meals)
    requires !(Truthy(query, "date") && Truthy(query, "startDate") && Truthy(query, "endDate"))
    requires key in query && !IsValidParamDate(query[key])
    ensures UserTotals(Some(user), query, now, parse, meals) == InvalidDateParam
  {
  }

  /**
    With `date`, the window is that day plus one day, and a lone startDate or
    endDate beside it is ignored; a `date` that `new Date` cannot read makes
    the meal query fail.
   */
  lemma DateParamWindow(user: UserId, query: Query, now: Instant, parse: DateParser, meals: seq<Meal>)
    requires AllResolved(meals) && AllParamsValid(query)
    requires Truthy(query, "date") && !(Truthy(query, "startDate") && Truthy(query, "endDate"))
    ensures query["date"].Str?
    ensures parse(query["date"].s).None? ==> UserTotals(Some(user), query, now, parse, meals) == QueryFailed
    ensures parse(query["date"].s).Some? ==>
              var start := parse(query["date"].s).value;
              UserTotals(Some(user), query, now, parse, meals)
              == Found(user, query, MealsTotals(SelectMeals(meals, user, Window(start, start + DayMs))))
  {
  }

  /**
    With both ends of a range and no `date`, the window runs from startDate to
    endDate; either end that `new Date` cannot read makes the meal query fail.
   */
  lemma RangeParamsWindow(user: UserId, query: Query, now: Instant, parse: DateParser, meals: seq<Meal>)
    requires AllResolved(meals) && AllParamsValid(query)
    requires !Truthy(query, "date") && Truthy(query, "startDate") && Truthy(query, "endDate")
    ensures query["startDate"].Str? && query["endDate"].Str?
    ensures parse(query["startDate"].s).None? || parse(query["endDate"].s).None? ==>
              UserTotals(Some(user), query, now, parse, meals) == QueryFailed
    ensures parse(query["startDate"].s).Some? && parse(query["endDate"].s).Some? ==>
              UserTotals(Some(user), query, now, parse, meals)
              == Found(user, query, MealsTotals(SelectMeals(meals, user,
                   Window(parse(query["startDate"].s).value, parse(query["endDate"].s).value))))
  {
  }

  /** One end of a range without the other, and no `date`, gives 400. */
  lemma LoneRangeBoundRejected(user: UserId, query: Query, now: Instant, parse: DateParser, meals: seq<Meal>)
    requires AllResolved(meals) && AllParamsValid(query)
    requires !Truthy(query, "date") && Truthy(query, "startDate") != Truthy(query, "endDate")
    ensures UserTotals(Some(user), query, now, parse, meals) == MissingRangeBound
  {
  }

  /** Without date parameters the window is today, from its midnight to the next. */
  lemma DefaultWindowIsToday(user: UserId, query: Query, now: Instant, parse: DateParser, meals: seq<Meal>)
    requires AllResolved(meals) && AllParamsValid(query)
    requires !Truthy(query, "date") && !Truthy(query, "startDate") && !Truthy(query, "endDate")
    ensures UserTotals(Some(user), query, now, parse, meals)
         == Found(user, query, MealsTotals(SelectMeals(meals, user, Window(Midnight(now), Midnight(now) + DayMs))))
  {
  }

  lemma AllResolvedAppend(a: seq<Meal>, b: seq<Meal>)
    ensures AllResolved(a + b) <==> AllResolved(a) && AllResolved(b)
  {
    assert forall m :: m in a + b <==> m in a || m in b;
  }

  /** Summing meal totals is additive over concatenation. */
  lemma {:induction false} MealsTotalsAppend(a: seq<Meal>, b: seq<Meal>)
    requires AllResolved(a) && AllResolved(b)
    ensures AllResolved(a + b)
    ensures MealsTotals(a + b) == Add(MealsTotals(a), MealsTotals(b))
  {
    AllResolvedAppend(a, b);
    if b == [] {
      assert a + b == a;
    } else {
      var init, last := b[..|b| - 1], b[|b| - 1];
      var ab := a + b;
      assert ab[..|ab| - 1] == a + init;
      assert ab[|ab| - 1] == last;
      AllResolvedAppend(a, init);
      MealsTotalsAppend(a, init);
      var ta, ti, tl := MealsTotals(a), MealsTotals(init), SumTotals(last.foodList);
      assert MealsTotals(b) == Add(ti, tl);
      assert MealsTotals(ab) == Add(Add(ta, ti), tl);
      AddAssoc(ta, ti, tl);
    }
  }

  lemma AddAssoc(p: Totals, q: Totals, r: Totals)
    ensures Add(Add(p, q), r) == Add(p, Add(q, r))
  {
  }

  lemma AddSwap(p: Totals, q: Totals, r: Totals)
    ensures Add(Add(p, q), r) == Add(Add(p, r), q)
  {
  }

  lemma AllResolvedPermutation(a: seq<Meal>, b: seq<Meal>)
    requires AllResolved(a) && multiset(a) == multiset(b)
    ensures AllResolved(b)
  {
    forall m | m in b ensures Resolved(m.foodList) {
      assert m in multiset(b);
      assert m in a;
    }
  }

  /** Where the last meal of `a` sits in its permutation `b`, and what is left around it. */
  lemma MatchLast<T>(a: seq<T>, b: seq<T>) returns (before: seq<T>, after: seq<T>)
    requires a != [] && multiset(a) == multiset(b)
    ensures b == before + [a[|a| - 1]] + after
    ensures multiset(a[..|a| - 1]) == multiset(before + after)
  {
    var n := |a| - 1;
    var x := a[n];
    assert a == a[..n] + [x];
    assert multiset(a) == multiset(a[..n]) + multiset{x};
    assert x in b by {
      assert x in multiset(a);
    }
    var k :| 0 <= k < |b| && b[k] == x;
    before, after := b[..k], b[k + 1..];
    assert b == before + [x] + after;
    assert multiset(b) == multiset(before) + multiset{x} + multiset(after);
    assert multiset(before + after) == multiset(before) + multiset(after);
    var rest, others := multiset(a[..n]), multiset(before + after);
    assert rest + multiset{x} == others + multiset{x};
    assert rest == rest + multiset{x} - multiset{x};
    assert others == others + multiset{x} - multiset{x};
  }

  /** The order in which the database returns the meals does not change their summed totals. */
  lemma {:induction false} MealsTotalsPermutation(a: seq<Meal>, b: seq<Meal>)
    requires AllResolved(a)
    requires multiset(a) == multiset(b)
    ensures AllResolved(b)
    ensures MealsTotals(a) == MealsTotals(b)
  {
    AllResolvedPermutation(a, b);
    if a != [] {
      var n := |a| - 1;
      var x, init := a[n], a[..n];
      var before, after := MatchLast(a, b);
      assert a == init + [x];
      assert b == (before + [x]) + after;
      AllResolvedAppend(init, [x]);
      AllResolvedAppend(before + [x], after);
      AllResolvedAppend(before, [x]);
      AllResolvedAppend(before, after);
      MealsTotalsPermutation(init, before + after);
      MealsTotalsAppend(before, after);
      MealsTotalsAppend(before + [x], after);
      assert (before + [x])[..|before|] == before;
      var tb, ta, tx := MealsTotals(before), MealsTotals(after), SumTotals(x.foodList);
      assert MealsTotals(a) == Add(MealsTotals(init), tx);
      assert MealsTotals(init) == Add(tb, ta);
      assert MealsTotals(before + [x]) == Add(tb, tx);
      assert MealsTotals(b) == Add(MealsTotals(before + [x]), ta);
      AddSwap(tb, ta, tx);
    }
  }

  /**
    Asking for a `date`, and asking for the range that starts at that same
    date and ends one day later, select the same meals and give the same
    totals; when `new Date` cannot read the date, both requests fail alike.
   */
  lemma DateMatchesOneDayRange(user: UserId, single: Query, range: Query, now: Instant, parse: DateParser, meals: seq<Meal>)
    requires AllResolved(meals) && AllParamsValid(single) && AllParamsValid(range)
    requires Truthy(single, "date") && !(Truthy(single, "startDate") && Truthy(single, "endDate"))
    requires !Truthy(range, "date") && Truthy(range, "startDate") && Truthy(range, "endDate")
    requires range["startDate"] == single["date"]
    requires range["endDate"].Str? && single["date"].Str?
    requires parse(range["endDate"].s) == OneDayLater(parse(single["date"].s))
    ensures UserTotals(Some(user), single, now, parse, meals).Found? <==> parse(single["date"].s).Some?
    ensures UserTotals(Some(user), range, now, parse, meals).Found? <==> parse(single["date"].s).Some?
    ensures parse(single["date"].s).None? ==>
              UserTotals(Some(user), single, now, parse, meals) == QueryFailed == UserTotals(Some(user), range, now, parse, meals)
    ensures parse(single["date"].s).Some? ==>
              UserTotals(Some(user), single, now, parse, meals).totals == UserTotals(Some(user), range, now, parse, meals).totals
  {
    DateParamWindow(user, single, now, parse, meals);
    RangeParamsWindow(user, range, now, parse, meals);
  }

  /** `setDate(getDate() + 1)`: one day later, and Invalid Date stays invalid. */
  function OneDayLater(t: Option<Instant>): (later: Option<Instant>)
    ensures later.Some? <==> t.Some?
    ensures later.Some? ==> later.value - t.value == DayMs
  {
    if t.Some? then Some(t.value + DayMs) else None
  }

  /**
    The format check lets through dates that name no calendar day, such as
    month 13: when `new Date` cannot read one, the request reaches the meal
    query and fails there instead of being answered with a 400.
   */
  lemma LooseDateReachesQuery(user: UserId, now: Instant, parse: DateParser, meals: seq<Meal>)
    requires AllResolved(meals)
    requires parse(DateString(2021, 13, 1)).None?
    ensures UserTotals(Some(user), map["date" := Str(DateString(2021, 13, 1))], now, parse, meals) == QueryFailed
  {
    var query := map["date" := Str(DateString(2021, 13, 1))];
    DateStringAccepted(2021, 13, 1);
    assert query.Keys == {"date"};
    DateParamWindow(user, query, now, parse, meals);
  }
}
