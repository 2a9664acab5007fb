/**
  The food-item handlers: get, create, edit and delete over the table of food
  items, each answering 401 without an authenticated user, and keeping food
  names unique across the table.
 */
module FoodController {
  import opened Models

  /** The seven fields a food item is created or edited with. */
  datatype Field = Name | ServingSize | ServingUnit | Calories | Fats | Carbs | Proteins

  /** The required fields, in the order in which they are checked and reported. */
  const RequiredFields: seq<Field> := [Name, ServingSize, ServingUnit, Calories, Fats, Carbs, Proteins]

  /** A field's position in RequiredFields. */
  function Rank(f: Field): (k: nat)
    ensures k < |RequiredFields| && RequiredFields[k] == f
  {
    match f
    case Name => 0
    case ServingSize => 1
    case ServingUnit => 2
    case Calories => 3
    case Fats => 4
    case Carbs => 5
    case Proteins => 6
  }

  /** A request body: each field is given or undefined. */
  datatype FoodBody = FoodBody(
    name: Option<string>,
    servingSize: Option<real>,
    servingUnit: Option<string>,
    calories: Option<real>,
    fats: Option<real>,
    carbs: Option<real>,
    proteins: Option<real>)

  predicate Has(body: FoodBody, f: Field)
  {
    match f
    case Name => body.name.Some?
    case ServingSize => body.servingSize.Some?
    case ServingUnit => body.servingUnit.Some?
    case Calories => body.calories.Some?
    case Fats => body.fats.Some?
    case Carbs => body.carbs.Some?
    case Proteins => body.proteins.Some?
  }

  predicate Complete(body: FoodBody)
  {
    && body.name.Some? && body.servingSize.Some? && body.servingUnit.Some?
    && body.calories.Some? && body.fats.Some? && body.carbs.Some? && body.proteins.Some?
  }

  lemma CompleteHasAll(body: FoodBody)
    ensures Complete(body) <==> forall f :: Has(body, f)
  {
    assert (&& Has(body, Name) && Has(body, ServingSize) && Has(body, ServingUnit) && Has(body, Calories)
            && Has(body, Fats) && Has(body, Carbs) && Has(body, Proteins)) ==> Complete(body);
  }

  /** `missing` lists exactly the fields absent from the body, in declared order. */
  predicate ListsMissing(missing: seq<Field>, body: FoodBody)
  {
    && (forall f :: f in missing <==> !Has(body, f))
    && RankAscending(missing)
  }

  /** The food item a complete body describes, stored under `id`. */
  function FromBody(id: FoodId, body: FoodBody): FoodItem
    requires Complete(body)
  {
    FoodItem(id, body.name.value, body.servingSize.value, body.servingUnit.value,
             body.calories.value, body.fats.value, body.carbs.value, body.proteins.value)
  }

  predicate NameInUse(items: map<FoodId, FoodItem>, name: string)
  {
    exists id :: id in items && items[id].name == name
  }

  predicate NamesUnique(items: map<FoodId, FoodItem>)
  {
    forall a, b :: a in items && b in items && a != b ==> items[a].name != items[b].name
  }

  /** The handlers' answers. */
  datatype FoodResponse =
    | Unauthorized                       // 401
    | NotFound                           // 404
    | NameTaken                          // 409
    | MissingInfo(missing: seq<Field>)   // 422, naming the missing fields
    | Found(food: FoodItem)              // 200 with the item
    | Deleted                            // 200, "Food deleted"

  /** The loop that collects the required fields the body leaves undefined. */
  method MissingFields(body: FoodBody) returns (missing: seq<Field>)
    ensures ListsMissing(missing, body)
    ensures missing == [] <==> Complete(body)
  {
    missing := [];
    for i := 0 to |RequiredFields|
      invariant forall f :: f in missing <==> Rank(f) < i && !Has(body, f)
      invariant forall k :: 0 <= k < |missing| ==> Rank(missing[k]) < i
      invariant forall k, l :: 0 <= k < l < |missing| ==> Rank(missing[k]) < Rank(missing[l])
    {
      var field := RequiredFields[i];
      assert Rank(field) == i;
      if !Has(body, field) {
        missing := missing + [field];
      }
    }
    CompleteHasAll(body);
    assert missing != [] ==> !Complete(body) by {
      if missing != [] {
        assert missing[0] in missing;
      }
    }
    assert missing == [] ==> Complete(body) by {
      if missing == [] {
        forall f ensures Has(body, f) {
          assert f !in missing;
        }
      }
    }
  }

  predicate RankAscending(m: seq<Field>)
  {
    forall i, j :: 0 <= i < j < |m| ==> Rank(m[i]) < Rank(m[j])
  }

  /** In a rank-ascending list the head occurs once: the tail holds exactly the other members. */
  lemma TailMembers(m: seq<Field>, f: Field)
    requires RankAscending(m) && m != []
    ensures f in m[1..] <==> f in m && f != m[0]
  {
    if f in m[1..] {
      TailMemberNotHead(m, f);
    }
    if f in m && f != m[0] {
      var k :| 0 <= k < |m| && m[k] == f;
      assert m[1..][k - 1] == f;
    }
  }

  lemma TailMemberNotHead(m: seq<Field>, f: Field)
    requires RankAscending(m) && m != [] && f in m[1..]
    ensures f in m && f != m[0]
  {
    var k :| 0 <= k < |m| - 1 && m[1..][k] == f;
    assert m[k + 1] == f && Rank(m[0]) < Rank(m[k + 1]);
  }

  /** Two rank-ascending lists with the same members start with the same field. */
  lemma SameHead(m1: seq<Field>, m2: seq<Field>)
    requires RankAscending(m1) && RankAscending(m2) && m1 != [] && m2 != []
    requires m1[0] in m2 && m2[0] in m1
    ensures m1[0] == m2[0]
  {
    var i :| 0 <= i < |m2| && m2[i] == m1[0];
    var j :| 0 <= j < |m1| && m1[j] == m2[0];
    assert Rank(m1[0]) <= Rank(m1[j]) == Rank(m2[0]);
    assert Rank(m2[0]) <= Rank(m2[i]) == Rank(m1[0]);
    assert m1[0] == RequiredFields[Rank(m1[0])] == m2[0];
  }

  lemma {:induction false} RankAscendingDetermined(m1: seq<Field>, m2: seq<Field>)
    requires RankAscending(m1) && RankAscending(m2)
    requires forall f :: f in m1 <==> f in m2
    ensures m1 == m2
  {
    if m1 + m2 != [] {
      var g := (m1 + m2)[0];
      assert g in m1 + m2;
      assert g in m1 && g in m2;
      assert m1[0] in m1 && m2[0] in m2;
      SameHead(m1, m2);
      var t1, t2 := m1[1..], m2[1..];
      forall f ensures f in t1 <==> f in t2 {
        TailMembers(m1, f);
        TailMembers(m2, f);
      }
      RankAscendingDetermined(t1, t2);
      assert m1 == [m1[0]] + t1 && m2 == [m2[0]] + t2;
    }
  }

  /** The 422 list is determined by the body: two lists that both state its missing fields are equal. */
  lemma MissingListIsDetermined(m1: seq<Field>, m2: seq<Field>, body: FoodBody)
    requires ListsMissing(m1, body) && ListsMissing(m2, body)
    ensures m1 == m2
  {
    RankAscendingDetermined(m1, m2);
  }

  class FoodStore {
    /** The FoodItem collection, keyed by id. */
    var items: map<FoodId, FoodItem>
    /** Where the next generated id is taken from. */
    var nextId: FoodId

    ghost predicate Valid()
      reads this
    {
      && NamesUnique(items)
      && (forall id :: id in items ==> items[id].id == id && id < nextId)
    }

    constructor ()
      ensures Valid() && items == map[]
    {
      items := map[];
      nextId := 0;
    }

    method GetFoodItemInfo(userId: Option<UserId>, id: FoodId) returns (r: FoodResponse)
      ensures userId.None? ==> r == Unauthorized
      ensures userId.Some? ==> (r == NotFound <==> id !in items)
      ensures userId.Some? && id in items ==> r == Found(items[id])
      ensures r.Found? ==> id in items && r.food == items[id]
    {
      if userId.None? {
        return Unauthorized;
      }
      if id !in items {
        return NotFound;
      }
      r := Found(items[id]);
    }

    method CreateNewFoodItem(userId: Option<UserId>, body: FoodBody) returns (r: FoodResponse)
      requires Valid()
      modifies this
      ensures Valid()
      ensures userId.None? ==> r == Unauthorized
      ensures userId.Some? && body.name.Some? && NameInUse(old(items), body.name.value) ==> r == NameTaken
      ensures userId.Some? && !(body.name.Some? && NameInUse(old(items), body.name.value)) && !Complete(body) ==>
        r.MissingInfo? && ListsMissing(r.missing, body)
      ensures r.Found? <==> userId.Some? && Complete(body) && !NameInUse(old(items), body.name.value)
      ensures r.Found? ==> r.food.id !in old(items) && r.food == FromBody(r.food.id, body)
      ensures r.Found? ==> items == old(items)[r.food.id := r.food]
      ensures r.Found? ==> r.food.id == old(nextId) && nextId == old(nextId) + 1
      ensures !r.Found? ==> items == old(items) && nextId == old(nextId)
    {
      if userId.None? {
        return Unauthorized;
      }
      if body.name.Some? && NameInUse(items, body.name.value) {
        return NameTaken;
      }
      var missing := MissingFields(body);
      if |missing| > 0 {
        return MissingInfo(missing);
      }
      var food := FromBody(nextId, body);
      items := items[nextId := food];
      nextId := nextId + 1;
      r := Found(food);
    }

    method EditFoodItemInfo(userId: Option<UserId>, id: FoodId, body: FoodBody) returns (r: FoodResponse)
      requires Valid()
      modifies this
      ensures Valid()
      ensures userId.None? ==> r == Unauthorized
      ensures userId.Some? && id !in old(items) ==> r == NotFound
      ensures userId.Some? && id in old(items) && !Complete(body) ==> r.MissingInfo? && ListsMissing(r.missing, body)
      ensures userId.Some? && id in old(items) && Complete(body) ==>
        (r == NameTaken <==> old(items)[id].name != body.name.value && NameInUse(old(items), body.name.value))
      ensures r.Found? <==>
        && userId.Some? && id in old(items) && Complete(body)
        && (old(items)[id].name == body.name.value || !NameInUse(old(items), body.name.value))
      ensures r.Found? ==> r.food == FromBody(id, body) && items == old(items)[id := r.food]
      ensures !r.Found? ==> items == old(items)
      ensures nextId == old(nextId)
    {
      if userId.None? {
        return Unauthorized;
      }
      if id !in items {
        return NotFound;
      }
      var food := items[id];
      var missing := MissingFields(body);
      if |missing| > 0 {
        return MissingInfo(missing);
      }
      if food.name != body.name.value && NameInUse(items, body.name.value) {
        return NameTaken;
      }
      food := FromBody(id, body);
      items := items[id := food];
      r := Found(food);
    }

    method DeleteExistingFoodItem(userId: Option<UserId>, id: FoodId) returns (r: FoodResponse)
      requires Valid()
      modifies this
      ensures Valid()
      ensures userId.None? ==> r == Unauthorized
      ensures userId.Some? && id !in old(items) ==> r == NotFound
      ensures userId.Some? && id in old(items) ==> r == Deleted
      ensures r == Deleted ==> items == old(items) - {id}
      ensures r != Deleted ==> items == old(items)
      ensures nextId == old(nextId)
    {
      if userId.None? {
        return Unauthorized;
      }
      if id !in items {
        return NotFound;
      }
      items := items - {id};
      r := Deleted;
    }
  }

  /** A complete body for the tomato item the router tests create. */
  const TomatoBody := FoodBody(Some("Tomato"), Some(100.0), Some("g"), Some(18.0), Some(0.2), Some(3.9), Some(0.9))

  /** Creating an item in an empty table succeeds, and sending the same body again is refused with 409. */
  method DuplicateNameScenario(userId: UserId) returns (first: FoodResponse, again: FoodResponse)
    ensures first.Found? && first.food.name == "Tomato" && first.food.calories == 18.0
    ensures again == NameTaken
  {
    var store := new FoodStore();
    first := store.CreateNewFoodItem(Some(userId), TomatoBody);
    assert store.items[first.food.id].name == "Tomato";
    again := store.CreateNewFoodItem(Some(userId), TomatoBody);
  }

  /** A body that gives the name and the serving but no nutrient value lacks exactly the four nutrients. */
  lemma NutrientsMissing(body: FoodBody)
    requires body.name.Some? && body.servingSize.Some? && body.servingUnit.Some?
    requires body.calories.None? && body.fats.None? && body.carbs.None? && body.proteins.None?
    ensures ListsMissing([Calories, Fats, Carbs, Proteins], body)
  {
    forall f ensures f in [Calories, Fats, Carbs, Proteins] <==> !Has(body, f) {
      match f
      case Name =>
      case ServingSize =>
      case ServingUnit =>
      case _ =>
    }
  }

  /** A body without its four nutrient values is refused with 422 naming exactly those, in declared order. */
  method MissingNutrientsScenario(userId: UserId) returns (partial: FoodResponse)
    ensures partial == MissingInfo([Calories, Fats, Carbs, Proteins])
  {
    var store := new FoodStore();
    var noNutrients := FoodBody(Some("Tomato sauce"), Some(100.0), Some("g"), None, None, None, None);
    partial := store.CreateNewFoodItem(Some(userId), noNutrients);
    NutrientsMissing(noNutrients);
    MissingListIsDetermined(partial.missing, [Calories, Fats, Carbs, Proteins], noNutrients);
  }

  /** Deleting an item frees its name: creating it again succeeds, under a new id. */
  method DeleteFreesNameScenario(userId: UserId) returns (first: FoodResponse, afterDelete: FoodResponse)
    ensures first.Found? && afterDelete.Found?
    ensures afterDelete.food.name == first.food.name && afterDelete.food.id != first.food.id
  {
    var store := new FoodStore();
    first := store.CreateNewFoodItem(Some(userId), TomatoBody);
    var deleted := store.DeleteExistingFoodItem(Some(userId), first.food.id);
    assert store.items == map[];
    afterDelete := store.CreateNewFoodItem(Some(userId), TomatoBody);
  }
}
