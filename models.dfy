/**
  Record shapes shared by the nutrition core: food items, the entries of a
  meal's food list, and meals. Database documents become immutable values;
  ObjectIds become naturals, whose order is the order of their hex strings.
 */
module Models {

  /** ObjectId of a FoodItem document. */
  type FoodId = nat

  /** ObjectId of a User document. */
  type UserId = nat

  /** A JavaScript Date: milliseconds since the epoch. */
  type Instant = int

  datatype Option<T> = None | Some(value: T)

  /** A food item with its nutrition facts, given per `servingSize` of `servingUnit`. */
  datatype FoodItem = FoodItem(
    id: FoodId,
    name: string,
    servingSize: real,
    servingUnit: string,
    calories: real,
    fats: real,
    carbs: real,
    proteins: real)

  /** One entry of a meal's food list, with its food item already populated. */
  datatype FoodEntry = FoodEntry(foodItem: FoodItem, servingSize: real, servingUnit: string)

  datatype Meal = Meal(user: UserId, name: string, date: Instant, foodList: seq<FoodEntry>)

  /** Every referenced food item describes a positive serving, so the ratio of servings is defined. */
  predicate Resolved(foodList: seq<FoodEntry>)
  {
    forall i :: 0 <= i < |foodList| ==> foodList[i].foodItem.servingSize > 0.0
  }
}
