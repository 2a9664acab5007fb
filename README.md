# Nutrition tracking core of scale-down-api

scale-down-api is a REST service for logging meals and their nutrition. Food items carry nutrients per serving. A meal lists food entries, each naming an item and the amount eaten. This project models the part of the service that computes and guards that data:

- **Meal totals** (`meal_totals.dfy`, module `MealTotals`): the `totals` getter of a meal. Each entry adds its nutrients scaled by `entry.servingSize / item.servingSize`.
- **Recent foods** (`recent_foods.dfy`, module `RecentFoods`): `updateRecentFoods`. It merges a new meal's foods into the user's recent-foods record, sorts by food id, keeps one entry per food and caps the list at 20. The record is a class and the method mutates it.
- **Date parameter check** (`date_param.dfy`, module `DateParam`): `isValidParamDate`. It splits at `-` and compares the year, month and day segments with numbers using JavaScript's loose string-to-number conversion. Whitespace trimming, sign, fraction, exponent, `0x`/`0o`/`0b` prefixes and `Infinity` are modelled. The conversion is exact: rounding to a double is not modelled (see "## Left out").
- **User totals** (`user_totals.dfy`, module `UserTotals`): `getUserTotals`. It checks the query parameters, picks a time window, selects the user's meals inside it and sums their totals. The handler is a method with loops, proved equal to the Dafny function `UserTotals` that states its first response.
- **Food items** (`food_controller.dfy`, module `FoodController`): get, create, edit and delete. The collection is a class holding a map from id to food item.
- `models.dfy` (module `Models`) holds the shared records: food items, food entries and meals.

Nutrient values are mathematical reals. Ids are natural numbers: an ObjectId's hex string orders like the number it spells. Instants are integer milliseconds. Reading a date string with `new Date` is a function parameter `parse` that returns an instant, or None for Invalid Date. The current time is a parameter `now`.

## Model

| member | source | states |
|---|---|---|
| MealTotals.Contribution | models/meal.js:31-36 | an entry's nutrients: the multiplier `servingSize / foodItem.servingSize` times each of the item's four values |
| MealTotals.ContributionPerUnit | models/meal.js:30-36 | an entry contributes, per unit of its serving, exactly the item's nutrient per unit of the item's serving, for each of the four nutrients |
| MealTotals.GetTotals | models/meal.js:22-39 | the forEach loop returns the sum of every entry's contribution in list order; an empty food list gives all zeros |
| MealTotals.SumTotalsAppend | models/meal.js:29-37 | totals are additive: the totals of two concatenated food lists are the sum of their totals |
| MealTotals.SumTotalsSingle | models/meal.js:29-37 | a one-entry meal's totals are that entry's contribution |
| MealTotals.FullServingContribution | models/meal.js:30-36 | eating exactly the item's serving size contributes exactly the item's listed nutrients |
| MealTotals.ContributionScales | models/meal.js:30-36 | scaling the amount eaten by k scales the contribution by k |
| MealTotals.ContributionIgnoresUnit | models/meal.js:30-36 | the entry's serving unit does not influence its contribution |
| MealTotals.TotalsIgnoreUnits | models/meal.js:29-37 | two food lists that differ only in serving units have the same totals |
| MealTotals.DinnerExample | routes/meal-routes.js:276-305 | the documented Dinner meal (50 g ground beef, 10 g tomato) totals 167.8 kcal, 15.02 fats, 0.39 carbs, 7.09 proteins |
| RecentFoods.RecentFoodsRecord.constructor | utils/update-recent-foods.js:9-11 | a new record belongs to the meal's user and has no foods |
| RecentFoods.Insert | utils/update-recent-foods.js:21 | inserting into a list sorted by food id keeps it sorted and adds exactly that one entry |
| RecentFoods.SortByFood | utils/update-recent-foods.js:21 | the sort yields a list ordered by food id that is a permutation of its input |
| RecentFoods.FoodIdsPermutation | utils/update-recent-foods.js:21 | reordering the list does not change which food ids it holds |
| RecentFoods.KeepFirst | utils/update-recent-foods.js:24-26 | the duplicate filter keeps only input entries, keeps every food id, leaves each id once, and on a sorted list yields strictly ascending ids |
| RecentFoods.DistinctIdsCount | utils/update-recent-foods.js:24-31 | a list with distinct ids has as many ids as entries, so the cap counts foods |
| RecentFoods.Cap | utils/update-recent-foods.js:29-31 | the result is the longest prefix of the list with at most 20 entries; a shorter result is the whole list |
| RecentFoods.UpdatedFoods | utils/update-recent-foods.js:14-31 | the new foods: old entries plus the meal's foods stamped with its date, sorted by id, first entry per id kept, cut to 20 |
| RecentFoods.CapKeepsSmallest | utils/update-recent-foods.js:29-31 | cutting an ascending list to 20 keeps ids smaller than every id it drops |
| RecentFoods.RecentFoodsShape | utils/update-recent-foods.js:20-31 | after sort, filter and cut the list has at most 20 entries, ascending ids, and only candidate entries |
| RecentFoods.RecentFoodsKeptIds | utils/update-recent-foods.js:20-31 | with at most 20 distinct foods every one is kept; with more, exactly the 20 smallest ids are kept |
| RecentFoods.AscendingDeterminedByIds | utils/update-recent-foods.js:21-26 | two strictly ascending lists with the same ids agree position by position on ids |
| RecentFoods.SortOrderOnlyChoosesDates | utils/update-recent-foods.js:21-31 | any sorted permutation of the candidates gives the same ids in the same positions; the sort's tie order only decides which date a food keeps |
| RecentFoods.CandidateIds | utils/update-recent-foods.js:14-18 | the candidate list holds the previous foods' ids plus every food id of the meal |
| RecentFoods.UpdatedFoodsShape | utils/update-recent-foods.js:4-31 | the new recent foods have at most 20 entries, ascending distinct ids, and each is an old entry or a meal food stamped with the meal's date |
| RecentFoods.UpdatedFoodsIds | utils/update-recent-foods.js:4-31 | the new ids are the old ids plus the meal's ids when there are at most 20 of those, else the 20 smallest of them |
| RecentFoods.UpdateRecentFoods | utils/update-recent-foods.js:4-36 | the record found for the user, or a fresh one when none exists, ends holding the updated foods of its old foods and the meal, for the meal's user |
| DateParam.Split | utils/validate-date-param.js:5 | splitting always yields at least one segment, so the year segment always exists |
| DateParam.JoinSplit | utils/validate-date-param.js:5 | joining the split segments with `-` gives back the parameter |
| DateParam.SplitJoin | utils/validate-date-param.js:5 | splitting dash-free segments joined with `-` gives back the segments |
| DateParam.ToNumber | utils/validate-date-param.js:7-15 | the number a segment compares as: trimmed of white space; empty gives 0; a `0x`/`0o`/`0b` prefix reads unsigned digits of that radix; otherwise an optional sign, then `Infinity` or a decimal with optional fraction and exponent; anything else NaN |
| DateParam.IsValidParamDate | utils/validate-date-param.js:3-22 | an accepted parameter is a string whose first segment has length 4 |
| DateParam.TrailingSegmentsIgnored | utils/validate-date-param.js:5-18 | segments after the day do not affect the verdict |
| DateParam.LoneYearAccepted | utils/validate-date-param.js:6-18 | a lone four-digit year between 2001 and 2999 passes, since missing month and day compare false both ways |
| DateParam.DigitsNumber | utils/validate-date-param.js:7-15 | a digit string converts to the number it spells |
| DateParam.CheckOnNumericSegments | utils/validate-date-param.js:6-18 | with numeric segments, the check accepts iff 2000 < year < 3000, 1 <= month <= 13 and 1 <= day <= 31 |
| DateParam.DateStringAccepted | utils/validate-date-param.js:3-22 | a padded YYYY-MM-DD string is accepted iff its year, month and day are within those bounds |
| DateParam.LooseExamples | utils/validate-date-param.js:1-18 | February 31 and month 13 pass; years 2000 and 3000, month 0 or 14 and day 32 fail |
| DateParam.NonNumericSegmentsAccepted | utils/validate-date-param.js:11-16 | a month and day that convert to NaN pass, because every comparison with NaN is false |
| DateParam.LettersAccepted | utils/validate-date-param.js:11-16 | "2021-ab-cd" is accepted |
| DateParam.ExponentYearValue | utils/validate-date-param.js:7 | the year segment "21e2" converts to 2100 |
| DateParam.ExponentYearAccepted | utils/validate-date-param.js:6-18 | "21e2" passes as a date parameter |
| UserTotals.Midnight | controllers/user-controller.js:233-234 | today's midnight is a day boundary at or before now, less than one day before it |
| UserTotals.SelectMeals | controllers/user-controller.js:239-242 | a meal is selected iff it is the user's and its date lies in the window, both ends included; each selected meal occurs as often as in the stored meals |
| UserTotals.ValidParamsAreStrings | controllers/user-controller.js:200-209 | a query that passes validation holds only single string values |
| UserTotals.ValidateParams | controllers/user-controller.js:200-209 | the loop over the query keys reports valid iff every value passes the date check |
| UserTotals.SumMealTotals | controllers/user-controller.js:250-262 | the loop over the found meals returns the sum of their meal totals |
| UserTotals.SearchWindow | controllers/user-controller.js:211-236 | the window the parameters select: one day from `date`, startDate to endDate, or today; an unreadable bound or a lone range bound instead |
| UserTotals.UserTotals | controllers/user-controller.js:184-266 | the handler's first response: 401 exactly when there is no user; a 200 echoes the user and the query with the summed totals |
| UserTotals.ResolveWindow | controllers/user-controller.js:211-236 | the reassignments of the search bounds give the window that `SearchWindow` defines: a readable window, an Invalid Date bound, or a lone range bound |
| UserTotals.GetUserTotals | controllers/user-controller.js:184-266 | the handler's first response equals the one the function `UserTotals` defines; it is 401 exactly when there is no user |
| UserTotals.TooManyOptionsFirst | controllers/user-controller.js:190-196 | with date, startDate and endDate all given, the answer is 400 before any format check |
| UserTotals.InvalidParamRejected | controllers/user-controller.js:198-209 | once a user is present and not all three options are given, any parameter that fails the date check gives 400 |
| UserTotals.DateParamWindow | controllers/user-controller.js:215-219 | with date, the window runs from that date to one day later, and a lone range bound is ignored; a date `new Date` cannot read makes the meal query fail |
| UserTotals.RangeParamsWindow | controllers/user-controller.js:220-223 | with both startDate and endDate and no date, the window runs from start to end; either end that `new Date` cannot read makes the meal query fail |
| UserTotals.LoneRangeBoundRejected | controllers/user-controller.js:224-229 | one range bound without the other gives 400 |
| UserTotals.DefaultWindowIsToday | controllers/user-controller.js:230-236 | without date parameters the window runs from today's midnight to the next midnight |
| UserTotals.MealsTotalsAppend | controllers/user-controller.js:257-262 | summed totals of concatenated meal lists are the sum of the two sums |
| UserTotals.MealsTotalsPermutation | controllers/user-controller.js:239-262 | the order in which the database returns meals does not change the totals |
| UserTotals.DateMatchesOneDayRange | controllers/user-controller.js:215-223 | `date=D` gives the same totals as `startDate=D&endDate=D+1 day`; when D cannot be read, both fail |
| UserTotals.OneDayLater | controllers/user-controller.js:218-219 | moving a bound by a day adds one day's milliseconds, and an Invalid Date stays invalid |
| UserTotals.LooseDateReachesQuery | controllers/user-controller.js:198-247 | a month-13 date passes the format check, so when `new Date` cannot read it the request fails at the meal query instead of getting a 400 |
| FoodController.Rank | controllers/food-controller.js:32-40 | each field sits at its rank in the required-field list |
| FoodController.CompleteHasAll | controllers/food-controller.js:42-49 | a body is complete iff it gives every required field |
| FoodController.MissingFields | controllers/food-controller.js:42-47 | the loop lists exactly the absent fields, in required-field order; the list is empty iff the body is complete |
| FoodController.RankAscendingDetermined | controllers/food-controller.js:42-47 | two lists in required-field order with the same members are equal |
| FoodController.MissingListIsDetermined | controllers/food-controller.js:42-55 | the missing-field report is the only list that names the absent fields in order |
| FoodController.FoodStore.GetFoodItemInfo | controllers/food-controller.js:3-16 | 401 without a user; with a user, 404 iff the id is unknown and otherwise 200 with the stored item; nothing changes |
| FoodController.FoodStore.CreateNewFoodItem | controllers/food-controller.js:18-71 | 401, then 409 for a name in use, then 422 listing missing fields, else a new item with a fresh id is stored; names stay unique and a rejected request changes nothing |
| FoodController.FoodStore.EditFoodItemInfo | controllers/food-controller.js:73-134 | 401, 404, 422 in that order, then 409 only when the name changes to one in use, else the item is overwritten under the same id |
| FoodController.FoodStore.DeleteExistingFoodItem | controllers/food-controller.js:136-154 | 401, 404 for an unknown id, else the item is removed and nothing else changes |
| FoodController.DuplicateNameScenario | test/__tests__/food-router.tests.js:84-103 | creating Tomato succeeds with 18 calories, and creating it again answers "name is taken" |
| FoodController.MissingNutrientsScenario | controllers/food-controller.js:42-55 | a body with only name and serving gets 422 listing calories, fats, carbs and proteins, in that order |
| FoodController.DeleteFreesNameScenario | controllers/food-controller.js:136-154 | after an item is deleted its name can be used again, and the new item gets a different id |

## Left out

- HTTP, Express and the MongoDB queries. `find`, `findOne`, `findById`, `populate`, `save` and `delete` are modelled as filters over sequences and as updates of a map. Database errors are not modelled.
- Asynchrony. `updateRecentFoods` is started without being awaited. The race between two updates of the same record, and a later meal overtaking an earlier one, are not modelled.
- Floating point. Nutrients and multipliers are exact reals, so rounding in `+=` and `/` is absent.
- ToNumber: a segment converts to its exact value, whereas JavaScript's `Number()` rounds a decimal string to the nearest double. A segment closer to a bound than a double can resolve therefore compares differently, e.g. `Number("13.00000000000000001")` is 13, while the model gets a value above 13.
- IsValidParamDate: because of that exact conversion, a month or day within rounding distance of a bound is decided differently. The model rejects "2021-13.00000000000000001-01", which the JavaScript code accepts. Every zero-padded YYYY-MM-DD string is decided alike, because its segments are small integers that a double holds exactly.
- DigitsNumber: it states that every digit string converts to the integer it spells. That holds in JavaScript only up to 2^53; a longer string such as "9007199254740993" rounds to a neighbouring double.
- A food item whose serving size is 0, or an entry whose food item was deleted. The JavaScript code computes NaN or throws for these. The totals functions require every item's serving size to be positive.
- Time zones, daylight saving and `Date` parsing. Which strings `new Date` reads, and as which instant, is the parameter `parse`. "Today" is the UTC day of `now`, and one day is always 86 400 000 ms.
- QueryFailed: the model assumes the meal query refuses an Invalid Date bound. Mongoose's date casting decides that, and it is not part of this model. The error then goes to Express through the async wrapper; the resulting status is not modelled.
- Response bodies and messages, such as the 422 text listing missing fields and the 200 body echoing the query. Responses are datatype constructors.
- Sending twice. In `getUserTotals`, a failed parameter check inside `map` and a lone range bound both send a 400 but do not return. The handler then attempts a second response, a 200, unless the meal query throws first. That call throws because the headers were already sent. The model takes the first response as the outcome.
- The window used after a lone range bound. The code searches from `now` to `now`, but only after a response was already sent, so the model ends at the 400.
- `req.query !== null` is always true in Express, so the model always validates.
- ObjectId comparison in the recent-foods sort. `a.foodItem > b.foodItem` compares ObjectIds through their 24-digit hex strings. That order is the order of the numbers they spell, so the model compares ids as numbers.
- `t.foodItem === v.foodItem` in the duplicate filter compares ObjectId objects by reference, so it is false for two distinct objects with the same value. The model compares ids by value, which is what the comment "filter out any duplicates" on the line before the filter says is intended.
- The sort's handling of equal ids. It depends on the JavaScript engine, because the comparator never returns 0. `SortByFood` is one sorted permutation, and `SortOrderOnlyChoosesDates` shows that any other gives the same ids.
- UTF-16 code units versus code points in `length`. Strings are sequences of code points. A segment outside the Basic Multilingual Plane converts to NaN either way.
- String-to-number conversion of numeric separators and other forms that `Number()` rejects. These convert to NaN in the model, as they do in JavaScript.
- Create with no `name` in the body. `findOne({ name: undefined })` is modelled as finding no item, so the request goes on to the 422 for the missing name.
- Deleting a food item does not remove it from meals or recent-food lists, because the JavaScript delete handler does not cascade either.
- User accounts, authentication tokens, routes, middleware and the meal controller. These are not part of this model. The user id arrives as an `Option`.
- Status codes in the route tests. The tests at test/__tests__/food-router.tests.js:66-81 and :149-166 expect 400 for a missing field. That 400 would come from `foodItemValidationChain`, which routes/food-routes.js:58-62 and :171-175 place in front of the controller. controllers/food-controller.js does not define it, so it is not part of this model. The model follows the controller, which answers 422.
- The window's end. It is included (`$gte`/`$lte`), so a meal at exactly the next midnight counts in both days. The model follows the code.
