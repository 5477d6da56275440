# foodgram backend: a Dafny model of the recipe core

foodgram is a Django REST Framework backend. Users publish recipes. A recipe
has an author, tags, and ingredients with quantities. Users can mark recipes
as favorites, put them in a shopping cart, and subscribe to authors. This
project models the core of that backend as pure functions over one immutable
database value, and proves properties of the model:

- `Models`: the tables of recipes/models.py. It covers the character column widths, the
  `unique_ingredient` constraint on the Amount join table, tag uniqueness,
  foreign keys that must resolve, cascading deletes, and the ingredient label
  `"name, unit"` that the shopping cart report groups by.
- `Ordering`: the default orderings in `Meta.ordering`. Recipes come newest
  first. Ingredients and tags are ordered by name.
- `Membership`: the add/remove toggle that the favorite, shopping cart and
  subscription endpoints share.
- `CartAggregation`: the fold of `download_shopping_cart` over the carted
  recipes' Amount rows. It is proved against a per-label sum, proved to
  conserve the total quantity, and proved independent of the order in which
  the database lists the cart.
- `RecipeViews`, `ApiViews`, `UserViews`: the handlers of recipes/views.py,
  api/views.py and users/views.py. These are `get_queryset`, the toggles,
  `subscribe`/`delete_subscribe`, and the cart report, written as a method
  with loop invariants.
- `ApiSerializers`: the Follow validation in the framework's order (field
  checks, then `Meta.validators`, then `validate`). It also covers the
  `recipes_limit` previews, `validate_email`, and the
  `is_subscribed`/`is_favorited`/`is_in_shopping_cart` flags.
- `RecipePayload`, `ApiRecipeWrite`, `LegacyRecipeWrite`: the recipe write
  path in its two revisions, api/serializers.py and recipes/serializers.py.
  This covers field validation, `create`, and `update` behind PATCH
  (`partial=True`). No transaction is assumed, so a request that fails half
  way leaves behind what it already wrote. In `update`, a PATCH that omits
  `tags` or `ingredients` reaches `validated_data.pop` and fails with a 500.
  By then the recipe's tags and rows are already cleared.

Replies are `Result<Status>` values. `Results.HttpCode` maps them to status
codes. A validation error is a 400, a missing object a 404, and an
`IntegrityError` or any other uncaught exception a 500.

The model follows the code where the code and the usual description of this
API differ:

- `download_shopping_cart` prints the report and answers a bare 200. It
  neither returns a file nor clears the cart.
- Refused toggles answer 400, not 409.
- The Follow serializer refuses an existing subscription before it looks at
  self-subscription.
- In `create` of api/serializers.py the duplicate-ingredient guard never fires
  (see Findings).

## Model

| member | source | states |
|---|---|---|
| Results.HttpCode | backend/foodgram/recipes/views.py:76-81 | A reply maps to a 2xx code exactly when it is a success, and a validation error maps to 400 |
| Models.DisplayKeyUnitSensitive | backend/foodgram/recipes/models.py:83-84 | Two ingredients with the same name get the same label exactly when their units are equal, so the report keeps grams and cups apart |
| Models.FirstCommaOfDisplayKey | backend/foodgram/recipes/models.py:83-84 | For a name without a comma, the label's first comma sits right after the name |
| Models.DisplayKeyInjective | backend/foodgram/recipes/models.py:83-84 | For names without commas, two ingredients share a label exactly when their name and unit are equal |
| Models.DisplayKeyCollision | backend/foodgram/recipes/models.py:83-84 | Two different ingredients can share a label when a name contains ", ", so the report merges their quantities |
| Models.TagFieldsIdentifyTag | backend/foodgram/recipes/models.py:119-133 | In a valid database, a tag's name, its color and its slug each identify the tag, and each fits its column width |
| Models.Select | backend/foodgram/api/serializers.py:198-199 | The rows a filter keeps are exactly the table's rows that satisfy it. Filtering never adds a row and keeps the table free of duplicate (recipe, ingredient) slots |
| Models.DeleteRecipe | backend/foodgram/recipes/models.py:88-92 | Deleting a recipe removes exactly its Amount rows and its favorite and cart links. Every other table and counter is left as it was, and validity is preserved |
| Models.DeleteIngredient | backend/foodgram/recipes/models.py:94-99 | Deleting an ingredient removes exactly the Amount rows that use it. Every other table and counter is left as it was, and validity is preserved |
| Ordering.SortBy | backend/foodgram/recipes/models.py:62 | The ordering the database applies returns a permutation of its input that is sorted by the given total preorder |
| Ordering.LexLeTotal | backend/foodgram/recipes/models.py:81 | Any two names are comparable in the name order |
| Ordering.LexLeTransitive | backend/foodgram/recipes/models.py:138 | The name order is transitive |
| Ordering.RecipesNewestFirst | backend/foodgram/recipes/models.py:62 | Only recipes of the database, or of the one author, each id at most once, with creation times non-increasing. In a valid database every such recipe is listed |
| Ordering.Keep | backend/foodgram/api/serializers.py:280 | `author.recipes` holds exactly the rows written by that author |
| Ordering.IngredientsByName | backend/foodgram/recipes/models.py:81 | Only ingredients of the database, each id at most once, with names non-decreasing. In a valid database every ingredient is listed |
| Ordering.TagsByName | backend/foodgram/recipes/models.py:138 | Only tags of the database, each id at most once, with names non-decreasing. In a valid database every tag is listed |
| Membership.Add | backend/foodgram/recipes/views.py:75-81 | The pair is present afterwards and no other pair changes. The add succeeds (201) exactly when the pair was absent, and otherwise fails with 400 leaving the relation untouched |
| Membership.Remove | backend/foodgram/recipes/views.py:88-92 | The pair is absent afterwards and no other pair changes. The remove succeeds (204) exactly when the pair was present, and otherwise fails with 400 leaving the relation untouched |
| Membership.AddThenRemove | backend/foodgram/recipes/views.py:69-92 | A successful add followed by a remove succeeds and restores the relation |
| Membership.RemoveThenAdd | backend/foodgram/recipes/views.py:69-92 | A successful remove followed by an add succeeds and restores the relation |
| Membership.SecondRequestFails | backend/foodgram/recipes/views.py:75-77 | Repeating an add, or a remove, fails with the 400 message and leaves the relation as the first request left it |
| CartAggregation.AggregateFromSpec | backend/foodgram/recipes/views.py:124-130 | Folding lines into a partial report adds exactly their labels. Each label's total grows by the sum of that label's quantities |
| CartAggregation.Aggregate | backend/foodgram/recipes/views.py:123-130 | The report has a key exactly for each label that occurs, and its value is the sum of that label's quantities. No lines give an empty report |
| CartAggregation.AggregateConcat | backend/foodgram/recipes/views.py:124-125 | Folding two runs of lines equals folding the second run onto the result of the first, one recipe after another |
| CartAggregation.AggregateSnoc | backend/foodgram/recipes/views.py:127-130 | Folding one more line is one more iteration of the inner loop |
| CartAggregation.ConservationFrom | backend/foodgram/recipes/views.py:124-130 | The fold adds exactly the lines' total quantity to the partial report's total |
| CartAggregation.Conservation | backend/foodgram/recipes/views.py:123-130 | The report's totals add up to the total quantity in the cart: nothing is lost or counted twice |
| CartAggregation.AggregatePermutation | backend/foodgram/recipes/views.py:124-130 | Any reordering of the lines yields the same report |
| CartAggregation.FlourExample | backend/foodgram/recipes/views.py:126-130 | 200 g and 150 g of flour plus 1 cup of flour give 350 under "flour, g" and 1 under "flour, cup" |
| CartAggregation.Lines | backend/foodgram/recipes/views.py:125-126 | One line per Amount row, in order, labelled with the row's ingredient label and carrying the row's quantity |
| CartAggregation.RecipeKeys | backend/foodgram/recipes/views.py:125-126 | The labels of a recipe's lines are exactly the labels of that recipe's Amount rows |
| CartAggregation.CartKeys | backend/foodgram/recipes/views.py:122-126 | The labels of the cart's lines are exactly the labels of rows whose recipe is in the cart |
| CartAggregation.CartLinesPermutation | backend/foodgram/recipes/views.py:122-125 | Listing the same carted recipes in another order gives a permutation of the lines |
| CartAggregation.ReportIndependentOfCartOrder | backend/foodgram/recipes/views.py:122-130 | The report does not depend on the order in which the database lists the cart |
| RecipeViews.SelectionFor | backend/foodgram/recipes/views.py:47-57 | A signed-in GET with `is_favorited=1` lists the viewer's favorites, which take precedence over `is_in_shopping_cart=1`, which lists the cart. Any other request lists all recipes |
| RecipeViews.AddTo | backend/foodgram/recipes/views.py:69-106 | 404 for an unknown recipe. Otherwise 201 exactly when the pair was absent, 400 with the relation's message when it was present. Only the chosen relation changes, and validity is preserved |
| RecipeViews.RemoveFrom | backend/foodgram/recipes/views.py:83-117 | 404 for an unknown recipe. Otherwise 204 exactly when the pair was present, 400 otherwise. Only the chosen relation changes, and validity is preserved |
| RecipeViews.Favorite | backend/foodgram/recipes/views.py:69-81 | 404 for an unknown recipe. 201 exactly when the recipe exists and was not a favorite, adding just that pair. A present favorite gives the "already a favorite" 400 and changes nothing |
| RecipeViews.DeleteFavorite | backend/foodgram/recipes/views.py:83-92 | 404 for an unknown recipe. 204 exactly when the recipe exists and was a favorite, removing just that pair. An absent one gives the "not a favorite" 400 and changes nothing |
| RecipeViews.ShoppingCart | backend/foodgram/recipes/views.py:94-106 | 404 for an unknown recipe. 201 exactly when the recipe exists and was not in the cart, adding just that pair. A carted one gives the "already in the cart" 400 and changes nothing |
| RecipeViews.DeleteShoppingCart | backend/foodgram/recipes/views.py:108-117 | 404 for an unknown recipe. 204 exactly when the recipe exists and was in the cart, removing just that pair. An uncarted one gives the "not in the cart" 400 and changes nothing |
| RecipeViews.AddThenRemoveRestores | backend/foodgram/recipes/views.py:69-92 | A successful add followed by a remove answers 204 and restores the database |
| RecipeViews.ToggleLifeCycle | backend/foodgram/recipes/views.py:94-117 | Add, add, remove, remove answer 201, 400, 204, 400 and end in the starting database |
| RecipeViews.DownloadShoppingCart | backend/foodgram/recipes/views.py:121-133 | Answers 200 and changes nothing. The report's keys are exactly the labels of carted rows, each value is the sum for its label, the values add up to the cart's total, and an empty cart gives an empty report |
| RecipeViews.AddRows | backend/foodgram/recipes/views.py:125-130 | The inner loop computes the fold of the recipe's lines into the running report |
| ApiViews.Favorite | backend/foodgram/api/views.py:50-66 | 404 for an unknown recipe. A request succeeds exactly when the verb disagrees with the current state (POST on an absent favorite, DELETE on a present one). Afterwards the pair is a favorite exactly when the verb was POST, and the reply is 201 or 204. A refusal is the matching 400 and changes nothing. No other pair and no other table changes |
| ApiViews.AgreesWithRecipeViews | backend/foodgram/api/views.py:55-66 | The single action answers exactly as the separate `favorite` and `delete_favorite` actions of recipes/views.py |
| ApiViews.PostThenDeleteRestores | backend/foodgram/api/views.py:55-65 | A successful POST followed by DELETE answers 204 and restores the database |
| ApiSerializers.ValidateFollow | backend/foodgram/api/serializers.py:288-310 | Accepts exactly two existing, distinct users not yet subscribed. Unknown users give a field error, an existing pair the "already subscribed" error, and otherwise following oneself is refused |
| UserViews.SubscriptionsTrackToggles | backend/foodgram/users/views.py:23-61 | The `subscriptions` listing gains exactly the new pair after a successful subscribe and loses exactly it after a successful unsubscribe. Every other user's listing is unchanged |
| ApiSerializers.Previews | backend/foodgram/api/serializers.py:277-285 | With no limit or an empty one, all of the author's recipes. A limit n >= 0 gives the first min(n, count) of them. A non-number or a negative limit gives 500. The previews are the author's own recipes, newest first |
| ApiSerializers.LimitAtLeastCountShowsAll | backend/foodgram/api/serializers.py:281-282 | A limit at least the author's recipe count shows the same previews as no limit |
| ApiSerializers.ListedSubscriptionsAreSubscribed | backend/foodgram/api/serializers.py:267-275 | Every listed subscription renders with `is_subscribed` true |
| ApiSerializers.SignUpTakesAddress | backend/foodgram/api/serializers.py:111-116 | After a sign-up the address is taken: signing up with it again is refused as taken, and every other address is accepted exactly when it was before |
| ApiSerializers.SignUp | backend/foodgram/api/serializers.py:100-116 | A sign-up succeeds exactly when the address is new. It then appends the address, keeps the stored ones, and keeps stored addresses pairwise distinct |
| ApiSerializers.FlagsMatchSelection | backend/foodgram/api/serializers.py:143-151 | For a signed-in viewer, `is_favorited` and `is_in_shopping_cart` are true exactly for the recipes the matching `get_queryset` listing selects |
| ApiSerializers.FlagsFollowToggles | backend/foodgram/api/serializers.py:143-151 | After a successful favorite or cart POST its flag is true, after a successful DELETE it is false, and the other flag keeps its value |
| ApiSerializers.AnonymousSeesNoFlags | backend/foodgram/api/serializers.py:118-151 | An anonymous viewer sees `is_subscribed`, `is_favorited` and `is_in_shopping_cart` all false |
| UserViews.Subscribe | backend/foodgram/users/views.py:36-49 | 404 for an unknown author. 201 exactly for two existing, distinct users not yet subscribed, adding just that pair. Otherwise nothing changes. Validity and "nobody follows themself" are preserved |
| UserViews.Unsubscribe | backend/foodgram/users/views.py:51-61 | 404 for an unknown author. 204 exactly when the subscription exists, removing just that pair, and 400 otherwise. Both invariants are preserved |
| UserViews.SubscribeIsMembershipAdd | backend/foodgram/users/views.py:40-47 | For two distinct existing users, subscribing is the generic membership add |
| UserViews.SubscribeThenUnsubscribe | backend/foodgram/users/views.py:36-61 | After a successful subscribe, `is_subscribed` turns true, and unsubscribing answers 204 and restores the database |
| UserViews.SubscriptionLifeCycle | backend/foodgram/users/views.py:36-61 | Subscribe, subscribe, unsubscribe, unsubscribe answer 201, 400, 204, 400 and end in the starting database |
| UserViews.SelfSubscribeRefused | backend/foodgram/api/serializers.py:304-310 | Subscribing to oneself, in any database, is refused with a 4xx code and changes nothing |
| RecipePayload.Missing | backend/foodgram/api/serializers.py:154-162 | A full validation reports missing fields exactly when some field is absent. A partial one reports none |
| RecipePayload.UnknownTags | backend/foodgram/api/serializers.py:156-157 | A tag id is reported exactly when it is submitted and names no tag |
| RecipePayload.UnknownIngredients | backend/foodgram/api/serializers.py:75 | An ingredient id is reported exactly when some entry names it and no such ingredient exists |
| RecipePayload.Rows | backend/foodgram/api/serializers.py:181-187 | One Amount row per entry, in order, with the entry's ingredient and quantity |
| RecipePayload.BulkCreate | backend/foodgram/api/serializers.py:190 | On success the rows are appended to the table. On a table without duplicate slots, the insert succeeds exactly when the result still has none, and otherwise fails with `IntegrityError` |
| RecipePayload.RowsClashIffDuplicate | backend/foodgram/recipes/models.py:108-113 | When the recipe has no rows yet, its new rows break the uniqueness constraint exactly when an ingredient is repeated |
| RecipePayload.InsertRecipe | backend/foodgram/api/serializers.py:173-174 | Saving adds exactly one recipe under the next id, with the submitted fields and author, and leaves every other table and row alone. Validity is preserved when the author exists and the name fits |
| RecipePayload.ClearLinks | backend/foodgram/api/serializers.py:196-199 | Clearing drops exactly the recipe's tags and its Amount rows and nothing else, and preserves validity |
| RecipePayload.Merge | backend/foodgram/api/serializers.py:222-226 | Each submitted scalar field replaces the stored one and each omitted field keeps its value. Author, tags and creation time are kept |
| RecipePayload.MergeIdempotent | backend/foodgram/api/serializers.py:222-226 | Merging the same payload twice equals merging it once. An empty payload changes nothing |
| ApiRecipeWrite.NoErrorsIffAcceptable | backend/foodgram/api/serializers.py:154-162 | The error report is empty exactly when every field check passes |
| ApiRecipeWrite.ReportedUnknownIds | backend/foodgram/api/serializers.py:154-158 | The report names exactly the submitted tag and ingredient ids that do not exist |
| ApiRecipeWrite.ReportedBounds | backend/foodgram/api/serializers.py:154-162 | The report names a low quantity, a low cooking time, an over-long name and a missing name exactly when they occur |
| ApiRecipeWrite.ReportedBlanks | backend/foodgram/api/serializers.py:159-161 | The report names a blank name, or a blank text, exactly when that field is submitted empty |
| ApiRecipeWrite.Collect | backend/foodgram/api/serializers.py:205-218 | The guard of `update` accepts exactly entries with pairwise distinct ingredients, none already collected, and then builds their rows. Otherwise it refuses with the duplicate-ingredient 400 |
| ApiRecipeWrite.CollectAsWritten | backend/foodgram/api/serializers.py:175-188 | The guard of `create` as written looks an entry dict up among collected Ingredient objects, so it never fires: every entry list becomes its rows, repeated ingredients included |
| ApiRecipeWrite.FinishValid | backend/foodgram/api/serializers.py:190-192 | Inserting a recipe's resolving, slot-unique rows and setting existing tags keeps the database valid |
| ApiRecipeWrite.NewRecipeRows | backend/foodgram/api/serializers.py:173-192 | For an accepted payload, the new recipe's rows belong to it and name existing ingredients |
| ApiRecipeWrite.CreateAsWritten | backend/foodgram/api/serializers.py:164-193 | An invalid payload gives 400 and changes nothing. On a valid database an accepted payload gives 201 exactly when no ingredient repeats, storing the recipe, its rows and tags. A repeat gives `IntegrityError` (500) with the saved recipe left behind |
| ApiRecipeWrite.Create | backend/foodgram/api/serializers.py:164-193 | As written, except that a repeated ingredient is refused with the duplicate-ingredient 400, so a valid database never sees `IntegrityError`. Validity is preserved |
| ApiRecipeWrite.CreateAgreesWithoutDuplicates | backend/foodgram/api/serializers.py:177 | Without a repeated ingredient the corrected and the as-written `create` behave identically |
| ApiRecipeWrite.DuplicateIngredientOnCreate | backend/foodgram/api/serializers.py:177-190 | A repeated ingredient makes `create` as written answer 500 (`IntegrityError`), where the corrected guard answers 400 |
| ApiRecipeWrite.DuplicateIngredientExample | backend/foodgram/api/serializers.py:177 | The payload with ingredient 1 twice, on a one-ingredient database, gives 500 as written and 400 corrected |
| ApiRecipeWrite.RebuiltValid | backend/foodgram/api/serializers.py:195-232 | A successful update leaves a valid database |
| ApiRecipeWrite.Update | backend/foodgram/api/serializers.py:195-232 | 404 for an unknown recipe. An invalid payload gives 400 and changes nothing. An omitted `tags` or `ingredients` gives 500 after clearing. A repeated ingredient gives 400 after clearing. Success happens exactly otherwise, rebuilds the recipe, and preserves validity |
| ApiRecipeWrite.UpdateReplacesRows | backend/foodgram/api/serializers.py:196-220 | After a successful update the recipe's rows are exactly those of the submitted entries, and every other recipe's rows are unchanged |
| ApiRecipeWrite.UpdateMergesScalars | backend/foodgram/api/serializers.py:222-229 | After a successful update, omitted scalar fields keep their old values, submitted ones are stored, and the tags are exactly the submitted ones |
| LegacyRecipeWrite.IdErrors | backend/foodgram/recipes/serializers.py:65-72 | The entries' id errors are exactly the unknown ingredient ids |
| LegacyRecipeWrite.ValidateIdMatchesApiField | backend/foodgram/recipes/serializers.py:69-72 | The older revision's `validate_id` accepts an id exactly when the later revision's ingredient field finds no unknown id, and refuses it exactly when that field would report it |
| LegacyRecipeWrite.NoErrorsIffAcceptable | backend/foodgram/recipes/serializers.py:93-100 | The error report is empty exactly when every field check of this revision passes |
| LegacyRecipeWrite.ApiAcceptanceImpliesLegacy | backend/foodgram/recipes/serializers.py:93-100 | Every payload the later revision accepts, this one accepts too |
| LegacyRecipeWrite.AcceptanceIgnoresQuantities | backend/foodgram/recipes/serializers.py:66-67 | Changing any quantity or the cooking time, to zero or a negative value included, never changes acceptance |
| LegacyRecipeWrite.Create | backend/foodgram/recipes/serializers.py:102-126 | An invalid payload gives 400. On a valid database an accepted payload gives 201 exactly when no ingredient repeats. A repeat gives `IntegrityError` with the saved recipe left behind |
| LegacyRecipeWrite.CreateMatchesApiAsWritten | backend/foodgram/recipes/serializers.py:102-126 | On a payload both revisions accept, this `create` equals the later `create` as written |
| LegacyRecipeWrite.Update | backend/foodgram/recipes/serializers.py:128-160 | As the later `update`, but a repeated ingredient reaches the database and fails with `IntegrityError` after the clearing. Success happens exactly for existing recipes with accepted, complete-list, repeat-free payloads |
| LegacyRecipeWrite.UpdateComparedWithApi | backend/foodgram/recipes/serializers.py:128-160 | On a payload both accept, both revisions leave the same database, and their replies agree except a repeated ingredient (500 here, 400 later) |

## Left out

- Images: the `Base64Field` decoding and the stored file are left out. An image is an opaque string, and `image.url` is not modelled.
- Users: password hashing, user creation beyond the e-mail column, and the other sign-up fields are left out. They are framework behaviour.
- Reads: the nesting of the read serializers (author, tags, ingredients with amounts) is left out. Only the three flags are modelled.
- Filters and pagination are left out: `RecipeFilter`, the ingredient name search, `NumPageLimitPagination`, routing and admin.
- Permissions: the permission classes (`IsAuthorOrReadOnly`, `IsAuthenticated`) are not modelled. Handlers take the requesting user's id, and the 401/403 replies are not modelled.
- Transactions: none are assumed, so a failing `create` or `update` keeps what it already wrote. Concurrent requests are not modelled.
- Timestamps: `time_create` and `time_modify` are set by the clock. The creation time is a parameter `now`, and `time_modify` is not modelled.
- The cart report: the `print` of the report is output and is left out. The handler returns the report instead. No file export and no cart clearing exist in the code, so neither is modelled.
- CharField whitespace trimming and Unicode handling are not modelled. Strings are sequences of characters, and names compare by code point instead of the database's collation.
- users/serializers.py is not part of this model. It is superseded, and the subscription views are modelled with the Follow and Subscription serializers of api/serializers.py, since users/serializers.py lacks the `SubscriptionSerializer` that users/views.py imports.
- The Follow model: users/models.py is not part of this model. Follow is a set of (user, author) pairs whose uniqueness the set representation enforces.
- Serializer wiring: recipes/views.py and api/views.py import the recipe write serializer of recipes/serializers.py. Both revisions are modelled and compared, and the views' toggles do not depend on the choice.
- Error structure: DRF's nested, per-index error structure is abstracted to a set of field errors.
- `recipes_limit`: the result of Python's `int()` on the query parameter is the input (`LimitParam`). String parsing is not modelled.
- Ids: ids are natural numbers. A negative id submitted to the older revision's `IntegerField` is not modelled; it would name no ingredient and be refused the same way.
- Order of the cart and of rows: the order in which the database lists the cart is a parameter. The order of a recipe's Amount rows (`ordering = ['recipe']` leaves ties) is taken as table order. Both choices are covered by the proof that the report does not depend on line order.
- The many-to-many sync: `recipe.ingredients.set`/`add` after `bulk_create` is taken to add nothing, since the Amount rows already link exactly those ingredients.
- Integer columns: `cooking_time` and `amount` are `IntegerField` columns (recipes/models.py:47, :100), and the model stores them as unbounded integers. The range the database accepts depends on the backend (Django documents -2147483648..2147483647; SQLite fails only beyond 64 bits), and the backend's settings are not part of this model. The serializers bound these values only from below, or not at all, so an oversized value passes validation and then fails in the database with a 500. The members below promise success for such values.
- RecipePayload.InsertRecipe: does not model the failure of `recipe.save()` for a cooking time outside the integer column's range, which answers 500 with nothing saved.
- RecipePayload.BulkCreate: does not model the failure of `bulk_create` for a quantity outside the integer column's range, which answers 500 with no row inserted.
- ApiRecipeWrite.CreateAsWritten: does not model the 500 for an out-of-range value. An oversized cooking time fails at `recipe.save()` (api/serializers.py:174) with nothing written. An oversized quantity fails at `bulk_create` (:190) and leaves the saved recipe without Amount rows or tags.
- ApiRecipeWrite.Create: does not model the 500 for an out-of-range value, with the same outcomes as the as-written `create`.
- ApiRecipeWrite.Update: does not model the 500 for an out-of-range value, which comes after the clearing (api/serializers.py:196-199). An oversized quantity fails at `bulk_create` (:220) and leaves the recipe stripped. An oversized cooking time fails at `recipe.save()` (:228), after the new Amount rows are inserted, and leaves the recipe with those rows, no tags and its old scalar fields.
- LegacyRecipeWrite.Create: does not model the 500 for an out-of-range value. An oversized cooking time fails at `recipe.save()` (recipes/serializers.py:111) with nothing written. An oversized quantity fails at `bulk_create` (:123) and leaves the saved recipe without Amount rows or tags.
- LegacyRecipeWrite.Update: does not model the 500 for an out-of-range value, which comes after the clearing. An oversized quantity fails at `bulk_create` (recipes/serializers.py:148) and leaves the recipe stripped. An oversized cooking time fails at `recipe.save()` (:156) and leaves the new Amount rows with no tags and the old scalar fields.
- ApiRecipeWrite.Update: a PATCH entry that omits `amount` is not modelled, since an entry always carries an id and an amount. Under `partial=True` the framework skips the missing nested field, so such an entry passes validation, the clearing runs, and `bulk_create` fails on the NOT NULL quantity with a 500, leaving the recipe stripped.
- LegacyRecipeWrite.Update: a PATCH entry that omits `id` or `amount` is not modelled, for the same reason. Such an entry passes partial validation, and after the clearing `obj['id']` raises `KeyError` (or the missing quantity fails NOT NULL), giving a 500 with the recipe stripped.
- ApiSerializers.SignUp: the e-mail addresses are a side model of the users' e-mail column, a sequence of their own rather than a field of the database record. Sign-up does not create the user row.
- ApiSerializers.Previews: paging through the subscribed authors is not modelled. It states the previews of one author.

## Findings

| source | as written | input that shows it | evidently intended | confidence | as-written member | corrected member |
|---|---|---|---|---|---|---|
| backend/foodgram/api/serializers.py:177 | The guard `obj in ingredients_list` looks the submitted entry (a dict) up among collected Ingredient objects, so it never fires. A repeated ingredient reaches `bulk_create`, which the `unique_ingredient` constraint refuses with `IntegrityError` (500), and the recipe saved just before remains without ingredients or tags | `"ingredients": [{"id": 1, "amount": 5}, {"id": 1, "amount": 10}]` with ingredient 1 existing | `ingredient in ingredients_list`, as in `update`, refusing the repeat with a 400 before any Amount row is inserted | not executed | ApiRecipeWrite.CreateAsWritten (with ApiRecipeWrite.CollectAsWritten and ApiRecipeWrite.DuplicateIngredientExample) | ApiRecipeWrite.Create |
