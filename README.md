# django-dish-api: recipe list queries and user creation

A model of the decision logic of a Django REST Framework API where users keep
their own recipes, tags and ingredients. There are two parts.

- **The `core` models and the user manager** (`CoreModels`). A `Database`
  object holds the tables, with the next id of each table's sequence, in one
  field of type `Tables`. `create_user`, `create_superuser`, saving a tag,
  ingredient or recipe, and deleting a user with `on_delete=CASCADE` are
  methods that replace that value. Each states the whole new state. Each method
  keeps the tables' invariant `Valid()`: ids and email addresses are unique,
  no stored address is empty, and every owner and link refers to a row that
  exists. Django's `normalize_email` and the opaque password hash are
  functions.
- **The views of the `recipe` application** (`RecipeViews`). The tag,
  ingredient and recipe list queries are pure functions of the tables and the
  query parameters. Each one models the SQL join explicitly, with one row per
  link, before `.distinct()`. The module also holds `_params_to_ints`,
  `get_serializer_class`, and the two `perform_create` methods, which stamp
  the requester as owner.

Support modules:

- `PyText` and `PyInt` model the Python built-ins the code relies on:
  `str.strip`, `str.lower`, `str.split`, `str.rsplit(sep, 1)` and `int(str)`.
  For `int(str)` that means surrounding whitespace, a sign, and underscores
  between digits. The two built-ins skip different whitespace: `str.strip`
  removes every character `str.isspace` accepts, including the ASCII
  separators U+001C to U+001F, while `int(str)` does not skip those four,
  so `int("\x1c1")` raises `ValueError`.
- `Rows` holds the filter and the `DISTINCT` step.
- `NameOrder` holds `order_by("-name")`.
- `Results` holds Option and Result.

The requesting user is an input: the id that token authentication
established. A `ValueError` from `int()` becomes a `QueryError` result. The
views do not catch that error.

## Model

| member | source | states |
|---|---|---|
| CoreModels.PasswordChecks | app/core/models.py:18 | the password given to `set_password`, and no other, checks against the stored hash; `None` gives a password nothing checks against |
| CoreModels.NormalizeEmailWithoutAt | app/core/models.py:16 | an address without `@` is stored as given |
| CoreModels.NormalizeEmailLowersDomain | app/core/models.py:16 | for a stripped address, the local part is kept and the part after the last `@` is lowercased |
| CoreModels.NormalizeEmailParts | app/core/models.py:16 | the stripped address is a local part without leading white space, its last `@`, and a domain without `@` or trailing white space; normalization keeps that local part and lowercases that domain |
| CoreModels.NormalizeEmailIdempotent | app/core/models.py:16 | normalizing an already normalized address changes nothing |
| CoreModels.NormalizeEmailEmpty | app/core/models.py:14-16 | normalization yields "" only for "", so a non-empty address is never stored empty |
| CoreModels.Database.constructor | app/core/models.py:31-34 | an empty database has empty tables and satisfies the table invariant |
| CoreModels.Database.CreateUser | app/core/models.py:8-20 | the call succeeds exactly when the address is given and its normalized form is not in the table; "" or `None` fails with EmptyEmail, a taken normalized address with DuplicateEmail, and both leave every table unchanged; on success exactly one user is appended, with a fresh id, the normalized address, the extra fields and the hashed password, and nothing else changes; the invariant is kept |
| CoreModels.Database.CreateSuperuser | app/core/models.py:22-28 | succeeds exactly when `create_user` would, with the same errors; on success exactly one user is appended, with both `is_staff` and `is_superuser` set, and nothing else changes |
| CoreModels.Database.CreateAttr | app/core/models.py:46-53 | a new tag or ingredient with exactly one owner, an existing user, is appended with a fresh id to its own table, and its string form is the given name; nothing else changes; the invariant is kept |
| CoreModels.Database.CreateRecipe | app/recipe/views.py:91-93 | a new recipe with the given owner and links is appended with a fresh id; nothing else changes; the invariant is kept |
| CoreModels.Database.DeleteUser | app/core/models.py:50 | the new tables are the cascade of the old ones (see CascadeContents); the invariant is kept |
| CoreModels.CascadeContents | app/core/models.py:50 | after deleting a user, the users, tags and ingredients left are exactly the other users and the rows other users own; the recipes left are exactly the other users' recipes, each with its links cut down to the rows that still exist |
| CoreModels.Cascade | app/core/models.py:50 | the tables after a user is deleted with `on_delete=CASCADE`; see CascadeContents and CascadeValid |
| CoreModels.CascadeValid | app/core/models.py:50 | the tables left by the cascade satisfy the table invariant, and the user ids lose exactly the deleted one |
| CoreModels.UsersWithout | app/core/models.py:50 | the users kept are exactly those with another id, and duplicates do not appear |
| CoreModels.AttrsWithout | app/core/models.py:50 | the tags or ingredients kept are exactly those owned by another user, and duplicates do not appear |
| CoreModels.RecipesWithout | app/core/models.py:50 | the recipes kept are exactly those owned by another user, and duplicates do not appear |
| CoreModels.AddUserValid | app/core/models.py:17-19 | saving a user with a fresh id and a non-empty address no other user has keeps the tables valid |
| CoreModels.AddTagValid | app/core/models.py:46-50 | saving a tag with a fresh id and an existing owner keeps the tables valid |
| CoreModels.AddIngredientValid | app/core/models.py:46-50 | saving an ingredient with a fresh id and an existing owner keeps the tables valid |
| CoreModels.AddRecipeValid | app/recipe/views.py:91-93 | saving a recipe with a fresh id, an existing owner and links to existing rows keeps the tables valid |
| Rows.Filter | app/recipe/views.py:34 | the rows kept are exactly the rows of the table that satisfy the condition |
| Rows.FilterNoDup | app/recipe/views.py:34 | filtering a table without duplicates yields no duplicates |
| Rows.Distinct | app/recipe/views.py:34 | `.distinct()` yields no duplicates and exactly the rows of its input |
| Rows.DistinctOfNoDup | app/recipe/views.py:80 | `.distinct()` on rows without duplicates changes nothing |
| NameOrder.LexLeTotal | app/recipe/views.py:34 | any two names are ordered one way or the other |
| NameOrder.LexLeTransitive | app/recipe/views.py:34 | the name order is transitive |
| NameOrder.LexLeAntisymmetric | app/recipe/views.py:34 | names ordered both ways are equal |
| NameOrder.SortByNameDesc | app/recipe/views.py:34 | `order_by("-name")`; see SortByNameDescCorrect |
| NameOrder.SortByNameDescCorrect | app/recipe/views.py:34 | `order_by("-name")` yields names in descending order, is a permutation, and keeps rows without duplicates free of them |
| PyText.Trim | app/core/models.py:16 | for a given set of white space, the result is the slice of the input between a prefix and a suffix made only of that white space, and neither end of the result is white space |
| PyText.Strip | app/core/models.py:16 | `str.strip()`: the same slice for the characters `str.isspace` accepts |
| PyText.TrimFrom | app/core/models.py:16 | every character of the trimmed text comes from the input |
| PyText.TrimKeeps | app/core/models.py:16 | every character of the input outside the trimmed white space is kept |
| PyText.RSplitOnceEnds | app/core/models.py:16 | for text without whitespace at its ends, the part before the last separator does not start with whitespace and the part after it does not end with it |
| PyText.LowerIdempotent | app/core/models.py:16 | lowercasing twice is lowercasing once |
| PyText.Split | app/recipe/views.py:65 | `split(",")` yields at least one piece, and no piece contains a comma |
| PyText.SplitJoin | app/recipe/views.py:65 | splitting the comma-joined pieces, none of which has a comma, gives the pieces back |
| PyText.JoinSplit | app/recipe/views.py:65 | joining the pieces of a split gives the text back |
| CoreModels.NormalizeEmail | app/core/models.py:16 | `normalize_email`; see NormalizeEmailWithoutAt, NormalizeEmailLowersDomain, NormalizeEmailParts, NormalizeEmailIdempotent and NormalizeEmailEmpty |
| PyText.RSplitOnceUnique | app/core/models.py:16 | `rsplit("@", 1)` splits at the last `@` |
| PyInt.ParseShowInt | app/recipe/views.py:28 | `int()` reads back the decimal form of every integer |
| PyInt.ParseIntNeedsDigit | app/recipe/views.py:28 | text without a digit is not an integer |
| PyInt.IntSkipsAsciiSpace | app/recipe/views.py:28 | `int(" 7\n")` is 7: ASCII white space around the digits is skipped |
| PyInt.IntKeepsFileSeparator | app/recipe/views.py:28 | U+001C is white space to `str.strip` but not to `int()`: `int("\x1c7")` is an error |
| PyInt.ParseInt | app/recipe/views.py:28 | `int(str)`; see ParseShowInt, ParseIntNeedsDigit, IntSkipsAsciiSpace and IntKeepsFileSeparator |
| RecipeViews.ParseAssignedOnly | app/recipe/views.py:28 | `bool(int(...))` of the `assigned_only` parameter, with 0 as the default; see AssignedOnlyOfInteger and AssignedOnlyNonInteger |
| RecipeViews.AssignedOnlyOfInteger | app/recipe/views.py:28 | an absent `assigned_only` is false; an integer value is true exactly when it is nonzero |
| RecipeViews.AssignedOnlyNonInteger | app/recipe/views.py:28 | a value without digits ("", "true") is an error, not false |
| RecipeViews.LinkRows | app/recipe/views.py:32 | the join of a tag or ingredient with the recipes yields that row exactly when some recipe links to it |
| RecipeViews.LinkRowsCount | app/recipe/views.py:32-34 | the join yields one copy of the row per linking recipe |
| RecipeViews.AttrJoinRows | app/recipe/views.py:30-32 | the rows before `.distinct()` are exactly the requester's rows, restricted to rows some recipe links to when the flag is set |
| RecipeViews.AttrQueryset | app/recipe/views.py:26-34 | the error comes exactly from a non-integer `assigned_only`; otherwise the list is sorted by name descending and has no duplicates, and it holds a row iff the row is the requester's and, when the flag is nonzero, some recipe links to it |
| RecipeViews.AttrQuerysetZero | app/recipe/views.py:28-32 | `assigned_only=0` lists the same rows as no parameter |
| RecipeViews.Collect | app/recipe/views.py:65 | the list of parsed values, in order, iff every token parsed; otherwise the error names a token that did not |
| RecipeViews.ParseAll | app/recipe/views.py:65 | one integer per token, in order, iff every token is an integer; otherwise the error names a token that is not |
| RecipeViews.ParamsToInts | app/recipe/views.py:63-65 | one integer per comma-separated piece, in order, iff every piece is an integer |
| RecipeViews.ParamsToIntsOfJoinIds | app/recipe/views.py:63-65 | a non-empty list of ids written in decimal and joined by commas parses back to that list |
| RecipeViews.ParamsToIntsEmptyPiece | app/recipe/views.py:63-65 | an empty piece ("1,,2", "1,", ",") makes the whole list an error |
| RecipeViews.IdFilter | app/recipe/views.py:73-78 | a missing or empty parameter sets no filter; otherwise the filter accepts a recipe iff some linked id is in the parsed list, and the error comes from the parse |
| RecipeViews.MatchCount | app/recipe/views.py:75-78 | the join with the linked rows yields rows for a recipe iff it matches the filter |
| RecipeViews.IntersectionNonEmpty | app/recipe/views.py:75-78 | `__id__in` on a link set matches iff some linked id is in the list |
| RecipeViews.Copies | app/recipe/views.py:75-78 | n join rows of the same recipe |
| RecipeViews.RecipeJoinRows | app/recipe/views.py:72-78 | the rows before `.distinct()` are exactly the requester's recipes that match both filters |
| RecipeViews.RecipeQueryset | app/recipe/views.py:67-80 | the error comes exactly from a non-empty `tags` or `ingredients` that does not parse; otherwise the list has no duplicates and holds a recipe iff the requester owns it, some tag is in the `tags` list when that is non-empty, and some ingredient is in the `ingredients` list when that is non-empty |
| RecipeViews.RecipeQuerysetEmptyParam | app/recipe/views.py:73-78 | an empty `tags` or `ingredients` behaves as an absent one |
| RecipeViews.SerializerClassFor | app/recipe/views.py:82-89 | `retrieve` selects the detail serializer, `upload_image` the image serializer, and every other action the default |
| RecipeViews.PerformCreateAttr | app/recipe/views.py:36-38 | the new tag or ingredient is owned by the requester, whatever owner the payload names, prints as the payload's name, and is appended to its table alone; only that table's id counter advances |
| RecipeViews.PerformCreateRecipe | app/recipe/views.py:91-93 | the new recipe is owned by the requester, whatever owner the payload names, with the payload's fields and links, and is appended to the recipe table alone; only the recipe id counter advances |

## Left out

- Token authentication, the permission classes and the mapping of results to HTTP status codes belong to the framework. The requester is a parameter.
- The serializers and their validation are not part of this model. That covers partial and full updates of the link lists, empty names, and price and time bounds. The create payloads are assumed valid; their link ids exist.
- `upload_image` and `recipe_image_file_path` are not modelled. They store files and use `uuid4`.
- Password hashing is not modelled. A hash records the raw password it checks against.
- Token issuance, the admin configuration, the `wait_for_db` command and the test fixtures are also outside this model.
- Only the `Tag` model appears in app/core/models.py. For `Ingredient` and `Recipe`, the model uses the same owner and `on_delete=CASCADE` policy and adds link sets. `Recipe.__str__` is not modelled.
- PyText.Lower: only ASCII letters are lowercased. Python lowercases all of Unicode.
- PyInt.ParseInt: only ASCII digits are read. Python accepts every Unicode decimal digit.
- PyInt.ParseInt: there is no limit on the number of digits. Since Python 3.11, and in the security releases of 3.7 to 3.10, `int(str)` raises `ValueError` for text with more than 4300 digits. An `assigned_only`, `tags` or `ingredients` value that long is therefore an error in Python but parses in this model. For the same reason, PyInt.ParseShowInt holds in this model but not in Python for integers of more than 4300 digits.
- NameOrder.SortByNameDesc: names compare by code point, not by the database's collation. The order among equal names is the model's own and is not part of any contract.
- RecipeViews.RecipeQueryset: the database returns the list in an order nobody asked for. The contract states no order.
- Query parameters are one optional value each. A repeated key, where `query_params.get` takes the last value, is not modelled.
- A `ValueError` from `int()` is a `QueryError` result. The views let it escape, which the framework turns into a server error, not a client error.
