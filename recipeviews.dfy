/** The views of the `recipe` application, without the HTTP layer: the list
    queries of the tag, ingredient and recipe endpoints as functions of the
    tables and the query parameters, the choice of serializer, and the
    creation of owned rows. The requesting user is the id the token
    authentication established. */
module RecipeViews {
  import opened Results
  import opened PyText
  import opened PyInt
  import opened Rows
  import opened CoreModels
  import opened NameOrder

  /** The ValueError that `int()` raises, with the text it could not read.
      The views do not catch it. */
  datatype QueryError = InvalidLiteral(literal: string)

  // ---------------------------------------------------------------------
  // Tags and ingredients: BaseRecipeAttrViewSet.get_queryset

  /** `bool(int(query_params.get("assigned_only", 0)))`: absent reads as 0. */
  function ParseAssignedOnly(param: Option<string>): Result<bool, QueryError> {
    match param
    case None => Ok(false)
    case Some(s) =>
      match ParseInt(s)
      case None => Err(InvalidLiteral(s))
      case Some(n) => Ok(n != 0)
  }

  /** Absent means false, and an integer means "is it nonzero". */
  lemma AssignedOnlyOfInteger(n: int)
    ensures ParseAssignedOnly(None) == Ok(false)
    ensures ParseAssignedOnly(Some(ShowInt(n))) == Ok(n != 0)
  {
    ParseShowInt(n);
  }

  /** A value without digits, such as "", "true" or "yes", is an error, not false. */
  lemma AssignedOnlyNonInteger(s: string)
    requires forall i :: 0 <= i < |s| ==> !IsDigit(s[i])
    ensures ParseAssignedOnly(Some(s)) == Err(InvalidLiteral(s))
  {
    ParseIntNeedsDigit(s);
  }

  /** Some recipe, of any owner, links to the row. */
  predicate IsAssigned(kind: AttrKind, a: Attr, recipes: seq<Recipe>) {
    exists r :: r in recipes && a.id in Links(kind, r)
  }

  /** The rows the join with the recipes yields for one tag or ingredient:
      one per linking recipe. */
  function LinkRows(kind: AttrKind, a: Attr, recipes: seq<Recipe>): (rows: seq<Attr>)
    ensures forall x :: x in rows <==> x == a && IsAssigned(kind, a, recipes)
  {
    if recipes == [] then []
    else
      assert IsAssigned(kind, a, recipes) <==> a.id in Links(kind, recipes[0]) || IsAssigned(kind, a, recipes[1..]) by {
        assert forall r :: r in recipes <==> r == recipes[0] || r in recipes[1..];
      }
      (if a.id in Links(kind, recipes[0]) then [a] else []) + LinkRows(kind, a, recipes[1..])
  }

  /** The join yields a tag or ingredient once per recipe that links to it,
      which is why the list needs `.distinct()`. */
  lemma {:induction false} LinkRowsCount(kind: AttrKind, a: Attr, recipes: seq<Recipe>)
    ensures |LinkRows(kind, a, recipes)| == |Filter(recipes, (r: Recipe) => a.id in Links(kind, r))|
  {
    if recipes != [] {
      LinkRowsCount(kind, a, recipes[1..]);
    }
  }

  /** The rows of `filter(user=requester)`, joined with the linking recipes
      when `recipe__isnull=False` is added. */
  function AttrJoinRows(kind: AttrKind, attrs: seq<Attr>, recipes: seq<Recipe>, requester: Id, assignedOnly: bool)
    : (rows: seq<Attr>)
    ensures forall x :: x in rows <==>
      x in attrs && x.owner == requester && (assignedOnly ==> IsAssigned(kind, x, recipes))
  {
    if attrs == [] then []
    else
      var a := attrs[0];
      assert forall x :: x in attrs <==> x == a || x in attrs[1..];
      (if a.owner != requester then [] else if assignedOnly then LinkRows(kind, a, recipes) else [a])
      + AttrJoinRows(kind, attrs[1..], recipes, requester, assignedOnly)
  }

  /** The tag or ingredient list: the requester's own rows, only those some
      recipe links to when `assigned_only` is a nonzero integer, each row
      once, by name descending. A non-integer `assigned_only` is an error. */
  function AttrQueryset(kind: AttrKind, attrs: seq<Attr>, recipes: seq<Recipe>, requester: Id,
                        assignedOnly: Option<string>)
    : (r: Result<seq<Attr>, QueryError>)
    ensures r.Err? <==> ParseAssignedOnly(assignedOnly).Err?
    ensures r.Err? ==> r == Err(InvalidLiteral(assignedOnly.value))
    ensures r.Ok? ==> SortedByNameDesc(r.value) && NoDup(r.value)
    ensures r.Ok? ==> forall x :: x in r.value <==>
      x in attrs && x.owner == requester && (ParseAssignedOnly(assignedOnly).value ==> IsAssigned(kind, x, recipes))
  {
    var flag :- ParseAssignedOnly(assignedOnly);
    var rows := Distinct(AttrJoinRows(kind, attrs, recipes, requester, flag));
    SortByNameDescCorrect(rows);
    assert forall x :: x in SortByNameDesc(rows) <==> x in rows by {
      assert forall x :: x in SortByNameDesc(rows) <==> x in multiset(SortByNameDesc(rows));
    }
    Ok(SortByNameDesc(rows))
  }

  /** `assigned_only=0` lists the same rows as no parameter at all. */
  lemma AttrQuerysetZero(kind: AttrKind, attrs: seq<Attr>, recipes: seq<Recipe>, requester: Id)
    ensures AttrQueryset(kind, attrs, recipes, requester, Some("0")) == AttrQueryset(kind, attrs, recipes, requester, None)
  {
    AssignedOnlyOfInteger(0);
    assert ShowInt(0) == "0";
  }

  // ---------------------------------------------------------------------
  // Recipes: RecipeViewSet._params_to_ints and get_queryset

  /** The list of the parsed tokens, or the error of the first token that
      did not parse. */
  function Collect(tokens: seq<string>, parsed: seq<Option<int>>): (r: Result<seq<int>, QueryError>)
    requires |parsed| == |tokens|
    ensures r.Ok? <==> forall i :: 0 <= i < |parsed| ==> parsed[i].Some?
    ensures r.Ok? ==> |r.value| == |parsed| && forall i :: 0 <= i < |parsed| ==> parsed[i] == Some(r.value[i])
    ensures r.Err? ==> exists i :: 0 <= i < |parsed| && parsed[i].None? && r.error == InvalidLiteral(tokens[i])
  {
    if tokens == [] then Ok([])
    else
      var rest := Collect(tokens[1..], parsed[1..]);
      assert forall i :: 0 < i < |parsed| ==> parsed[1..][i - 1] == parsed[i] && tokens[1..][i - 1] == tokens[i];
      if parsed[0].None? then Err(InvalidLiteral(tokens[0]))
      else if rest.Err? then Err(rest.error)
      else Ok([parsed[0].value] + rest.value)
  }

  /** `[int(t) for t in tokens]`: an error when some token does not parse. */
  function ParseAll(tokens: seq<string>): (r: Result<seq<int>, QueryError>)
    ensures r.Ok? ==> |r.value| == |tokens| && forall i :: 0 <= i < |tokens| ==> ParseInt(tokens[i]) == Some(r.value[i])
    ensures r.Err? ==> exists i :: 0 <= i < |tokens| && ParseInt(tokens[i]).None? && r.error == InvalidLiteral(tokens[i])
  {
    var parsed := seq(|tokens|, i requires 0 <= i < |tokens| => ParseInt(tokens[i]));
    Collect(tokens, parsed)
  }

  /** `_params_to_ints`: split at every comma and read each piece as an
      integer; one integer per piece, in order, or an error when any piece,
      an empty one included, is not an integer. */
  function ParamsToInts(qs: string): (r: Result<seq<int>, QueryError>)
    ensures r.Ok? ==> |r.value| == |Split(qs, ',')|
    ensures r.Ok? ==> forall i :: 0 <= i < |r.value| ==> ParseInt(Split(qs, ',')[i]) == Some(r.value[i])
    ensures r.Err? ==> exists i :: 0 <= i < |Split(qs, ',')| && ParseInt(Split(qs, ',')[i]).None?
  {
    ParseAll(Split(qs, ','))
  }

  /** The id list a client sends: the ids in decimal, separated by commas. */
  function JoinIds(ids: seq<int>): string
    requires |ids| >= 1
  {
    Join(seq(|ids|, i requires 0 <= i < |ids| => ShowInt(ids[i])), ',')
  }

  /** Every non-empty id list survives the trip through its text. */
  lemma ParamsToIntsOfJoinIds(ids: seq<int>)
    requires |ids| >= 1
    ensures ParamsToInts(JoinIds(ids)) == Ok(ids)
  {
    var texts := seq(|ids|, i requires 0 <= i < |ids| => ShowInt(ids[i]));
    forall i | 0 <= i < |texts| ensures ',' !in texts[i] && ParseInt(texts[i]) == Some(ids[i]) {
      ShowIntHasNoComma(ids[i]);
      ParseShowInt(ids[i]);
    }
    SplitJoin(texts, ',');
    assert Split(JoinIds(ids), ',') == texts;
    var r := ParseAll(texts);
    assert r.Ok?;
    assert r.value == ids;
  }

  /** An empty piece, as in "1,,2", "1," or ",", makes the whole list an error. */
  lemma ParamsToIntsEmptyPiece(qs: string, i: nat)
    requires i < |Split(qs, ',')| && Split(qs, ',')[i] == ""
    ensures ParamsToInts(qs).Err?
  {
    ParseIntNeedsDigit("");
  }

  /** `if tags: tag_ids = self._params_to_ints(tags)`: no filter for a
      missing or empty parameter. */
  function IdFilter(param: Option<string>): (f: Result<Option<seq<int>>, QueryError>)
    ensures f.Err? <==> IsTruthy(param) && ParamsToInts(param.value).Err?
    ensures f.Ok? ==> forall links :: MatchesAny(f.value, links) <==> MatchesParam(param, links)
  {
    if !IsTruthy(param) then Ok(None)
    else
      var ids :- ParamsToInts(param.value);
      Ok(Some(ids))
  }

  /** `__id__in=ids` on a many-to-many relation: some linked row has an id in the list. */
  predicate MatchesAny(filter: Option<seq<int>>, links: set<Id>) {
    filter.None? || exists t :: t in links && t in filter.value
  }

  /** The number of rows the join with the linked rows yields: one per
      matching link, or one when there is no filter and so no join. */
  function MatchCount(filter: Option<seq<int>>, links: set<Id>): (n: nat)
    ensures n > 0 <==> MatchesAny(filter, links)
  {
    if filter.None? then 1
    else
      var hits := links * (set t | t in filter.value);
      IntersectionNonEmpty(links, filter.value);
      |hits|
  }

  /** Some linked id is in the list exactly when the intersection is not empty. */
  lemma IntersectionNonEmpty(links: set<Id>, ids: seq<int>)
    ensures |links * (set t | t in ids)| > 0 <==> exists t :: t in links && t in ids
  {
    var hits := links * (set t | t in ids);
    if exists t :: t in links && t in ids {
      var t :| t in links && t in ids;
      assert t in hits;
    } else {
      assert hits == {};
    }
  }

  /** `n` copies of one row. */
  function Copies<T(!new)>(x: T, n: nat): (r: seq<T>)
    ensures |r| == n
    ensures forall y :: y in r <==> n > 0 && y == x
  {
    if n == 0 then [] else [x] + Copies(x, n - 1)
  }

  /** The rows of `filter(user=requester, tags__id__in=…, ingredients__id__in=…)`
      before `.distinct()`: a recipe appears once per pair of matching links. */
  function RecipeJoinRows(recipes: seq<Recipe>, requester: Id, tagFilter: Option<seq<int>>,
                          ingredientFilter: Option<seq<int>>)
    : (rows: seq<Recipe>)
    ensures forall x :: x in rows <==>
      x in recipes && x.owner == requester && MatchesAny(tagFilter, x.tags) && MatchesAny(ingredientFilter, x.ingredients)
  {
    if recipes == [] then []
    else
      var r := recipes[0];
      var tagHits := MatchCount(tagFilter, r.tags);
      var ingredientHits := MatchCount(ingredientFilter, r.ingredients);
      var n := if r.owner == requester then tagHits * ingredientHits else 0;
      assert n > 0 <==> r.owner == requester && tagHits > 0 && ingredientHits > 0 by {
        if tagHits > 0 && ingredientHits > 0 {
          assert tagHits * ingredientHits >= ingredientHits;
        }
      }
      assert forall x :: x in recipes <==> x == r || x in recipes[1..];
      Copies(r, n) + RecipeJoinRows(recipes[1..], requester, tagFilter, ingredientFilter)
  }

  /** What a recipe must satisfy for a `tags` or `ingredients` parameter:
      nothing when the parameter is missing or empty, otherwise some linked
      row with an id in the parsed list. */
  predicate MatchesParam(param: Option<string>, links: set<Id>) {
    !IsTruthy(param) || (ParamsToInts(param.value).Ok? && exists t :: t in links && t in ParamsToInts(param.value).value)
  }

  /** The recipe list: the requester's recipes that match both parameters,
      each once. A parameter that does not parse is an error; `tags` is read
      first. */
  function RecipeQueryset(recipes: seq<Recipe>, requester: Id, tagsParam: Option<string>,
                          ingredientsParam: Option<string>)
    : (r: Result<seq<Recipe>, QueryError>)
    ensures r.Err? <==>
      || (IsTruthy(tagsParam) && ParamsToInts(tagsParam.value).Err?)
      || (IsTruthy(ingredientsParam) && ParamsToInts(ingredientsParam.value).Err?)
    ensures r.Ok? ==> NoDup(r.value)
    ensures r.Ok? ==> forall x :: x in r.value <==>
      && x in recipes && x.owner == requester
      && MatchesParam(tagsParam, x.tags) && MatchesParam(ingredientsParam, x.ingredients)
  {
    var tagFilter :- IdFilter(tagsParam);
    var ingredientFilter :- IdFilter(ingredientsParam);
    Ok(Distinct(RecipeJoinRows(recipes, requester, tagFilter, ingredientFilter)))
  }

  /** An empty parameter is the same as a missing one. */
  lemma RecipeQuerysetEmptyParam(recipes: seq<Recipe>, requester: Id, other: Option<string>)
    ensures RecipeQueryset(recipes, requester, Some(""), other) == RecipeQueryset(recipes, requester, None, other)
    ensures RecipeQueryset(recipes, requester, other, Some("")) == RecipeQueryset(recipes, requester, other, None)
  {
  }

  // ---------------------------------------------------------------------
  // RecipeViewSet.get_serializer_class

  datatype SerializerClass = RecipeSerializer | RecipeDetailSerializer | RecipeImageSerializer

  /** The detail serializer for `retrieve`, the image serializer for
      `upload_image`, the default for every other action. */
  function SerializerClassFor(action: Option<string>): (c: SerializerClass)
    ensures c == RecipeDetailSerializer <==> action == Some("retrieve")
    ensures c == RecipeImageSerializer <==> action == Some("upload_image")
    ensures c == RecipeSerializer <==> action != Some("retrieve") && action != Some("upload_image")
  {
    if action == Some("retrieve") then RecipeDetailSerializer
    else if action == Some("upload_image") then RecipeImageSerializer
    else RecipeSerializer
  }

  // ---------------------------------------------------------------------
  // perform_create

  /** The validated data of a tag or ingredient, with whatever owner the
      client may have sent. */
  datatype AttrPayload = AttrPayload(name: string, user: Option<Id>)

  /** `BaseRecipeAttrViewSet.perform_create`: save with the requester as owner. */
  method PerformCreateAttr(db: Database, kind: AttrKind, payload: AttrPayload, requester: Id)
    returns (created: Attr)
    requires db.Valid() && requester in UserIds(db.tables.users)
    modifies db
    ensures db.Valid()
    ensures created.owner == requester && created.name == payload.name
    ensures created.ToString() == payload.name
    ensures created.id !in AttrIds(old(db.tables.Table(kind)))
    ensures db.tables.Table(kind) == old(db.tables.Table(kind)) + [created]
    ensures db.tables.users == old(db.tables.users) && db.tables.recipes == old(db.tables.recipes)
    ensures kind == TagKind ==> db.tables.ingredients == old(db.tables.ingredients)
    ensures kind == IngredientKind ==> db.tables.tags == old(db.tables.tags)
    ensures kind == TagKind ==>
      db.tables == old(db.tables).(tags := old(db.tables.tags) + [created], nextTagId := old(db.tables.nextTagId) + 1)
    ensures kind == IngredientKind ==>
      db.tables == old(db.tables).(ingredients := old(db.tables.ingredients) + [created],
                                   nextIngredientId := old(db.tables.nextIngredientId) + 1)
  {
    created := db.CreateAttr(kind, payload.name, requester);
  }

  /** The validated data of a recipe, with whatever owner the client may
      have sent; the serializer has checked that the linked ids exist. */
  datatype RecipePayload = RecipePayload(
    title: string,
    timeMinutes: nat,
    priceCents: int,
    link: string,
    tags: set<Id>,
    ingredients: set<Id>,
    user: Option<Id>)

  /** `RecipeViewSet.perform_create`: save with the requester as owner. */
  method PerformCreateRecipe(db: Database, payload: RecipePayload, requester: Id)
    returns (created: Recipe)
    requires db.Valid() && requester in UserIds(db.tables.users)
    requires payload.tags <= AttrIds(db.tables.tags) && payload.ingredients <= AttrIds(db.tables.ingredients)
    modifies db
    ensures db.Valid()
    ensures created.owner == requester
    ensures created.title == payload.title && created.timeMinutes == payload.timeMinutes
    ensures created.priceCents == payload.priceCents && created.link == payload.link
    ensures created.tags == payload.tags && created.ingredients == payload.ingredients
    ensures created.id !in RecipeIds(old(db.tables.recipes))
    ensures db.tables.recipes == old(db.tables.recipes) + [created]
    ensures db.tables.users == old(db.tables.users) && db.tables.tags == old(db.tables.tags)
    ensures db.tables.ingredients == old(db.tables.ingredients)
    ensures db.tables == old(db.tables).(recipes := old(db.tables.recipes) + [created],
                                         nextRecipeId := old(db.tables.nextRecipeId) + 1)
  {
    created := db.CreateRecipe(payload.title, payload.timeMinutes, payload.priceCents, payload.link,
                               payload.tags, payload.ingredients, requester);
  }
}
