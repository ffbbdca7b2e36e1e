/** The models of the `core` application: the custom user (email instead of a
    user name), its manager's `create_user` and `create_superuser`, and the
    user-owned Tag, Ingredient and Recipe rows. A `Database` object holds
    the ORM's tables; saving or deleting a model replaces them. */
module CoreModels {
  import opened Results
  import opened PyText
  import opened Rows

  /** Primary keys, handed out by each table's sequence. */
  type Id = int

  /** A stored password. Hashing itself is not modelled: a usable hash
      records which raw password checks against it, and nothing checks
      against an unusable one. */
  datatype PasswordHash = Unusable | Hashed(raw: string)

  /** `set_password`: `None` gives an unusable password. */
  function MakePassword(raw: Option<string>): PasswordHash {
    match raw
    case None => Unusable
    case Some(p) => Hashed(p)
  }

  /** `check_password`. */
  predicate CheckPassword(h: PasswordHash, raw: string) {
    h.Hashed? && h.raw == raw
  }

  /** The password given to `set_password`, and no other, checks against it. */
  lemma PasswordChecks(raw: Option<string>, attempt: string)
    ensures CheckPassword(MakePassword(raw), attempt) <==> raw == Some(attempt)
  {
  }

  datatype User = User(
    id: Id,
    email: string,
    password: PasswordHash,
    name: string,
    isStaff: bool,
    isSuperuser: bool)

  /** The keyword arguments `create_user` passes on to the model. */
  datatype ExtraFields = ExtraFields(name: string, isStaff: bool, isSuperuser: bool)

  /** The model's defaults: blank name, no privileges. */
  const NoExtraFields := ExtraFields("", false, false)

  /** A Tag or an Ingredient: a name and exactly one owning user. */
  datatype Attr = Attr(id: Id, name: string, owner: Id) {

    /** `__str__`: a tag or ingredient prints as its name. */
    function ToString(): (s: string)
      ensures s == name
    {
      name
    }
  }

  datatype AttrKind = TagKind | IngredientKind

  /** A recipe, its owner, and its links to tags and ingredients. A link set
      holds the ids of the linked rows, so linking twice is linking once. */
  datatype Recipe = Recipe(
    id: Id,
    title: string,
    owner: Id,
    timeMinutes: nat,
    priceCents: int,
    link: string,
    tags: set<Id>,
    ingredients: set<Id>)

  /** The recipe's links to rows of the given kind. */
  function Links(kind: AttrKind, r: Recipe): set<Id> {
    match kind
    case TagKind => r.tags
    case IngredientKind => r.ingredients
  }

  datatype UserError =
    | EmptyEmail      // `create_user` raises ValueError
    | DuplicateEmail  // the unique constraint on the email column rejects the save

  /** `BaseUserManager.normalize_email`: strip the address, split it at its
      last `@` and lower-case the domain part. An address without `@` is
      returned as given, unstripped. */
  function NormalizeEmail(email: string): string {
    var parts := RSplitOnce(Strip(email), '@');
    if |parts| == 2 then parts[0] + "@" + Lower(parts[1]) else email
  }

  /** An address without `@` is left alone. */
  lemma NormalizeEmailWithoutAt(email: string)
    requires '@' !in email
    ensures NormalizeEmail(email) == email
  {
    if '@' in Strip(email) {
      TrimFrom(email, IsSpace, '@');
    }
  }

  /** A stripped address keeps its local part and gets a lower-case domain. */
  lemma NormalizeEmailLowersDomain(local: string, domain: string)
    requires '@' !in domain
    requires local == [] || !IsSpace(local[0])
    requires domain == [] || !IsSpace(domain[|domain| - 1])
    ensures NormalizeEmail(local + "@" + domain) == local + "@" + Lower(domain)
  {
    var s := local + "@" + domain;
    assert s[0] == (if local == [] then '@' else local[0]);
    assert s[|s| - 1] == (if domain == [] then '@' else domain[|domain| - 1]);
    TrimUnchanged(s, IsSpace);
    RSplitOnceUnique(local, domain, '@');
  }

  /** An address with an `@` is, once stripped, a local part that does not
      start with white space, its last `@`, and a domain without `@` that
      does not end with white space; it normalizes to the local part, the
      `@` and the lowered domain. */
  lemma NormalizeEmailParts(email: string) returns (local: string, domain: string)
    requires '@' in email
    ensures '@' !in domain
    ensures local == [] || !IsSpace(local[0])
    ensures domain == [] || !IsSpace(domain[|domain| - 1])
    ensures Strip(email) == local + "@" + domain
    ensures NormalizeEmail(email) == local + "@" + Lower(domain)
  {
    var k :| 0 <= k < |email| && email[k] == '@';
    TrimKeeps(email, IsSpace, k);
    var t := Strip(email);
    RSplitOnceEnds(t, '@');
    var parts := RSplitOnce(t, '@');
    local, domain := parts[0], parts[1];
  }

  /** Normalizing twice is normalizing once. */
  lemma NormalizeEmailIdempotent(email: string)
    ensures NormalizeEmail(NormalizeEmail(email)) == NormalizeEmail(email)
  {
    if '@' in email {
      var local, domain := NormalizeEmailParts(email);
      var lowered := Lower(domain);
      assert '@' !in lowered by {
        forall i | 0 <= i < |lowered| ensures lowered[i] != '@' {
          assert domain[i] in domain;
        }
      }
      assert lowered != [] ==> !IsSpace(lowered[|lowered| - 1]);
      NormalizeEmailLowersDomain(local, lowered);
      LowerIdempotent(domain);
    } else {
      NormalizeEmailWithoutAt(email);
    }
  }

  /** Normalization maps "" to "" and nothing else to "". */
  lemma NormalizeEmailEmpty(email: string)
    ensures NormalizeEmail(email) == "" <==> email == ""
  {
    if '@' in email {
      var local, domain := NormalizeEmailParts(email);
    } else {
      NormalizeEmailWithoutAt(email);
    }
  }

  function UserIds(users: seq<User>): set<Id> {
    set u | u in users :: u.id
  }

  function Emails(users: seq<User>): set<string> {
    set u | u in users :: u.email
  }

  function AttrIds(attrs: seq<Attr>): set<Id> {
    set a | a in attrs :: a.id
  }

  function RecipeIds(recipes: seq<Recipe>): set<Id> {
    set r | r in recipes :: r.id
  }

  /** The user table: no duplicate row, every id below the next one the
      sequence hands out, and ids and email addresses unique (the email
      column has a unique constraint); no stored address is empty. */
  predicate UsersValid(users: seq<User>, nextId: Id) {
    && NoDup(users)
    && (forall u :: u in users ==> u.id < nextId && u.email != "")
    && (forall u, v :: u in users && v in users && u.id == v.id ==> u == v)
    && (forall u, v :: u in users && v in users && u.email == v.email ==> u == v)
  }

  /** A tag or ingredient table: unique ids, each owned by an existing user. */
  predicate AttrsValid(attrs: seq<Attr>, nextId: Id, owners: set<Id>) {
    && NoDup(attrs)
    && (forall a :: a in attrs ==> a.id < nextId && a.owner in owners)
    && (forall a, b :: a in attrs && b in attrs && a.id == b.id ==> a == b)
  }

  /** The recipe table: unique ids, an existing owner, and links only to
      existing tags and ingredients. */
  predicate RecipesValid(recipes: seq<Recipe>, nextId: Id, owners: set<Id>, tagIds: set<Id>, ingredientIds: set<Id>) {
    && NoDup(recipes)
    && (forall r :: r in recipes ==>
          r.id < nextId && r.owner in owners && r.tags <= tagIds && r.ingredients <= ingredientIds)
    && (forall r, q :: r in recipes && q in recipes && r.id == q.id ==> r == q)
  }

  /** The tables of the database, with the next id each table's sequence
      hands out. */
  datatype Tables = Tables(
    users: seq<User>,
    tags: seq<Attr>,
    ingredients: seq<Attr>,
    recipes: seq<Recipe>,
    nextUserId: Id,
    nextTagId: Id,
    nextIngredientId: Id,
    nextRecipeId: Id)
  {
    /** The table that holds rows of the given kind. */
    function Table(kind: AttrKind): seq<Attr> {
      match kind
      case TagKind => tags
      case IngredientKind => ingredients
    }
  }

  /** Every table is valid, and every owner and link refers to an existing row. */
  predicate TablesValid(t: Tables) {
    && UsersValid(t.users, t.nextUserId)
    && AttrsValid(t.tags, t.nextTagId, UserIds(t.users))
    && AttrsValid(t.ingredients, t.nextIngredientId, UserIds(t.users))
    && RecipesValid(t.recipes, t.nextRecipeId, UserIds(t.users), AttrIds(t.tags), AttrIds(t.ingredients))
  }

  /** A recipe with only its links to the given tags and ingredients. */
  function CutLinks(r: Recipe, tagIds: set<Id>, ingredientIds: set<Id>): Recipe {
    r.(tags := r.tags * tagIds, ingredients := r.ingredients * ingredientIds)
  }

  /** Keeps only the links to rows that still exist. */
  function Unlinked(recipes: seq<Recipe>, tagIds: set<Id>, ingredientIds: set<Id>): (r: seq<Recipe>)
    ensures |r| == |recipes|
    ensures forall i :: 0 <= i < |r| ==> r[i] == CutLinks(recipes[i], tagIds, ingredientIds)
  {
    seq(|recipes|, i requires 0 <= i < |recipes| => CutLinks(recipes[i], tagIds, ingredientIds))
  }

  /** The tables after deleting a user: its row, the rows it owns, and the
      links other recipes had to the deleted tags and ingredients are gone. */
  function Cascade(t: Tables, id: Id): Tables {
    var tags := AttrsWithout(t.tags, id);
    var ingredients := AttrsWithout(t.ingredients, id);
    t.(users := UsersWithout(t.users, id), tags := tags, ingredients := ingredients,
       recipes := Unlinked(RecipesWithout(t.recipes, id), AttrIds(tags), AttrIds(ingredients)))
  }

  /** The database. Saving a model changes its tables. */
  class Database {
    var tables: Tables

    ghost predicate Valid()
      reads this
    {
      TablesValid(tables)
    }

    /** An empty database. */
    constructor ()
      ensures Valid()
      ensures tables.users == [] && tables.tags == [] && tables.ingredients == [] && tables.recipes == []
    {
      tables := Tables([], [], [], [], 1, 1, 1, 1);
    }

    /** `CustomUserManager.create_user`: reject a missing or empty address,
        normalize it, build the user with the extra fields, set the password
        and save. The save fails when the normalized address is taken. */
    method CreateUser(email: Option<string>, password: Option<string>, extra: ExtraFields)
      returns (r: Result<User, UserError>)
      requires Valid()
      modifies this
      ensures Valid()
      ensures !IsTruthy(email) ==> r == Err(EmptyEmail)
      ensures IsTruthy(email) && NormalizeEmail(email.value) in Emails(old(tables.users)) ==> r == Err(DuplicateEmail)
      ensures r.Err? ==> tables == old(tables)
      ensures r.Ok? <==> IsTruthy(email) && NormalizeEmail(email.value) !in Emails(old(tables.users))
      ensures r.Ok? ==> r.value.id !in UserIds(old(tables.users))
      ensures r.Ok? ==>
        && r.value == User(old(tables.nextUserId), NormalizeEmail(email.value), MakePassword(password),
                           extra.name, extra.isStaff, extra.isSuperuser)
        && tables == old(tables).(users := old(tables.users) + [r.value], nextUserId := old(tables.nextUserId) + 1)
    {
      if !IsTruthy(email) {
        return Err(EmptyEmail);
      }
      var normalized := NormalizeEmail(email.value);
      NormalizeEmailEmpty(email.value);
      if normalized in Emails(tables.users) {
        return Err(DuplicateEmail);
      }
      var user := User(tables.nextUserId, normalized, MakePassword(password), extra.name, extra.isStaff, extra.isSuperuser);
      AddUserValid(tables, user);
      tables := tables.(users := tables.users + [user], nextUserId := tables.nextUserId + 1);
      r := Ok(user);
    }

    /** `CustomUserManager.create_superuser`: `create_user` without extra
        fields, then both privilege flags set and the row saved again. */
    method CreateSuperuser(email: Option<string>, password: Option<string>)
      returns (r: Result<User, UserError>)
      requires Valid()
      modifies this
      ensures Valid()
      ensures !IsTruthy(email) ==> r == Err(EmptyEmail)
      ensures IsTruthy(email) && NormalizeEmail(email.value) in Emails(old(tables.users)) ==> r == Err(DuplicateEmail)
      ensures r.Err? ==> tables == old(tables)
      ensures r.Ok? <==> IsTruthy(email) && NormalizeEmail(email.value) !in Emails(old(tables.users))
      ensures r.Ok? ==> r.value.isSuperuser && r.value.isStaff
      ensures r.Ok? ==>
        && r.value == User(old(tables.nextUserId), NormalizeEmail(email.value), MakePassword(password), "", true, true)
        && tables == old(tables).(users := old(tables.users) + [r.value], nextUserId := old(tables.nextUserId) + 1)
    {
      ghost var before := tables;
      r := CreateUser(email, password, NoExtraFields);
      if r.Ok? {
        var user := r.value.(isSuperuser := true, isStaff := true);
        NormalizeEmailEmpty(email.value);
        AddUserValid(before, user);
        // the second save updates the row the first one inserted
        tables := tables.(users := tables.users[..|tables.users| - 1] + [user]);
        assert tables.users[..|tables.users| - 1] == before.users;
        r := Ok(user);
      }
    }

    /** A new tag or ingredient row with the given name and owner. */
    method CreateAttr(kind: AttrKind, name: string, owner: Id) returns (a: Attr)
      requires Valid() && owner in UserIds(tables.users)
      modifies this
      ensures Valid()
      ensures a.name == name && a.owner == owner && a.ToString() == name
      ensures a.id !in AttrIds(old(tables.Table(kind)))
      ensures kind == TagKind ==>
        tables == old(tables).(tags := old(tables.tags) + [a], nextTagId := old(tables.nextTagId) + 1)
      ensures kind == IngredientKind ==>
        tables == old(tables).(ingredients := old(tables.ingredients) + [a],
                               nextIngredientId := old(tables.nextIngredientId) + 1)
    {
      match kind
      case TagKind =>
        a := Attr(tables.nextTagId, name, owner);
        AddTagValid(tables, a);
        tables := tables.(tags := tables.tags + [a], nextTagId := tables.nextTagId + 1);
      case IngredientKind =>
        a := Attr(tables.nextIngredientId, name, owner);
        AddIngredientValid(tables, a);
        tables := tables.(ingredients := tables.ingredients + [a], nextIngredientId := tables.nextIngredientId + 1);
    }

    /** A new recipe row with the given fields, owner and links. */
    method CreateRecipe(title: string, timeMinutes: nat, priceCents: int, link: string,
                        tagIds: set<Id>, ingredientIds: set<Id>, owner: Id)
      returns (rec: Recipe)
      requires Valid() && owner in UserIds(tables.users)
      requires tagIds <= AttrIds(tables.tags) && ingredientIds <= AttrIds(tables.ingredients)
      modifies this
      ensures Valid()
      ensures rec == Recipe(old(tables.nextRecipeId), title, owner, timeMinutes, priceCents, link, tagIds, ingredientIds)
      ensures rec.id !in RecipeIds(old(tables.recipes))
      ensures tables == old(tables).(recipes := old(tables.recipes) + [rec], nextRecipeId := old(tables.nextRecipeId) + 1)
    {
      rec := Recipe(tables.nextRecipeId, title, owner, timeMinutes, priceCents, link, tagIds, ingredientIds);
      AddRecipeValid(tables, rec);
      tables := tables.(recipes := tables.recipes + [rec], nextRecipeId := tables.nextRecipeId + 1);
    }

    /** Deleting a user: the owned tags, ingredients and recipes go with it
        (`on_delete=CASCADE`), and so do the links other users' recipes had
        to the deleted tags and ingredients. */
    method DeleteUser(id: Id)
      requires Valid()
      modifies this
      ensures Valid()
      ensures tables == Cascade(old(tables), id)
    {
      CascadeValid(tables, id);
      tables := Cascade(tables, id);
    }
  }

  /** The users other than the one with the given id. */
  function UsersWithout(users: seq<User>, id: Id): (r: seq<User>)
    ensures forall u :: u in r <==> u in users && u.id != id
    ensures NoDup(users) ==> NoDup(r)
  {
    var keep := (u: User) => u.id != id;
    assert NoDup(users) ==> NoDup(Filter(users, keep)) by {
      if NoDup(users) {
        FilterNoDup(users, keep);
      }
    }
    Filter(users, keep)
  }

  /** The tags or ingredients that the given user does not own. */
  function AttrsWithout(attrs: seq<Attr>, id: Id): (r: seq<Attr>)
    ensures forall a :: a in r <==> a in attrs && a.owner != id
    ensures NoDup(attrs) ==> NoDup(r)
  {
    var keep := (a: Attr) => a.owner != id;
    assert NoDup(attrs) ==> NoDup(Filter(attrs, keep)) by {
      if NoDup(attrs) {
        FilterNoDup(attrs, keep);
      }
    }
    Filter(attrs, keep)
  }

  /** The recipes that the given user does not own. */
  function RecipesWithout(recipes: seq<Recipe>, id: Id): (r: seq<Recipe>)
    ensures forall q :: q in r <==> q in recipes && q.owner != id
    ensures NoDup(recipes) ==> NoDup(r)
  {
    var keep := (q: Recipe) => q.owner != id;
    assert NoDup(recipes) ==> NoDup(Filter(recipes, keep)) by {
      if NoDup(recipes) {
        FilterNoDup(recipes, keep);
      }
    }
    Filter(recipes, keep)
  }

  /** The cascade leaves no row of the deleted user, keeps every other row
      (a recipe with its links to deleted rows dropped), and keeps the tables
      valid. */
  lemma CascadeValid(t: Tables, id: Id)
    requires TablesValid(t)
    ensures TablesValid(Cascade(t, id))
    ensures UserIds(Cascade(t, id).users) == UserIds(t.users) - {id}
  {
    var c := Cascade(t, id);
    var owners := UserIds(c.users);
    RemoveUser(t.users, t.nextUserId, id);
    RemoveOwned(t.tags, t.nextTagId, UserIds(t.users), owners, id);
    RemoveOwned(t.ingredients, t.nextIngredientId, UserIds(t.users), owners, id);
    RemoveOwnedRecipes(t.recipes, t.nextRecipeId, UserIds(t.users), owners, id);
    UnlinkedValid(RecipesWithout(t.recipes, id), t.nextRecipeId, owners, AttrIds(c.tags), AttrIds(c.ingredients));
  }

  /** What the cascade keeps: the other users, the tags and ingredients
      they own, and their recipes, each with its links cut down to the rows
      that remain; nothing of the deleted user remains. */
  lemma CascadeContents(t: Tables, id: Id)
    ensures forall u :: u in Cascade(t, id).users <==> u in t.users && u.id != id
    ensures forall a :: a in Cascade(t, id).tags <==> a in t.tags && a.owner != id
    ensures forall a :: a in Cascade(t, id).ingredients <==> a in t.ingredients && a.owner != id
    ensures forall q :: q in Cascade(t, id).recipes ==>
      q.owner != id && q.tags <= AttrIds(Cascade(t, id).tags) && q.ingredients <= AttrIds(Cascade(t, id).ingredients)
    ensures forall q :: q in Cascade(t, id).recipes ==>
      exists r :: r in t.recipes && r.owner != id && q == CutLinks(r, AttrIds(Cascade(t, id).tags), AttrIds(Cascade(t, id).ingredients))
    ensures forall r :: r in t.recipes && r.owner != id ==>
      CutLinks(r, AttrIds(Cascade(t, id).tags), AttrIds(Cascade(t, id).ingredients)) in Cascade(t, id).recipes
  {
    var c := Cascade(t, id);
    var kept := RecipesWithout(t.recipes, id);
    forall q | q in c.recipes
      ensures q.owner != id && q.tags <= AttrIds(c.tags) && q.ingredients <= AttrIds(c.ingredients)
      ensures exists r :: r in t.recipes && r.owner != id && q == CutLinks(r, AttrIds(c.tags), AttrIds(c.ingredients))
    {
      var i :| 0 <= i < |c.recipes| && c.recipes[i] == q;
      assert kept[i] in kept;
    }
    forall r | r in t.recipes && r.owner != id
      ensures CutLinks(r, AttrIds(c.tags), AttrIds(c.ingredients)) in c.recipes
    {
      var i :| 0 <= i < |kept| && kept[i] == r;
      assert c.recipes[i] == CutLinks(r, AttrIds(c.tags), AttrIds(c.ingredients));
    }
  }

  /** Saving a user with the next id and a fresh, non-empty address keeps
      the tables valid. */
  lemma AddUserValid(t: Tables, user: User)
    requires TablesValid(t)
    requires user.id == t.nextUserId && user.email != "" && user.email !in Emails(t.users)
    ensures TablesValid(t.(users := t.users + [user], nextUserId := t.nextUserId + 1))
  {
    AddUser(t.users, t.nextUserId, user);
    OwnersGrow(t.tags, t.ingredients, t.recipes, t.nextTagId, t.nextIngredientId, t.nextRecipeId,
               UserIds(t.users), UserIds(t.users + [user]));
  }

  /** Saving a tag with the next id and an existing owner keeps the tables valid. */
  lemma AddTagValid(t: Tables, a: Attr)
    requires TablesValid(t)
    requires a.id == t.nextTagId && a.owner in UserIds(t.users)
    ensures TablesValid(t.(tags := t.tags + [a], nextTagId := t.nextTagId + 1))
  {
    AppendFresh(t.tags, t.nextTagId, UserIds(t.users), a);
    LinksGrow(t.recipes, t.nextRecipeId, UserIds(t.users), AttrIds(t.tags), AttrIds(t.ingredients),
              AttrIds(t.tags + [a]), AttrIds(t.ingredients));
  }

  /** Saving an ingredient with the next id and an existing owner keeps the
      tables valid. */
  lemma AddIngredientValid(t: Tables, a: Attr)
    requires TablesValid(t)
    requires a.id == t.nextIngredientId && a.owner in UserIds(t.users)
    ensures TablesValid(t.(ingredients := t.ingredients + [a], nextIngredientId := t.nextIngredientId + 1))
  {
    AppendFresh(t.ingredients, t.nextIngredientId, UserIds(t.users), a);
    LinksGrow(t.recipes, t.nextRecipeId, UserIds(t.users), AttrIds(t.tags), AttrIds(t.ingredients),
              AttrIds(t.tags), AttrIds(t.ingredients + [a]));
  }

  /** Saving a recipe with the next id, an existing owner and links to
      existing rows keeps the tables valid. */
  lemma AddRecipeValid(t: Tables, rec: Recipe)
    requires TablesValid(t)
    requires rec.id == t.nextRecipeId && rec.owner in UserIds(t.users)
    requires rec.tags <= AttrIds(t.tags) && rec.ingredients <= AttrIds(t.ingredients)
    ensures TablesValid(t.(recipes := t.recipes + [rec], nextRecipeId := t.nextRecipeId + 1))
    ensures rec.id !in RecipeIds(t.recipes)
  {
    var rs := t.recipes + [rec];
    assert rec !in t.recipes;
    assert NoDup(rs) by {
      forall i, j | 0 <= i < j < |rs| ensures rs[i] != rs[j] {
        if j == |t.recipes| {
          assert rs[i] in t.recipes;
        }
      }
    }
  }

  /** More tags or ingredients leave every recipe's links valid. */
  lemma LinksGrow(recipes: seq<Recipe>, nextId: Id, owners: set<Id>,
                  tagIds: set<Id>, ingredientIds: set<Id>, moreTags: set<Id>, moreIngredients: set<Id>)
    requires RecipesValid(recipes, nextId, owners, tagIds, ingredientIds)
    requires tagIds <= moreTags && ingredientIds <= moreIngredients
    ensures RecipesValid(recipes, nextId, owners, moreTags, moreIngredients)
  {
  }

  /** Appending a user with a fresh id and a fresh, non-empty address keeps
      the user table valid. */
  lemma AddUser(users: seq<User>, nextId: Id, user: User)
    requires UsersValid(users, nextId)
    requires user.id == nextId && user.email != "" && user.email !in Emails(users)
    ensures UsersValid(users + [user], nextId + 1)
    ensures UserIds(users + [user]) == UserIds(users) + {nextId}
  {
    var t := users + [user];
    assert user !in users;
    forall i, j | 0 <= i < j < |t| ensures t[i] != t[j] {
      if j == |users| {
        assert t[i] in users;
      }
    }
  }

  /** More users leave tag, ingredient and recipe owners valid. */
  lemma OwnersGrow(tags: seq<Attr>, ingredients: seq<Attr>, recipes: seq<Recipe>,
                   nextTag: Id, nextIngredient: Id, nextRecipe: Id, owners: set<Id>, more: set<Id>)
    requires owners <= more
    requires AttrsValid(tags, nextTag, owners) && AttrsValid(ingredients, nextIngredient, owners)
    requires RecipesValid(recipes, nextRecipe, owners, AttrIds(tags), AttrIds(ingredients))
    ensures AttrsValid(tags, nextTag, more) && AttrsValid(ingredients, nextIngredient, more)
    ensures RecipesValid(recipes, nextRecipe, more, AttrIds(tags), AttrIds(ingredients))
  {
  }

  /** Removing the user with one id keeps the user table valid. */
  lemma RemoveUser(users: seq<User>, nextId: Id, id: Id)
    requires UsersValid(users, nextId)
    ensures UsersValid(UsersWithout(users, id), nextId)
    ensures UserIds(UsersWithout(users, id)) == UserIds(users) - {id}
  {
  }

  /** Removing the rows a user owns leaves every other row with an existing owner. */
  lemma RemoveOwned(attrs: seq<Attr>, nextId: Id, owners: set<Id>, kept: set<Id>, id: Id)
    requires AttrsValid(attrs, nextId, owners)
    requires kept == owners - {id}
    ensures AttrsValid(AttrsWithout(attrs, id), nextId, kept)
    ensures AttrIds(AttrsWithout(attrs, id)) <= AttrIds(attrs)
  {
  }

  /** Removing the recipes a user owns leaves every other recipe with an existing owner. */
  lemma RemoveOwnedRecipes(recipes: seq<Recipe>, nextId: Id, owners: set<Id>, kept: set<Id>, id: Id)
    requires NoDup(recipes)
    requires forall r :: r in recipes ==> r.id < nextId && r.owner in owners
    requires forall r, q :: r in recipes && q in recipes && r.id == q.id ==> r == q
    requires kept == owners - {id}
    ensures NoDup(RecipesWithout(recipes, id))
    ensures forall r :: r in RecipesWithout(recipes, id) ==> r.id < nextId && r.owner in kept
    ensures forall r, q :: r in RecipesWithout(recipes, id) && q in RecipesWithout(recipes, id) && r.id == q.id ==> r == q
  {
  }

  /** Appending a row with a fresh id keeps a tag or ingredient table valid. */
  lemma AppendFresh(attrs: seq<Attr>, nextId: Id, owners: set<Id>, a: Attr)
    requires AttrsValid(attrs, nextId, owners)
    requires a.id == nextId && a.owner in owners
    ensures AttrsValid(attrs + [a], nextId + 1, owners)
    ensures AttrIds(attrs + [a]) == AttrIds(attrs) + {a.id}
  {
    var t := attrs + [a];
    assert a !in attrs;
    forall i, j | 0 <= i < j < |t| ensures t[i] != t[j] {
      if j == |attrs| {
        assert t[i] in attrs;
      }
    }
  }

  /** Dropping dangling links from recipes whose owners still exist gives a
      valid recipe table. */
  lemma UnlinkedValid(recipes: seq<Recipe>, nextId: Id, owners: set<Id>, tagIds: set<Id>, ingredientIds: set<Id>)
    requires NoDup(recipes)
    requires forall r :: r in recipes ==> r.id < nextId && r.owner in owners
    requires forall r, q :: r in recipes && q in recipes && r.id == q.id ==> r == q
    ensures RecipesValid(Unlinked(recipes, tagIds, ingredientIds), nextId, owners, tagIds, ingredientIds)
  {
    var u := Unlinked(recipes, tagIds, ingredientIds);
    forall r | r in u ensures r.id < nextId && r.owner in owners && r.tags <= tagIds && r.ingredients <= ingredientIds {
      var i :| 0 <= i < |u| && u[i] == r;
      assert recipes[i] in recipes;
    }
    forall i, j | 0 <= i < j < |u| ensures u[i] != u[j] {
      assert recipes[i] in recipes && recipes[j] in recipes;
    }
    forall r, q | r in u && q in u && r.id == q.id ensures r == q {
      var i :| 0 <= i < |u| && u[i] == r;
      var j :| 0 <= j < |u| && u[j] == q;
      assert recipes[i] in recipes && recipes[j] in recipes;
    }
  }
}
