/** The category actions: the cleaned list for the filters, lookups by id and by name, the
    three writes, and the two counting listings over the event collection. */
module CategoryActions {
  import opened Wrappers
  import opened Ids
  import opened Text
  import opened Seqs
  import opened Schema
  import opened CategoryModel
  import opened EventModel
  import opened Store

  const CategoryNotFound := "Category not found"
  const CategoryUpdateFailed := "Category update failed"
  /** The aggregation error for a `$limit` stage that is not positive. */
  const LimitNotPositive := "the limit must be positive"
  const DefaultPopularLimit := 5

  /** One entry of `getAllCategories`: the id as text and the trimmed name. */
  datatype CategoryItem = CategoryItem(id: string, name: string)

  function Item(c: Category): CategoryItem {
    CategoryItem(IdText(c.id), Trim(c.name))
  }

  /** The filter of `getAllCategories`: a name that is not empty once trimmed. */
  predicate Listed(c: Category) {
    Trim(c.name) != ""
  }

  /** `.map(cat => ({ _id, name }))`. */
  function Items(cs: seq<Category>): (r: seq<CategoryItem>)
    ensures |r| == |cs| && forall k | 0 <= k < |cs| :: r[k] == Item(cs[k])
  {
    if cs == [] then [] else [Item(cs[0])] + Items(cs[1..])
  }

  lemma {:induction false} ItemsAppend(a: seq<Category>, b: seq<Category>)
    ensures Items(a + b) == Items(a) + Items(b)
  {
    assert forall k | 0 <= k < |a + b| :: (a + b)[k] == if k < |a| then a[k] else b[k - |a|];
  }

  /** `getAllCategories()`: the categories whose name is not blank, in collection order,
      each cut down to its id text and trimmed name. */
  function GetAllCategories(cs: seq<Category>): (r: seq<CategoryItem>)
    ensures |r| <= |cs|
  {
    Items(Filter(cs, Listed))
  }

  /** Every listed entry comes from a stored category whose name is not blank, and its
      name is trimmed and not empty. */
  lemma GetAllCategoriesSound(cs: seq<Category>)
    ensures forall k | 0 <= k < |GetAllCategories(cs)| ::
      exists c | c in cs :: Listed(c) && GetAllCategories(cs)[k] == Item(c)
    ensures forall k | 0 <= k < |GetAllCategories(cs)| ::
      GetAllCategories(cs)[k].name != "" && Trim(GetAllCategories(cs)[k].name) == GetAllCategories(cs)[k].name
  {
    var kept := Filter(cs, Listed);
    var r := GetAllCategories(cs);
    forall k | 0 <= k < |r| ensures (exists c | c in cs :: Listed(c) && r[k] == Item(c))
      && r[k].name != "" && Trim(r[k].name) == r[k].name
    {
      assert r[k] == Item(kept[k]);
      assert kept[k] in kept;
      TrimIdempotent(kept[k].name);
    }
  }

  /** Every stored category whose name is not blank is listed. */
  lemma GetAllCategoriesComplete(cs: seq<Category>, c: Category)
    requires c in cs && Listed(c)
    ensures Item(c) in GetAllCategories(cs)
  {
    var kept := Filter(cs, Listed);
    assert c in kept;
    var k :| 0 <= k < |kept| && kept[k] == c;
    assert Items(kept)[k] == Item(c);
  }

  /** The list keeps collection order: the cleaned list of two runs of documents is the
      concatenation of their cleaned lists. */
  lemma GetAllCategoriesAppend(a: seq<Category>, b: seq<Category>)
    ensures GetAllCategories(a + b) == GetAllCategories(a) + GetAllCategories(b)
  {
    FilterAppend(a, b, Listed);
    ItemsAppend(Filter(a, Listed), Filter(b, Listed));
  }

  /** `getCategoryById(categoryId)`. */
  function GetCategoryById(cs: seq<Category>, categoryId: string): (r: Result<Category>)
    ensures ParseId(categoryId).None? ==> r == Failure(CastErrorMessage)
    ensures ParseId(categoryId).Some? ==>
      && (r.Failure? <==> forall i | 0 <= i < |cs| :: cs[i].id != ParseId(categoryId).value)
      && (r.Failure? ==> r.error == CategoryNotFound)
      && (r.Success? ==> r.value in cs && r.value.id == ParseId(categoryId).value)
  {
    var id := ParseId(categoryId);
    if id.None? then Failure(CastErrorMessage)
    else
      var at := PositionOf(cs, id.value);
      if at.None? then Failure(CategoryNotFound) else Success(cs[at.value])
  }

  /** `getCategoryByName(name)`: the query value passes through the trim setter. */
  function GetCategoryByName(cs: seq<Category>, name: string): (r: Result<Category>)
    ensures r.Failure? <==> forall i | 0 <= i < |cs| :: cs[i].name != Trim(name)
    ensures r.Failure? ==> r.error == CategoryNotFound
    ensures r.Success? ==> r.value in cs && r.value.name == Trim(name)
  {
    var at := FirstNamed(cs, Trim(name));
    if at.None? then Failure(CategoryNotFound) else Success(cs[at.value])
  }

  /** The text fields after the trim setter; an absent description stays absent. */
  function TrimOption(s: Option<string>): Option<string> {
    if s.Some? then Some(Trim(s.value)) else None
  }

  /** `createCategory(name, description)`: validated (the trimmed name is required) and
      checked against the unique name index. */
  method CreateCategory(db: Database, name: string, description: Option<string>) returns (r: Result<Category>)
    requires db.Valid()
    modifies db
    ensures db.Valid()
    ensures db.events == old(db.events) && db.participants == old(db.participants)
    ensures db.users == old(db.users) && db.registrations == old(db.registrations)
    ensures Trim(name) == "" ==> r == Failure(ValidationMessage("Category", [RequiredError("name")])) && unchanged(db)
    ensures Trim(name) != "" && (exists i | 0 <= i < |old(db.categories)| :: old(db.categories)[i].name == Trim(name)) ==>
      r == Failure(DuplicateKeyMessage) && unchanged(db)
    // a non-blank name that no category holds yet is always created
    ensures Trim(name) != "" && (forall i | 0 <= i < |old(db.categories)| :: old(db.categories)[i].name != Trim(name)) ==>
      r.Success?
    ensures r.Success? ==>
      && r.value == Category(old(db.nextId), Trim(name), TrimOption(description))
      && db.categories == old(db.categories) + [r.value]
      && db.nextId == old(db.nextId) + 1
      // the new category is the one a lookup by the same name finds
      && GetCategoryByName(db.categories, name) == r
    ensures r.Failure? ==> unchanged(db)
  {
    var c := Category(db.nextId, Trim(name), TrimOption(description));
    if c.name == "" {
      return Failure(ValidationMessage("Category", [RequiredError("name")]));
    }
    if exists i | 0 <= i < |db.categories| :: db.categories[i].name == c.name {
      return Failure(DuplicateKeyMessage);
    }
    var id := db.FreshId();
    db.AppendCategory(c);
    r := Success(c);
    assert db.categories[|db.categories| - 1] == c;
  }

  /** The fields `updateCategory` may change; an absent one keeps its stored value. */
  datatype CategoryUpdates = CategoryUpdates(name: Option<string>, description: Option<string>)

  function CategoryUpdated(c: Category, updates: CategoryUpdates): (r: Category)
    ensures r.id == c.id
    ensures r.name == if updates.name.Some? then Trim(updates.name.value) else c.name
    ensures r.description == if updates.description.Some? then TrimOption(updates.description) else c.description
  {
    c.(name := if updates.name.Some? then Trim(updates.name.value) else c.name,
       description := if updates.description.Some? then TrimOption(updates.description) else c.description)
  }

  /** `updateCategory(categoryId, updates)`: `findByIdAndUpdate` runs the trim setters and
      the unique index but not the validators, so a blank name is stored. */
  method UpdateCategory(db: Database, categoryId: string, updates: CategoryUpdates) returns (r: Result<Category>)
    requires db.Valid()
    modifies db
    ensures db.Valid()
    ensures db.events == old(db.events) && db.participants == old(db.participants)
    ensures db.users == old(db.users) && db.registrations == old(db.registrations)
    ensures db.nextId == old(db.nextId)
    ensures r.Failure? ==> unchanged(db)
    ensures ParseId(categoryId).None? ==> r == Failure(CastErrorMessage)
    ensures ParseId(categoryId).Some? && (forall i | 0 <= i < |old(db.categories)| :: old(db.categories)[i].id != ParseId(categoryId).value) ==>
      r == Failure(CategoryUpdateFailed)
    // a stored id: the unique name index decides between the duplicate-key error and the update
    ensures ParseId(categoryId).Some? && PositionOf(old(db.categories), ParseId(categoryId).value).Some? ==>
      var i := PositionOf(old(db.categories), ParseId(categoryId).value).value;
      var c := CategoryUpdated(old(db.categories)[i], updates);
      && ((exists j | 0 <= j < |old(db.categories)| && j != i :: old(db.categories)[j].name == c.name) ==>
           r == Failure(DuplicateKeyMessage))
      && ((forall j | 0 <= j < |old(db.categories)| && j != i :: old(db.categories)[j].name != c.name) ==>
           r == Success(c) && db.categories == old(db.categories)[i := c])
    ensures r.Success? ==>
      && ParseId(categoryId).Some?
      && exists i | 0 <= i < |old(db.categories)| ::
           && old(db.categories)[i].id == ParseId(categoryId).value
           && r.value == CategoryUpdated(old(db.categories)[i], updates)
           && db.categories == old(db.categories)[i := r.value]
    // the updated category is what a lookup by the same id now finds
    ensures r.Success? ==> GetCategoryById(db.categories, categoryId) == r
  {
    var id := ParseId(categoryId);
    if id.None? {
      return Failure(CastErrorMessage);
    }
    var at := PositionOf(db.categories, id.value);
    if at.None? {
      return Failure(CategoryUpdateFailed);
    }
    var i := at.value;
    var c := CategoryUpdated(db.categories[i], updates);
    if exists j | 0 <= j < |db.categories| && j != i :: db.categories[j].name == c.name {
      return Failure(DuplicateKeyMessage);
    }
    db.ReplaceCategory(i, c);
    r := Success(c);
    assert db.categories[i].id == id.value;
    assert UniqueIds(db.categories);
    assert PositionOf(db.categories, id.value) == Some(i);
  }

  /** `deleteCategory(categoryId)`: events that referred to it keep their reference. */
  method DeleteCategory(db: Database, categoryId: string) returns (r: ActionResult)
    requires db.Valid()
    modifies db
    ensures db.Valid()
    ensures db.events == old(db.events) && db.participants == old(db.participants)
    ensures db.users == old(db.users) && db.registrations == old(db.registrations)
    ensures db.nextId == old(db.nextId)
    ensures r.Failed? ==> unchanged(db)
    ensures ParseId(categoryId).None? ==> r == Failed(CastErrorMessage)
    ensures ParseId(categoryId).Some? ==>
      && ((forall i | 0 <= i < |old(db.categories)| :: old(db.categories)[i].id != ParseId(categoryId).value) ==>
           r == Failed(CategoryNotFound))
      && (r == Succeeded ==>
           exists i | 0 <= i < |old(db.categories)| ::
             old(db.categories)[i].id == ParseId(categoryId).value
             && db.categories == old(db.categories)[..i] + old(db.categories)[i + 1..])
    // a stored id is always deleted, and only that category goes
    ensures ParseId(categoryId).Some? && PositionOf(old(db.categories), ParseId(categoryId).value).Some? ==>
      var i := PositionOf(old(db.categories), ParseId(categoryId).value).value;
      r == Succeeded && db.categories == old(db.categories)[..i] + old(db.categories)[i + 1..]
    // once deleted, the category is no longer found
    ensures r == Succeeded ==> GetCategoryById(db.categories, categoryId) == Failure(CategoryNotFound)
  {
    var id := ParseId(categoryId);
    if id.None? {
      return Failed(CastErrorMessage);
    }
    var at := PositionOf(db.categories, id.value);
    if at.None? {
      return Failed(CategoryNotFound);
    }
    ghost var before := db.categories;
    db.RemoveCategoryAt(at.value);
    r := Succeeded;
    forall j | 0 <= j < |db.categories| ensures db.categories[j].id != id.value {
      if j < at.value {
        assert db.categories[j] == before[j];
      } else {
        assert db.categories[j] == before[j + 1];
      }
    }
  }

  /** How many events refer to the category `id` (the `$lookup` on `events.category`). */
  function EventCount(events: seq<Event>, id: Id): (n: nat)
    ensures n <= |events|
    ensures n == 0 <==> forall k | 0 <= k < |events| :: events[k].category != Some(id)
  {
    if events == [] then 0
    else (if events[0].category == Some(id) then 1 else 0) + EventCount(events[1..], id)
  }

  /** One entry of `getCategoriesWithEventCount`. */
  datatype CategoryCount = CategoryCount(id: Id, name: string, description: Option<string>, eventCount: nat)

  /** The categories in collection order, each with its event count. */
  function Counted(cs: seq<Category>, events: seq<Event>): (r: seq<CategoryCount>)
    ensures |r| == |cs|
    ensures forall k | 0 <= k < |r| ::
      r[k] == CategoryCount(cs[k].id, cs[k].name, cs[k].description, EventCount(events, cs[k].id))
  {
    if cs == [] then []
    else [CategoryCount(cs[0].id, cs[0].name, cs[0].description, EventCount(events, cs[0].id))]
         + Counted(cs[1..], events)
  }

  function NameNoLater(a: CategoryCount, b: CategoryCount): bool {
    StringLe(a.name, b.name)
  }

  lemma NameNoLaterIsPreorder()
    ensures TotalPreorder(NameNoLater)
  {
    forall a: CategoryCount, b: CategoryCount ensures NameNoLater(a, b) || NameNoLater(b, a) {
      StringLeTotal(a.name, b.name);
    }
    forall a: CategoryCount, b: CategoryCount, c: CategoryCount | NameNoLater(a, b) && NameNoLater(b, c)
      ensures NameNoLater(a, c)
    {
      StringLeTransitive(a.name, b.name, c.name);
    }
  }

  /** `getCategoriesWithEventCount()`: every category once with its event count, by name. */
  function GetCategoriesWithEventCount(cs: seq<Category>, events: seq<Event>): (r: seq<CategoryCount>)
    ensures multiset(r) == multiset(Counted(cs, events))
    ensures forall k | 0 <= k < |r| :: r[k].eventCount == EventCount(events, r[k].id)
    ensures forall i, j | 0 <= i < j < |r| :: StringLe(r[i].name, r[j].name)
  {
    NameNoLaterIsPreorder();
    var counted := Counted(cs, events);
    var r := Sort(counted, NameNoLater);
    forall k | 0 <= k < |r| ensures r[k].eventCount == EventCount(events, r[k].id) {
      assert r[k] in multiset(counted);
    }
    assert forall i, j | 0 <= i < j < |r| :: NameNoLater(r[i], r[j]);
    r
  }

  /** One entry of `getPopularCategories`. */
  datatype PopularCategory = PopularCategory(id: Id, name: string, eventCount: nat)

  function Popular(cs: seq<Category>, events: seq<Event>): (r: seq<PopularCategory>)
    ensures |r| == |cs|
    ensures forall k | 0 <= k < |r| :: r[k] == PopularCategory(cs[k].id, cs[k].name, EventCount(events, cs[k].id))
  {
    if cs == [] then []
    else [PopularCategory(cs[0].id, cs[0].name, EventCount(events, cs[0].id))] + Popular(cs[1..], events)
  }

  function CountNoLess(a: PopularCategory, b: PopularCategory): bool {
    a.eventCount >= b.eventCount
  }

  lemma CountNoLessIsPreorder()
    ensures TotalPreorder(CountNoLess)
  {
  }

  /** `getPopularCategories(limit)`: the `limit` (5 when absent) categories with the most
      events, most first; a limit that is not positive is refused by the aggregation. */
  function GetPopularCategories(cs: seq<Category>, events: seq<Event>, limit: Option<int>): (r: Result<seq<PopularCategory>>)
    ensures limit.Some? && limit.value <= 0 <==> r.Failure?
    ensures r.Failure? ==> r.error == LimitNotPositive
    ensures r.Success? ==>
      var n := limit.GetOr(DefaultPopularLimit);
      && |r.value| == (if n < |cs| then n else |cs|)
      && (forall i, j | 0 <= i < j < |r.value| :: r.value[i].eventCount >= r.value[j].eventCount)
  {
    var n := limit.GetOr(DefaultPopularLimit);
    if n <= 0 then Failure(LimitNotPositive)
    else
      CountNoLessIsPreorder();
      var sorted := Sort(Popular(cs, events), CountNoLess);
      assert forall i, j | 0 <= i < j < |sorted| :: CountNoLess(sorted[i], sorted[j]);
      Success(sorted[..if n < |sorted| then n else |sorted|])
  }

  /** In a list sorted by count, most first, nothing after the first `m` entries has more
      events than any of them. */
  lemma TopOfSorted(sorted: seq<PopularCategory>, m: nat)
    requires m <= |sorted|
    requires forall i, j | 0 <= i < j < |sorted| :: sorted[i].eventCount >= sorted[j].eventCount
    ensures forall p, k | p in sorted && 0 <= k < m && p.eventCount > sorted[k].eventCount :: p in sorted[..m]
  {
    forall p, k | p in sorted && 0 <= k < m && p.eventCount > sorted[k].eventCount ensures p in sorted[..m] {
      var j :| 0 <= j < |sorted| && sorted[j] == p;
      if j >= m {
        assert false;
      }
      assert sorted[..m][j] == p;
    }
  }

  /** The popular list is drawn from the counted categories, and nothing left out has more
      events than anything listed. */
  lemma PopularAreTop(cs: seq<Category>, events: seq<Event>, limit: Option<int>)
    requires GetPopularCategories(cs, events, limit).Success?
    ensures var top := GetPopularCategories(cs, events, limit).value;
      && multiset(top) <= multiset(Popular(cs, events))
      && forall p, k | p in Popular(cs, events) && 0 <= k < |top| && p.eventCount > top[k].eventCount :: p in top
  {
    CountNoLessIsPreorder();
    var all := Popular(cs, events);
    var sorted := Sort(all, CountNoLess);
    var top := GetPopularCategories(cs, events, limit).value;
    var m := |top|;
    assert top == sorted[..m];
    TakeSubMultiset(sorted, m);
    assert forall i, j | 0 <= i < j < |sorted| :: sorted[i].eventCount >= sorted[j].eventCount by {
      assert SortedBy(sorted, CountNoLess);
    }
    TopOfSorted(sorted, m);
    forall p | p in all ensures p in sorted {
      assert p in multiset(all);
    }
  }
}
