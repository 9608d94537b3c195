/** The two event listings: a filter over the event documents, in collection scan order,
    followed by a sort on the start time. Full-text search is a parameter. */
module EventListing {
  import opened Wrappers
  import opened Text
  import opened Seqs
  import opened EventModel
  import opened UserModel
  import opened CategoryModel

  const UpcomingFilter := "upcoming"
  const PastFilter := "past"
  const FreeFilter := "free"
  const DraftFilter := "draft"

  /** The sort key `{ startDateTime: 'asc' }`. */
  function StartsNoLater(a: Event, b: Event): bool {
    a.startDateTime <= b.startDateTime
  }

  lemma StartsNoLaterIsPreorder()
    ensures TotalPreorder(StartsNoLater)
  {
  }

  /** The matched documents ordered by start time; equal start times keep scan order. */
  function ByStart(docs: seq<Event>): (r: seq<Event>)
    ensures multiset(r) == multiset(docs)
    ensures forall i, j | 0 <= i < j < |r| :: r[i].startDateTime <= r[j].startDateTime
  {
    StartsNoLaterIsPreorder();
    var r := Sort(docs, StartsNoLater);
    assert forall i, j | 0 <= i < j < |r| :: StartsNoLater(r[i], r[j]);
    r
  }

  /** The category condition of `getAllEvents`: a non-empty name that names a category
      (the name setter trims the query value) restricts to that category's id; an empty
      or unknown name restricts nothing. */
  predicate InCategory(categories: seq<Category>, category: string, e: Event) {
    category == "" || FirstNamed(categories, Trim(category)).None?
    || e.category == Some(categories[FirstNamed(categories, Trim(category)).value].id)
  }

  /** The date or price condition of `getAllEvents`: any other filter value adds none. */
  predicate AllEventsPeriod(filter: string, now: int, e: Event) {
    if filter == UpcomingFilter then e.startDateTime >= now
    else if filter == PastFilter then e.endDateTime < now
    else if filter == FreeFilter then e.isFree
    else true
  }

  /** The `$text` condition: none for an empty query. */
  predicate TextMatches(query: string, search: (string, Event) -> bool, e: Event) {
    query == "" || search(query, e)
  }

  /** Every condition `getAllEvents` puts into its query. */
  predicate AllEventsMatch(categories: seq<Category>, query: string, category: string, tag: string,
                           filter: string, now: int, search: (string, Event) -> bool, e: Event) {
    && TextMatches(query, search, e)
    && InCategory(categories, category, e)
    && (tag == "" || tag in e.tags)
    && AllEventsPeriod(filter, now, e)
  }

  /** `getAllEvents({ query, category, tag, filter })` at time `now`. */
  function GetAllEvents(docs: seq<Event>, categories: seq<Category>, query: string, category: string,
                        tag: string, filter: string, now: int, search: (string, Event) -> bool): (r: seq<Event>)
    ensures forall e :: multiset(r)[e] ==
                        if AllEventsMatch(categories, query, category, tag, filter, now, search, e)
                        then multiset(docs)[e] else 0
    ensures forall i, j | 0 <= i < j < |r| :: r[i].startDateTime <= r[j].startDateTime
  {
    var p := e => AllEventsMatch(categories, query, category, tag, filter, now, search, e);
    var kept := Filter(docs, p);
    forall e ensures multiset(kept)[e] == if p(e) then multiset(docs)[e] else 0 {
      FilterMultiset(docs, p, e);
    }
    ByStart(kept)
  }

  /** A listed event is a document that passes every condition, and every such document
      is listed: the filter value keeps upcoming, past or free events as it names. */
  lemma {:induction false} AllEventsListed(docs: seq<Event>, categories: seq<Category>, query: string,
                                           category: string, tag: string, filter: string, now: int,
                                           search: (string, Event) -> bool, e: Event)
    ensures var r := GetAllEvents(docs, categories, query, category, tag, filter, now, search);
      e in r <==> e in docs && AllEventsMatch(categories, query, category, tag, filter, now, search, e)
    ensures var r := GetAllEvents(docs, categories, query, category, tag, filter, now, search);
      e in r ==>
        && (filter == UpcomingFilter ==> e.startDateTime >= now)
        && (filter == PastFilter ==> e.endDateTime < now)
        && (filter == FreeFilter ==> e.isFree)
        && (tag != "" ==> tag in e.tags)
  {
    var r := GetAllEvents(docs, categories, query, category, tag, filter, now, search);
    assert e in r <==> multiset(r)[e] > 0;
    assert e in docs <==> multiset(docs)[e] > 0;
  }

  /** A category name no category has does not narrow the listing. */
  lemma UnknownCategoryIgnored(docs: seq<Event>, categories: seq<Category>, query: string,
                               category: string, tag: string, filter: string, now: int,
                               search: (string, Event) -> bool)
    requires forall i | 0 <= i < |categories| :: categories[i].name != Trim(category)
    ensures GetAllEvents(docs, categories, query, category, tag, filter, now, search)
         == GetAllEvents(docs, categories, query, "", tag, filter, now, search)
  {
    var p := e => AllEventsMatch(categories, query, category, tag, filter, now, search, e);
    var q := e => AllEventsMatch(categories, query, "", tag, filter, now, search, e);
    FilterSameTest(docs, p, q);
  }

  /** The status condition of `getUserEvents`: `draft` keeps the documents stored as
      unpublished (an absent flag does not match); any other value adds none. */
  predicate UserEventsStatus(filter: string, now: int, e: Event) {
    if filter == UpcomingFilter then e.startDateTime >= now
    else if filter == PastFilter then e.endDateTime < now
    else if filter == DraftFilter then e.isPublished == Some(false)
    else true
  }

  /** Every condition `getUserEvents` puts into its query for the user with id `me`. */
  predicate OwnEventMatch(me: nat, query: string, filter: string, now: int,
                          search: (string, Event) -> bool, e: Event) {
    e.organizer == me && TextMatches(query, search, e) && UserEventsStatus(filter, now, e)
  }

  /** `getUserEvents(clerkUserId, { query, filter })`: nothing for an unknown user, else
      that user's events passing the conditions, by start time. */
  function GetUserEvents(docs: seq<Event>, users: map<string, User>, clerkUserId: string, query: string,
                         filter: string, now: int, search: (string, Event) -> bool): (r: seq<Event>)
    ensures clerkUserId !in users ==> r == []
    ensures clerkUserId in users ==>
      forall e :: multiset(r)[e] ==
                    if OwnEventMatch(users[clerkUserId].id, query, filter, now, search, e)
                    then multiset(docs)[e] else 0
    ensures forall i, j | 0 <= i < j < |r| :: r[i].startDateTime <= r[j].startDateTime
  {
    if clerkUserId !in users then []
    else
      var me := users[clerkUserId].id;
      var p := (e: Event) => OwnEventMatch(me, query, filter, now, search, e);
      var kept := Filter(docs, p);
      forall e ensures multiset(kept)[e] == if p(e) then multiset(docs)[e] else 0 {
        FilterMultiset(docs, p, e);
      }
      ByStart(kept)
  }

  /** Every event in a user's listing is organized by that user. */
  lemma {:induction false} UserEventsOwned(docs: seq<Event>, users: map<string, User>, clerkUserId: string,
                                           query: string, filter: string, now: int,
                                           search: (string, Event) -> bool, e: Event)
    requires e in GetUserEvents(docs, users, clerkUserId, query, filter, now, search)
    ensures clerkUserId in users && e.organizer == users[clerkUserId].id && e in docs
    ensures filter == DraftFilter ==> e.isPublished == Some(false)
  {
    var r := GetUserEvents(docs, users, clerkUserId, query, filter, now, search);
    assert multiset(r)[e] > 0;
    assert e in docs <==> multiset(docs)[e] > 0;
  }
}
