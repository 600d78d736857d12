/** The derived views over the event list: category labels and accent
    colours, the search filter, the "my events" and "registered events"
    lists, event lookup by id and the state of the register button. */
module Catalog {
  import opened Text
  import opened Seqs
  import opened Domain

  /** The five category keys the add-event form offers, with their labels. */
  const CategoryLabels: map<string, string> := map[
    "sports" := "Sports",
    "cultural" := "Cultural",
    "exhibition" := "Exhibition",
    "volunteer" := "Volunteer",
    "education" := "Education"]

  /** `text` is `key` with its first letter capitalised. */
  predicate Capitalises(text: string, key: string) {
    |text| == |key| > 0 && IsUpper(text[0]) && text[1..] == key[1..] && Lower(text) == key
  }

  /** Every key is lower case and its label differs from it only in the
      first letter, which is upper case. */
  lemma LabelsSpelling(key: string)
    requires key in CategoryLabels
    ensures var shown := CategoryLabels[key];
      IsLowerCase(key) && |shown| == |key| > 0 && IsUpper(shown[0]) && LowerChar(shown[0]) == key[0] &&
      shown[1..] == key[1..]
  {
    if key == "sports" {
    } else if key == "cultural" {
    } else if key == "exhibition" {
    } else if key == "volunteer" {
    } else {
      assert key == "education";
    }
  }

  /** Every label is its key with the first letter capitalised. */
  lemma LabelsCapitalise(key: string)
    requires key in CategoryLabels
    ensures Capitalises(CategoryLabels[key], key)
  {
    var shown := CategoryLabels[key];
    LabelsSpelling(key);
    forall i | 0 <= i < |key| ensures Lower(shown)[i] == key[i] {
      if i > 0 {
        assert shown[i] == shown[1..][i - 1] == key[1..][i - 1] == key[i];
      }
    }
  }

  /** The label shown for a category: the capitalised label of a known key,
      the category itself otherwise. */
  function CategoryName(category: string): (shown: string)
    ensures category !in CategoryLabels ==> shown == category
    ensures category in CategoryLabels ==> Capitalises(shown, category)
  {
    if category in CategoryLabels then
      LabelsCapitalise(category);
      CategoryLabels[category]
    else category
  }

  /** A label is never itself a key, so labelling is idempotent. */
  lemma CategoryNameIdempotent(category: string)
    ensures CategoryName(CategoryName(category)) == CategoryName(category)
  {
    if category in CategoryLabels {
      var shown := CategoryName(category);
      assert IsUpper(shown[0]);
      if shown in CategoryLabels {
        LabelsCapitalise(shown);
        assert false;
      }
    }
  }

  /** The accent colour of a category badge. */
  datatype Accent = Teal | Blue | Purple | Orange | Gray

  /** Sports, cultural, exhibition and volunteer events get their own colour;
      education and every unknown category share the neutral one. */
  function CategoryAccent(category: string): (a: Accent)
    ensures a == Gray <==> category !in {"sports", "cultural", "exhibition", "volunteer"}
    ensures category == "education" ==> a == Gray
  {
    if category == "sports" then Teal
    else if category == "cultural" then Blue
    else if category == "exhibition" then Purple
    else if category == "volunteer" then Orange
    else Gray
  }

  /** The four coloured categories are told apart by their colour. */
  lemma CategoryAccentDistinct(c1: string, c2: string)
    requires CategoryAccent(c1) != Gray && CategoryAccent(c1) == CategoryAccent(c2)
    ensures c1 == c2
  {
  }

  /** The search predicate: the folded query occurs in the folded name,
      description, location or category label. */
  predicate Matches(e: Event, query: string) {
    var q := Lower(query);
    Contains(Lower(e.name), q) || Contains(Lower(e.description), q) ||
    Contains(Lower(e.location), q) || Contains(Lower(CategoryName(e.category)), q)
  }

  /** The events shown on the home page for a search query. */
  function FilteredEvents(events: seq<Event>, query: string): (r: seq<Event>)
    ensures forall i :: 0 <= i < |r| ==> r[i] in events && Matches(r[i], query)
    ensures forall i :: 0 <= i < |events| && Matches(events[i], query) ==> events[i] in r
  {
    Filter(events, (e: Event) => Matches(e, query))
  }

  /** Every occurrence of a matching event is shown, and no other event. */
  lemma FilteredEventsCounts(events: seq<Event>, query: string, e: Event)
    ensures multiset(FilteredEvents(events, query))[e] == if Matches(e, query) then multiset(events)[e] else 0
  {
    FilterCounts(events, (e: Event) => Matches(e, query), e);
  }

  /** The search result keeps the list order. */
  lemma FilteredEventsInOrder(events: seq<Event>, query: string)
    ensures IsSubsequence(FilteredEvents(events, query), events)
  {
    FilterIsSubsequence(events, (e: Event) => Matches(e, query));
  }

  /** An empty query shows every event. */
  lemma EmptyQueryKeepsAll(events: seq<Event>)
    ensures FilteredEvents(events, "") == events
  {
    forall i | 0 <= i < |events| ensures Matches(events[i], "") {
      ContainsBasics(Lower(events[i].name), "", "");
    }
    FilterKeepsAll(events, (e: Event) => Matches(e, ""));
  }

  /** The search is case-insensitive: a query and its lower-case form show
      the same events. */
  lemma SearchIgnoresCase(events: seq<Event>, query: string)
    ensures FilteredEvents(events, query) == FilteredEvents(events, Lower(query))
  {
    LowerIdempotent(query);
    FilterCongruent(events, (e: Event) => Matches(e, query), (e: Event) => Matches(e, Lower(query)));
  }

  /** Searching for a known category key finds every event of that
      category, because the key is the folded label. */
  lemma SearchFindsCategory(events: seq<Event>, key: string, i: int)
    requires key in CategoryLabels
    requires 0 <= i < |events| && events[i].category == key
    ensures events[i] in FilteredEvents(events, key)
  {
    LowerIsLowerCase(CategoryName(key));
    ContainsBasics(key, key, "");
    assert key + "" == key;
    assert Matches(events[i], key);
  }

  /** The events whose id is in `ids`, in list order (the "my events" and
      "registered events" pages). */
  function MembershipList(events: seq<Event>, ids: seq<int>): (r: seq<Event>)
    ensures forall i :: 0 <= i < |r| ==> r[i] in events && r[i].id in ids
    ensures forall i :: 0 <= i < |events| && events[i].id in ids ==> events[i] in r
  {
    Filter(events, (e: Event) => e.id in ids)
  }

  /** Every occurrence of an event with a listed id is shown, and no other
      event. */
  lemma MembershipListCounts(events: seq<Event>, ids: seq<int>, e: Event)
    ensures multiset(MembershipList(events, ids))[e] == if e.id in ids then multiset(events)[e] else 0
  {
    FilterCounts(events, (e: Event) => e.id in ids, e);
  }

  lemma MembershipListInOrder(events: seq<Event>, ids: seq<int>)
    ensures IsSubsequence(MembershipList(events, ids), events)
  {
    FilterIsSubsequence(events, (e: Event) => e.id in ids);
  }

  /** Appending an event with an id that no earlier event carries, while
      adding that id to the membership list, appends exactly that event to
      the view. */
  lemma MembershipListGrows(events: seq<Event>, ids: seq<int>, e: Event)
    requires e.id !in Ids(events)
    ensures MembershipList(events + [e], ids + [e.id]) == MembershipList(events, ids) + [e]
  {
    var p := (x: Event) => x.id in ids + [e.id];
    var q := (x: Event) => x.id in ids;
    FilterAppend(events, [e], p);
    forall i | 0 <= i < |events| ensures p(events[i]) == q(events[i]) {
      assert events[i].id == Ids(events)[i];
    }
    FilterCongruent(events, p, q);
    assert Filter([e], p) == [e];
  }

  /** `events.find(e => e.id === id)`: an event with that id, if any. */
  function FindEvent(events: seq<Event>, id: int): (r: Option<Event>)
    ensures r.None? <==> id !in Ids(events)
    ensures r.Some? ==> r.value in events && r.value.id == id
  {
    if events == [] then None
    else if events[0].id == id then Some(events[0])
    else
      assert Ids(events) == [events[0].id] + Ids(events[1..]);
      FindEvent(events[1..], id)
  }

  /** The event found is the first one with that id. */
  lemma {:induction false} FindEventFirst(events: seq<Event>, id: int, k: int)
    requires 0 <= k < |events| && events[k].id == id
    requires forall j :: 0 <= j < k ==> events[j].id != id
    ensures FindEvent(events, id) == Some(events[k])
  {
    if k > 0 {
      FindEventFirst(events[1..], id, k - 1);
    }
  }

  /** When ids are unique, the event found is the only one with that id. */
  lemma FindEventUnique(events: seq<Event>, k: int)
    requires UniqueIds(events) && 0 <= k < |events|
    ensures FindEvent(events, events[k].id) == Some(events[k])
  {
    FindEventFirst(events, events[k].id, k);
  }

  /** The three states of the button on an event's details page. */
  datatype RegisterButton = AlreadyRegistered | RegisterOpen | NotYetOpen

  /** Already registered wins over the event's own flag; the button is
      clickable only when not registered and registration is open. */
  function ButtonState(isRegistered: bool, registrationOpen: bool): (b: RegisterButton)
    ensures b == AlreadyRegistered <==> isRegistered
    ensures b == RegisterOpen <==> !isRegistered && registrationOpen
    ensures b == NotYetOpen <==> !isRegistered && !registrationOpen
  {
    if isRegistered then AlreadyRegistered
    else if registrationOpen then RegisterOpen
    else NotYetOpen
  }
}
