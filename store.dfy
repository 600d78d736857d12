/** The session store: everything the application component keeps in
    state, and each handler as a transition from one snapshot of that state
    to the next. Every handler is one atomic update of the snapshot. */
module Store {
  import opened Domain
  import opened Text
  import opened Seqs

  datatype AppState = AppState(
    currentUser: Option<User>,
    events: seq<Event>,
    registeredEvents: seq<int>,
    myEvents: seq<int>,
    currentRoute: string,
    routeParams: map<string, int>,
    searchQuery: string)

  /** The four example events every session starts with. */
  const SeedEvents: seq<Event> := [
      Event(1, "Live Music Festival",
        FestivalDescription,
        "Aug 14", Some("1:30 PM - 5:30 PM"), "Silver Auditorium, Ahmedabad, Gujarat", "cultural", "Marc Demo",
        Some("+1 555-555-5555"), Some("info@yourcompany.com"),
        FestivalImage,
        true),
      Event(2, "Jewelry exhibition",
        JewelryDescription,
        "Aug 11-12", None, "Crown Museum, Ahmedabad", "exhibition", "Art Committee",
        None, Some("artshow@ahmedabad.gov.in"),
        JewelryImage,
        true),
      Event(3, "Tennis Tournament",
        TournamentDescription,
        "Jun 22", None, "Central Courts, Ahmedabad", "sports", "Sports Club",
        None, Some("tennis@sportsclub.org"),
        TennisImage,
        false),
      Event(4, "Tennis Match",
        MatchDescription,
        "Jun 25", None, "Central Courts, Ahmedabad", "sports", "Sports Club",
        None, Some("tennis@sportsclub.org"),
        TennisImage,
        true)
    ]

  // The long texts of the example events.

  const FestivalDescription: string :=
    "Experience live music, local food and beverages. Here it is, the 12th edition of our Live Musical Festival! Once again we assembled the most legendary bands in Rock history. Bands like Bar Fighters, Led Slippers and Link Floyd will offer you the show of the century during our three day event. This is the perfect place for spending a nice time with your friends while listening to some of the most iconic rock songs of all times! For any additional information, please contact us at events@yourcompany.com."

  const JewelryDescription: string :=
    "Join us for an exquisite jewelry exhibition showcasing unique handcrafted pieces from local artisans brought together. Discover stunning pieces, from timeless classics to modern treasures."

  const TournamentDescription: string :=
    "Don't miss the excitement of our local tennis tournament! Watch talented players from the community battle it out for the title and a grand prize."

  const MatchDescription: string :=
    "Don't miss the excitement of our local tennis match! Watch talented players from the community battle it out for the title and a grand prize."

  const FestivalImage: string :=
    "https://images.pexels.com/photos/1105666/pexels-photo-1105666.jpeg?auto=compress&cs=tinysrgb&w=1260&h=750&dpr=1"

  const JewelryImage: string :=
    "https://images.pexels.com/photos/1413420/pexels-photo-1413420.jpeg?auto=compress&cs=tinysrgb&w=1260&h=750&dpr=1"

  const TennisImage: string :=
    "https://images.pexels.com/photos/8224057/pexels-photo-8224057.jpeg?auto=compress&cs=tinysrgb&w=1260&h=750&dpr=1"

  /** Anonymous, on the home page, with the example events and no
      memberships. */
  const Initial: AppState := AppState(None, SeedEvents, [], [], "home", map[], "")

  /** The placeholder domain of the e-mail a login fabricates. */
  const EmailDomain: string := "@example.com"

  /** The store's invariant: event ids are unique, neither membership list
      repeats an id, and every authored id names an event. Registered ids
      need not name an event: registering checks no such thing. */
  ghost predicate Consistent(s: AppState) {
    && UniqueIds(s.events)
    && NoDup(s.registeredEvents)
    && NoDup(s.myEvents)
    && forall i :: 0 <= i < |s.myEvents| ==> s.myEvents[i] in Ids(s.events)
  }

  lemma InitialConsistent()
    ensures Consistent(Initial)
    ensures Ids(Initial.events) == [1, 2, 3, 4]
  {
    assert Ids(SeedEvents) == [1, 2, 3, 4];
  }

  /** `navigateTo`: sets the route and its parameters, whatever they are,
      and nothing else. */
  function NavigateTo(s: AppState, route: string, params: map<string, int>): (r: AppState)
    ensures r.currentRoute == route && r.routeParams == params
    ensures r.(currentRoute := s.currentRoute, routeParams := s.routeParams) == s
  {
    s.(currentRoute := route, routeParams := params)
  }

  /** Typing in the search box. */
  function SetSearchQuery(s: AppState, query: string): (r: AppState)
    ensures r.searchQuery == query && r.(searchQuery := s.searchQuery) == s
  {
    s.(searchQuery := query)
  }

  /** `login`: any non-empty username and password succeed and fabricate a
      user whose e-mail is the lower-cased username at the placeholder
      domain; the session then shows the home page. A failed login changes
      nothing. `now` stands for the clock reading used as the user id. */
  function Login(s: AppState, username: string, password: string, now: int): (r: (AppState, bool))
    ensures r.1 <==> username != "" && password != ""
    ensures !r.1 ==> r.0 == s
    ensures r.1 ==> r.0 == s.(currentUser := Some(User(now, username, Lower(username) + EmailDomain, None)),
                              currentRoute := "home", routeParams := map[])
  {
    if username != "" && password != "" then
      var withUser := s.(currentUser := Some(User(now, username, Lower(username) + EmailDomain, None)));
      (NavigateTo(withUser, "home", map[]), true)
    else (s, false)
  }

  /** `register`: username, e-mail and password must be non-empty, the
      phone may be empty; the supplied e-mail and phone are kept as given. */
  function Register(s: AppState, username: string, email: string, phone: string, password: string, now: int)
    : (r: (AppState, bool))
    ensures r.1 <==> username != "" && email != "" && password != ""
    ensures !r.1 ==> r.0 == s
    ensures r.1 ==> r.0 == s.(currentUser := Some(User(now, username, email, Some(phone))),
                              currentRoute := "home", routeParams := map[])
  {
    if username != "" && email != "" && password != "" then
      var withUser := s.(currentUser := Some(User(now, username, email, Some(phone))));
      (NavigateTo(withUser, "home", map[]), true)
    else (s, false)
  }

  /** `logout`: forgets the user and shows the home page; the events and
      both membership lists are kept. */
  function Logout(s: AppState): (r: AppState)
    ensures r.currentUser.None? && r.currentRoute == "home" && r.routeParams == map[]
    ensures r.events == s.events && r.registeredEvents == s.registeredEvents && r.myEvents == s.myEvents
    ensures r.searchQuery == s.searchQuery
  {
    NavigateTo(s.(currentUser := None), "home", map[])
  }

  /** `registerForEvent`: anonymous visitors are sent to the login page;
      otherwise the id is appended unless already present. Neither the
      existence of the event nor its open-registration flag is checked. The
      flag returned says whether the success notice was raised. */
  function RegisterForEvent(s: AppState, eventId: int): (r: (AppState, bool))
    ensures s.currentUser.None? ==> r == (NavigateTo(s, "login", map[]), false)
    ensures s.currentUser.Some? ==> r.1 == (eventId !in s.registeredEvents)
    ensures s.currentUser.Some? ==>
      r.0 == s.(registeredEvents := if eventId in s.registeredEvents then s.registeredEvents
                                    else s.registeredEvents + [eventId])
  {
    if s.currentUser.None? then (NavigateTo(s, "login", map[]), false)
    else if eventId !in s.registeredEvents then (s.(registeredEvents := s.registeredEvents + [eventId]), true)
    else (s, false)
  }

  /** The record `createEvent` builds: the draft's fields, the given id, the
      creator as organizer and contact e-mail, no phone, and registration
      open. */
  function NewEvent(draft: EventDraft, id: int, creator: User): (e: Event)
    ensures e.id == id && e.organizer == creator.username && e.email == Some(creator.email)
    ensures e.registrationOpen && e.contact.None?
    ensures e.name == draft.name && e.description == draft.description && e.date == draft.date
    ensures e.time == draft.time && e.location == draft.location && e.category == draft.category
    ensures e.image == draft.image
  {
    Event(id, draft.name, draft.description, draft.date, draft.time, draft.location, draft.category,
          creator.username, None, Some(creator.email), draft.image, true)
  }

  /** `createEvent`: anonymous visitors are sent to the login page and
      nothing else changes; otherwise the new event is appended, its id is
      appended to the authored list, and the event's details page is shown.
      `now` stands for the clock reading used as the event id. */
  function CreateEvent(s: AppState, draft: EventDraft, now: int): (r: AppState)
    ensures s.currentUser.None? ==> r == NavigateTo(s, "login", map[])
    ensures s.currentUser.Some? ==>
      && r.events == s.events + [NewEvent(draft, now, s.currentUser.value)]
      && r.myEvents == s.myEvents + [now]
      && r.currentRoute == "eventDetails" && r.routeParams == map["id" := now]
      && r.currentUser == s.currentUser && r.registeredEvents == s.registeredEvents
      && r.searchQuery == s.searchQuery
  {
    if s.currentUser.None? then NavigateTo(s, "login", map[])
    else
      var created := NewEvent(draft, now, s.currentUser.value);
      var grown := s.(events := s.events + [created], myEvents := s.myEvents + [created.id]);
      NavigateTo(grown, "eventDetails", map["id" := created.id])
  }

  /** Navigation, the search box, login, registration and logout touch
      neither the events nor the membership lists, so they keep the
      invariant. */
  lemma SessionChangesKeepConsistent(s: AppState, route: string, params: map<string, int>, query: string,
                                     username: string, email: string, phone: string, password: string, now: int)
    requires Consistent(s)
    ensures Consistent(NavigateTo(s, route, params))
    ensures Consistent(SetSearchQuery(s, query))
    ensures Consistent(Login(s, username, password, now).0)
    ensures Consistent(Register(s, username, email, phone, password, now).0)
    ensures Consistent(Logout(s))
  {
  }

  /** Registering keeps the registered list free of repeats. */
  lemma RegisterForEventKeepsConsistent(s: AppState, eventId: int)
    requires Consistent(s)
    ensures Consistent(RegisterForEvent(s, eventId).0)
  {
    if s.currentUser.Some? && eventId !in s.registeredEvents {
      AppendFreshNoDup(s.registeredEvents, eventId);
    }
  }

  /** Registering twice for the same event is registering once, whether or
      not a user is logged in. */
  lemma RegisterForEventIdempotent(s: AppState, eventId: int)
    ensures var once := RegisterForEvent(s, eventId).0;
      RegisterForEvent(once, eventId) == (once, false)
  {
  }

  /** Without a user, `createEvent` only navigates to the login page; with
      one, the earlier events are kept unchanged and in place, exactly one
      event is added, at the end. */
  lemma CreateEventAppendsOne(s: AppState, draft: EventDraft, now: int)
    ensures var r := CreateEvent(s, draft, now);
      && |r.events| == |s.events| + (if s.currentUser.Some? then 1 else 0)
      && r.events[..|s.events|] == s.events
  {
  }

  lemma IdsAppend(events: seq<Event>, e: Event)
    ensures Ids(events + [e]) == Ids(events) + [e.id]
  {
  }

  /** With a fresh id (one no event already has) `createEvent` keeps the
      invariant, and the new event is the only one carrying that id. The
      handler itself does not check freshness; the clock reading is
      assumed fresh. */
  lemma {:induction false} CreateEventKeepsConsistent(s: AppState, draft: EventDraft, now: int)
    requires Consistent(s) && now !in Ids(s.events)
    ensures Consistent(CreateEvent(s, draft, now))
    ensures s.currentUser.Some? ==>
      var r := CreateEvent(s, draft, now);
      forall i :: 0 <= i < |r.events| && r.events[i].id == now ==> i == |s.events|
  {
    if s.currentUser.Some? {
      var r := CreateEvent(s, draft, now);
      var e := NewEvent(draft, now, s.currentUser.value);
      IdsAppend(s.events, e);
      forall i | 0 <= i < |s.events| ensures s.events[i].id != now {
        assert s.events[i].id == Ids(s.events)[i];
      }
      assert now !in s.myEvents;
      AppendFreshNoDup(s.myEvents, now);
      assert forall i :: 0 <= i < |r.myEvents| ==> r.myEvents[i] in Ids(r.events);
    }
  }

  /** Logging out does not end the memberships: whoever logs in next
      inherits the previous session's registered and authored events. */
  lemma NextLoginInheritsMemberships(s: AppState, username: string, password: string, now: int)
    requires username != "" && password != ""
    ensures var r := Login(Logout(s), username, password, now).0;
      r.currentUser.Some? && r.currentUser.value.username == username &&
      r.registeredEvents == s.registeredEvents && r.myEvents == s.myEvents
  {
  }
}
