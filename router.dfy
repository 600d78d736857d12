/** The view router: which page the current route shows, or where it sends
    the visitor instead. Three pages need a user, and the details page needs
    an event with the requested id. */
module Router {
  import opened Domain
  import opened Text
  import opened Seqs
  import opened Catalog
  import opened Store

  /** The pages, with what each displays of the store. */
  datatype View =
    | HomeView(results: seq<Event>)
    | LoginView
    | RegisterView
    | EventDetailsView(event: Event, button: RegisterButton, isMine: bool)
    | AddEventView
    | MyEventsView(authored: seq<Event>)
    | RegisteredEventsView(registered: seq<Event>)
    | NotFoundView

  /** A page is shown, or rendering navigates elsewhere (with no
      parameters). */
  datatype Screen = Show(view: View) | Redirect(target: string)

  const GatedRoutes: set<string> := {"addEvent", "myEvents", "registeredEvents"}

  const KnownRoutes: set<string> :=
    {"home", "login", "register", "eventDetails", "addEvent", "myEvents", "registeredEvents"}

  /** The event named by the route's "id" parameter, if any; a missing
      parameter finds nothing. */
  function RequestedEvent(s: AppState): (r: Option<Event>)
    ensures r.Some? ==> "id" in s.routeParams && r.value.id == s.routeParams["id"] && r.value in s.events
    ensures r.None? <==> "id" !in s.routeParams || s.routeParams["id"] !in Ids(s.events)
  {
    if "id" in s.routeParams then FindEvent(s.events, s.routeParams["id"]) else None
  }

  /** `renderCurrentRoute`. */
  function Dispatch(s: AppState): (r: Screen)
    ensures r.Redirect? ==> r.target == "home" || r.target == "login"
    ensures r == Redirect("home") <==> s.currentRoute == "eventDetails" && RequestedEvent(s).None?
    ensures r == Redirect("login") <==> s.currentRoute in GatedRoutes && s.currentUser.None?
    ensures s.currentRoute !in KnownRoutes <==> r == Show(NotFoundView)
  {
    match s.currentRoute
    case "home" => Show(HomeView(FilteredEvents(s.events, s.searchQuery)))
    case "login" => Show(LoginView)
    case "register" => Show(RegisterView)
    case "eventDetails" =>
      (match RequestedEvent(s)
       case None => Redirect("home")
       case Some(e) =>
         Show(EventDetailsView(e, ButtonState(e.id in s.registeredEvents, e.registrationOpen), e.id in s.myEvents)))
    case "addEvent" => if s.currentUser.None? then Redirect("login") else Show(AddEventView)
    case "myEvents" =>
      if s.currentUser.None? then Redirect("login") else Show(MyEventsView(MembershipList(s.events, s.myEvents)))
    case "registeredEvents" =>
      if s.currentUser.None? then Redirect("login")
      else Show(RegisteredEventsView(MembershipList(s.events, s.registeredEvents)))
    case _ => Show(NotFoundView)
  }

  /** A redirect lands on a page that always shows, so one redirect
      settles the screen. */
  lemma RedirectSettles(s: AppState)
    requires Dispatch(s).Redirect?
    ensures Dispatch(NavigateTo(s, Dispatch(s).target, map[])).Show?
  {
  }

  /** After a successful login the home page shows the search results. */
  lemma LoginShowsHome(s: AppState, username: string, password: string, now: int)
    requires username != "" && password != ""
    ensures Dispatch(Login(s, username, password, now).0) == Show(HomeView(FilteredEvents(s.events, s.searchQuery)))
  {
  }

  /** After logging out every gated page sends the visitor to the login
      page. */
  lemma LogoutGatesViews(s: AppState, route: string)
    requires route in GatedRoutes
    ensures Dispatch(NavigateTo(Logout(s), route, map[])) == Redirect("login")
  {
  }

  /** The details page of the requested event. */
  lemma DetailsOf(s: AppState, e: Event)
    requires s.currentRoute == "eventDetails" && RequestedEvent(s) == Some(e)
    ensures Dispatch(s) == Show(EventDetailsView(e, ButtonState(e.id in s.registeredEvents, e.registrationOpen),
                                                 e.id in s.myEvents))
  {
  }

  /** The parameters `createEvent` navigates with name the new event. */
  lemma {:induction false} CreatedEventIsRequested(s: AppState, draft: EventDraft, now: int)
    requires now !in Ids(s.events) && s.currentUser.Some?
    ensures RequestedEvent(CreateEvent(s, draft, now)) == Some(NewEvent(draft, now, s.currentUser.value))
  {
    var r := CreateEvent(s, draft, now);
    CreateEventAppendsOne(s, draft, now);
    forall j | 0 <= j < |s.events| ensures r.events[j].id != now {
      assert Ids(s.events)[j] == s.events[j].id;
    }
    FindEventFirst(r.events, now, |s.events|);
  }

  /** The details page shown right after creating an event (with a fresh
      id) is the new event's, marked as the creator's own, with an open
      register button unless that id was already registered. */
  lemma {:induction false} CreatedEventIsShown(s: AppState, draft: EventDraft, now: int)
    requires now !in Ids(s.events) && s.currentUser.Some?
    ensures var e := NewEvent(draft, now, s.currentUser.value);
      Dispatch(CreateEvent(s, draft, now)) ==
        Show(EventDetailsView(e, if now in s.registeredEvents then AlreadyRegistered else RegisterOpen, true))
  {
    var r := CreateEvent(s, draft, now);
    var e := NewEvent(draft, now, s.currentUser.value);
    CreatedEventIsRequested(s, draft, now);
    DetailsOf(r, e);
    assert now in r.myEvents && r.registeredEvents == s.registeredEvents;
  }

  /** After creating an event (with a fresh id), the "my events" page lists
      the earlier authored events followed by the new one. */
  lemma {:induction false} CreatedEventIsMine(s: AppState, draft: EventDraft, now: int)
    requires now !in Ids(s.events) && s.currentUser.Some?
    ensures var r := CreateEvent(s, draft, now);
      Dispatch(NavigateTo(r, "myEvents", map[])) ==
        Show(MyEventsView(MembershipList(s.events, s.myEvents) + [NewEvent(draft, now, s.currentUser.value)]))
  {
    MembershipListGrows(s.events, s.myEvents, NewEvent(draft, now, s.currentUser.value));
  }

  /** Pressing an open register button as a logged-in user turns it into
      "already registered" and puts the event on the registered page. */
  lemma {:induction false} RegisterButtonRegisters(s: AppState, e: Event, mine: bool)
    requires Dispatch(s) == Show(EventDetailsView(e, RegisterOpen, mine)) && s.currentUser.Some?
    ensures var r := RegisterForEvent(s, e.id).0;
      && Dispatch(r) == Show(EventDetailsView(e, AlreadyRegistered, mine))
      && e in MembershipList(r.events, r.registeredEvents)
  {
    var r := RegisterForEvent(s, e.id).0;
    assert s.currentRoute == "eventDetails";
    assert RequestedEvent(s) == Some(e);
    DetailsOf(s, e);
    assert e.id !in s.registeredEvents;
    assert r == s.(registeredEvents := s.registeredEvents + [e.id]);
    assert RequestedEvent(r) == Some(e);
    DetailsOf(r, e);
    assert e in r.events;
    var k :| 0 <= k < |r.events| && r.events[k] == e;
    assert r.events[k].id in r.registeredEvents;
  }

  /** An event whose name starts with "Tennis" matches the query "tennis". */
  lemma TennisNameMatches(e: Event, rest: string)
    requires e.name == "Tennis" + rest
    ensures Matches(e, "tennis")
  {
    assert Lower("tennis") == "tennis";
    assert Lower("Tennis") == "tennis";
    LowerAppend("Tennis", rest);
    ContainsBasics("", "tennis", Lower(rest));
  }

  /** In a list of four events whose last two are named "Tennis ...", the
      search for "tennis" ends with those two, in order. */
  lemma {:induction false} TennisEventsLast(events: seq<Event>, rest3: string, rest4: string)
    requires |events| == 4 && events[2].name == "Tennis" + rest3 && events[3].name == "Tennis" + rest4
    ensures var r := FilteredEvents(events, "tennis");
      |r| >= 2 && r[|r| - 2..] == events[2..]
  {
    var p := (e: Event) => Matches(e, "tennis");
    var first, last := events[..2], events[2..];
    TennisNameMatches(events[2], rest3);
    TennisNameMatches(events[3], rest4);
    assert last == [events[2], events[3]];
    assert p(last[0]) && p(last[1]);
    FilterKeepsAll(last, p);
    assert events == first + last;
    FilterAppend(first, last, p);
  }

  /** Searching the example events for "tennis" lists the two tennis
      events last, in their original order, after whatever the first two
      events contribute. */
  lemma SeedTennisSearch()
    ensures var r := FilteredEvents(SeedEvents, "tennis");
      |r| >= 2 && r[|r| - 2..] == [SeedEvents[2], SeedEvents[3]]
  {
    assert SeedEvents[2].name == "Tennis" + " Tournament";
    assert SeedEvents[3].name == "Tennis" + " Match";
    TennisEventsLast(SeedEvents, " Tournament", " Match");
  }
}
