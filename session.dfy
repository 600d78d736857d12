/** The application component's state and handlers as an object: each
    handler updates the fields in place, as the component's setters do, and
    is proved to perform the corresponding store transition. */
module Session {
  import opened Domain
  import opened Text
  import opened Store
  import opened Router

  class App {
    var currentUser: Option<User>
    var events: seq<Event>
    var registeredEvents: seq<int>
    var myEvents: seq<int>
    var currentRoute: string
    var routeParams: map<string, int>
    var searchQuery: string

    /** The snapshot of the fields. */
    function State(): AppState
      reads this
    {
      AppState(currentUser, events, registeredEvents, myEvents, currentRoute, routeParams, searchQuery)
    }

    ghost predicate Valid()
      reads this
    {
      Consistent(State())
    }

    /** A new session: anonymous, on the home page, with the example events. */
    constructor ()
      ensures State() == Initial && Valid()
    {
      currentUser := None;
      events := SeedEvents;
      registeredEvents := [];
      myEvents := [];
      currentRoute := "home";
      routeParams := map[];
      searchQuery := "";
      InitialConsistent();
    }

    method NavigateTo(route: string, params: map<string, int>)
      modifies this
      ensures State() == Store.NavigateTo(old(State()), route, params)
      ensures old(Valid()) ==> Valid()
    {
      currentRoute := route;
      routeParams := params;
    }

    method SetSearchQuery(query: string)
      modifies this
      ensures State() == Store.SetSearchQuery(old(State()), query)
      ensures old(Valid()) ==> Valid()
    {
      searchQuery := query;
    }

    method Login(username: string, password: string, now: int) returns (ok: bool)
      modifies this
      ensures (State(), ok) == Store.Login(old(State()), username, password, now)
      ensures old(Valid()) ==> Valid()
    {
      if username != "" && password != "" {
        currentUser := Some(User(now, username, Lower(username) + EmailDomain, None));
        NavigateTo("home", map[]);
        return true;
      }
      return false;
    }

    method Register(username: string, email: string, phone: string, password: string, now: int) returns (ok: bool)
      modifies this
      ensures (State(), ok) == Store.Register(old(State()), username, email, phone, password, now)
      ensures old(Valid()) ==> Valid()
    {
      if username != "" && email != "" && password != "" {
        currentUser := Some(User(now, username, email, Some(phone)));
        NavigateTo("home", map[]);
        return true;
      }
      return false;
    }

    method Logout()
      modifies this
      ensures State() == Store.Logout(old(State()))
      ensures old(Valid()) ==> Valid()
    {
      currentUser := None;
      NavigateTo("home", map[]);
    }

    /** Returns whether the success notice was raised. */
    method RegisterForEvent(eventId: int) returns (announced: bool)
      modifies this
      ensures (State(), announced) == Store.RegisterForEvent(old(State()), eventId)
      ensures old(Valid()) ==> Valid()
    {
      if currentUser.None? {
        NavigateTo("login", map[]);
        return false;
      }
      announced := false;
      if eventId !in registeredEvents {
        registeredEvents := registeredEvents + [eventId];
        announced := true;
      }
      if old(Valid()) {
        RegisterForEventKeepsConsistent(old(State()), eventId);
      }
    }

    /** `now` is the clock reading that becomes the event id; the invariant
        survives when it is fresh. */
    method CreateEvent(draft: EventDraft, now: int)
      modifies this
      ensures State() == Store.CreateEvent(old(State()), draft, now)
      ensures old(Valid()) && now !in Ids(old(events)) ==> Valid()
    {
      if currentUser.None? {
        NavigateTo("login", map[]);
        return;
      }
      var created := NewEvent(draft, now, currentUser.value);
      events := events + [created];
      myEvents := myEvents + [created.id];
      NavigateTo("eventDetails", map["id" := created.id]);
      if old(Valid()) && now !in Ids(old(events)) {
        CreateEventKeepsConsistent(old(State()), draft, now);
      }
    }

    /** Renders the current route. A page that redirects navigates (with no
        parameters) and the target page is rendered instead. */
    method RenderCurrentRoute() returns (view: View)
      modifies this
      ensures Dispatch(old(State())).Show? ==> State() == old(State()) && view == Dispatch(old(State())).view
      ensures Dispatch(old(State())).Redirect? ==>
        && State() == Store.NavigateTo(old(State()), Dispatch(old(State())).target, map[])
        && Dispatch(State()) == Show(view)
      ensures old(Valid()) ==> Valid()
    {
      var screen := Dispatch(State());
      match screen {
        case Show(v) =>
          view := v;
        case Redirect(target) =>
          RedirectSettles(State());
          NavigateTo(target, map[]);
          view := Dispatch(State()).view;
      }
    }
  }
}
