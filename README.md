# Community Pulse session store and view router, in Dafny

Community Pulse is a single-page event-discovery client. All of its logic
sits in the `App` component (`src/App.tsx`). That logic is an in-memory
session store, a handful of derived views and a string-keyed view router.
The store holds the current user, the event list, the registered and
authored event ids, the current route with its parameters, and the search
query. This project models that logic and proves what it guarantees.

Layout, one module per concern:

- `text.dfy` (`Text`): ASCII lower-casing and substring search, standing
  for `toLowerCase` and `includes`.
- `seqs.dfy` (`Seqs`): an order-preserving `Filter` with its lemmas, a
  subsequence predicate, and duplicate-freedom.
- `domain.dfy` (`Domain`): the `User`, `Event` and `EventDraft` records.
- `catalog.dfy` (`Catalog`): the pure helpers.
  - Category labels and badge colours.
  - The search filter.
  - The "my events" and "registered events" lists.
  - Event lookup by id.
  - The register-button state.
- `clock.dfy` (`Clock`): `formatTime`, plus a parser for the 12-hour form
  that reads its output back.
- `event_form.dfy` (`EventForm`): the add-event submit handler's date and
  time composition. Locale date formatting (`formatDate`) is a function
  parameter.
- `store.dfy` (`Store`): the state snapshot `AppState`, the example
  events, and each handler as a pure transition.
  - The handlers are `navigateTo`, `login`, `register`, `logout`,
    `registerForEvent` and `createEvent`.
  - The store invariant `Consistent` says event ids are unique, neither
    membership list repeats an id, and every authored id names an event.
    Registered ids need not name one: `registerForEvent` does not check.
- `router.dfy` (`Router`): `renderCurrentRoute` as `Dispatch`. It maps a
  snapshot to a shown page or to a redirect.
- `session.dfy` (`Session`): the component's state as a class `App`.
  - Its fields are the seven pieces of state.
  - Its methods update them in place, as the component's setters do.
  - Each method is proved to perform the matching `Store` transition and
    to keep the invariant (`CreateEvent` only when the new id is fresh).

Clock readings (`Date.now()`) become a parameter `now`. The handlers never
check that such an id is fresh. Lemmas that need uniqueness take
`now !in Ids(events)` as a hypothesis.

A render-time redirect (`navigateTo('home')` or `navigateTo('login')`
called while rendering) is modelled by `Session.App.RenderCurrentRoute`.
It performs the navigation and renders the target page, and
`Router.RedirectSettles` proves that one redirect always settles.

Where descriptions of the application and its code differ, the model
follows the code:

- `createEvent` returns nothing. The new event is reached through the
  route parameters it navigates with.
- A failed login or registration returns `false`. The message shown is
  form-local state, outside this model.

## Model

| member | source | states |
|---|---|---|
| Text.Lower | src/App.tsx:102 | lower-casing keeps the length and folds each character on its own |
| Text.LowerIdempotent | src/App.tsx:191-194 | folding an already folded string changes nothing |
| Text.ContainsBasics | src/App.tsx:191-194 | `includes` finds the empty string in every string, and a string in any extension of itself |
| Seqs.Filter | src/App.tsx:190-195 | every element of the result is an accepted element of the input, every accepted element appears in it, and the result is no longer than the input (multiplicities: `Seqs.FilterCounts`) |
| Seqs.FilterCounts | src/App.tsx:190-195 | every occurrence of an accepted value survives, as often as in the input, and no rejected value does, so repeated elements are all kept |
| Seqs.FilterIsSubsequence | src/App.tsx:190-195 | `filter` keeps the original order |
| Seqs.FilterAppend | src/App.tsx:190-195 | filtering a concatenation filters each part |
| Catalog.LabelsCapitalise | src/App.tsx:165-171 | each of the five labels is its key with the first letter upper-cased, and folds back to the key |
| Catalog.CategoryName | src/App.tsx:164-173 | a known key shows its capitalised label; any other category is passed through unchanged |
| Catalog.CategoryNameIdempotent | src/App.tsx:164-173 | no label is itself a key, so labelling a label changes nothing |
| Catalog.CategoryAccent | src/App.tsx:277-282 | sports, cultural, exhibition and volunteer get their own colours; education and unknown categories get the neutral one |
| Catalog.CategoryAccentDistinct | src/App.tsx:277-282 | two categories that share a non-neutral colour are the same category |
| Catalog.FilteredEvents | src/App.tsx:190-195 | the home list holds exactly the events whose folded name, description, location or category label contains the folded query |
| Catalog.FilteredEventsCounts | src/App.tsx:190-195 | a matching event is shown as many times as the list holds it; a non-matching one never |
| Catalog.FilteredEventsInOrder | src/App.tsx:190-195 | the search result keeps the event list's order |
| Catalog.EmptyQueryKeepsAll | src/App.tsx:190-195 | an empty query shows every event, in order |
| Catalog.SearchIgnoresCase | src/App.tsx:190-195 | a query and its lower-case form give the same list |
| Catalog.SearchFindsCategory | src/App.tsx:194 | searching for a category key finds every event of that category |
| Catalog.MembershipList | src/App.tsx:750 | the "my events" list holds exactly the events whose id is authored |
| Catalog.MembershipListCounts | src/App.tsx:750 | an event whose id is listed is shown as many times as the event list holds it; any other event never |
| Catalog.MembershipListInOrder | src/App.tsx:827 | the registered list (like the authored one) keeps the event list's order |
| Catalog.MembershipListGrows | src/App.tsx:156-157 | appending an event with a new id, and adding that id to the list, appends exactly that event to the view |
| Catalog.FindEvent | src/App.tsx:445 | `find` returns an event with the id when one exists, and nothing otherwise |
| Catalog.FindEventFirst | src/App.tsx:445 | `find` returns the first event with the id |
| Catalog.FindEventUnique | src/App.tsx:445 | with unique ids, `find` returns the one event with that id |
| Catalog.ButtonState | src/App.tsx:521-542 | "already registered" exactly when registered; clickable exactly when not registered and registration is open; otherwise "not yet open" |
| Clock.FormatTime | src/App.tsx:181-187 | the result ends in PM exactly from hour 12 on; hour 00 shows as 12 AM and hour 12 as 12 PM |
| Clock.ParseClock12Of | src/App.tsx:185-186 | the "h:MM AM/PM" text of an hour from 1 to 12 reads back as the matching 24-hour value |
| Clock.ParseHourExact | src/App.tsx:185-186 | an hour field the parser accepts is exactly the unpadded decimal text of its value |
| Clock.ParseClock12Exact | src/App.tsx:181-187 | the parser accepts only text the formatter prints: whatever it reads back, formatting the result gives the same text, so each time has one 12-hour spelling |
| Clock.FormatTimeRoundTrip | src/App.tsx:181-187 | the 12-hour text reads back as the input "HH:MM", so the hour shown is 1 to 12, the suffix is right and the minutes are copied verbatim |
| EventForm.ComposeDate | src/App.tsx:570-573 | start date only, unless an end date is given that differs, in which case "-" and the formatted end date follow |
| EventForm.ComposeTime | src/App.tsx:575-581 | empty exactly when there is no start time; otherwise the formatted start, then " - " and the formatted end when there is one |
| EventForm.OptionalTime | src/App.tsx:588 | an empty time string becomes an absent time |
| EventForm.SubmitDraft | src/App.tsx:583-592 | the draft carries the form's name, description, location and category, the composed date, the stock image, and as time the composed time string, absent exactly when no start time was entered |
| EventForm.BlankFormDraft | src/App.tsx:556-563 | the form starts with every field empty and the category at "cultural"; the handler applied to it gives an unnamed, undated, untimed draft in that category |
| EventForm.SubmittedTimeReadsBack | src/App.tsx:575-588 | a start time entered without an end time reaches the draft in a form that reads back as the entered time |
| Store.InitialConsistent | src/App.tsx:31-86 | the initial session satisfies the invariant, and its events carry ids 1 to 4 |
| Store.NavigateTo | src/App.tsx:90-94 | the route and parameters are set as given, whatever they are, and nothing else changes |
| Store.SetSearchQuery | src/App.tsx:254 | typing in the search box changes only the query |
| Store.Login | src/App.tsx:97-108 | success iff username and password are non-empty. On success the user has that username, the e-mail is the lower-cased username + "@example.com", no phone, and the route is home. On failure nothing changes |
| Store.Register | src/App.tsx:110-122 | success iff username, e-mail and password are non-empty. The phone may be empty and is kept. The e-mail is the one supplied. On success the route is home; on failure nothing changes |
| Store.Logout | src/App.tsx:124-127 | no user and route home; the events and both membership lists are unchanged |
| Store.RegisterForEvent | src/App.tsx:130-140 | without a user: route login, lists unchanged, no notice. With one: the id is appended iff absent, and the notice is raised iff it was absent. Neither the event's existence nor its open flag is checked |
| Store.NewEvent | src/App.tsx:148-154 | the new record takes the draft's fields and the given id. The organizer and e-mail are the creator's, there is no contact phone, and registration is open |
| Store.CreateEvent | src/App.tsx:142-161 | without a user only the route changes, to login. Otherwise the new event is appended and its id appended to the authored list. The route becomes eventDetails with that id; user, registrations and query are unchanged |
| Store.SessionChangesKeepConsistent | src/App.tsx:90-127 | navigation, the search box, login, registration and logout keep the store invariant |
| Store.RegisterForEventKeepsConsistent | src/App.tsx:136-137 | registering keeps the registered list duplicate-free |
| Store.RegisterForEventIdempotent | src/App.tsx:130-140 | registering again for the same event changes nothing and raises no notice |
| Store.CreateEventAppendsOne | src/App.tsx:156 | the earlier events stay unchanged and in place; exactly one event is added with a user, none without |
| Store.CreateEventKeepsConsistent | src/App.tsx:148-157 | with a fresh id the invariant holds afterwards, and the new event is the only one with that id |
| Store.NextLoginInheritsMemberships | src/App.tsx:124-127 | after logout and a new login, the new user has the previous session's registered and authored lists |
| Router.RequestedEvent | src/App.tsx:444-445 | the route's id parameter names an event of the list when one has it; a missing parameter or unknown id gives nothing |
| Router.Dispatch | src/App.tsx:895-914 | unknown routes show not-found. eventDetails with no matching event redirects home. addEvent, myEvents and registeredEvents redirect to login exactly when no user is present. No other redirect happens |
| Router.DetailsOf | src/App.tsx:443-453 | the details page shows the requested event, its button state and whether the user authored it |
| Router.RedirectSettles | src/App.tsx:447-449 | after a redirect, the target route always shows a page |
| Router.LoginShowsHome | src/App.tsx:104 | after a successful login the home page shows the search results |
| Router.LogoutGatesViews | src/App.tsx:551-554 | after logout, the add-event page (and the two list pages) redirect to login |
| Router.CreatedEventIsRequested | src/App.tsx:160 | with a fresh id, the parameters `createEvent` navigates with name the new event |
| Router.CreatedEventIsShown | src/App.tsx:142-161 | with a fresh id, the page after creation is the new event's details, marked as the user's own |
| Router.CreatedEventIsMine | src/App.tsx:744-750 | with a fresh id, the "my events" page then lists the earlier authored events followed by the new one |
| Router.RegisterButtonRegisters | src/App.tsx:528-534 | pressing the open register button as a user turns it into "already registered" and puts the event on the registered page |
| Router.TennisNameMatches | src/App.tsx:191 | an event named "Tennis..." matches the query "tennis" |
| Router.TennisEventsLast | src/App.tsx:190-195 | in four events whose last two are named "Tennis...", the search for "tennis" ends with those two, in order |
| Router.SeedTennisSearch | src/App.tsx:58-81 | searching the example events for "tennis" lists both tennis events, in their original order, at the end of the result |
| Session.App.constructor | src/App.tsx:30-87 | a new session is anonymous and on the home page. It holds the example events, empty membership lists and an empty query, and satisfies the invariant |
| Session.App.NavigateTo | src/App.tsx:90-94 | updates the fields as `Store.NavigateTo` does and keeps the invariant |
| Session.App.SetSearchQuery | src/App.tsx:87 | updates the query as `Store.SetSearchQuery` does and keeps the invariant |
| Session.App.Login | src/App.tsx:97-108 | updates the fields and returns the flag as `Store.Login` does, and keeps the invariant |
| Session.App.Register | src/App.tsx:110-122 | updates the fields and returns the flag as `Store.Register` does, and keeps the invariant |
| Session.App.Logout | src/App.tsx:124-127 | updates the fields as `Store.Logout` does and keeps the invariant |
| Session.App.RegisterForEvent | src/App.tsx:130-140 | updates the fields and reports the notice as `Store.RegisterForEvent` does, and keeps the invariant |
| Session.App.CreateEvent | src/App.tsx:142-161 | updates the fields as `Store.CreateEvent` does, and keeps the invariant when the id is fresh |
| Session.App.RenderCurrentRoute | src/App.tsx:895-914 | a page that shows changes nothing. A redirect navigates to its target with no parameters, and the page returned is what the target shows |

## Left out

- Rendering: JSX markup, class names, icons, the navbar and the footer. The
  model keeps what each page displays of the store (`Router.View`), not how.
- Clock readings (`Date.now()`) used as user and event ids are parameters.
  The handlers never check that an id is fresh.
- `formatDate` (JavaScript `Date` parsing and `Intl` formatting) is a
  function parameter and stays uninterpreted.
- Browser side effects: `alert` and `window.scrollTo`. The success notice
  of `registerForEvent` is reported as a returned flag. The one raised by
  `createEvent` is left out.
- React semantics: state-setter batching, stale closures, and the hooks
  called inside render helpers. Each handler is one atomic update of a
  state snapshot, and each render helper sees the snapshot it is called
  with.
- Form-local state: the login and registration forms' error messages and
  their field bookkeeping.
- Unicode case folding. `toLowerCase` is modelled as ASCII lower-casing.
- Clock.FormatTime: the NaN path of `parseInt` and other malformed inputs
  are excluded. The input must be a two-digit hour from 00 to 23, a colon,
  and minutes without a further colon, as a time input yields it.
- `parseInt` on the route's id parameter. Parameters are integers, as every
  navigation passes them, and a missing "id" finds nothing.
- Object-prototype keys such as "constructor" in the category lookup. The
  lookup is a plain map.
- Store.CreateEvent: the draft carries only the fields the add-event form
  supplies. An arbitrary partial event can be passed to the code, and its
  own `id` would override the clock id through the object spread; the
  model does not capture that.
- Form fields collected but never used: the registration start and end
  dates, and the file upload. Also the Edit and Delete buttons, which
  have no handler.
- `vite.config.ts`: build configuration only.
- Router.SeedTennisSearch: it does not prove that the other two example
  events are left out of the "tennis" search. That would require checking
  for a missing substring in long literal descriptions, which is beyond
  the solver's budget.
