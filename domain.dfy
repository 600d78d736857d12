/** The records the application keeps in memory: users, events and the
    fields an add-event submission supplies. */
module Domain {

  datatype Option<T> = None | Some(value: T)

  /** A fabricated account. `phone` is absent for a login and present (maybe
      empty) for a registration. */
  datatype User = User(id: int, username: string, email: string, phone: Option<string>)

  /** A community event. `time`, `contact` and `email` are optional. */
  datatype Event = Event(
    id: int,
    name: string,
    description: string,
    date: string,
    time: Option<string>,
    location: string,
    category: string,
    organizer: string,
    contact: Option<string>,
    email: Option<string>,
    image: string,
    registrationOpen: bool)

  /** What the add-event form hands to `createEvent`; the store adds the id,
      the organizer, the e-mail and the open-registration flag. */
  datatype EventDraft = EventDraft(
    name: string,
    description: string,
    date: string,
    time: Option<string>,
    location: string,
    category: string,
    image: string)

  function Ids(events: seq<Event>): (ids: seq<int>)
    ensures |ids| == |events|
    ensures forall i :: 0 <= i < |events| ==> ids[i] == events[i].id
  {
    if events == [] then [] else [events[0].id] + Ids(events[1..])
  }

  /** No two events share an id. */
  predicate UniqueIds(events: seq<Event>) {
    forall i, j :: 0 <= i < j < |events| ==> events[i].id != events[j].id
  }
}
