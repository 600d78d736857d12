/** The add-event form's submit handler: it composes the display date and
    time strings from the date and time inputs and builds the draft handed
    to `createEvent`. `formatDate` (locale date formatting) is a parameter,
    left uninterpreted. */
module EventForm {
  import opened Domain
  import opened Clock

  /** The form fields the submit handler reads. The category select starts
      at "cultural". */
  datatype AddEventForm = AddEventForm(
    eventName: string,
    eventDescription: string,
    eventLocation: string,
    eventDate: string,
    eventTime: string,
    eventEndDate: string,
    eventEndTime: string,
    eventCategory: string)

  const DefaultCategory: string := "cultural"

  /** The form as it first appears: every field empty, the category select
      at its default. */
  const BlankForm: AddEventForm := AddEventForm("", "", "", "", "", "", "", DefaultCategory)

  /** The stock picture every new event gets. */
  const NewEventImage: string :=
    "https://images.pexels.com/photos/2747449/pexels-photo-2747449.jpeg?auto=compress&cs=tinysrgb&w=1260&h=750&dpr=1"

  /** The display date: the formatted start date, followed by "-" and the
      formatted end date when an end date is given that differs from the
      start date. */
  function ComposeDate(date: string, endDate: string, formatDate: string -> string): (r: string)
    ensures (endDate == "" || endDate == date) ==> r == (if date == "" then "" else formatDate(date))
    ensures date != "" && endDate != "" && endDate != date ==> r == formatDate(date) + "-" + formatDate(endDate)
    ensures date == "" && endDate != "" ==> r == "-" + formatDate(endDate)
  {
    var formatted := if date != "" then formatDate(date) else "";
    if endDate != "" && date != endDate then formatted + "-" + formatDate(endDate) else formatted
  }

  /** What the form demands of the time inputs when they are filled in. */
  predicate TimesWellFormed(time: string, endTime: string) {
    (time != "" ==> IsClock24(time)) && (time != "" && endTime != "" ==> IsClock24(endTime))
  }

  /** The display time: empty without a start time (an end time alone is
      dropped), otherwise the formatted start time, followed by " - " and the
      formatted end time when one is given. */
  function ComposeTime(time: string, endTime: string): (r: string)
    requires TimesWellFormed(time, endTime)
    ensures r == "" <==> time == ""
    ensures time != "" && endTime == "" ==> r == FormatTime(time)
    ensures time != "" && endTime != "" ==> r == FormatTime(time) + " - " + FormatTime(endTime)
  {
    if time == "" then ""
    else if endTime != "" then FormatTime(time) + " - " + FormatTime(endTime)
    else FormatTime(time)
  }

  /** `formattedTime || undefined`: an empty display time is absent. */
  function OptionalTime(formatted: string): (r: Option<string>)
    ensures r.None? <==> formatted == ""
    ensures r.Some? ==> r.value == formatted
  {
    if formatted == "" then None else Some(formatted)
  }

  /** The draft built by the submit handler. */
  function SubmitDraft(form: AddEventForm, formatDate: string -> string): (d: EventDraft)
    requires TimesWellFormed(form.eventTime, form.eventEndTime)
    ensures d.name == form.eventName && d.description == form.eventDescription
    ensures d.location == form.eventLocation && d.category == form.eventCategory
    ensures d.date == ComposeDate(form.eventDate, form.eventEndDate, formatDate)
    ensures d.time.None? <==> form.eventTime == ""
    ensures d.time == OptionalTime(ComposeTime(form.eventTime, form.eventEndTime))
    ensures d.image == NewEventImage
  {
    EventDraft(
      form.eventName,
      form.eventDescription,
      ComposeDate(form.eventDate, form.eventEndDate, formatDate),
      OptionalTime(ComposeTime(form.eventTime, form.eventEndTime)),
      form.eventLocation,
      form.eventCategory,
      NewEventImage)
  }

  /** With a start time and no end time, the draft's time reads back as the
      start time that was entered. */
  lemma SubmittedTimeReadsBack(form: AddEventForm, formatDate: string -> string)
    requires TimesWellFormed(form.eventTime, form.eventEndTime)
    requires form.eventTime != "" && form.eventEndTime == ""
    ensures SubmitDraft(form, formatDate).time.Some?
    ensures ParseClock12(SubmitDraft(form, formatDate).time.value) == Some(form.eventTime)
  {
    FormatTimeRoundTrip(form.eventTime);
  }

  /** Submitting the untouched form yields an undated, untimed, unnamed
      draft in the default category. */
  lemma BlankFormDraft(formatDate: string -> string)
    ensures var d := SubmitDraft(BlankForm, formatDate);
      d.name == "" && d.date == "" && d.time.None? && d.category == "cultural"
  {
  }
}
