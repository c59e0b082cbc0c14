/**
 * The calendar application object: the admin flag, the month on show, and the
 * two event stores, which its methods update in place. The browser's storage
 * slot "calendarEvents" is the field `stored`; the user's prompt and confirm
 * answers arrive as parameters. After each operation the page renders
 * `CalendarView.Grid` of the new state, which is a function of these fields.
 */
module CalendarApp {
  import opened Wrappers
  import opened Gregorian
  import opened Events
  import opened CalendarView

  /** The shared operator password the login check compares against. */
  const ADMIN_PASSWORD: string := "admin123"

  /** A prompt answer counts only when it is neither cancelled nor empty. */
  predicate Truthy(answer: Option<string>) {
    answer.Some? && answer.value != ""
  }

  /** What loading the storage slot gives: the saved map, or no events when nothing was saved. */
  function Loaded(slot: Option<EventMap>): EventMap {
    if slot.Some? then slot.value else map[]
  }

  class App {
    var isAdmin: bool
    var currentMonth: Month
    var currentYear: int
    var events: EventMap
    var pendingEvents: EventMap
    /** The storage slot "calendarEvents": the last saved published store, if any. */
    var stored: Option<EventMap>

    /**
     * Both stores keep no empty lists, and the published store is always what
     * the storage slot would load: every change to it is saved straight away.
     */
    ghost predicate Valid()
      reads this`events, this`pendingEvents, this`stored
    {
      WellFormed(events) && WellFormed(pendingEvents) && events == Loaded(stored)
    }

    /** Start-up: fields from the clock's month and year, then the saved events are loaded. */
    constructor (month: Month, year: int, slot: Option<EventMap>)
      requires slot.Some? ==> WellFormed(slot.value)
      ensures Valid()
      ensures !isAdmin && currentMonth == month && currentYear == year
      ensures events == Loaded(slot) && pendingEvents == map[] && stored == slot
    {
      isAdmin := false;
      currentMonth := month;
      currentYear := year;
      events := map[];
      pendingEvents := map[];
      stored := slot;
      new;
      LoadEvents();
    }

    /** Replaces the published store by the saved one, if there is one. */
    method LoadEvents()
      modifies this`events
      ensures events == if stored.Some? then stored.value else old(events)
    {
      if stored.Some? {
        events := stored.value;
      }
    }

    /** Writes the published store to the storage slot. */
    method SaveEvents()
      modifies this`stored
      ensures stored == Some(events)
    {
      stored := Some(events);
    }

    /** Files a new draft under `date`; a cancelled or empty description changes nothing. */
    method AddEvent(date: string, description: Option<string>)
      requires Valid()
      modifies this`pendingEvents
      ensures Valid()
      ensures pendingEvents ==
        if Truthy(description) then Append(old(pendingEvents), date, Event(description.value))
        else old(pendingEvents)
    {
      if Truthy(description) {
        if date !in pendingEvents {
          pendingEvents := pendingEvents[date := []];
        }
        pendingEvents := pendingEvents[date := pendingEvents[date] + [Event(description.value)]];
        AppendSpec(old(pendingEvents), date, Event(description.value));
      }
    }

    /** Replaces a published event and saves; a cancelled or empty description changes nothing. */
    method EditEvent(date: string, index: nat, newDescription: Option<string>)
      requires Valid()
      requires date in events && index < |events[date]|
      modifies this`events, this`stored
      ensures Valid()
      ensures events ==
        if Truthy(newDescription) then Replace(old(events), date, index, Event(newDescription.value))
        else old(events)
      ensures stored == if Truthy(newDescription) then Some(events) else old(stored)
    {
      if Truthy(newDescription) {
        ReplaceSpec(events, date, index, Event(newDescription.value));
        events := events[date := events[date][index := Event(newDescription.value)]];
        SaveEvents();
      }
    }

    /** Replaces a draft; a cancelled or empty description changes nothing. */
    method EditPendingEvent(date: string, index: nat, newDescription: Option<string>)
      requires Valid()
      requires date in pendingEvents && index < |pendingEvents[date]|
      modifies this`pendingEvents
      ensures Valid()
      ensures pendingEvents ==
        if Truthy(newDescription) then Replace(old(pendingEvents), date, index, Event(newDescription.value))
        else old(pendingEvents)
    {
      if Truthy(newDescription) {
        ReplaceSpec(pendingEvents, date, index, Event(newDescription.value));
        pendingEvents := pendingEvents[date := pendingEvents[date][index := Event(newDescription.value)]];
      }
    }

    /**
     * Once confirmed, removes a published event, drops the date when its list
     * runs empty, and saves; a declined confirmation changes nothing.
     */
    method DeleteEvent(date: string, index: nat, confirmed: bool)
      requires Valid()
      requires confirmed ==> date in events
      modifies this`events, this`stored
      ensures Valid()
      ensures events == if confirmed then Remove(old(events), date, index) else old(events)
      ensures stored == if confirmed then Some(events) else old(stored)
    {
      if confirmed {
        RemoveSpec(events, date, index);
        events := events[date := Splice(events[date], index)];
        if |events[date]| == 0 {
          events := events - {date};
        }
        SaveEvents();
      }
    }

    /** Once confirmed, removes a draft and drops the date when its list runs empty. */
    method DeletePendingEvent(date: string, index: nat, confirmed: bool)
      requires Valid()
      requires confirmed ==> date in pendingEvents
      modifies this`pendingEvents
      ensures Valid()
      ensures pendingEvents == if confirmed then Remove(old(pendingEvents), date, index) else old(pendingEvents)
    {
      if confirmed {
        RemoveSpec(pendingEvents, date, index);
        pendingEvents := pendingEvents[date := Splice(pendingEvents[date], index)];
        if |pendingEvents[date]| == 0 {
          pendingEvents := pendingEvents - {date};
        }
      }
    }

    /**
     * Appends every date's drafts to its published list, one date at a time,
     * empties the pending store and saves.
     */
    method PublishEvents()
      requires Valid()
      modifies this`events, this`pendingEvents, this`stored
      ensures Valid()
      ensures events == Publish(old(events), old(pendingEvents))
      ensures pendingEvents == map[] && stored == Some(events)
    {
      MergePending();
      PublishSpec(old(events), pendingEvents);
      pendingEvents := map[];
      SaveEvents();
    }

    /** The `for ... in` loop of publishing: each date's drafts appended to its published list. */
    method MergePending()
      modifies this`events
      ensures events == Publish(old(events), pendingEvents)
    {
      var todo := pendingEvents.Keys;
      while todo != {}
        invariant todo <= pendingEvents.Keys
        invariant events.Keys == old(events).Keys + (pendingEvents.Keys - todo)
        invariant forall d :: d in events ==>
          events[d] == Lookup(old(events), d) + (if d in pendingEvents && d !in todo then pendingEvents[d] else [])
        decreases todo
      {
        var date :| date in todo;
        var published := if date in events then events[date] else [];
        events := events[date := published + pendingEvents[date]];
        todo := todo - {date};
      }
      PublishExtensional(events, old(events), pendingEvents);
    }

    /** Enters admin mode exactly when the password matches; a wrong one changes nothing. */
    method Login(password: string)
      modifies this`isAdmin
      ensures isAdmin == (password == ADMIN_PASSWORD || old(isAdmin))
    {
      if password == ADMIN_PASSWORD {
        isAdmin := true;
      }
    }

    /** Leaves admin mode; both stores, drafts included, stay as they are. */
    method Logout()
      modifies this`isAdmin
      ensures !isAdmin
    {
      isAdmin := false;
    }

    /** The month selector's change handler. */
    method SelectMonth(month: Month)
      modifies this`currentMonth
      ensures currentMonth == month
    {
      currentMonth := month;
    }
  }

  /**
   * A walk-through on the application object: the operator logs in, adds
   * "Meeting" on 15 March 2024 and publishes it, which saves it; after logging
   * out, the guest grid shows it as `MeetingShownToGuest` describes, and a
   * reload finds it in the storage slot.
   */
  method MeetingScenario() {
    var app := new App(2, 2024, None);
    app.Login(ADMIN_PASSWORD);
    assert app.isAdmin;
    app.AddEvent("2024-3-15", Some("Meeting"));
    MeetingDraft();
    app.PublishEvents();
    MeetingShownToGuest();
    assert app.events == map["2024-3-15" := [Event("Meeting")]] && app.stored == Some(app.events);
    app.Logout();
    assert app.pendingEvents == map[] && !app.isAdmin && app.Valid();
    var reloaded := new App(2, 2024, app.stored);
    assert reloaded.events == app.events && reloaded.pendingEvents == map[];
  }
}
