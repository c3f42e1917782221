/** The event log, and the table one can rebuild from it. */
module Events {
  import opened Domain

  datatype EventKind = Created | Updated | Deleted

  /** A published event: the user travels as JSON, hence without its password. */
  datatype Event = Event(kind: EventKind, eventId: Uuid, user: User, timestamp: int, version: string)

  /** Outcome of one publication. */
  datatype Publish = Publish(fails: bool, eventId: Uuid, at: int)

  const SCHEMA_VERSION := "1.0"

  function UserEvent(kind: EventKind, u: User, o: Publish): Event {
    Event(kind, o.eventId, Erase(u), o.at, SCHEMA_VERSION)
  }

  /** The log after an attempt to publish; a failure is only logged by the service. */
  function Announce(log: seq<Event>, kind: EventKind, u: User, o: Publish): seq<Event> {
    if o.fails then log else log + [UserEvent(kind, u, o)]
  }

  class UserEventPublisher {
    var log: seq<Event>

    constructor ()
      ensures log == []
    {
      log := [];
    }

    method Publish(e: Event, fails: bool) returns (ok: bool)
      modifies this
      ensures ok == !fails && log == if fails then old(log) else old(log) + [e]
    {
      if !fails {
        log := log + [e];
      }
      ok := !fails;
    }

    method PublishCreatedUser(u: User, o: Publish) returns (ok: bool)
      modifies this
      ensures ok == !o.fails && log == Announce(old(log), Created, u, o)
    {
      ok := Publish(UserEvent(Created, u, o), o.fails);
    }

    method PublishUpdatedUser(u: User, o: Publish) returns (ok: bool)
      modifies this
      ensures ok == !o.fails && log == Announce(old(log), Updated, u, o)
    {
      ok := Publish(UserEvent(Updated, u, o), o.fails);
    }

    method PublishDeletedUser(u: User, o: Publish) returns (ok: bool)
      modifies this
      ensures ok == !o.fails && log == Announce(old(log), Deleted, u, o)
    {
      ok := Publish(UserEvent(Deleted, u, o), o.fails);
    }
  }
}
