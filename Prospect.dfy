/**
 * The prospect record and the store that owns the list of prospects
 * (HotProspects/Prospect.swift).
 *
 * `Prospect` is a reference type in the app, and `toggle` flips the flag on
 * the shared object rather than replacing an element of the list; so here
 * it is a class whose fields are updated in place, and the store holds a
 * sequence of references to such objects. The same object may sit in the
 * list more than once, and then every occurrence shows the new flag, as in
 * the app.
 */
module ProspectStore {
  import Wrappers

  /** A `UUID`, which the app generates; here it is supplied by the caller. */
  type Uuid = nat

  /** A `Date`, as a whole number of time units; supplied by the caller. */
  type Timestamp = int

  class Prospect {
    var id: Uuid
    var name: string
    var emailAddress: string
    /** Set only by the store's `Toggle` (the app makes the setter file-private). */
    var isContacted: bool
    var dateAdded: Timestamp

    /** `Prospect()`: every field takes its default; the fresh id and the
        current time are the caller's to supply. */
    constructor (id: Uuid, now: Timestamp)
      ensures this.id == id && dateAdded == now
      ensures name == "Anonymous" && emailAddress == "" && !isContacted
    {
      this.id := id;
      name := "Anonymous";
      emailAddress := "";
      isContacted := false;
      dateAdded := now;
    }
  }

  datatype SortOrder = Name | Recent

  class Prospects {
    var people: seq<Prospect>
    /** A display preference the screen sets directly. */
    var sortOrder: SortOrder

    /** `init()`: start empty, sorted by name, then load what was saved.
        `stored` is the decoded content of the saved file, or `None` when the
        file is missing or does not decode. */
    constructor (stored: Wrappers.Option<seq<Prospect>>)
      ensures sortOrder == Name
      ensures stored.Some? ==> people == stored.value
      ensures stored.None? ==> people == []
    {
      people := [];
      sortOrder := Name;
      new;
      Load(stored);
    }

    /** `load()`: a decoded list replaces `people`; on any failure `people`
        keeps its value and nothing is reported to the caller. */
    method Load(stored: Wrappers.Option<seq<Prospect>>)
      modifies this`people
      ensures people == if stored.Some? then stored.value else old(people)
    {
      if stored.Some? {
        people := stored.value;
      }
    }

    /** `add(_:)`: append at the end, with no check of the prospect's fields. */
    method Add(prospect: Prospect)
      modifies this`people
      ensures people == old(people) + [prospect]
      ensures sortOrder == old(sortOrder)
      ensures forall p :: p in old(people) ==> unchanged(p)
    {
      people := people + [prospect];
    }

    /** `toggle(_:)`: flip the flag of the given prospect, whether or not it
        is in `people`; the list itself and every other field stay as they were. */
    method Toggle(prospect: Prospect)
      modifies prospect`isContacted
      ensures prospect.isContacted == !old(prospect.isContacted)
      ensures prospect.id == old(prospect.id) && prospect.name == old(prospect.name)
      ensures prospect.emailAddress == old(prospect.emailAddress)
      ensures prospect.dateAdded == old(prospect.dateAdded)
      ensures people == old(people) && sortOrder == old(sortOrder)
      ensures forall p :: p in people && p != prospect ==> unchanged(p)
    {
      prospect.isContacted := !prospect.isContacted;
    }

    /** Two toggles in a row give the flag back its first value and change nothing else. */
    method ToggleTwice(prospect: Prospect)
      modifies prospect`isContacted
      ensures prospect.isContacted == old(prospect.isContacted)
      ensures unchanged(this) && forall p :: p in people ==> unchanged(p)
    {
      Toggle(prospect);
      Toggle(prospect);
    }
  }
}
