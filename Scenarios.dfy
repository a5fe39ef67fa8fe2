/**
 * Worked examples of the store and the screen together: concrete lists
 * sorted both ways, and a prospect that is added, marked contacted and
 * then looked up in the two filtered tabs.
 */
module Scenarios {
  import opened ProspectStore
  import opened ProspectsView
  import Wrappers

  /** Prospects named Zed, Amy and Mo, sorted by name, come out as Amy, Mo, Zed. */
  lemma SortByNameExample(zed: Prospect, amy: Prospect, mo: Prospect)
    requires zed.name == "Zed" && amy.name == "Amy" && mo.name == "Mo"
    ensures SortedProspects(Name, None, [zed, amy, mo]) == [amy, mo, zed]
  {
  }

  /** Prospects added at times t1 < t2 < t3, sorted by recency, come out newest first. */
  lemma SortByRecentExample(p1: Prospect, p2: Prospect, p3: Prospect)
    requires p1.dateAdded < p2.dateAdded < p3.dateAdded
    ensures SortedProspects(Recent, None, [p1, p2, p3]) == [p3, p2, p1]
  {
  }

  /** A new store with nothing saved, one prospect added and then marked
      contacted: that prospect alone is the contacted tab, and the
      uncontacted tab is empty. */
  method AddThenToggle(id: Uuid, now: Timestamp)
    returns (alice: Prospect, contacted: seq<Prospect>, uncontacted: seq<Prospect>)
    ensures alice.name == "Alice" && alice.emailAddress == "alice@example.com"
    ensures alice.id == id && alice.dateAdded == now && alice.isContacted
    ensures contacted == [alice] && uncontacted == []
  {
    var store := new Prospects(Wrappers.None);
    alice := new Prospect(id, now);
    alice.name := "Alice";
    alice.emailAddress := "alice@example.com";
    store.Add(alice);
    store.Toggle(alice);
    assert store.people == [alice] && alice.isContacted;
    assert Select(store.people, true) == [alice];
    assert Select(store.people, false) == [];
    contacted := Filtered(Contacted, store.people);
    uncontacted := Filtered(Uncontacted, store.people);
  }
}
