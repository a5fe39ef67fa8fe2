/**
 * The logic of the prospects screen (HotProspects/ProspectsView.swift):
 * which prospects a tab shows, in what order, under what heading, and how a
 * scanned QR payload becomes a new prospect.
 *
 * The computed properties `title`, `filteredProspects` and `sortedProspects`
 * are functions of the screen's filter, the store's sort order and the
 * store's `people`, reading the prospects' current fields.
 */
module ProspectsView {
  import opened Text
  import opened ProspectStore
  import Wrappers

  datatype FilterType = None | Contacted | Uncontacted

  /** `title`: the heading of each tab. */
  function Title(filter: FilterType): (heading: string)
    ensures heading == "Everyone" <==> filter.None?
  {
    match filter
    case None => "Everyone"
    case Contacted => "Contacted people"
    case Uncontacted => "Uncontacted people"
  }

  /** Different tabs carry different headings. */
  lemma TitleDistinguishesFilters(f: FilterType, g: FilterType)
    requires f != g
    ensures Title(f) != Title(g)
  {
  }

  // ---------------------------------------------------------------- filtering

  /** Whether a tab with the given filter lists the prospect. */
  predicate Shows(filter: FilterType, p: Prospect)
    reads p
  {
    match filter
    case None => true
    case Contacted => p.isContacted
    case Uncontacted => !p.isContacted
  }

  /** `people.filter { $0.isContacted == contacted }`. */
  function Select(people: seq<Prospect>, contacted: bool): (r: seq<Prospect>)
    reads set p | p in people
    ensures |r| <= |people|
    ensures forall i :: 0 <= i < |r| ==> r[i] in people && r[i].isContacted == contacted
  {
    if people == [] then []
    else if people[0].isContacted == contacted then [people[0]] + Select(people[1..], contacted)
    else Select(people[1..], contacted)
  }

  /** `filteredProspects`. */
  function Filtered(filter: FilterType, people: seq<Prospect>): (r: seq<Prospect>)
    reads set p | p in people
    ensures |r| <= |people|
    ensures forall i :: 0 <= i < |r| ==> r[i] in people && Shows(filter, r[i])
  {
    match filter
    case None => people
    case Contacted => Select(people, true)
    case Uncontacted => Select(people, false)
  }

  /** `r` is `s` with some entries dropped and the rest kept in order. */
  predicate IsSubsequence<T(==)>(r: seq<T>, s: seq<T>)
  {
    if r == [] then true
    else if s == [] then false
    else (r[0] == s[0] && IsSubsequence(r[1..], s[1..])) || IsSubsequence(r, s[1..])
  }

  lemma {:induction false} SelectExactly(people: seq<Prospect>, contacted: bool)
    ensures IsSubsequence(Select(people, contacted), people)
    ensures forall p: Prospect :: multiset(Select(people, contacted))[p] ==
              if p.isContacted == contacted then multiset(people)[p] else 0
  {
    if people != [] {
      SelectExactly(people[1..], contacted);
      assert people == [people[0]] + people[1..];
    }
  }

  /** A tab lists, in the store's order, exactly the prospects its filter
      admits, each as often as it occurs in `people`: no other prospect
      (soundness) and none of them left out (completeness). */
  lemma FilteredExactly(filter: FilterType, people: seq<Prospect>)
    ensures IsSubsequence(Filtered(filter, people), people)
    ensures forall p: Prospect :: multiset(Filtered(filter, people))[p] ==
              if Shows(filter, p) then multiset(people)[p] else 0
    ensures forall p: Prospect :: p in Filtered(filter, people) <==> p in people && Shows(filter, p)
  {
    match filter
    case None => SubsequenceReflexive(people);
    case Contacted => SelectExactly(people, true);
    case Uncontacted => SelectExactly(people, false);
  }

  lemma {:induction false} SubsequenceReflexive<T>(s: seq<T>)
    ensures IsSubsequence(s, s)
  {
    if s != [] {
      SubsequenceReflexive(s[1..]);
    }
  }

  /** The "everyone" tab is the store's list as it stands. */
  lemma FilteredNoneIsPeople(people: seq<Prospect>)
    ensures Filtered(None, people) == people
  {
  }

  /** The contacted and uncontacted tabs split the store between them. */
  lemma {:induction false} ContactedAndUncontactedPartition(people: seq<Prospect>)
    ensures multiset(Filtered(Contacted, people)) + multiset(Filtered(Uncontacted, people)) == multiset(people)
    ensures |Filtered(Contacted, people)| + |Filtered(Uncontacted, people)| == |people|
  {
    if people != [] {
      ContactedAndUncontactedPartition(people[1..]);
      assert people == [people[0]] + people[1..];
    }
  }

  // ------------------------------------------------------------------ sorting

  /** The `areInIncreasingOrder` closure that `sortedProspects` hands to
      `sorted(by:)`: names with `<`, or later dates first with `>`. */
  predicate InOrder(order: SortOrder, a: Prospect, b: Prospect)
    reads a, b
  {
    match order
    case Name => LexLess(a.name, b.name)
    case Recent => a.dateAdded > b.dateAdded
  }

  /** What `sorted(by:)` promises of its result: no element is in order before an earlier one. */
  predicate IsOrdered(order: SortOrder, r: seq<Prospect>)
    reads set p | p in r
  {
    forall i, j :: 0 <= i < j < |r| ==> !InOrder(order, r[j], r[i])
  }

  lemma InOrderAsymmetric(order: SortOrder, a: Prospect, b: Prospect)
    requires InOrder(order, a, b)
    ensures !InOrder(order, b, a)
  {
    if order.Name? {
      LexLessAsymmetric(a.name, b.name);
    }
  }

  lemma InOrderNotLessTransitive(order: SortOrder, a: Prospect, b: Prospect, c: Prospect)
    requires !InOrder(order, b, a) && !InOrder(order, c, b)
    ensures !InOrder(order, c, a)
  {
    if order.Name? {
      LexNotLessTransitive(a.name, b.name, c.name);
    }
  }

  /** Insert `x` into an ordered list, after the leading elements that are in order before it. */
  function Insert(order: SortOrder, x: Prospect, s: seq<Prospect>): (r: seq<Prospect>)
    reads {x} + set p | p in s
    ensures multiset(r) == multiset(s) + multiset{x}
  {
    if s == [] then [x]
    else if InOrder(order, s[0], x) then
      assert s == [s[0]] + s[1..];
      [s[0]] + Insert(order, x, s[1..])
    else [x] + s
  }

  lemma {:induction false} InsertOrdered(order: SortOrder, x: Prospect, s: seq<Prospect>)
    requires IsOrdered(order, s)
    ensures IsOrdered(order, Insert(order, x, s))
  {
    if s != [] {
      var r := Insert(order, x, s);
      if InOrder(order, s[0], x) {
        var t := Insert(order, x, s[1..]);
        InsertOrdered(order, x, s[1..]);
        InOrderAsymmetric(order, s[0], x);
        forall j | 0 <= j < |t|
          ensures !InOrder(order, t[j], s[0])
        {
          assert t[j] in multiset(t);
          if t[j] != x {
            assert t[j] in s[1..];
          }
        }
      } else {
        forall j | 0 <= j < |s|
          ensures !InOrder(order, s[j], x)
        {
          if j > 0 {
            InOrderNotLessTransitive(order, x, s[0], s[j]);
          }
        }
      }
    }
  }

  /** Swift's `sorted(by:)`, here by insertion: a permutation of the input
      in which no element is in order before an earlier one; `SortByStable`
      shows that tied elements keep their input order. */
  function SortBy(order: SortOrder, s: seq<Prospect>): (r: seq<Prospect>)
    reads set p | p in s
    ensures multiset(r) == multiset(s)
    ensures IsOrdered(order, r)
  {
    if s == [] then []
    else
      var t := SortBy(order, s[1..]);
      assert s == [s[0]] + s[1..];
      assert forall p :: p in t ==> p in multiset(t) && p in s;
      InsertOrdered(order, s[0], t);
      Insert(order, s[0], t)
  }

  /** `sortedProspects`: the filtered list, reordered per the store's sort order. */
  function SortedProspects(order: SortOrder, filter: FilterType, people: seq<Prospect>): (r: seq<Prospect>)
    reads set p | p in people
    ensures multiset(r) == multiset(Filtered(filter, people))
    ensures IsOrdered(order, r)
  {
    FilteredExactly(filter, people);
    SortBy(order, Filtered(filter, people))
  }

  /** Neither prospect is in order before the other: the closure does not
      establish an order between them (same name, or same date). */
  predicate Tied(order: SortOrder, a: Prospect, b: Prospect)
    reads a, b
  {
    !InOrder(order, a, b) && !InOrder(order, b, a)
  }

  /** Sorted by name, two prospects are tied exactly when their names are equal. */
  lemma TiedByNameIffSameName(a: Prospect, b: Prospect)
    ensures Tied(Name, a, b) <==> a.name == b.name
  {
    LexTrichotomy(a.name, b.name);
    LexLessIrreflexive(a.name);
  }

  /** The entries of `s` tied with `q`, in the order they occur in `s`. */
  function TiedWith(order: SortOrder, q: Prospect, s: seq<Prospect>): seq<Prospect>
    reads {q} + set p | p in s
  {
    if s == [] then []
    else if Tied(order, s[0], q) then [s[0]] + TiedWith(order, q, s[1..])
    else TiedWith(order, q, s[1..])
  }

  /** An element in order before `x` is in order before everything tied with `x`. */
  lemma InOrderBeforeTied(order: SortOrder, a: Prospect, x: Prospect, q: Prospect)
    requires InOrder(order, a, x) && Tied(order, x, q)
    ensures !Tied(order, a, q)
  {
    if Tied(order, a, q) {
      InOrderNotLessTransitive(order, x, q, a);
    }
  }

  lemma {:induction false} InsertTiedWith(order: SortOrder, x: Prospect, q: Prospect, t: seq<Prospect>)
    ensures TiedWith(order, q, Insert(order, x, t)) ==
            if Tied(order, x, q) then [x] + TiedWith(order, q, t) else TiedWith(order, q, t)
  {
    if t != [] && InOrder(order, t[0], x) {
      InsertTiedWith(order, x, q, t[1..]);
      assert Insert(order, x, t)[1..] == Insert(order, x, t[1..]);
      if Tied(order, x, q) {
        InOrderBeforeTied(order, t[0], x, q);
      }
    }
  }

  /** `sorted(by:)` is stable: prospects the closure does not order keep
      their relative order from the input. */
  lemma {:induction false} SortByStable(order: SortOrder, q: Prospect, s: seq<Prospect>)
    ensures TiedWith(order, q, SortBy(order, s)) == TiedWith(order, q, s)
  {
    if s != [] {
      SortByStable(order, q, s[1..]);
      InsertTiedWith(order, s[0], q, SortBy(order, s[1..]));
    }
  }

  /** In the sorted tab, prospects with the same name (or the same date)
      appear in the order they have in the filtered list. */
  lemma SortedProspectsStable(order: SortOrder, filter: FilterType, people: seq<Prospect>, q: Prospect)
    ensures TiedWith(order, q, SortedProspects(order, filter, people)) ==
            TiedWith(order, q, Filtered(filter, people))
  {
    SortByStable(order, q, Filtered(filter, people));
  }

  /** Sorted by name, the names run from smallest to largest. */
  lemma SortedByNameAscending(filter: FilterType, people: seq<Prospect>)
    ensures var r := SortedProspects(Name, filter, people);
            forall i, j :: 0 <= i < j < |r| ==> LexLessOrEqual(r[i].name, r[j].name)
  {
    var r := SortedProspects(Name, filter, people);
    forall i, j | 0 <= i < j < |r|
      ensures LexLessOrEqual(r[i].name, r[j].name)
    {
      LexTrichotomy(r[i].name, r[j].name);
    }
  }

  /** Sorted by recency, the most recently added come first. */
  lemma SortedByRecentDescending(filter: FilterType, people: seq<Prospect>)
    ensures var r := SortedProspects(Recent, filter, people);
            forall i, j :: 0 <= i < j < |r| ==> r[i].dateAdded >= r[j].dateAdded
  {
  }

  // ----------------------------------------------------------------- scanning

  /** What the code scanner hands back: the payload text, or a failure. */
  datatype ScanResult = Success(text: string) | Failure(error: string)

  /** The name and email address a payload carries: its text split at every
      newline must give exactly two pieces, the name and then the address. */
  function ParseScan(text: string): (details: Wrappers.Option<(string, string)>)
    ensures details.Some? <==> multiset(text)['\n'] == 1
    ensures details.Some? ==>
              details.value.0 + "\n" + details.value.1 == text &&
              '\n' !in details.value.0 && '\n' !in details.value.1
  {
    ComponentsCount(text, '\n');
    JoinComponents(text, '\n');
    var parts := Components(text, '\n');
    if |parts| == 2 then Wrappers.Some((parts[0], parts[1])) else Wrappers.None
  }

  /** A name line and an address line, neither holding a newline, are read back as they were written. */
  lemma ScanPayloadAccepted(name: string, email: string)
    requires '\n' !in name && '\n' !in email
    ensures ParseScan(name + "\n" + email) == Wrappers.Some((name, email))
  {
    ComponentsOfJoin([name, email], '\n');
  }

  /** A payload with a trailing newline splits into three pieces and is dropped. */
  lemma TrailingNewlineRejected(name: string, email: string)
    ensures ParseScan(name + "\n" + email + "\n").None?
  {
  }

  /** A payload of a single line is dropped. */
  lemma SingleLineRejected(text: string)
    requires '\n' !in text
    ensures ParseScan(text).None?
  {
  }

  class ProspectsView {
    const filter: FilterType
    const prospects: Prospects
    var isShowingScanner: bool

    constructor (filter: FilterType, prospects: Prospects)
      ensures this.filter == filter && this.prospects == prospects && !isShowingScanner
    {
      this.filter := filter;
      this.prospects := prospects;
      isShowingScanner := false;
    }

    /** `handleScan(result:)`: close the scanner; a payload that parses adds
        a new prospect with its name and address, anything else adds nothing.
        `id` and `now` stand for the `UUID()` and `Date()` the app generates. */
    method HandleScan(result: ScanResult, id: Uuid, now: Timestamp)
      modifies this, prospects
      ensures !isShowingScanner
      ensures prospects.sortOrder == old(prospects.sortOrder)
      ensures var details := if result.Success? then ParseScan(result.text) else Wrappers.None;
              if details.Some? then
                var n := |old(prospects.people)|;
                |prospects.people| == n + 1 && prospects.people[..n] == old(prospects.people) &&
                var added := prospects.people[n];
                fresh(added) && added.id == id && added.dateAdded == now &&
                added.name == details.value.0 && added.emailAddress == details.value.1 &&
                !added.isContacted
              else
                prospects.people == old(prospects.people)
    {
      isShowingScanner := false;
      match result
      case Success(text) =>
        var details := Components(text, '\n');
        if |details| != 2 {
          return;
        }
        var person := new Prospect(id, now);
        person.name := details[0];
        person.emailAddress := details[1];
        prospects.Add(person);
      case Failure(_) =>
    }
  }
}
