# HotProspects: the prospect store and the prospects screen, in Dafny

HotProspects is a small SwiftUI app for keeping track of people met at
networking events. This project models its logic:

- the `Prospect` record and the `Prospects` store (`HotProspects/Prospect.swift`):
  an ordered list of prospects and a sort-order preference, loading the
  saved list at start-up, `add`, which appends, and `toggle`, which flips a
  prospect's contacted flag in place;
- the screen's derived lists (`HotProspects/ProspectsView.swift`): the
  filter for everyone, contacted or uncontacted prospects, the sort by name
  or by most recent, the tab heading, and `handleScan`, which turns a
  scanned QR payload of the form `name\nemail` into a new prospect.

`Prospect` is a class in the app, and `toggle` flips the flag on the shared
object rather than replacing an element of the array. The model keeps that
form. `ProspectStore.Prospect` is a Dafny class with mutable fields, and the
store's `people` is a `seq<Prospect>` of references. So if the same object
occurs twice in `people`, toggling it changes both entries, as in the app.
The store is a class whose methods carry `modifies` clauses. The three
computed properties of the screen are functions of the filter, the sort
order and `people`, and they read the prospects' fields. Identifiers
(`UUID()`) and timestamps (`Date()`) are parameters. A timestamp is a whole
number.

Files: `Wrappers.dfy` (Option), `Text.dfy` (Swift's string `<` and
Foundation's `components(separatedBy:)`), `Prospect.dfy` (module
`ProspectStore`), `ProspectsView.dfy` (module `ProspectsView`) and
`Scenarios.dfy` (worked examples).

Swift's `sorted(by:)` is a library routine, documented as stable: elements
that the closure does not order keep their relative order. The model uses an
insertion sort in its place. It proves the three things Swift documents: the
result is a permutation of the input, no element is in order before an
earlier one, and tied elements keep their input order.

## Model

| member | source | states |
|---|---|---|
| `ProspectStore.Prospect.constructor` | HotProspects/Prospect.swift:10-16 | a new prospect is named "Anonymous", has an empty address, is not contacted, and carries the given id and date |
| `ProspectStore.Prospects.constructor` | HotProspects/Prospect.swift:23-24 | a new store sorts by name; its list is the decoded saved list, or empty when nothing could be loaded |
| `ProspectStore.Prospects.Load` | HotProspects/Prospect.swift:34-43 | a decoded list replaces `people` exactly; on a load failure `people` keeps its value and no error reaches the caller |
| `ProspectStore.Prospects.Add` | HotProspects/Prospect.swift:54-57 | `people` becomes the old list followed by the new prospect, whatever its fields; the sort order and every existing prospect are unchanged |
| `ProspectStore.Prospects.Toggle` | HotProspects/Prospect.swift:59-63 | the prospect's flag is negated and its other fields kept; `people`, the sort order and every other prospect are unchanged; the prospect need not be in `people` |
| `ProspectStore.Prospects.ToggleTwice` | HotProspects/Prospect.swift:59-63 | toggling twice gives the flag back its first value and leaves the store and its prospects as they were |
| `ProspectsView.Title` | HotProspects/ProspectsView.swift:136-145 | the heading is "Everyone" exactly for the unfiltered tab |
| `ProspectsView.TitleDistinguishesFilters` | HotProspects/ProspectsView.swift:136-145 | different filters give different headings |
| `ProspectsView.Filtered` | HotProspects/ProspectsView.swift:147-156 | defines `filteredProspects`: all of `people` for no filter, otherwise the flag filter; every entry comes from `people` and is admitted by the filter, and the list is no longer than `people` |
| `ProspectsView.Select` | HotProspects/ProspectsView.swift:152-154 | defines the `people.filter { … }` calls on the contacted flag; every entry comes from `people` and has the requested flag |
| `ProspectsView.FilteredExactly` | HotProspects/ProspectsView.swift:147-156 | each tab's list is a subsequence of `people`, in order, holding exactly the prospects its filter admits, each as many times as in `people` |
| `ProspectsView.SelectExactly` | HotProspects/ProspectsView.swift:151-154 | `filter` on the contacted flag keeps order and keeps exactly the prospects whose flag matches |
| `ProspectsView.FilteredNoneIsPeople` | HotProspects/ProspectsView.swift:149-150 | the unfiltered tab is `people` itself |
| `ProspectsView.ContactedAndUncontactedPartition` | HotProspects/ProspectsView.swift:151-154 | the contacted and uncontacted tabs together hold `people` as a multiset, so their sizes add up to its size |
| `ProspectsView.InOrder` | HotProspects/ProspectsView.swift:48-51 | defines the two closures handed to `sorted(by:)`: `$0.name < $1.name` by name, `$0.dateAdded > $1.dateAdded` by recency |
| `ProspectsView.InOrderAsymmetric` | HotProspects/ProspectsView.swift:48-51 | neither sort closure puts two prospects each before the other |
| `ProspectsView.InOrderNotLessTransitive` | HotProspects/ProspectsView.swift:48-51 | "not before" is transitive for both sort closures, which is what sorting needs of them |
| `ProspectsView.Insert` | HotProspects/ProspectsView.swift:48-51 | inserting a prospect adds exactly that prospect to the multiset of the list |
| `ProspectsView.InsertOrdered` | HotProspects/ProspectsView.swift:48-51 | inserting into an ordered list keeps it ordered |
| `ProspectsView.SortBy` | HotProspects/ProspectsView.swift:48-51 | `sorted(by:)` returns a permutation of its input in which no element is in order before an earlier one |
| `ProspectsView.SortedProspects` | HotProspects/ProspectsView.swift:46-53 | the sorted list is a permutation of the filtered list, ordered by the store's sort order |
| `ProspectsView.TiedByNameIffSameName` | HotProspects/ProspectsView.swift:49 | by name, the closure leaves two prospects unordered exactly when their names are equal |
| `ProspectsView.InOrderBeforeTied` | HotProspects/ProspectsView.swift:48-51 | an element in order before `x` is in order before everything tied with `x` |
| `ProspectsView.InsertTiedWith` | HotProspects/ProspectsView.swift:48-51 | inserting `x` puts it ahead of the entries tied with it and leaves their order alone |
| `ProspectsView.SortByStable` | HotProspects/ProspectsView.swift:48-51 | `sorted(by:)` is stable: the entries tied with any prospect appear in the result in the order they have in the input |
| `ProspectsView.SortedProspectsStable` | HotProspects/ProspectsView.swift:46-53 | in the sorted tab, prospects with the same name (or the same date) keep their order from the filtered list |
| `ProspectsView.SortedByNameAscending` | HotProspects/ProspectsView.swift:48-49 | sorted by name, names never decrease along the list |
| `ProspectsView.SortedByRecentDescending` | HotProspects/ProspectsView.swift:50-51 | sorted by recency, dates never increase along the list |
| `ProspectsView.ParseScan` | HotProspects/ProspectsView.swift:163-164 | a payload is accepted exactly when it holds one newline; then the name, a newline and the address make up the whole payload, and neither part holds a newline |
| `ProspectsView.ScanPayloadAccepted` | HotProspects/ProspectsView.swift:163-168 | a name line and an address line without newlines are read back unchanged |
| `ProspectsView.TrailingNewlineRejected` | HotProspects/ProspectsView.swift:163-164 | a payload ending in a newline after the address gives three pieces and is dropped |
| `ProspectsView.SingleLineRejected` | HotProspects/ProspectsView.swift:163-164 | a payload of one line is dropped |
| `ProspectsView.ProspectsView.constructor` | HotProspects/ProspectsView.swift:17-18 | a screen starts with its filter and store and with the scanner closed |
| `ProspectsView.ProspectsView.HandleScan` | HotProspects/ProspectsView.swift:158-174 | the scanner is closed; a payload that parses appends one fresh, uncontacted prospect with its name, address, id and date; any other payload, or a failed scan, leaves `people` as it was; the sort order is unchanged |
| `Text.LexLess` | HotProspects/ProspectsView.swift:49 | defines string `<`: a proper prefix is smaller, otherwise the first differing character decides |
| `Text.LexLessIrreflexive` | HotProspects/ProspectsView.swift:49 | no name sorts before itself |
| `Text.LexLessAsymmetric` | HotProspects/ProspectsView.swift:49 | string `<` is asymmetric |
| `Text.LexLessTransitive` | HotProspects/ProspectsView.swift:49 | string `<` is transitive |
| `Text.LexTrichotomy` | HotProspects/ProspectsView.swift:49 | two strings are equal or one is less than the other |
| `Text.LexNotLessTransitive` | HotProspects/ProspectsView.swift:49 | "not less than" on strings is transitive |
| `Text.Components` | HotProspects/ProspectsView.swift:163 | splitting gives at least one piece, and no piece holds the separator |
| `Text.ComponentsCount` | HotProspects/ProspectsView.swift:163-164 | there is one piece more than there are separators |
| `Text.JoinComponents` | HotProspects/ProspectsView.swift:163 | joining the pieces with the separator gives back the text |
| `Text.ComponentsOfPrefix` | HotProspects/ProspectsView.swift:163 | a separator-free prefix joins the first piece of what follows it |
| `Text.ComponentsOfJoin` | HotProspects/ProspectsView.swift:163 | pieces free of the separator survive a join followed by a split |
| `Scenarios.SortByNameExample` | HotProspects/ProspectsView.swift:48-49 | Zed, Amy and Mo sort by name to Amy, Mo, Zed |
| `Scenarios.SortByRecentExample` | HotProspects/ProspectsView.swift:50-51 | prospects added at t1 < t2 < t3 sort by recency to t3, t2, t1 |
| `Scenarios.AddThenToggle` | HotProspects/Prospect.swift:54-62 | in a new store, the prospect that was added (with its name, address, id and date) and then marked contacted is exactly the contacted tab, and the uncontacted tab is empty |

## Left out

- Saving (`save`, HotProspects/Prospect.swift:45-52) is Foundation I/O: JSON encoding and a file write whose failure is only logged. It does not change the store, so it is not modelled, not even as a snapshot.
- Loading is modelled only from the decoded result on. Reading the file, JSON decoding and the documents-directory URL (HotProspects/Prospect.swift:25-28, 36-37) are Foundation I/O. The outcome is the constructor's `stored` parameter.
- `@Published`, `objectWillChange.send()` and `@MainActor` are observation and threading machinery with no effect on the data.
- `UUID()` and `Date()` are nondeterministic, so the id and the timestamp are parameters. `Date` is floating point and becomes a whole number here.
- `remove` is called at HotProspects/ProspectsView.swift:94, but neither `Prospect.swift` nor `ProspectsView.swift` defines it. It is not part of this model.
- The view body, swipe actions, toolbar, confirmation dialog and sheet (HotProspects/ProspectsView.swift:55-134) are layout. The sort-order buttons at lines 120 and 124 assign the store's public `sortOrder` field. Dafny code can assign that field directly, so no setter method is modelled.
- The scanner (`CodeScannerView`) and the simulated payloads chosen with `randomElement()` (HotProspects/ProspectsView.swift:21-42, 128-131) are a foreign library and randomness. `HandleScan` takes the scan result as a parameter.
- `addNotification` (HotProspects/ProspectsView.swift:176-210) is asynchronous callbacks into the notification framework.
- `Text.LexLess`: Swift compares strings up to Unicode canonical equivalence. The model compares characters one by one. Any strict total order gives the same sorting properties.
- `Prospect.isContacted` has a file-private setter, and `Prospects.people` a private setter, in the app (HotProspects/Prospect.swift:14, 23). Dafny has no field visibility, so only the convention keeps other code from assigning them.
- The messages printed when loading fails (HotProspects/Prospect.swift:40) and when a scan fails (HotProspects/ProspectsView.swift:172) are console output with no effect on the data. They are not modelled.
- `Text.Components` splits a sequence of characters. Foundation's `components(separatedBy:)` works on Unicode strings, so a payload whose newline is part of a larger character (such as `\r\n`) may split differently in the app.
