# Website uptime dashboard: state controller model

A Dafny model of the state controller of the uptime dashboard component
(`components/dashboard.tsx`). An operator keeps a list of monitored sites.
Each site has an id, a url, an up/down flag, the instant tracking started,
an uptime percentage, a response time and an optional last outage. The
operator adds urls, searches the list, selects a row to see its details,
and deletes a site after a confirmation dialog. The component also derives
three values from its state: the filtered list, the downtime chart series
and the "tracking since N days" count.

Layout:

- `wrappers.dfy`, module `Wrappers`: `Option`, which stands in for `null` and absent properties.
- `text.dfy`, module `Text`: ASCII `toLowerCase`, `includes` on strings, and
  `toString` of a natural number, with the decimal read-back that inverts it.
- `seqs.dfy`, module `Seqs`: `Array.prototype.filter` as `Filter`, and an
  order-preserving subsequence relation. Also proves that `Filter` is the only
  order-preserving selection that keeps exactly the passing elements.
- `websites.dfy`, module `Websites`: the `Website` record, the two initial
  sites, the site created by "add", the search filter, removal by id, the
  chart series, the day count, and the facts about ids.
- `dashboard.dfy`, module `DashboardComponent`: class `Dashboard`. It has the
  component's state fields and one method per event handler. Four
  client methods replay short sessions on a fresh dashboard.

Instants are integer milliseconds since the epoch. Every read of the clock
(`new Date()`, `Date.now()`) becomes an explicit `now` parameter.

Six behaviours of the code are easy to misread:

- "Add" rejects only the empty string. A url made only of blanks is added
  (`BlankUrlSession`).
- Ids are not unique. A new site's id is the list length plus one, in
  decimal, so deleting a site and then adding one can repeat an id that is
  still in use (`IdCollisionAfterRemoveThenAdd`, `RemoveThenAddSession`).
  Ids stay unique while the list is only appended to (`SequentialIdsUnique`,
  `AppendKeepsSequential`). Removal alone never repeats an id
  (`RemoveKeepsUnique`). A repeat needs an add whose new id is already in use
  (`AppendUniqueIff`), which only a deletion before the add can cause.
- Cancelling the dialog only closes it. The pending id stays set
  (`CloseDeleteConfirm`, `CancelSession`).
- The day count is 0 when no time has elapsed. Any elapsed time counts as at
  least one day.
- The selection is a copy of the clicked site's record, not an id. Deleting
  clears it only when the copy carries the deleted id.
- The first initial site has a last outage of 15 minutes. After the
  downsite.com site is removed, the chart is `[("https://example.com", 15)]`.

The dialog's "Delete" button runs `deleteWebsite`, and the dialog widget then
closes itself. Pressing it is therefore `DeleteWebsite` followed by
`CloseDeleteConfirm`. Once `DeleteWebsite` has acted, the second step
changes nothing.

## Model

| member | source | states |
|---|---|---|
| `Websites.InitialIdsSequential` | components/dashboard.tsx:35-54 | the initial sites are numbered "1", "2" in list order |
| `Websites.InitialSearchDown` | components/dashboard.tsx:35-54 | searching the initial list for "down" lists exactly the site with id "2" |
| `Websites.ExampleDoesNotMatchDown` | components/dashboard.tsx:36-44 | example.com's url does not contain "down" in any letter case |
| `Websites.DownsiteMatchesDown` | components/dashboard.tsx:45-53 | downsite.com's url contains "down" |
| `Websites.InitialRemoveDownsite` | components/dashboard.tsx:35-54 | removing id "2" from the initial list leaves example.com alone, and the chart becomes one point of 15 minutes |
| `DashboardComponent.Dashboard.constructor` | components/dashboard.tsx:57-63 | the initial state: the initial sites, empty url and search boxes, no selection, dialog closed, nothing pending; the object invariant holds |
| `DashboardComponent.Dashboard.SetUrl` | components/dashboard.tsx:143 | only the url box changes |
| `DashboardComponent.Dashboard.SetSearchTerm` | components/dashboard.tsx:171 | only the search term changes |
| `DashboardComponent.Dashboard.AddWebsite` | components/dashboard.tsx:65-78 | an empty url changes nothing. Otherwise exactly one site is appended, earlier sites are unchanged and the box is cleared. The new site has id = decimal(old length + 1), the given url, is up, 100% uptime, response time 0, no outage, tracked from `now`. Invariant, selection and sequential numbering are preserved |
| `DashboardComponent.Dashboard.OpenDeleteConfirm` | components/dashboard.tsx:80-83 | the id becomes pending and the dialog opens; the list and the selection are unchanged |
| `DashboardComponent.Dashboard.DeleteWebsite` | components/dashboard.tsx:85-94 | with no pending id or the empty one, nothing changes, the dialog included. Otherwise the list becomes the old list without every site carrying that id. The selection becomes empty exactly when it carried that id, and otherwise stays. The dialog closes and nothing is pending. Because listed ids are decimal numerals and so never empty, a pending id that some listed site carries is always removed and the dialog closed |
| `DashboardComponent.Dashboard.CloseDeleteConfirm` | components/dashboard.tsx:259-268 | the dialog closes; the pending id, the list and everything else stay |
| `DashboardComponent.Dashboard.Select` | components/dashboard.tsx:181-184 | the selection becomes a copy of the clicked site; it is listed exactly when that site is in the list, which holds for any row of the filtered list |
| `Websites.FilteredWebsitesExact` | components/dashboard.tsx:102-104 | the listing holds only listed sites whose lower-cased url contains the lower-cased term. Each matching site appears as often as in the list, no other site appears, and list order is kept |
| `Websites.FilteredEmptyTerm` | components/dashboard.tsx:102-104 | an empty term lists every site, in order |
| `Websites.FilteredIgnoresCase` | components/dashboard.tsx:103 | a term and its lower-cased form list the same sites |
| `Websites.FilteredAfterAppend` | components/dashboard.tsx:75 | after an append, the listing is the old listing plus the new site when it matches |
| `Seqs.Filter` | components/dashboard.tsx:87 | the result is no longer than the input and holds only input elements that pass |
| `Seqs.FilterCount` | components/dashboard.tsx:87 | each passing element keeps its multiplicity and failing elements disappear |
| `Seqs.FilterIsSubsequence` | components/dashboard.tsx:87 | the survivors keep their original relative order |
| `Seqs.FilterUnique` | components/dashboard.tsx:102-104 | any order-preserving selection with exactly the passing elements and their multiplicities equals the filter's result |
| `Seqs.FilterAllPass` | components/dashboard.tsx:102-104 | filtering when everything passes returns the input |
| `Seqs.FilterAgree` | components/dashboard.tsx:103 | predicates that agree on the input's elements filter it alike |
| `Seqs.FilterSnoc` | components/dashboard.tsx:75 | filtering after appending one element is the filtered prefix plus that element when it passes |
| `Seqs.SubsequenceCount` | components/dashboard.tsx:87 | an order-preserving selection never holds an element more often than its source |
| `Websites.WithoutIdExact` | components/dashboard.tsx:87 | removal drops exactly the sites carrying the id, keeps all others with their multiplicity, in their original order |
| `Websites.RemoveKeepsOthers` | components/dashboard.tsx:87 | a site that does not carry the removed id survives the removal |
| `Websites.RemoveKeepsDecimalIds` | components/dashboard.tsx:87 | removal keeps every remaining id a decimal numeral |
| `Websites.ListedIdNotEmpty` | components/dashboard.tsx:68 | when every id is a decimal numeral, an id that some site carries is not empty, so the `if (websiteToDelete)` guard passes for it |
| `Websites.RemoveKeepsUnique` | components/dashboard.tsx:87 | removing an id from a list with distinct ids leaves distinct ids |
| `Websites.WithoutAbsentId` | components/dashboard.tsx:87 | removing an id no site carries leaves the list unchanged |
| `Websites.SequentialIdsUnique` | components/dashboard.tsx:68 | ids "1".."n" in list order are pairwise distinct |
| `Websites.AppendKeepsSequential` | components/dashboard.tsx:67-75 | appending a new site keeps sequential numbering |
| `Websites.AppendUniqueIff` | components/dashboard.tsx:67-75 | appending keeps ids distinct if and only if the old ids were distinct and none equals decimal(length + 1) |
| `Websites.IdCollisionAfterRemoveThenAdd` | components/dashboard.tsx:68 | removing "1" from the initial list, then adding, yields two sites both with id "2" |
| `Websites.DowntimeData` | components/dashboard.tsx:106-109 | the series has one point per site, in list order: the site's url and its last outage's duration, or 0 |
| `Websites.DowntimeAfterAppend` | components/dashboard.tsx:67-75 | after an add, the series gains exactly one zero point named by the new url |
| `Websites.DaysSince` | components/dashboard.tsx:96-100 | the result is the least natural number of days covering the elapsed time: (days − 1)·day < abs(now − date) ≤ days·day |
| `Websites.DaysSinceSymmetric` | components/dashboard.tsx:97 | swapping the two instants does not change the count |
| `Websites.DaysSinceZeroIff` | components/dashboard.tsx:97-98 | the count is 0 exactly when the instants are equal, and at least 1 otherwise |
| `Websites.DaysSinceRoundsUp` | components/dashboard.tsx:98 | two and a half days count as three |
| `Text.LowerChar` | components/dashboard.tsx:103 | the result is never an upper-case letter. Upper-case letters move by 32 and every other character is kept |
| `Text.ToLower` | components/dashboard.tsx:103 | lower-casing keeps the length and leaves no upper-case letter |
| `Text.ToLowerIdempotent` | components/dashboard.tsx:103 | lower-casing twice equals lower-casing once |
| `Text.ContainsAt` | components/dashboard.tsx:103 | `includes` holds exactly when some window of the string equals the term |
| `Text.ContainsEmpty` | components/dashboard.tsx:103 | every string includes the empty term |
| `Text.NotContainsFirstChar` | components/dashboard.tsx:103 | a string lacking the term's first character does not include the term |
| `Text.NatToDecimal` | components/dashboard.tsx:68 | `toString` yields a non-empty run of digits that starts with '0' only for 0 |
| `Text.DecimalRoundTrip` | components/dashboard.tsx:68 | reading back the decimal notation of n gives n |
| `Text.DecimalInjective` | components/dashboard.tsx:68 | two numbers have the same decimal notation if and only if they are equal |
| `DashboardComponent.SearchSelectDeleteSession` | components/dashboard.tsx:80-94 | searching "down", selecting its one row, deleting it and confirming leaves only example.com, no selection, and the chart [("https://example.com", 15)] |
| `DashboardComponent.RemoveThenAddSession` | components/dashboard.tsx:65-94 | deleting "1" then adding any non-empty url leaves the ids ["2", "2"] |
| `DashboardComponent.CancelSession` | components/dashboard.tsx:259-268 | asking to delete then cancelling leaves the list as it was and the dialog closed, with the id still pending |
| `DashboardComponent.BlankUrlSession` | components/dashboard.tsx:66 | a url of three blanks is added as a third site |

## Left out

- `nextCheck`: it is set once to five minutes after the first render and never updated; it is only displayed (`components/dashboard.tsx:61`, `155`).
- All rendering: layout, styling, icons, the user menu (its items do nothing), the alert-dialog widget's internals and the line chart. Only the data each of them consumes is modelled.
- Number and date display formatting (`toFixed(2)`, `toLocaleDateString`, `toLocaleTimeString`): these are locale-dependent and floating-point.
- Numeric site fields are opaque values (`uptimePercentage` a real, `responseTime` and outage `duration` integers); nothing computes with them.
- `Websites.DaysSince`: computes the ceiling exactly on integers. It does not model the floating-point division of `Math.ceil(diff / 86400000)`, which can only differ for time spans far beyond any real date.
- The initial sites' dates use the local time zone in the source; the model fixes them at midnight UTC.
- `toLowerCase` and `includes` are modelled on ASCII; Unicode case mapping is not.
- The add box is an `<input type="url">`; the browser's clean-up of that element's value (it strips leading and trailing whitespace) is not modelled. `BlankUrlSession` shows what `addWebsite` does when the `url` state is blank, not what typing blanks into the box produces.
- React's state batching and re-rendering: each handler is one atomic transition, and the derived values are functions of the current state.
- The dialog's `onOpenChange(true)`: there is no trigger element that would raise it, so only closing is modelled.
