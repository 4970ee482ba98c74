# Verified model of assokit

assokit is a Go toolkit for associations over SQLite. This project models its stateful
core in Dafny and proves what the code relies on but no single function states.

- `NodeTree`, `NodeStore`: the recursive node engine, with its denormalised depth,
  cascading soft delete, ancestor and subtree queries and cycle check.
- `Governance`, `GovernanceStore`, `MinutesText`: assemblies, resolutions, ballots, the
  frozen register, the immutable minutes and how to read them. `Presence`: attendance, proxies and the quorum.
- `Donations`, `DonationWalk`: keyset pagination of the donations list and its CSV export.
- `Listings`, `Search`, `Matcher`, `FacetCache`: marketplace search, the saved-search
  matcher and the cached facet counts.
- `RateWindow`, `RateLimiter`, `LoginGuard`, `BearerGuard`: rate limiting and lock-out in
  memory, with lazy purging.
- `Migrations`: the migration runner under failures and crashes. `Roles`: role closure.
  `Wav`: the WAV writer. `Alerts`: the alert worker.
- `Options`, `Sequences`, `Text`, `Sorting`, `Positional`: an optional value, sequences,
  strings, `ORDER BY`, and conditions with `?` holes.

## How to read it

Tables are maps or sequences, one store method is one atomic step, ids come from a growing
counter or from the caller, and the clock is a parameter. A component that changes state is
a class; each of its methods is proved to take one step of a machine on values, and the
theorems are about every run of that machine. Nondeterminism of the platform (the order of
a Go map, of rows without `ORDER BY`, of groups; whether a write goes through) stays
nondeterministic. A recursive SQL query is its queue evaluation; its meaning is a set of
paths. Compiled SQL is a list of conditions with holes, filled from the argument list left
to right.

`dafny verify dfyconfig.toml` checks the whole project.

## Where the code differs from what it says

- `CheckCycle` says it refuses a descendant as new parent. It does for live nodes; for an
  already deleted descendant it passes, and re-pointing then makes a cycle
  (`NodeStore.CheckMissesDeleted`, with an example).
- `matchFilter` says it mirrors the WHERE clauses of `Search`. It does not, in these ways,
  each with an example in `Matcher` and the exact condition. A range over a text attribute
  compares digits as text (`RangeExact`). An attribute whose JSON path is not its own key, or
  whose name differs from an earlier one in letter case only, is looked up elsewhere
  (`PathExact`). Booleans, nulls, objects, and whole numbers from a million on print
  differently as facets (`FacetExact`). A real attribute is found by every text of its number
  and accepted by one (`RealFacetExact`, `CanonicalExact`). Price bounds are truncated
  (`PriceExact`). A range without bounds, and facets and ranges the silo does not declare,
  bind the matcher only (`EmptyRangeDiffers`, `UndeclaredFacetDiffers`,
  `UndeclaredRangeDiffers`). Hidden listings bind the search only (`HiddenDiffers`).
  `SiloExact` says which silo definitions let the matcher accept only what the search finds;
  nothing checks a definition for it. Text queries are not compared.
- The code says that the tally of a closed resolution cannot move, and copies it on that
  ground. Deleting an account takes its ballots along by cascade: live counts then fall below
  those recorded, and minutes generated later list the recorded ones (`FrozenForever`,
  `MinutesCounts`, `LeavingExample`). A quorum may be lost the same way
  (`Presence.DeletionExact`).
- Minutes are text, one line an entry. A wording may hold a line break, and then one entry
  can read like two (`MinutesText.TwoInOne`); without line breaks the text is read back
  exactly (`MinutesText.MinutesRead`).
- Moving a thread re-points its parent with a bare update that neither asks `CheckCycle` nor
  touches the depth. Under a live descendant it makes a cycle on which `Delete` never ends
  (`NodeStore.MoveUnderChildExample`). Under any other live node `Delete` stays exact, but the
  depth, and what is ordered or cut by it, is right only if it happens to fit
  (`NodeTree.MoveExact`, `NodeTree.MoveKeepsDepth`).
- The facet counts are said to be recalculated; values that vanish by an update stay
  (`FacetCache.CacheIsHistory`, `StaleExample`).
- A login lock is said to last `lockDur`. A failure recorded during the lock, after the
  failure window has passed, drops it (`LoginGuard.FailureWhileLocked`, with an example);
  the login handler checks the lock before it records a failure, so requests one after
  another never do this, and `LoginGuard.LockLasts` covers them. The check and the record
  lock the guard separately, so requests at the same time may.
- The donations cursor is right exactly when no time stamp contains `|`
  (`Donations.SplitCursor`), and the amount bounds exactly when a hundred times the amount
  fits 64 bits (`Donations.CentsExact`).
- A node created with an id already in use is reported as a taken slug.

## Model

| member | source | states |
|---|---|---|
| `NodeTree.ForestIsSound` | nodetree/nodetree.go:105-218 | depth agreement and downward-closed deletion imply that no path of parent links returns to its start and that no live node has a deleted ancestor |
| `NodeTree.ReachableIsForest` | nodetree/nodetree.go:105-311 | every table reachable by Create, Update, Delete, Reorder and outright deletion with its cascade is acyclic, its depths agree with its parents, and live nodes have live ancestors only |
| `NodeTree.StepKeepsForest` | nodetree/nodetree.go:105-311 | each of these steps keeps the forest invariant |
| `NodeTree.PurgeKeepsForest` | pkg/actions/seeds/forum.go:159 | deleting a row outright takes its descendants by cascade and leaves a forest |
| `NodeTree.StepKeepsSound` | nodetree/nodetree.go:105-311 | each step also keeps the weaker invariant that says nothing of depths |
| `NodeTree.Collect` | nodetree/nodetree.go:204-213 | the `UNION ALL` recursion, which never compares rows, still ends on any acyclic table, yields no row twice and yields exactly the rows joined to the root by rows of the recursive term |
| `NodeTree.StopLosesNothing` | nodetree/nodetree.go:195-201 | in a sound table a recursion that stops at deleted rows reaches exactly the live descendants |
| `NodeTree.CutLosesNothing` | nodetree/nodetree.go:258-274 | cutting the recursion at a depth reaches exactly the live descendants down to that depth, for any bound |
| `NodeTree.DeleteIsExact` | nodetree/nodetree.go:195-218 | in a sound table Delete marks the node and all live descendants, keeps older marks, touches nothing else, and leaves no live descendant |
| `NodeTree.DeleteTwice` | nodetree/nodetree.go:200-201 | a second Delete, even at a later time, changes nothing |
| `NodeTree.ChainShape` | nodetree/nodetree.go:238-256 | the ancestor chain is as long as the node is deep, entry i is at depth i, each entry is the parent of the next |
| `NodeTree.ChainIsAncestors` | nodetree/nodetree.go:238-256 | the chain holds exactly the nodes strictly above, in terms of paths of parent links |
| `NodeTree.RepointAcyclic` | nodetree/nodetree.go:313-339 | re-pointing a parent keeps an acyclic relation so if and only if the new parent is not the node or one of its descendants |
| `NodeTree.MoveExact` | pkg/actions/seeds/forum.go:318 | moving a node keeps a table sound if and only if the new parent is not under it, nor deleted above a live node |
| `NodeTree.MoveKeepsDepth` | pkg/actions/seeds/forum.go:318 | moving a node keeps a forest if and only if its depth, which the move does not touch, fits the new parent and no deleted parent comes above a live node |
| `NodeTree.MoveNeverEnds` | pkg/actions/seeds/forum.go:318 | after moving a live node under a live descendant the recursion of Delete has rows of every length |
| `NodeTree.MovingRunIsSound` | pkg/actions/seeds/forum.go:318 | on every run of steps and harmless moves tables stay acyclic with deletion closed downward, so Delete stays exact |
| `NodeStore.Store.Create` | nodetree/nodetree.go:103-157 | a given id, slug, kind and visibility is kept, an empty one becomes a fresh id, the slug of the title, page and public; the depth is the parent's plus one; a missing parent, a taken slug or id and a kind or visibility that is not allowed each get their refusal, and only they |
| `NodeStore.Store.Update` | nodetree/nodetree.go:175-193 | contents of one live row change, its place does not; an absent or deleted node is not found |
| `NodeStore.Store.Delete` | nodetree/nodetree.go:202-218 | the method takes exactly the recursive step whose effect DeleteIsExact states |
| `NodeStore.Store.Reorder` | nodetree/nodetree.go:294-311 | a live child listed last at position j gets order j; every other row is unchanged |
| `NodeStore.Store.Ancestors` | nodetree/nodetree.go:239-256 | the result is the ancestor chain, root first, and empty for a node that is not live |
| `NodeStore.Store.Subtree` | nodetree/nodetree.go:259-280 | the live descendants within maxDepth levels, no duplicates, by rising depth and by rising display order among equals |
| `NodeStore.Store.CheckCycle` | nodetree/nodetree.go:315-339 | the exact answer on any two ids, at any tree height although the subtree scan is cut at 100 levels |
| `NodeStore.CheckDecides` | nodetree/nodetree.go:313-339 | for live nodes the check passes if and only if re-pointing keeps the relation acyclic |
| `NodeStore.CheckMissesDeleted` | nodetree/nodetree.go:315-339 | with a deleted new parent the check always passes, and that is safe if and only if the new parent is not an already deleted descendant |
| `NodeStore.DeletedDescendantExample` | nodetree/nodetree.go:315-339 | a run of four tables after which the check passes and re-pointing makes a cycle |
| `NodeStore.MoveUnderChildExample` | pkg/actions/seeds/forum.go:318 | a run of two nodes after which moving one under the other makes a cycle on which Delete never ends |
| `Governance.Reachable` | pkg/governance/vote.go:53-212 | the invariant (one ballot per voter, register entries of closed resolutions never exceeded by the ballots left, convoked assemblies) holds in every reachable state, account deletions included |
| `Governance.TotalIsVoters` | pkg/governance/vote.go:214-242 | the total of a tally, the sum of the three choices, is the number of distinct voters |
| `Governance.FrozenForever` | pkg/governance/register.go:43-87 | a recorded deliberation stays for ever with the counts of that moment, one per voter, its resolution stays closed, live counts never exceed it in any column, and equal it if and only if no account with a ballot on it was deleted since |
| `Governance.EntryWasRecorded` | pkg/governance/register.go:43-87 | every entry of the register was recorded by a step of the run, so the above covers all entries |
| `Governance.LiveCounts` | internal/chassis/migrations/later/00033_governance_vote.sql:24 | live counts of a closed resolution only fall, and fall exactly when an account with a ballot on it is deleted |
| `Governance.DeletionExact` | internal/chassis/migrations/later/00033_governance_vote.sql:24 | deleting an account changes a tally if and only if it voted there, and raises no column |
| `Governance.LeavingExample` | pkg/governance/register.go:68-69 | a run whose minutes list one vote while no ballot is left |
| `Governance.MinutesAreComplete` | pkg/governance/register.go:146-198 | minutes list exactly the closed resolutions of the assembly at that moment, each once, with counts not below the live ones |
| `Governance.MinutesCounts` | pkg/governance/register.go:146-198 | the counts listed are those recorded, and the live ones if and only if no account with a ballot on the resolution was deleted between |
| `Governance.MinutesForever` | pkg/governance/register.go:29-31 | in every later state the minutes are unchanged, their lines are a prefix of the register, and the assembly is still convoked |
| `Governance.RegisterOfOrder` | pkg/governance/register.go:89-97 | insertion order is the order of recording time and id |
| `GovernanceStore.Store.Create` | pkg/governance/store.go:53-77 | what is inserted, with the drafting default, and which refusal each input gets |
| `GovernanceStore.Store.MarkConvoked` | pkg/governance/store.go:126-165 | only a draft becomes convoked; the two refusals are told apart |
| `GovernanceStore.Store.OpenResolution` | pkg/governance/vote.go:53-80 | an open resolution is added only to a convoked assembly, with trimmed wording |
| `GovernanceStore.Store.CastVote` | pkg/governance/vote.go:146-193 | a ballot is added exactly when the choice is valid, the resolution open, the voter active (if a checker is given) and has not voted |
| `Text.TrimMeans` | pkg/governance/vote.go:147-149 | trimming takes white space from both ends, all of it, and nothing else |
| `GovernanceStore.Store.CloseResolution` | pkg/governance/vote.go:195-212 | only an open resolution closes |
| `GovernanceStore.Store.Tally` | pkg/governance/vote.go:214-242 | the counts by choice are the numbers of ballots with that choice, whatever order the groups come in |
| `GovernanceStore.Store.RecordDeliberation` | pkg/governance/register.go:43-87 | a closed, unrecorded resolution is recorded once with its tally; every other case changes nothing |
| `GovernanceStore.Store.ListRegister` | pkg/governance/register.go:89-116 | the entries of the assembly in order of recording time and id |
| `GovernanceStore.Store.ClosedUnrecorded` | pkg/governance/register.go:118-144 | exactly the closed resolutions the register does not hold, in order of creation |
| `GovernanceStore.Store.GenerateMinutes` | pkg/governance/register.go:146-198 | minutes are added exactly when the assembly is convoked, nothing closed is unrecorded and none exist, with the refusal of the first guard that fails; their text gives back number, wording and counts of each entry, in order, if and only if no wording holds a line break |
| `GovernanceStore.Store.DeleteAccount` | internal/chassis/migrations/later/00033_governance_vote.sql:24 | the cascade removes exactly the account's ballots |
| `GovernanceStore.ComposeBody` | pkg/governance/register.go:221-254 | the text begins with name and agenda under their headings, and a reader that knows only the labels gets back number, wording and counts of each entry, in order, if and only if no wording holds a line break |
| `MinutesText.LineReads` | pkg/governance/register.go:247-252 | a line says its number, its wording and each count under its own label, whatever the wording holds |
| `MinutesText.MinutesRead` | pkg/governance/register.go:233-254 | reading the whole text upwards from its end gives the entries in order if and only if no wording holds a line break |
| `MinutesText.TwoInOne` | pkg/governance/register.go:247-252 | any two entries have the lines of some single entry whose wording holds a line break |
| `MinutesText.LeavingText` | pkg/governance/register.go:233-254 | the minutes of one run, word for word |
| `Presence.AttendingIsSound` | pkg/governance/presence.go:173-180 | present and represented members are disjoint and together no more than the electorate |
| `Presence.StepKeepsAttending` | pkg/governance/presence.go:47-145 | no signature and no mandate removes anyone from the attendance |
| `Presence.QuorumIsStable` | pkg/governance/presence.go:168-180 | a quorum reached stays reached over any run of signatures and mandates, for a fixed electorate and threshold |
| `Presence.DeletionExact` | internal/chassis/migrations/later/00032_governance_attendance.sql:17-26 | deleting an account takes from the attendance that member and those it represented, nobody else, and so nobody if and only if it did not attend |
| `Presence.DeletionLosesQuorum` | internal/chassis/migrations/later/00032_governance_attendance.sql:17-26 | a quorum lost by one deletion |
| `Presence.Store.RecordMandate` | pkg/governance/presence.go:47-102 | a mandate is added exactly when the two people differ, the assembly is convoked, both are active and the principal has none yet |
| `Presence.Store.SignAttendance` | pkg/governance/presence.go:104-146 | one signature per member; a second call keeps the first row and answers its id |
| `Presence.Store.ComputeQuorum` | pkg/governance/presence.go:185-263 | in any row order, present are the eligible who signed, represented the eligible who did not but whose eligible proxy did, and the quorum is reached if and only if the electorate is not empty and the attendance meets the threshold share |
| `Presence.AttendanceMeans` | pkg/governance/presence.go:206-250 | the two sets of the count in terms of rows |
| `Donations.CentsExact` | internal/handlers/admin_donations.go:282-289 | the 64-bit product of an amount bound means the amount for all rows if and only if it does not wrap |
| `Donations.CompileFilters` | internal/handlers/admin_donations.go:264-294 | the clauses with arguments bound left to right select exactly the rows of the filters' direct reading |
| `Donations.SplitCursor` | internal/handlers/admin_donations.go:295-302 | a cursor gives its key back if and only if the time stamp holds no separator |
| `Donations.QueryDonations` | internal/handlers/admin_donations.go:259-357 | a page holds matching rows past the cursor, by falling creation time and by falling id among equals, no more than the limit; a cursor is that of its last row, and without one nothing is left over |
| `Text.LessMeans` | internal/handlers/admin_donations.go:317 | the order of text columns: the first difference decides |
| `Donations.MatchesColumns` | internal/handlers/admin_donations.go:264-294 | the filters on the columns: the payment date comes before the creation date |
| `Donations.TakePage` | internal/handlers/admin_donations.go:325-356 | the sentinel row is dropped and turned into a cursor |
| `DonationWalk.PageFacts` | internal/handlers/admin_donations.go:295-320 | a page is by falling creation time and by falling id among equals, holds only matching rows past the cursor, and leaves only older ones |
| `DonationWalk.WalkShowsOnce` | internal/handlers/admin_donations.go:259-357 | a finished walk over changing tables shows every donation that stays and matches at exactly one place, by falling creation time and id, and nothing foreign |
| `DonationWalk.WalkEnds` | internal/handlers/admin_donations.go:343-355 | while pages keep giving cursors, their number times the page size stays within the number of keys that ever existed |
| `DonationWalk.WalkOfUnchanged` | internal/handlers/admin_donations.go:259-357 | on an unchanged table the pages joined are the whole filtered table in order |
| `DonationWalk.WriteFilteredRows` | internal/handlers/donations_export.go:72-148 | the export writes every matching row once, latest date first, and counts them |
| `DonationWalk.ExportIsPermutation` | internal/handlers/donations_export.go:72-148 | the export of the same filters is a permutation of the pages of an unchanged table |
| `Search.Compile` | pkg/listing/listing.go:308-357 | the WHERE clause with its arguments selects exactly the rows meeting the direct reading of owner, status, facets and ranges, for every silo definition, with paths into nested values and names that share a column |
| `Listings.DefMeans` | pkg/listing/listing.go:116-135 | a column belongs to the first definition of its name up to letter case |
| `Search.CompiledIsDirect` | pkg/listing/listing.go:359-399 | the text argument put in front and the window appended shift no binding: the answers the database may give are exactly the windows of the orderings of the rows satisfying the filter |
| `Search.SearchListings` | pkg/listing/listing.go:301-411 | with unique ids the search returns the one window there is: satisfying rows, by rising price, falling price, rising rank or falling creation time as asked, the larger id first among equals; nothing for a text query the index cannot parse; it fails if and only if a bounded range names no column |
| `Search.OrderedByColumns` | pkg/listing/listing.go:374-389 | what each sort value says of any two rows, on their columns |
| `Search.WindowIsPart` | pkg/listing/listing.go:391-399 | row i of a window is row i past the offset, up to the limit |
| `Search.ResultsShape` | pkg/listing/listing.go:374-389 | the satisfying rows as a multiset in the requested order; with unique ids every ordering the database may choose is this one |
| `Search.OrderTellsApart` | pkg/listing/listing.go:374-389 | the id breaks every tie: two rows of a table each allowed before the other are one row |
| `Search.WindowsTile` | pkg/listing/listing.go:391-399 | consecutive offset searches, each answered from whatever ordering the database chooses, join to a prefix of the results and to all of them once they reach the length |
| `Matcher.MatchFilter` | pkg/listing/buyer.go:203-259 | in any map order, true if and only if every criterion that is set holds |
| `Matcher.MatchingSavedSearches` | pkg/listing/buyer.go:172-201 | exactly the saved searches whose filter accepts the listing, in order |
| `Matcher.FacetExact` | pkg/listing/buyer.go:219-227 | over the own key: a facet value is found whenever accepted if and only if it is a string, a whole number below a million, another number that reads back in a real column or prints alike in a text column, or an array printed alike; in a text column what is found is accepted for exactly these and null |
| `Matcher.RealFacetExact` | pkg/listing/buyer.go:219-227 | in a real column what is found is accepted if and only if the matcher's text is the only one that finds the value, which it never is for whole numbers, booleans and strings of whole numbers |
| `Matcher.CanonicalExact` | pkg/listing/buyer.go:219-227 | over all numbers of a real column a text finds only what accepts it if and only if it is what Go prints for the number it reads as |
| `Matcher.PathExact` | pkg/listing/buyer.go:219-227 | accepted strings are found if and only if the column reads the attribute's own key; found ones are accepted exactly then or when the path reads no string at all |
| `Matcher.RangeExact` | pkg/listing/buyer.go:228-248 | over the own key: accepted values lie in the column's range for all ranges and listings if and only if the attribute is real, and so for the converse on numbers |
| `Matcher.RangeValueExact` | pkg/listing/buyer.go:278-291 | in a real column every range that finds the value accepts it if and only if it is a number, null or absent |
| `Matcher.PriceExact` | pkg/listing/buyer.go:228-248 | price bounds truncated toward zero admit all that the real bounds admit, and nothing more exactly for whole bounds or bounds on the outer side of zero |
| `Matcher.AcceptedIsFound` | pkg/listing/buyer.go:203-259 | without text, an unhidden listing the matcher accepts is found, provided each declared facet asked for is over its own key with a value that selects itself, and each declared bounded range is over the price or a real attribute under its own key |
| `Matcher.SiloExact` | pkg/listing/buyer.go:203-259 | for string facets and any ranges, everything accepted is found for all filters and listings if and only if the silo reads every attribute from its own key and ranges over the price and real attributes only |
| `Matcher.FoundIsAccepted` | pkg/listing/buyer.go:203-259 | without text, a found listing is accepted, provided each declared facet asked for is over its own key with a value found alike (in a text column one that selects itself or null, in a real column null, a number asked by its canonical text, or a string likewise), each declared bounded range does not widen by truncation and is over the price or over a number, null or nothing in a real attribute under its own key, and the criteria the search ignores hold of the listing |
| `Matcher.EmptyRangeDiffers` | pkg/listing/buyer.go:228-242 | a range without bounds binds the matcher and not the search, with the exact case |
| `Matcher.UndeclaredFacetDiffers` | pkg/listing/listing.go:323-329 | a facet the silo does not declare changes nothing for the search and is one more condition for the matcher |
| `Matcher.UndeclaredRangeDiffers` | pkg/listing/listing.go:331-336 | so is a range the silo does not declare |
| `Matcher.HiddenDiffers` | pkg/listing/listing.go:311 | a hidden listing is never found, and accepted if and only if it would be when shown |
| `Matcher.RealFacetExample` | pkg/listing/buyer.go:219-227 | a length of nine is found as `9.0` and not accepted |
| `Matcher.UndeclaredFacetExample` | pkg/listing/buyer.go:219-227 | an undeclared facet: found and not accepted |
| `Matcher.RealBooleanExample` | pkg/listing/buyer.go:261-276 | in a real column a true value is found as `1` and a false one as `0`, and neither is accepted |
| `Matcher.UndeclaredRangeExample` | pkg/listing/buyer.go:228-248 | an undeclared range: found and not accepted |
| `Matcher.HiddenExample` | pkg/listing/listing.go:311 | a hidden listing: accepted and not found |
| `Matcher.NullFacetExample` | pkg/listing/buyer.go:261-276 | a null facet: accepted as `<nil>` and not found |
| `Matcher.ObjectFacetExample` | pkg/listing/buyer.go:261-276 | an object facet: accepted by Go's text and not found |
| `Matcher.TextRangeExample` | pkg/listing/buyer.go:228-248 | ten between nine and eleven is accepted and not found in a text column |
| `Matcher.OtherPathExample` | pkg/listing/buyer.go:219-227 | a brand kept under another key is accepted and not found |
| `Matcher.OtherCaseExample` | pkg/listing/buyer.go:219-227 | the second of two names that differ in letter case is accepted and not found |
| `Matcher.BooleanFacetExample` | pkg/listing/buyer.go:261-276 | a boolean facet: each side takes a text the other refuses |
| `Matcher.MillionFacetExample` | pkg/listing/buyer.go:261-276 | a million as a text facet: each side takes a text the other refuses |
| `Matcher.FractionalPriceExample` | pkg/listing/buyer.go:228-248 | a price of ten is found and not accepted above ten and a half |
| `Matcher.EmptyRangeExample` | pkg/listing/buyer.go:228-242 | a listing without the attribute is found and not accepted under a range without bounds |
| `FacetCache.RecountMeans` | pkg/listing/listing.go:437-451 | the recount holds exactly the carried values of text facets with the number of their carriers |
| `FacetCache.CountNext` | pkg/listing/listing.go:443-448 | one listing more is one carrier more exactly if it is of the silo and carries the value |
| `FacetCache.RunKeepsCounts` | pkg/listing/listing.go:437-490 | on every run carried values are cached with their full recount; without updates the cache is the recount |
| `FacetCache.UpdateExact` | pkg/listing/lifecycle.go:55-107 | an update keeps an exact cache exact if and only if no value vanishes |
| `FacetCache.CacheIsHistory` | pkg/listing/listing.go:437-490 | on every run the cache holds exactly the values ever carried, each with the count it had when last carried |
| `FacetCache.StaleExample` | pkg/listing/listing.go:437-490 | a run of one creation and one update after which a value nobody carries is still counted |
| `FacetCache.Store.RefreshFacetCounts` | pkg/listing/listing.go:437-490 | the drained groups upserted in any order overlay the recount on the cache |
| `FacetCache.Store.Create` | pkg/listing/listing.go:221-257 | what is inserted, the refreshed cache, and the refusals |
| `FacetCache.Store.Update` | pkg/listing/lifecycle.go:55-107 | owner-only edit of the given fields and the refreshed cache |
| `FacetCache.Store.SetStatus` | pkg/listing/lifecycle.go:109-138 | only allowed transitions by the owner; the cache is untouched |
| `FacetCache.Store.SetHidden` | pkg/listing/moderation.go:95-130 | only the moderation flag changes; the cache is untouched |
| `RateWindow.AnswersAreHistorical` | internal/handlers/oauth_register.go:34-67 | under a non-decreasing clock a call is allowed if and only if fewer than the limit of earlier accepted calls of its key lie strictly after now minus the window |
| `RateWindow.WindowBound` | internal/handlers/oauth_register.go:17-67 | no window-long interval holds more than the limit of accepted calls of one key |
| `RateWindow.RegistrationBound` | internal/handlers/oauth_register.go:26-32 | at most five accepted registrations of an address in any hour |
| `RateWindow.MagicLinkBound` | internal/handlers/login_magic_link.go:25-61 | at most three accepted magic links of an address in any quarter of an hour |
| `RateWindow.IdleIsEmpty` | internal/handlers/oauth_register.go:41-50 | in an ordered bucket the last stamp alone decides whether any stamp is left in the window |
| `RateWindow.RestAgrees` | internal/handlers/oauth_register.go:44-50 | purging agrees with the history above every cutoff still to come |
| `RateLimiter.Compact` | internal/handlers/oauth_register.go:52-59 | filtering over the same cells leaves exactly the fresh stamps in order |
| `RateLimiter.Append` | internal/handlers/oauth_register.go:64-65 | the append in place or to a larger copy |
| `RateLimiter.Limiter.Allow` | internal/handlers/login_magic_link.go:42-61 | with slices sharing no array, the in-place limiter is the list machine, with purging (registration) or without (magic link) |
| `LoginGuard.PurgingIsInvisible` | internal/handlers/login_guard.go:46-98 | under a non-decreasing clock every check and every failure answers as if nothing were ever purged |
| `LoginGuard.LockLasts` | internal/handlers/login_guard.go:62-88 | a set lock lasts until its time or a reset when failures are recorded only while unlocked |
| `LoginGuard.FailureLocks` | internal/handlers/login_guard.go:62-81 | in any clocked list of checks, failures and resets, with or without purging, a failure sets a lock if and only if it is not the opener of its window and at least the allowed number of its key since the opener, with no reset between |
| `LoginGuard.LoginLocks` | internal/handlers/login_guard.go:35-42 | with the login settings a failure locks for fifteen minutes if and only if it is at least the fifth of its key in a window of fifteen minutes, which opens with the first failure after a reset or after the one before is over |
| `LoginGuard.TableIsHistory` | internal/handlers/login_guard.go:62-88 | what the guard holds for a key is its open window, the failures since its opener and the lock of the last |
| `LoginGuard.FailureWhileLocked` | internal/handlers/login_guard.go:70-80 | a failure recorded during a lock keeps it if and only if the failure window is still open |
| `LoginGuard.LostLockExample` | internal/handlers/login_guard.go:35-42 | six failures with the login settings after which a lock is lost early |
| `LoginGuard.Guard.IsLocked` | internal/handlers/login_guard.go:46-60 | the method answers as the machine does, with the time left by a second reading of the clock in whole minutes, off by half a minute at most |
| `LoginGuard.Guard.RecordFailure` | internal/handlers/login_guard.go:62-81 | the in-memory records change as the machine does |
| `LoginGuard.Guard.PurgeExpired` | internal/handlers/login_guard.go:90-98 | exactly the expired entries go |
| `BearerGuard.PurgingIsInvisible` | internal/handlers/mcp_endpoint.go:91-117 | under a non-decreasing clock every call answers as if nothing were ever purged |
| `BearerGuard.RefusedFromEleventh` | internal/handlers/mcp_endpoint.go:91-107 | in any clocked list of calls of any addresses, a call is refused if and only if ten or more earlier calls of its address fall in the window open at it |
| `BearerGuard.TableIsHistory` | internal/handlers/mcp_endpoint.go:91-107 | what the guard holds for an address is the window its opening call began and the number of calls since |
| `BearerGuard.Guard.RecordFailure` | internal/handlers/mcp_endpoint.go:91-107 | the in-memory buckets change and answer as the machine does |
| `Migrations.CrashesLeaveNoTrace` | internal/chassis/migrate.go:31-69 | after any interrupted runs, one successful run ends exactly where a single uninterrupted run would have |
| `Migrations.HistoryIsPrefix` | internal/chassis/migrate.go:131-199 | at every point of an interrupted history the migrations run are a prefix of the plan, recorded versions match it, and no migration runs whose version was recorded or applied by the former runner |
| `Migrations.ExactlyOnce` | internal/chassis/migrate.go:171-199 | with distinct versions a run executes exactly the unknown migrations, each once, in list order |
| `Migrations.Resume` | internal/chassis/migrate.go:171-179 | starting over after n migrations changes nothing up to n and goes on from there |
| `Migrations.NamesakeIsSkipped` | internal/chassis/migrate.go:171-179 | without distinct versions the second migration of a version never runs |
| `Migrations.Database.ApplyMigration` | internal/chassis/migrate.go:171-199 | all of a migration and its record, or nothing; a recorded one changes nothing |
| `Migrations.Database.Backfill` | internal/chassis/migrate.go:131-169 | legacy versions are copied one by one, possibly only in part: the applied ones from version 3 on and no others |
| `Migrations.Database.Run` | internal/chassis/migrate.go:31-69 | a run, interrupted anywhere or complete, is one of the two kinds the theorems are about; a complete one records every applied legacy version from 3 on and every migration, and no run records anything else |
| `Roles.Closure` | pkg/identity/identity.go:167-177 | the `UNION` recursion ends on cyclic inheritance and yields exactly the grades reachable from the direct ones |
| `Roles.LoadRoles` | pkg/identity/identity.go:156-190 | the distinct names of exactly those grades |
| `Roles.RolesGrow` | pkg/identity/identity.go:161-166 | more grades or inheritance edges never take a role away |
| `Roles.AddExact` | pkg/identity/identity.go:133-143 | adding a role gives exactly what was held before and what its grade inherits |
| `Roles.RemoveExact` | pkg/identity/identity.go:145-154 | a removed role is still held if and only if another direct grade inherits it |
| `Roles.Store.AddRole` | pkg/identity/identity.go:133-143 | the direct grades after the insert |
| `Roles.Store.RemoveRole` | pkg/identity/identity.go:145-154 | the direct grades after the delete |
| `Wav.SamplesRoundTrip` | internal/transcriber/wav.go:77-80 | decoding the encoded samples gives them back |
| `Wav.SizesExact` | internal/transcriber/wav.go:102-122 | the two size fields are true exactly up to 2147483629 samples, and 2147483647 for the data size alone |
| `Wav.ClosedFile` | internal/transcriber/wav.go:88-126 | a closed file is 44 + 2n bytes, reads back as the samples written, declares one channel of 16-bit PCM at 16 kHz, and its sizes are true exactly as long as they fit |
| `Wav.FormatBytes` | internal/transcriber/wav.go:102-126 | the 32 bytes between the sizes, one by one |
| `Wav.FormatHeader` | internal/transcriber/wav.go:102-126 | the fields laid down at their offsets make up the header |
| `Wav.Pack` | internal/transcriber/wav.go:77-80 | the buffer loop encodes the samples |
| `Wav.Writer.constructor` | internal/transcriber/wav.go:34-53 | a fresh file holds the header stub and nothing else |
| `Wav.Writer.WritePCM16` | internal/transcriber/wav.go:72-86 | samples are appended at the cursor and counted modulo 32 bits |
| `Wav.Writer.Close` | internal/transcriber/wav.go:88-100 | the header is overwritten in place, the samples stay |
| `Wav.Session` | internal/transcriber/wav.go:34-100 | any sequence of writes and a close on a fresh file |
| `Alerts.EmailsBounded` | cmd/yachts/alerts.go:132-164 | over any run the emails queued for a pair number at most one plus its failed marks |
| `Alerts.MarkedIsFinal` | cmd/yachts/alerts.go:137-143 | a marked pair stays marked and gets no further email |
| `Alerts.DeliveredKeepsBudget` | cmd/yachts/alerts.go:157-163 | marking after queueing keeps the bound under every failure |
| `Alerts.Worker.Deliver` | cmd/yachts/alerts.go:132-164 | which outcome each combination of failing calls has, whether an email is queued, and that the pair is marked unless it fails |
| `Alerts.Worker.ScanOnce` | cmd/yachts/alerts.go:99-130 | a pass without failing calls succeeds; one that succeeds marks every scanned pair, counts the emails, and has queued one for every new pair whose owner has an address; with every pair marked it changes nothing |
| `Alerts.Worker.ScanTwice` | cmd/yachts/alerts.go:99-130 | an immediate second pass on unchanged data emits nothing |

## Left out

- Interleavings inside one store method, and the launcher's goroutines: each method is one step, as the single-writer database makes it.
- I/O failures of the databases, except where failures are the subject (migrations, alerts), and failed file writes.
- Slug generation, markdown rendering, created and updated times of nodes, and the sorted single-table reads `Children` and `Roots`.
- Foreign keys to `users` in governance: an unknown user is not told apart, but the cascade of a deleted one is modelled. Ids are numbers, so trimming of ids has no counterpart.
- Governance clock: recording times do not decrease; the fallback to random ids when the system has no entropy is not modelled.
- Masking and formatting of donation items, the statistics cache, and the parsing of URL parameters.
- The alert worker's query: it looks at the thousand newest published listings; which they are is a parameter.
- Full-text matching, ranking and quoting, `LIKE`, letter case beyond ASCII, the printing of numbers that are not whole or not held exactly by a 64-bit float, the inside of printed arrays and objects, and the reading of numeric text: parameters of the model.
- JSON paths come parsed, as object keys and array positions; positions counted from the end of an array are not modelled.
- Words of the text criterion in the matcher against the text index in the search: the two are not compared.
- Price bounds outside the 64-bit range, and rounding of floating-point numbers: bounds, thresholds and prices are reals.
- Silos that define one attribute name twice, or twice up to letter case: the facet cache gives each definition its own column; the search and matcher theorems cover them.
- FacetCache.Store.Create: a failure of the refresh after the insert is not modelled, the claims being about successful calls.
- Favourites, inquiries, reports, media lists and update times of listings.
- The normalisation of the email to a key, and login requests interleaved between the check of a lock and the record of a failure.
- Reading migration files: the list of migrations is a parameter, in file-name order, and its versions are distinct where a theorem says so.
- Wav.Writer.constructor: an existing file is not modelled, only a fresh one.
- Permissions, sessions, cookies, OAuth flows, pages and connectors.
