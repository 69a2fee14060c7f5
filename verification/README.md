# Proofs about Valhalla's graph data layer and the NHVR pipeline

This Dafny project models the parts of the repository whose correctness rests on an argument and not on a
single branch: walks over the road graph that must end, a watcher that races with the writers of its files,
caches that must not be seen, printers and parsers that must undo each other, searches on compound conditions,
a calendar, and a migration runner that may be cut off anywhere. Nothing here runs the original program.

`dafny verify dfyconfig.toml` checks everything. One module per concern, in a file of the same name:

| files | what they are about |
|---|---|
| `RoadGraph`, `EdgeTracking` | the tiled directed multigraph with its opposing edges; the bitset that stands for a set of edges |
| `MergeChains`, `EdgeCollapsing`, `EdgeMerging` | `merge`: chains of nodes with two neighbours, the two walks, the two passes |
| `EdgeExport` | the exporter's greedy growth of named lines |
| `ShortcutRecovery`, `ShortcutLookup` | expanding a shortcut into its edges, and finding the shortcut of an edge |
| `ShortcutContraction` | what the shortcut builder leaves in the tiles, and how it ties the two together |
| `Examples` | small tile sets that meet the conditions, or break them |
| `IncidentWatcher` | the incident watcher and the file writers as steps of one system |
| `RecencyList`, `TileCaches`, `GraphTiles` | the LRU cache as a value, the three caches as objects, `GetGraphTile` on top |
| `TileHierarchy`, `DecimalDigits`, `TilePaths` | tile ids; digits; tile path printer, parser, and the listing script's printer |
| `Departures`, `AccessRestrictions` | binary searches over sorted tile records |
| `NhvrNetworks` | the status fold, the tag, its parser, and the truck costing's test |
| `ConditionalDates` | conditional access for month/day ranges, weekdays and time windows |
| `Migrations` | the SQL runner as transactions |

## How to read it

Code that changes things step by step is a class or a method with loops here too. Each such method is proved
against a specification (a function, or a predicate about the old and the new state), and the properties the
repository promises are lemmas about that specification. The main results:

* **merge.** `Merge` reports no edge twice, says exactly which edges it reports, and what every path goes over and
  where it stops, in terms of the edges at its nodes (`MergesAtIff`). The walk's termination is
  `WalkGoesOn`: a chain of two-neighbour nodes cannot run into its own interior. That one look at the tracker is
  enough is `UntrackedChain`, which rests on the all-or-none invariant that every collapsed chain keeps.
* **export.** `Export`: every road in at most one line and once, lines connected and greedy, every road covered
  whose halves are both to be exported; and where a tile is missing, what the edge is like behind which it is missed.
  `CoveredIff` says when a road is covered of which only one half is to be exported, and `ShortcutIsGrownOnto` when a
  line holds a shortcut.
* **shortcuts.** `RecoverShortcut` computes the one expansion there is, within 2L+3 edges. `GetShortcut` finds a
  shortcut if and only if the walk back reaches a superseded edge first. On tiles as the shortcut builder leaves
  them the answer is a shortcut if and only if the edge was contracted into it and has an opposing edge
  (`AnswerIsMembership`), a shortcut is recovered as exactly its contracted edges if and only if the lengths fit
  (`RecoveredIff`), and `RecoverThenLookUp` and `LookUpThenRecover` go both ways round. `CacheIsRecoveryIff` says when
  the prefilled cache gives the same answers. No edge that a shortcut is recovered as is closed to a truck by its
  NHVR networks, and no closed edge is answered with a shortcut (`RecoveredPasses`, `ClosedHasNoShortcut`).
* **incidents.** `NoUpdateIsLost` speaks about all interleavings of writers, clock and watcher: readers get the
  incidents that were written. `UpdateCanBeShown` gives runs in which they do.
* **caches.** `Serve`: any sequence of requests, trims and clears answers as the uncached loader would, given
  what was rejected before.
* **paths.** `AcceptsExactlyNames` says which strings the parser takes, and `PrintBothWaysAndParse` ties the two
  printers and the parser together.
* **departures.** `GetNextDeparture` under monotone deadlines, and `SearchIsRightIffMonotone` for why that is the
  condition.
* **NHVR.** `RouteTruck` goes from the access codes in the packages to the closed road, through the fold, the tag and
  its parser (`ImportThenDecode`, `ProhibitedIffRestricted`).
* **calendar.** `TestMeansIntervalIffDaysExist` and `WholeMonths` for the dates, `WeekdayIsCounted` for the days of the
  week, and `ActiveInFields` for what an active restriction means in terms of its fields.
* **migrations.** `Migrate` is one run cut off at any statement; `RunAll` is any sequence of them;
  `CanComeUpIffNotStuck` says which databases can still be brought up to date, and `UndisturbedRun` what that does.

## Where the code and its promises differ

The model follows the code. Each of these has its exact condition proved, unless "Left out" names it.

* `merge.h` promises that each edge is part of exactly one path. Edges that are not allowed are in none, and an
  allowed edge that leaves the tile set is reported exactly if merging is possible at its start (`Merge`).
* The mapped path gives the LRU cache a constant instead of the tile's size. In both modes the byte count stays
  right exactly when the size is the tile's own (`AccountNeedsOwnSize`). Otherwise it can wrap below zero
  (`ConstantSizeUnderflows`), and the hard limit is not one (`ConstantSizeBreaksHardLimit`). In HARD mode a Put of a
  tile that is there can evict the very entry it replaces and write through it. It does exactly if the entry grows
  and no number of evictions brings the count to where there is room (`EvictsItselfIff`); for a count that is not
  below the sum of the sizes, exactly if it exceeds the sum by more than the limit leaves beside the new size
  (`OverstatedEvictsItselfIff`), which a right count does not (`AccountedNeverEvictsItself`). One reader puts a tile
  only after a miss, so the answers of `GetGraphTile` do not depend on the count; but two readers that share the
  global synchronized cache can both miss a tile and both put it (`SharedPutsEvictThemselves`).
* The flat cache's offset has no check of the tile number, so an id beyond its level's tiling reads another
  level's slot (`TrespassersShareSlots`, `TrespasserGetsAnotherTile`).
* A compressed download is stored before its build is checked: the first request throws, a later one reads the
  rejected tile from disk (`DownloadChangesOnlyRejected`, `RejectedTileIsReadLater`). `GetGraphTile` and `Serve`
  say for which requests. One that does not decompress is stored, too; every request for it uses a null tile
  (`UndecodableStays`).
* Looking up a shortcut, and growing an exported line, follow an edge that leaves the tile set and use a null
  tile. The look-up does exactly if the walk back comes to such an edge (`GetShortcut`, `LookUpRunsOff`). The
  exporter can only where the edge meets a road with its names, and the main loop had not come by it first
  (`Export`, `ExportRunsOut`); its own test for a missing opposing edge does not prevent it.
* A comment at the recovery of shortcuts suspects that there may be two candidates for the next edge. On tiles as
  the builder leaves them there never are (`OnlyNextFits`). But a shortcut that is shorter than the roundoff error is
  never recovered, as the difference is formed in unsigned arithmetic and wraps around (`RecoveredIff`,
  `ShortRowIsNotRecovered`).
* The exporter marks both halves of a road where it comes by the first, and asks only that half whether it is to be
  exported. So a road with a name on one side can be missing in the output (`CoveredIff`, `CoveredIffFirst`,
  `ExportOneSided`).
* The exporter's main loop skips shortcuts, its growth does not ask. As shortcuts have no names and are stored first,
  it grows onto one exactly if the line has no name and there is one, which needs the switch for unnamed edges
  (`NextIsShortcutIff`, `ShortcutIsGrownOnto`, `LinesWithoutShortcuts`, `GrowsOntoShortcut`).
* The prefill of the shortcut cache takes the opposing edges of a recovered shortcut for what its opposing shortcut
  would be recovered as. That is so exactly if the latter is recovered back (`CacheIsRecoveryIff`); it is not for an
  eighth shortcut at a node, which has no number (`PrefillDiffers`).
* The tile path parser takes a level of three digits if it is the first thing in the path behind a separator, as
  in `/001/000/002.gph` (`AcceptsExactlyNames`), and reads before the string for a path of nothing but groups of
  three digits (`OffTheStartIffOnlyTriples`).
* A line that mixes fixed and repeating departures, or whose repeating departures end out of order, can make the
  binary search miss a departure (`SearchIsRightIffMonotone`, `SearchMissesFixed`). `GetNextDeparture` can offer a
  run that is not before the end of service (`NextRunIsFirst`, `OfferBehindEnd`), which `GetTransitDeparture`
  does not.
* A network name with `|` or `:` does not survive the tag (`RoundTripIffClean`, `ImportThenDecode`,
  `SeparatorsAreTakenApart`). The parser keeps the lowest byte of a status, so that 258 is read as prohibited
  (`StatusWrapsAround`); the importer writes no such status.
* The branch of the date test for a single whole month is never taken, because the days were filled in before it
  (`IsConditionalActive`). A time window over midnight leaves out its two end minutes
  (`TimeTestIsWindowIffWithinDay`).
* A database made by the older setup script is adopted only by the run that makes the tracking table. If that
  run is cut off between the two transactions, the next one creates the tables once more and fails on the rows
  that are there, and so does every later one until the schemas are dropped (`SetupComesUpIffNotCutBetween`,
  `AdoptionCutOff`). The same goes for a database that tracks only one of the two older seeds
  (`PartlySeededIsStuck`). In general a database cannot come up to date exactly if it holds the rows while the
  seed counts as not applied (`CanComeUpIffNotStuck`).

## What is assumed of callers and data

* Graph: every edge lies in one node's range, and an edge whose end tile is present and that is no transit line
  has an opposing edge there that points back (`WellFormed`). For `merge` the allowed test agrees on both halves
  (`Symmetric`). For `GetShortcut`, on the two levels that have shortcuts: no edge is a line of public transport or a
  connection to a bike sharing station, which the hierarchy builder keeps on other levels; edges that are or could be
  part of a shortcut lead to one of the two levels; and the two halves of a road are shortcuts or contractible together
  (`ShortcutLevels`). Connections to public transport may be there, and any edge may leave the tile set.
* For the results that tie recovery and look-up together: superseded edges and shortcuts are numbered at their
  node as the builder numbers them, and a superseded edge is the first of those its shortcut was contracted from
  (`Built`); recovery also needs that the two halves of a contractible road have the same attributes
  (`HalvesMirror`). `Examples.RowIsSound` is a tile that meets all of it, with a stop at its contracted node.
  A prefilled cache holds edges of the two levels that have shortcuts, as the prefill skips the others.
* For the exporter's results about shortcuts: they are stored without names, both halves of a road are shortcuts or
  neither is, and a node's shortcuts are stored before its other edges (`ShortcutsUnnamed`, `ShortcutsInPairs`,
  `ShortcutsStoredFirst`). The exporter's other results ask nothing of names or flags.
* Edge lengths are at least 1 and have 24 bits (`LengthsInRange`).
* Indexes of extracts and remote tars name tiles of the tilings (`WellIndexed`).
* Repeating departures have a positive interval, and stored times have 17 bits (`WellStored`).
* Strings are shorter than the address space; a tiling passed to `FileSuffix` has fewer than 2^32 tiles.

## Model

| member | source | states |
|---|---|---|
| `RoadGraph.OpposingTurnsAround` | nhvr-valhalla/src/baldr/graphreader.cc:714-735 | Opposing is an involution that swaps an edge's start and end; the pairing every walk over the graph rests on. |
| `EdgeTracking.SetBit` | nhvr-valhalla/src/baldr/edgetracker.cc:13 | Or-ing in one mask sets that bit of a 64 bit word and leaves the 63 others alone. |
| `EdgeTracking.Bitset.Set` | nhvr-valhalla/src/baldr/edgetracker.cc:9-14 | Refines adding one id to a set of ids; out of bounds is the exception and changes nothing. |
| `EdgeTracking.Bitset.Get` | nhvr-valhalla/src/baldr/edgetracker.cc:16-21 | Membership in that set, or the out of bounds exception. |
| `EdgeTracking.NumbersAreDistinct` | nhvr-valhalla/valhalla/baldr/edgetracker.h:61-79 | Two edges of the numbered tiles never share a bit. |
| `EdgeTracking.EdgeTracker.Create` | nhvr-valhalla/valhalla/baldr/edgetracker.h:61-79 | Numbers the edges of all tiles one after the other; at first no edge is tracked. |
| `EdgeTracking.EdgeTracker.Set` | nhvr-valhalla/src/baldr/edgetracker.cc:29-33 | The set of tracked edges grows by exactly the edge. |
| `EdgeTracking.EdgeTracker.Get` | nhvr-valhalla/src/baldr/edgetracker.cc:23-27 | Whether the edge is in the set. |
| `MergeChains.ScanFindsTwoEnds` | nhvr-valhalla/src/baldr/merge.cc:94-136 | The loop with two slots and early returns finds two nodes exactly when no edge forbids merging and exactly two edges are allowed, with different ends. |
| `MergeChains.WayBack` | nhvr-valhalla/src/baldr/merge.cc:214-230 | Between a mergeable node and its neighbour there is one road, and its two halves are what edge_between finds in the two directions. |
| `MergeChains.Mutual` | nhvr-valhalla/src/baldr/merge.cc:138-158 | Neighbourhood between mergeable nodes is mutual, which is what the assertion in next_node_id says. |
| `MergeChains.ExtendChain` | nhvr-valhalla/src/baldr/merge.cc:232-253 | No walk is shaped like a rho: a chain that goes on never runs into its own interior, only into a node it does not have or back to where it began. |
| `MergeChains.CloseLoop` | nhvr-valhalla/src/baldr/merge.cc:236-251 | A chain whose last node is its first can only go on to its second node: the run around a loop is complete. |
| `MergeChains.WalkGoesOn` | nhvr-valhalla/src/baldr/merge.cc:217-253 | One more step of the walk closes the loop or adds a node the chain did not have, so the unvisited nodes get fewer. |
| `MergeChains.ChainConnects` | nhvr-valhalla/src/baldr/merge.cc:199-208 | The edges along a chain, and those along its reversal, each run head to tail between its ends. |
| `MergeChains.ChainEdgesDistinct` | nhvr-valhalla/src/baldr/merge.cc:199-208 | The forward and the reverse path of one chain together use every edge at most once. |
| `MergeChains.Swallows` | nhvr-valhalla/src/baldr/merge.cc:182-209 | A complete chain takes all allowed edges, in both directions, of every mergeable node on it. |
| `MergeChains.ChainKeepsAllOrNone` | nhvr-valhalla/src/baldr/merge.cc:182-209 | The inductive fact: at a mergeable node all edges are tracked or none is, and collapsing one more chain keeps it so. |
| `MergeChains.UntrackedChain` | nhvr-valhalla/src/baldr/merge.cc:188-197 | One untracked road of a chain means that the whole chain is untracked, so looking at the first edges is enough. |
| `EdgeCollapsing.Path.PushBack` | nhvr-valhalla/src/baldr/merge.cc:270-274 | Joins a segment at the end, where the assertion demands that it fits. |
| `EdgeCollapsing.Path.PushFront` | nhvr-valhalla/src/baldr/merge.cc:276-280 | Joins a segment at the front. |
| `EdgeCollapsing.EdgeCollapser.NodesReachableFrom` | nhvr-valhalla/src/baldr/merge.cc:94-136 | The only two nodes reachable from a node, in edge order, or none. |
| `EdgeCollapsing.EdgeCollapser.NextNodeId` | nhvr-valhalla/src/baldr/merge.cc:138-158 | The neighbour the walk did not come from; the assertion is the precondition, and the walk meets it. |
| `EdgeCollapsing.EdgeCollapser.FindEdgeBetween` | nhvr-valhalla/src/baldr/merge.cc:162-175 | The first allowed edge from one node to another. |
| `EdgeCollapsing.EdgeCollapser.AddRoad` | nhvr-valhalla/src/baldr/merge.cc:219-230 | One road is put on both paths, at opposite ends, and both its halves are marked. |
| `EdgeCollapsing.EdgeCollapser.ExploreFrom` | nhvr-valhalla/src/baldr/merge.cc:214-255 | The walk ends on every finite graph whose opposing edges pair up; it extends both paths by the roads of a chain, in mirror image, marks exactly those, and says whether it closed a loop. |
| `EdgeCollapsing.EdgeCollapser.ExploreBothWays` | nhvr-valhalla/src/baldr/merge.cc:199-208 | After the second walk, which swaps the roles of the two paths, they are the two directions of one complete chain. |
| `EdgeCollapsing.EdgeCollapser.Explore` | nhvr-valhalla/src/baldr/merge.cc:182-209 | From a node: nothing, or the two mirrored paths of its whole chain, none of whose edges was tracked before. |
| `EdgeMerging.CompleteChainIsSound` | nhvr-valhalla/src/baldr/merge.cc:199-208 | A reported path runs head to tail from its start to its end and could not be merged on at either. |
| `EdgeMerging.CollapseOne` | nhvr-valhalla/src/baldr/merge.cc:182-255 | One more pair of paths keeps: no edge is reported twice, the reported edges are the tracked ones, all or none at every mergeable node. |
| `EdgeMerging.ExploredIsSettled` | nhvr-valhalla/valhalla/baldr/merge.h:96-104 | After a node was explored every allowed edge at it has been reported if merging is possible there. |
| `EdgeMerging.CollapseAll` | nhvr-valhalla/valhalla/baldr/merge.h:95-109 | The first pass settles every node of every tile. |
| `EdgeMerging.ReportSingles` | nhvr-valhalla/valhalla/baldr/merge.h:111-131 | The second pass reports exactly what is left, each edge as a path of its own. |
| `EdgeMerging.Merge` | nhvr-valhalla/valhalla/baldr/merge.h:71-138 | No edge is in two paths or twice in one; the reported edges are exactly the allowed ones whose end node is there or at whose start merging is possible. Every path is connected, goes on only over nodes where no edge forbids merging and exactly two edges are allowed, with different ends, and stops only where that is not so, at its own start, or where the tile set ends. |
| `EdgeMerging.MergesAtIff` | nhvr-valhalla/src/baldr/merge.cc:94-136 | Merging is possible at a node exactly if no edge there forbids it and two of its edges, with different ends, are all that are allowed. |
| `EdgeExport.Next` | nhvr-valhalla/src/valhalla_export_edges.cc:72-114 | The unmarked edge with the lowest number that leaves the end node and fits the line; nothing exactly if there is none. |
| `EdgeExport.GrowForward` | nhvr-valhalla/src/valhalla_export_edges.cc:276-289 | Forward growth ends because unmarked edges get fewer; the line stays connected and ends where nothing fits any more, or the growth steps on an edge that leaves the tile set, which meets a road of the line under its names. |
| `EdgeExport.GrowBackward` | nhvr-valhalla/src/valhalla_export_edges.cc:291-304 | Backward growth pushes opposing edges to the front and keeps the same, with the same way out of the tile set. |
| `EdgeExport.InsertRoad` | nhvr-valhalla/src/valhalla_export_edges.cc:276-304 | A road of which a half was unmarked repeats no road of the line, in either direction. |
| `EdgeExport.LaterIsGreedy` | nhvr-valhalla/src/valhalla_export_edges.cc:273-304 | No road of a later line could have been grown onto an end of an earlier line. |
| `EdgeExport.EndsMeetStub` | nhvr-valhalla/src/valhalla_export_edges.cc:276-304 | An edge that leaves the tile set and could continue a line meets one of the line's roads under its names. |
| `EdgeExport.StubsWereMarked` | nhvr-valhalla/src/valhalla_export_edges.cc:231-247 | A finished line's ends have no stub of its names that the main loop had not come by before the line was begun. |
| `EdgeExport.SkipRoad` | nhvr-valhalla/src/valhalla_export_edges.cc:231-261 | Marking a road of which no line is made keeps everything that holds of the lines so far; if its other half was to be exported, the main loop had not come by that one yet. |
| `EdgeExport.ExportFrom` | nhvr-valhalla/src/valhalla_export_edges.cc:221-320 | One unmarked edge is marked, with its opposing edge, and becomes a line unless it is to be skipped; no road of the line was marked before, and every stub at the line's ends was. |
| `EdgeExport.ExportAll` | nhvr-valhalla/src/valhalla_export_edges.cc:212-335 | The main loop over all tiles, in any order, ends with every edge id marked, or stops at a missing tile; the rows that are out by then are right either way. |
| `EdgeExport.Export` | nhvr-valhalla/src/valhalla_export_edges.cc:204-335 | Each undirected road is in at most one line and there once; every line is connected, was begun before the main loop had come by any of its roads, and each of its roads has a half with the line's names that is no transit and, unless asked for, no ferry; no road of a later line would have fitted at an end of an earlier one. If no tile is missed, every edge that is to be exported is covered, unless its other half is not to be exported and comes first. A tile is missed only behind an edge that leaves the tile set and meets a road of its names. |
| `EdgeExport.NothingIsLeft` | nhvr-valhalla/src/valhalla_export_edges.cc:87-111 | When a line is finished, every edge at its ends that has its names, is no transit and, unless asked for, no ferry is marked. |
| `EdgeExport.NoFerryUnasked` | nhvr-valhalla/src/valhalla_export_edges.cc:96-103 | Where the halves of a road have the same use, no line holds a ferry unless ferries were asked for, and none holds transit. |
| `EdgeExport.CoveredIff` | nhvr-valhalla/src/valhalla_export_edges.cc:243-304 | An edge to be exported is covered if and only if its other half is exported too, or does not come first, or an earlier line has grown onto the road. |
| `EdgeExport.CoveredIffFirst` | nhvr-valhalla/src/valhalla_export_edges.cc:243-261 | Where no other road with its names meets the road, it is the order of the two halves alone. |
| `Examples.ExportOneSided` | nhvr-valhalla/src/valhalla_export_edges.cc:243-261 | A road with a name on one side only is exported if and only if the main loop comes by that side first. |
| `EdgeExport.NextIsShortcutIff` | nhvr-valhalla/src/valhalla_export_edges.cc:72-114 | As the tiles store shortcuts before other edges, the next edge of a line is a shortcut if and only if the line has no name and any unmarked shortcut leaves the node. |
| `EdgeExport.ShortcutIsGrownOnto` | nhvr-valhalla/src/valhalla_export_edges.cc:251-304 | A line that holds a shortcut has no name, unnamed edges were asked for, and it was begun at a real edge before the main loop came by the shortcut. |
| `EdgeExport.LinesWithoutShortcuts` | nhvr-valhalla/src/valhalla_export_edges.cc:251-289 | So no line with a name has a shortcut in it, and no line at all unless unnamed edges are asked for. |
| `Examples.GrowsOntoShortcut` | nhvr-valhalla/src/valhalla_export_edges.cc:276-289 | A tile where the first step of an unnamed line is a shortcut. |
| `Examples.ExportRunsOut` | nhvr-valhalla/src/valhalla_export_edges.cc:79-86 | A tile set of three edges at whose border the program stops. |
| `ShortcutRecovery.WalkIsBounded` | nhvr-valhalla/src/baldr/shortcut_recovery.h:138-189 | The tolerance grows by one every two edges and the length by at least one every edge: a walk for a shortcut of length L has at most 2L+3 edges. |
| `ShortcutRecovery.WalksAgree` | nhvr-valhalla/src/baldr/shortcut_recovery.h:134-189 | The walk has no choice: of two walks one is the beginning of the other. |
| `ShortcutRecovery.FirstStepIff` | nhvr-valhalla/src/baldr/shortcut_recovery.h:112-132 | The walk begins with the edge with the lowest number at its begin node that the shortcut supersedes, if there is any. |
| `ShortcutRecovery.NextStepIff` | nhvr-valhalla/src/baldr/shortcut_recovery.h:143-178 | It goes on to the edge with the lowest number that does not lead straight back, is no shortcut, and has the shortcut's use and attributes, if there is any. |
| `ShortcutRecovery.ExpansionIsPath` | nhvr-valhalla/src/baldr/shortcut_recovery.h:98-202 | An expansion is a connected path from the shortcut's begin node to its end node that starts with a superseded edge and never turns straight back. |
| `ShortcutRecovery.ExpansionLength` | nhvr-valhalla/src/baldr/shortcut_recovery.h:180-198 | Its length is within the roundoff error of the shortcut's length (one edge alone is only bounded from below). |
| `ShortcutRecovery.WalkFails` | nhvr-valhalla/src/baldr/shortcut_recovery.h:180-188 | When no edge fits or the walk has become too long there is no expansion at all. |
| `ShortcutRecovery.RecoverShortcut` | nhvr-valhalla/src/baldr/shortcut_recovery.h:98-202 | Terminates and returns the one expansion if there is one, and otherwise the shortcut itself. |
| `ShortcutRecovery.MirrorConnects` | nhvr-valhalla/src/baldr/shortcut_recovery.h:64-75 | The reversed sequence of opposing edges is a connected path back. |
| `ShortcutRecovery.EntryIsPath` | nhvr-valhalla/src/baldr/shortcut_recovery.h:53-82 | Whatever a filled cache holds for an edge is the edge itself or a path from its begin node to its end node. |
| `ShortcutRecovery.OpposeAll` | nhvr-valhalla/src/baldr/shortcut_recovery.h:70-76 | Replaces each edge of the reversed list by its opposing edge, and everything by the opposing shortcut as soon as one has none. |
| `ShortcutRecovery.ShortcutCache.CacheBoth` | nhvr-valhalla/src/baldr/shortcut_recovery.h:53-82 | Adds the shortcut as it is recovered and, without another walk, the mirrored edges for its opposing edge; nothing else changes. |
| `ShortcutRecovery.ShortcutCache.Fill` | nhvr-valhalla/src/baldr/shortcut_recovery.h:36-85 | After the prefill every shortcut with a number is cached, and of every cached edge and its opposing one, one was recovered and the other has the mirrored edges. |
| `ShortcutRecovery.ShortcutCache.Get` | nhvr-valhalla/src/baldr/shortcut_recovery.h:230-238 | The cached entry, or else what recovering gives; either way the edge itself or a path between its nodes. |
| `ShortcutLookup.BeforeIsInjective` | nhvr-valhalla/src/baldr/graphreader.cc:865-911 | On the levels that have shortcuts, going back to the continuing edge is injective. |
| `ShortcutLookup.BackChainDistinct` | nhvr-valhalla/src/baldr/graphreader.cc:865-911 | The walk back never comes to an edge twice, so the only cycle is the one back to the first edge, which is tested for. |
| `ShortcutLookup.ContinuingEdge` | nhvr-valhalla/src/baldr/graphreader.cc:827-846 | The only other edge at a node that can be part of a shortcut, by the original's pointer trick, and whether a shortcut begins there. |
| `ShortcutLookup.WalkBack` | nhvr-valhalla/src/baldr/graphreader.cc:865-912 | The loop terminates; it finds a shortcut exactly if the walk back comes to a superseded edge, and misses a tile exactly if the walk back comes to a road that leaves the tile set. |
| `ShortcutLookup.GetShortcut` | nhvr-valhalla/src/baldr/graphreader.cc:823-913 | An answer is given exactly if the edge is a shortcut, or the only road back comes to a superseded edge; then it is the edge at that edge's node whose place is the lowest bit of the superseded mask. Where the road back leaves the tile set the original uses a null tile. |
| `ShortcutLookup.ContinuingIff` | nhvr-valhalla/src/baldr/graphreader.cc:827-846 | The continuing edge is the only one at the node, besides the one walked on, whose use and flags let it be part of a shortcut. |
| `Examples.FindsSecondShortcut` | nhvr-valhalla/src/baldr/graphreader.cc:904-911 | A node with two shortcuts: looking up the edge that the second one supersedes finds the second one. |
| `ShortcutLookup.FoundLeadsToEdge` | nhvr-valhalla/src/baldr/graphreader.cc:865-911 | From the superseded edge's node continuing edges lead head to tail to the edge that was asked for. |
| `ShortcutLookup.FindsUnique` | nhvr-valhalla/src/baldr/graphreader.cc:823-913 | There is at most one answer to find. |
| `Examples.LookUpRunsOff` | nhvr-valhalla/src/baldr/graphreader.cc:886-891 | A tile set of three edges in which looking up an edge asks for the missing tile. |
| `ShortcutContraction.ContractionStepsBack` | nhvr-valhalla/src/mjolnir/shortcutbuilder.cc:205-227 | Where the builder contracts a node, the inbound edge is the one that the look-up goes back to. |
| `ShortcutContraction.OnlyFirstSuperseded` | nhvr-valhalla/src/mjolnir/shortcutbuilder.cc:386-392 | Of the contracted edges only the first is superseded, since no shortcut begins at a contracted node. |
| `ShortcutContraction.MembersDistinct` | nhvr-valhalla/src/mjolnir/shortcutbuilder.cc:466-496 | No edge is contracted into a shortcut twice. |
| `ShortcutContraction.EndsOnce` | nhvr-valhalla/src/mjolnir/shortcutbuilder.cc:466-496 | The contracted road does not come by its end before it ends. |
| `ShortcutContraction.MembersFindTheirShortcut` | nhvr-valhalla/src/baldr/graphreader.cc:823-913 | The search from any edge that a shortcut was contracted from finds that shortcut. |
| `ShortcutContraction.FoundIsMember` | nhvr-valhalla/src/baldr/graphreader.cc:865-911 | A search finds a shortcut only from an edge that it was contracted from: past its end the opposing shortcut stops the walk. |
| `ShortcutContraction.AnswerIsMembership` | nhvr-valhalla/src/baldr/graphreader.cc:823-913 | Looking up an edge that is no shortcut finds a certain shortcut if and only if the edge is part of it and has an opposing edge. |
| `ShortcutContraction.FoundSharesNumber` | nhvr-valhalla/src/baldr/graphreader.cc:904-911 | On tiles as the builder leaves them, the shortcut that is found begins where the superseded edge does, and their masks have a bit in common. |
| `ShortcutContraction.MembersLookTheSame` | nhvr-valhalla/src/mjolnir/shortcutbuilder.cc:74-133 | Edges that match at every contracted node all have the shortcut's attributes. |
| `ShortcutContraction.OnlyNextFits` | nhvr-valhalla/src/baldr/shortcut_recovery.h:149-178 | There is no second candidate at a contracted node: of its edges only the next one looks like the shortcut and does not lead straight back. |
| `ShortcutContraction.NextStepIs` | nhvr-valhalla/src/baldr/shortcut_recovery.h:143-178 | Recovery takes the contracted road's next edge. |
| `ShortcutContraction.RecoveredIff` | nhvr-valhalla/src/baldr/shortcut_recovery.h:98-202 | A shortcut is recovered as the edges it was contracted from if and only if its opposing edge is there, their lengths differ by at most the roundoff error, and that is at most the shortcut's length. |
| `ShortcutContraction.ExpansionIsContraction` | nhvr-valhalla/src/baldr/shortcut_recovery.h:98-202 | The contracted edges are all that the shortcut can be recovered as. |
| `ShortcutContraction.RecoverThenLookUp` | nhvr-valhalla/test/recover_shortcut.cc:143-163 | Looking up every edge that a shortcut is recovered as gives that shortcut. |
| `ShortcutContraction.LookUpThenRecover` | nhvr-valhalla/test/recover_shortcut.cc:182-212 | The look-up of an edge finds exactly the shortcut that it is part of, if it has an opposing edge, and the edge is among what that is recovered as. |
| `Examples.RowIsRecovered` | nhvr-valhalla/src/mjolnir/shortcutbuilder.cc:380-603 | A tile of two contracted edges, with a stop at the node between them, that meets every condition above and whose shortcut is recovered. |
| `Examples.ShortRowIsNotRecovered` | nhvr-valhalla/src/baldr/shortcut_recovery.h:191-198 | Two edges of length 1 under a shortcut of length 1: it is contracted from them and is not recovered. |
| `ShortcutContraction.MirrorIsContraction` | nhvr-valhalla/src/mjolnir/shortcutbuilder.cc:466-496 | When the first edge of the mirrored road is superseded by the opposing shortcut, that was contracted from the whole mirrored road. |
| `ShortcutContraction.MirrorRecoveredIff` | nhvr-valhalla/src/baldr/shortcut_recovery.h:64-76 | The mirrored edges are what the opposing shortcut would be recovered as, if and only if it supersedes the first of them and its length fits. |
| `ShortcutContraction.CacheIsRecoveryIff` | nhvr-valhalla/src/baldr/shortcut_recovery.h:36-85 | The filled cache answers for all its edges what recovering them would give, if and only if every recovered shortcut in it is recovered back like that. |
| `Examples.PrefillDiffers` | nhvr-valhalla/src/baldr/directededge.cc:526-541 | When the shortcut back has no number, as an eighth one at its node, the filled cache has the mirrored edges for it, and without the cache it is not recovered. |
| `ShortcutContraction.RecoveredPasses` | nhvr-valhalla/src/mjolnir/shortcutbuilder.cc:229-235 | The edges that a shortcut is recovered as carry no NHVR networks, and the truck costing refuses none of them, whatever networks are asked for. |
| `ShortcutContraction.ClosedHasNoShortcut` | nhvr-valhalla/src/mjolnir/shortcutbuilder.cc:229-235 | Looking up an edge with any NHVR networks, and so one that is closed to some truck, never finds a shortcut. |
| `IncidentWatcher.IncidentState.UpdateTile` | nhvr-valhalla/src/baldr/incident_singleton.h:130-158 | Stores a tile; with fixed slots an unknown tile is refused and nothing changes. |
| `IncidentWatcher.IncidentState.Purge` | nhvr-valhalla/src/baldr/incident_singleton.h:301-308 | Clears exactly the entries that were not seen. |
| `IncidentWatcher.IncidentState.Get` | nhvr-valhalla/src/baldr/incident_singleton.h:346-362 | What is stored for a tile, or nothing. |
| `IncidentWatcher.StepKeepsInv` | nhvr-valhalla/src/baldr/incident_singleton.h:277-332 | Every step of the writers, of the clock and of the watcher's directory scan keeps the invariant, in any order. |
| `IncidentWatcher.RunKeepsInv` | nhvr-valhalla/src/baldr/incident_singleton.h:277-332 | So it holds in every reachable state of every interleaving. |
| `IncidentWatcher.ScanIsExact` | nhvr-valhalla/src/baldr/incident_singleton.h:277-311 | After a completed scan the cache holds exactly the incidents of every tracked file that nobody touched while it ran, and nothing for files that hold none, do not parse or are gone. |
| `IncidentWatcher.NoUpdateIsLost` | nhvr-valhalla/src/baldr/incident_singleton.h:277-311 | Incidents that are written are what readers get once a scan that began afterwards has completed, and until the file is touched again; after a write of none, of something that does not parse, or a deletion they get nothing. |
| `IncidentWatcher.NextScanCatchesUp` | nhvr-valhalla/src/baldr/incident_singleton.h:241-243 | A file that was touched during one scan is shown as it is after the next. |
| `IncidentWatcher.ScanCanComplete` | nhvr-valhalla/src/baldr/incident_singleton.h:240-332 | From every state between two scans the watcher can complete one, whatever files there are. |
| `IncidentWatcher.UpdateCanBeShown` | nhvr-valhalla/src/baldr/incident_singleton.h:240-332 | Whenever a file is written or deleted, there is a run in which readers see it. |
| `IncidentWatcher.WritersDoNotHoldUp` | nhvr-valhalla/src/baldr/incident_singleton.h:279-306 | A file that is touched during a scan may be missed by it; the writers never hold up its end. |
| `RecencyList.TrimEvictsShortestSuffix` | nhvr-valhalla/src/baldr/graphreader.cc:327-339 | With a right byte count the loop evicts exactly the shortest least recently used suffix that makes the room, and the count stays right. |
| `RecencyList.ReplacedEntrySurvives` | nhvr-valhalla/src/baldr/graphreader.cc:366-376 | In HARD mode the entry that is being replaced by a larger tile is never evicted to make room for itself. |
| `RecencyList.AccountedNeverEvictsItself` | nhvr-valhalla/src/baldr/graphreader.cc:366-376 | With a right count no Put evicts the entry it replaces, in either mode. |
| `RecencyList.PutKeepsAccount` | nhvr-valhalla/src/baldr/graphreader.cc:345-384 | A Put with the tile's own size keeps the count equal to the sum of the sizes and, in HARD mode, under the limit. |
| `RecencyList.HistoryIsSound` | nhvr-valhalla/src/baldr/graphreader.cc:305-384 | For any history of Get, Put, Trim and Clear: unique keys, a right count, and in HARD mode never over the limit. |
| `RecencyList.ListIsByRecency` | nhvr-valhalla/src/baldr/graphreader.cc:315-384 | For any history, whatever sizes are passed, the list is in order of last use and each entry holds the tile last put. After a Put that evicts the entry it replaces (`EvictsItself`) this speaks of an empty list, as the original's list is undefined there. |
| `RecencyList.AccountNeedsOwnSize` | nhvr-valhalla/src/baldr/graphreader.cc:345-384 | In SOFT and in HARD mode a Put leaves a right count right exactly if the size it is given is the tile's own. |
| `RecencyList.ConstantSizeUnderflows` | nhvr-valhalla/src/baldr/graphreader.cc:619-620 | What the constant of the mapped path leads to in SOFT mode: the count wraps around below zero and an empty cache is over its limit for good. |
| `RecencyList.ConstantSizeBreaksHardLimit` | nhvr-valhalla/src/baldr/graphreader.cc:619-620 | What it leads to in HARD mode: two tiles of 5000 bytes in a cache with a hard limit of 2000. |
| `RecencyList.EvictsItselfIff` | nhvr-valhalla/src/baldr/graphreader.cc:357-380 | For any byte count a Put evicts the entry it replaces exactly in HARD mode, if the entry grows and no number of evictions of the others leaves the room. |
| `RecencyList.OverstatedEvictsItselfIff` | nhvr-valhalla/src/baldr/graphreader.cc:357-380 | For a count not below the sum of the sizes: exactly if the entry grows and the count exceeds the sum by more than the limit leaves beside the new size. |
| `RecencyList.SharedPutsEvictThemselves` | nhvr-valhalla/src/baldr/graphreader.cc:446-462 | Two Puts of one mapped tile of 300 bytes, by readers that share a cache with a hard limit of 1200: the second evicts its own entry, through which the original then writes. |
| `TileCaches.TileCacheLRU.MoveToLruHead` | nhvr-valhalla/src/baldr/graphreader.cc:341-343 | Moves one node to the front and keeps the order of the others. |
| `TileCaches.TileCacheLRU.Get` | nhvr-valhalla/src/baldr/graphreader.cc:315-325 | The tile of the id, with its entry moved to the front; map and list stay in step. |
| `TileCaches.TileCacheLRU.TrimToFit` | nhvr-valhalla/src/baldr/graphreader.cc:327-339 | Evicts as the specification says and returns the freed bytes. |
| `TileCaches.TileCacheLRU.PutNew` | nhvr-valhalla/src/baldr/graphreader.cc:350-356 | Room is made first in HARD mode; then the new entry is in front. |
| `TileCaches.TileCacheLRU.PutAgain` | nhvr-valhalla/src/baldr/graphreader.cc:357-380 | The old entry is moved to the front, kept, and given the new tile; it is evicted with all others exactly if making room for its growth empties the list. |
| `TileCaches.TileCacheLRU.Put` | nhvr-valhalla/src/baldr/graphreader.cc:345-384 | For any state: throws for a tile bigger than the cache and changes nothing; otherwise the state of the specification, or the evicted entry that the original would write through. |
| `TileCaches.Replay` | nhvr-valhalla/src/baldr/graphreader.cc:286-384 | A new cache goes through the states of the specification over any history, so its count is right and, in HARD mode, under the limit after every call. |
| `TileCaches.SlotsArePartitioned` | nhvr-valhalla/valhalla/baldr/graphreader.h:154-157 | Every slot of the flat cache belongs to exactly one tile of the tilings. |
| `TileCaches.TrespassersShareSlots` | nhvr-valhalla/valhalla/baldr/graphreader.h:154-163 | An id shares its slot with a tile of the tilings exactly if it lies beyond the end of its own level's tiling and still inside the table. |
| `TileCaches.FlatTileCache.Put` | nhvr-valhalla/src/baldr/graphreader.cc:221-227 | Stores the tile for every id with the same offset and for no other; an id without a slot is outside of the table. |
| `TileCaches.FlatTileCache.Clear` | nhvr-valhalla/src/baldr/graphreader.cc:201-211 | No id finds anything afterwards. |
| `TileCaches.SimpleTileCache.Put` | nhvr-valhalla/src/baldr/graphreader.cc:272-275 | A tile that is already there is not overwritten, but its size is counted again. |
| `GraphTiles.CreateTileCache` | nhvr-valhalla/src/baldr/graphreader.cc:465-475 | Each configured kind of cache starts empty. |
| `GraphTiles.LoadFromExtract` | nhvr-valhalla/src/baldr/graphreader.cc:594-621 | With an extract, its index and bytes decide and nothing else is asked. |
| `GraphTiles.LoadFromDirectory` | nhvr-valhalla/src/baldr/graphtile.cc:92-135 | A tile of the levels 0 to 3 that the directory holds is read from there; an id outside the tilings and bytes that are no tile are errors. |
| `GraphTiles.LoadFromUrl` | nhvr-valhalla/src/baldr/graphtile.cc:226-303 | Otherwise the URL decides, by range of the tar or as a plain tile, with each of its outcomes. |
| `GraphTiles.DownloadChangesNoLoad` | nhvr-valhalla/src/baldr/graphtile.cc:226-303 | The stored copy of a download changes no later load exactly if it is not a compressed tile of another build, which is stored before the build check rejects it. |
| `GraphTiles.DownloadChangesOnlyRejected` | nhvr-valhalla/src/baldr/graphtile.cc:226-303 | It changes the later loads of no other tile, and of that one from the exception to the tile. |
| `GraphTiles.UndecodableStays` | nhvr-valhalla/src/baldr/graphtile.cc:289-298 | Compressed bytes that do not decompress are stored, read as missing, and asked for again; every request uses the header of a null tile. |
| `GraphTiles.CacheGet` | nhvr-valhalla/src/baldr/graphreader.cc:581-594 | A look-up changes no answer of any cache. |
| `GraphTiles.CachePut` | nhvr-valhalla/src/baldr/graphreader.cc:616-620 | After a miss, a Put adds the tile for the ids that share its place; all else it can only forget. |
| `GraphTiles.GraphReader.GetGraphTile` | nhvr-valhalla/src/baldr/graphreader.cc:581-670 | Whatever is cached and recorded as missing, the answer is the uncached load, except that a tile of another build that was rejected before is now read, that an LRU cache throws for a tile bigger than itself, and that a flat cache may answer an id beyond its tiling with another tile. |
| `GraphTiles.GraphReader.Download` | nhvr-valhalla/src/baldr/graphtile.cc:226-303 | The download gives what the uncached loader gives first and leaves all loads as they were, but for the tile it stores although it rejects it. |
| `GraphTiles.GraphReader.Serve` | nhvr-valhalla/src/baldr/graphreader.cc:581-670 | Any interleaving of requests, trims and clears answers each request as the uncached loader would, given the tiles that earlier requests had rejected, with any of the three caches; only an id beyond its tiling may get the answer for the tile whose place in a flat cache it reads. |
| `GraphTiles.TrespasserGetsAnotherTile` | nhvr-valhalla/valhalla/baldr/graphreader.h:154-163 | The exception is real: an id one past the end of level 0 throws at first and gets level 1's first tile once that is cached. |
| `GraphTiles.RejectedTileIsReadLater` | nhvr-valhalla/src/baldr/graphtile.cc:226-303 | Two requests for a compressed tile of another build: the first throws, the second is answered with it. |
| `TilePaths.PartsSuffice` | nhvr-valhalla/src/baldr/graphtile.cc:513-527 | The groups of three digits have room for every id of the tiling. |
| `TilePaths.NextIndexIsNextPlace` | nhvr-valhalla/src/baldr/graphtile.cc:534-541 | The write index steps from digit place to digit place over the separators, in size_t arithmetic. |
| `TilePaths.FillBackward` | nhvr-valhalla/src/baldr/graphtile.cc:528-545 | The digits are filled in from the back without a write out of bounds, although the index wraps around below the front. |
| `TilePaths.FileSuffix` | nhvr-valhalla/src/baldr/graphtile.cc:488-548 | The printed path, or the exception for a level or a tile number the tiling does not have; also for a tiling that is passed in. |
| `TilePaths.WalkSpells` | nhvr-valhalla/src/baldr/graphid.cc:38-65 | Whatever the backward walk accepts is spelled as a level and groups of three digits. |
| `TilePaths.NameSpelledOut` | nhvr-valhalla/test/graphtile.cc:30-35 | A tile's name spelled out digit by digit: the level, and two groups of three digits on the levels 0 and 1 or three on the levels 2 and 3. |
| `TilePaths.RoundTrip` | nhvr-valhalla/src/baldr/graphid.cc:15-108 | Parsing a printed path gives the tile back: any tile of any level, any directory, any extension. |
| `TilePaths.AcceptsExactlyNames` | nhvr-valhalla/src/baldr/graphid.cc:15-108 | A path is accepted exactly if it is a tile's name in a directory with an extension, or such a name behind "/00" at the very start of the path. |
| `TilePaths.DistinctPaths` | nhvr-valhalla/src/baldr/graphtile.cc:488-548 | Distinct tiles have distinct paths, whatever the directories and extensions. |
| `TilePaths.AcceptedReprints` | nhvr-valhalla/src/baldr/graphid.cc:15-108 | Every accepted path's tile prints to a name that parses to the same tile. |
| `TilePaths.OffTheStartIffOnlyTriples` | nhvr-valhalla/src/baldr/graphid.cc:38-65 | The walk reads before the first character exactly for paths of nothing but three-digit groups up to the start. |
| `TilePaths.WalkBackward` | nhvr-valhalla/src/baldr/graphid.cc:38-65 | The loop with its size_t positions computes that walk and ends. |
| `TilePaths.FromDigits` | nhvr-valhalla/src/baldr/graphid.cc:67-107 | The level check, the number of groups, and the sum of growing multiples. |
| `TilePaths.FromTilePath` | nhvr-valhalla/src/baldr/graphid.cc:15-108 | The whole parser computes the specification that the theorems are about. |
| `TilePaths.Digits` | nhvr-valhalla/scripts/list_tiles.py:73-78 | The number of decimal digits, and one more for a negative number. |
| `TilePaths.WithCommasIsInGroups` | nhvr-valhalla/scripts/list_tiles.py:81-100 | Formatting level * 10^n + id with thousands separators puts the level in front of the padded groups. |
| `TilePaths.GetFile` | nhvr-valhalla/scripts/list_tiles.py:81-100 | The script's arithmetic prints the same text as the C++ printer, for level 0 too. |
| `TilePaths.PrintBothWaysAndParse` | nhvr-valhalla/scripts/list_tiles.py:81-100 | Both printers agree on every tile of the script's levels, and the parser gives the tile back. |
| `Departures.SearchFindsFirst` | nhvr-valhalla/src/baldr/graphtile.cc:934-956 | In a sorted tile and on a line that is monotone at the current time, the search finds the first departure that can be taken. |
| `Departures.SearchIsRightIffMonotone` | nhvr-valhalla/src/baldr/graphtile.cc:934-956 | The condition is exact: a line's block, of any line id, is searched rightly wherever it stands among other lines if and only if it is monotone. |
| `Departures.SearchMissesFixed` | nhvr-valhalla/src/baldr/graphtile.cc:934-956 | A departure at 100 followed by one that repeats until 50, at time 80: the search misses the first. |
| `Departures.MonotoneAlwaysIffDeadlinesAscend` | nhvr-valhalla/src/baldr/transitdeparture.cc:147-161 | A block is monotone at every time exactly if its deadlines ascend. |
| `Departures.FixedLineIsMonotone` | nhvr-valhalla/src/baldr/transitdeparture.cc:147-161 | A line of fixed departures sorted by the operator is monotone at every time. |
| `Departures.RunFromIsFirst` | nhvr-valhalla/src/baldr/graphtile.cc:974-981 | The loop over repetitions stops at the first run that is not over, or behind the end. |
| `Departures.NextRunIsFirst` | nhvr-valhalla/src/baldr/graphtile.cc:1037-1044 | The time it offers is in the window exactly if there is a run to take, and then it is the first. |
| `Departures.OfferBehindEnd` | nhvr-valhalla/src/baldr/graphtile.cc:968-981 | A departure that repeats until 50 and passes the search's test at 47 is offered at 70. |
| `Departures.FirstIsEarliest` | nhvr-valhalla/src/baldr/graphtile.cc:958-972 | On a fixed line the first departure that fits is the earliest. |
| `Departures.EligibleIffBoards` | nhvr-valhalla/valhalla/baldr/transitschedule.h:62-65 | A departure is eligible if it is of the line, is not over, has what the rider asks for, and runs on the day: by the day itself within the schedule, by the day of the week beyond it. |
| `Departures.FindDeparture` | nhvr-valhalla/src/baldr/graphtile.cc:934-956 | The search loop, also where the line is not monotone. |
| `Departures.GetNextDeparture` | nhvr-valhalla/src/baldr/graphtile.cc:922-994 | In a sorted tile with a monotone line: the first departure of the line that is not over, has what the rider asks for and runs on the day, and nothing exactly if there is none; on a fixed line it is the earliest. A time beyond 17 bits is an error. |
| `Departures.GetTransitDeparture` | nhvr-valhalla/src/baldr/graphtile.cc:997-1059 | The same for one trip, with the first run inside the window if it repeats. |
| `AccessRestrictions.GetAccessRestrictions` | nhvr-valhalla/src/baldr/graphtile.cc:1128-1167 | The span holds exactly the restrictions of the edge; it is empty at the end if there are none. |
| `NhvrNetworks.RecordingCollects` | nhvr-valhalla/run/nhvr-importer/import-nhvr.py:58-78 | One more segment keeps: exactly the networks that were said, each with the most restrictive status. |
| `NhvrNetworks.Take` | nhvr-valhalla/run/nhvr-importer/import-nhvr.py:58-78 | The loop body with its nested dictionaries and its two ways of overwriting. |
| `NhvrNetworks.ReadGpkgs` | nhvr-valhalla/run/nhvr-importer/import-nhvr.py:31-81 | Over all packages, skipping those that cannot be read: exactly what was said, with the maximum status. |
| `NhvrNetworks.CollectedIsUnique` | nhvr-valhalla/run/nhvr-importer/import-nhvr.py:31-81 | The result does not depend on the order of packages and segments, nor on repetitions. |
| `NhvrNetworks.SortedItems` | nhvr-valhalla/run/nhvr-importer/import-nhvr.py:97-102 | The networks once each, in ascending order of their names. |
| `NhvrNetworks.ParseNhvrNetworks` | nhvr-valhalla/src/baldr/edgeinfo.cc:558-584 | The getline loops and stoi, with their exceptions, compute the specification of the parser. |
| `NhvrNetworks.StoiReads` | nhvr-valhalla/src/baldr/edgeinfo.cc:576-579 | White space, a sign or none, digits, and whatever follows are read as the number, or are out of range if an int does not hold it. |
| `NhvrNetworks.StoiRefuses` | nhvr-valhalla/src/baldr/edgeinfo.cc:576-579 | Without a digit there is no number. |
| `NhvrNetworks.StatusWrapsAround` | nhvr-valhalla/src/baldr/edgeinfo.cc:576-579 | A status that is no byte is taken for its lowest byte: 258 closes the road. |
| `NhvrNetworks.RoundTripIffClean` | nhvr-valhalla/src/baldr/edgeinfo.cc:558-584 | Printing and parsing gives the networks back exactly if no name holds a separator. |
| `NhvrNetworks.SeparatorsAreTakenApart` | nhvr-valhalla/run/nhvr-importer/import-nhvr.py:97-102 | What a name with separators can become: two networks nobody wrote, one of them prohibited. |
| `NhvrNetworks.ImportThenDecode` | nhvr-valhalla/run/nhvr-importer/import-nhvr.py:31-102 | From any stream of segments: the decoded entries are the way's networks, by name, with the most restrictive status, if and only if those networks' names are clean. |
| `NhvrNetworks.DecodingIsUnique` | nhvr-valhalla/src/baldr/edgeinfo.cc:558-584 | There is one such list of entries. |
| `NhvrNetworks.IsProhibited` | nhvr-valhalla/src/sif/truckcost.cc:492-503 | Whether a requested network is prohibited on the edge. |
| `NhvrNetworks.ProhibitedIffRestricted` | nhvr-valhalla/src/sif/truckcost.cc:492-503 | A way is closed to a truck exactly if some segment restricts one of its networks there. |
| `NhvrNetworks.SaidMeansCode` | nhvr-valhalla/run/nhvr-importer/import-nhvr.py:24-28 | What the packages say, by their access codes: "Approved", "Approved with Conditions" and "Restricted" of a segment with a way and a network, and no other code. |
| `NhvrNetworks.RouteTruck` | nhvr-valhalla/run/nhvr-importer/import-nhvr.py:31-102 | From packages to the closed road: for a way whose networks have names without separators, a truck is refused if and only if a segment of the way has a requested network and the code "Restricted"; each network is decoded with the status of its most restrictive code. |
| `ConditionalDates.YearStep` | nhvr-valhalla/third_party/date/include/date/date.h:2977-2993 | The era formula counts 365 or 366 days from year to year, by the Gregorian rule. |
| `ConditionalDates.MonthStep` | nhvr-valhalla/third_party/date/include/date/date.h:2977-2993 | First days of consecutive months are the month's length apart. |
| `ConditionalDates.Compare` | nhvr-valhalla/third_party/date/include/date/date.h:2977-2993 | Dates of a year compare by month and day, except that a day beyond its month's end counts on into the next month. |
| `ConditionalDates.TestMeansIntervalIffDaysExist` | nhvr-valhalla/src/baldr/datetime.cc:807-930 | Over a year, the date test is membership in the cyclic interval of months and days exactly if the range's days exist in that year as far as it matters. |
| `ConditionalDates.OrdinaryDaysExist` | nhvr-valhalla/src/baldr/datetime.cc:807-930 | With days that every year has, the test is right in every year, also over New Year and from late to early in one month. |
| `ConditionalDates.WholeMonths` | nhvr-valhalla/src/baldr/datetime.cc:785-791 | A range of whole months is right in every year, leap or not, whichever way round. |
| `ConditionalDates.TimeTestIsWindowIffWithinDay` | nhvr-valhalla/src/baldr/datetime.cc:932-940 | The time test is membership in the window exactly for windows within a day; one over midnight leaves out its two end minutes, and one that begins and ends in the same hour is never open. |
| `ConditionalDates.IsConditionalActive` | nhvr-valhalla/src/baldr/datetime.cc:693-943 | The step by step evaluation for type kYMD; for a range without dates, of whole months, or of two dates that exist: active if and only if the mask is unset or has the bit of the day of the week, the date is in the range, and the minute is in the window. |
| `ConditionalDates.ActiveMeans` | nhvr-valhalla/src/baldr/datetime.cc:693-943 | What an active restriction means under those conditions. |
| `ConditionalDates.WeekdaysFollow` | nhvr-valhalla/src/baldr/datetime.cc:731-763 | The weekday of the day number after is the next one. |
| `ConditionalDates.NextDayIsNext` | nhvr-valhalla/third_party/date/include/date/date.h:2977-2993 | The formula counts every day once, over the ends of months and years. |
| `ConditionalDates.WeekdayIsCounted` | nhvr-valhalla/src/baldr/datetime.cc:731-763 | The day of the week is what counting from Thursday, January 1, 1970 gives, forward and backward, for every date there is. |
| `ConditionalDates.ActiveInFields` | nhvr-valhalla/src/baldr/datetime.cc:693-943 | What an active restriction means in terms of its fields: the bit of the day from Sunday as 1 to Saturday as 64, months or dates round the turn of the year, and a window in minutes, or none of these where they are not set. |
| `Migrations.CoveredStays` | db/compliance/migrate.py:22-36 | Recording merged names covers no file that was not covered or recorded itself. |
| `Migrations.Connection.EnsureTracking` | db/compliance/migrate.py:88-95 | Schema and tracking table in a transaction of their own, cut off at any statement. |
| `Migrations.Connection.FindApplied` | db/compliance/migrate.py:97-130 | What counts as applied, and its record, for a tracked database and for one of the older setup script. |
| `Migrations.Connection.Apply` | db/compliance/migrate.py:132-146 | A file and its record are committed together or not at all; the seed fails exactly if its rows are there or it fails for another reason. |
| `Migrations.Connection.Migrate` | db/compliance/migrate.py:69-148 | One run, cut off at any statement, ends in the database and with the outcome of the specification `RunResult`. |
| `Migrations.RunAll` | db/compliance/migrate.py:69-148 | Over any sequence of such runs, with resets: the database of the specification; from an empty one a script's effects are there exactly if its name is recorded, and then once; rows are never seeded twice. |
| `Migrations.RunKeeps` | db/compliance/migrate.py:69-148 | What every run keeps: effects stay tied to records, covered files stay unexecuted, a completed run has both files on record, a database of the setup script is adopted without executing, a dry run changes nothing. |
| `Migrations.UndisturbedRun` | db/compliance/migrate.py:69-148 | One undisturbed run, by the names of the files: which are executed, what is recorded, and what is in the database after it, for every database that can come up to date. |
| `Migrations.EmptyCutOff` | db/compliance/migrate.py:69-148 | A new or reset database, cut off after any number of statements. |
| `Migrations.TrackedCutOff` | db/compliance/migrate.py:90-146 | A database that tracks the four older names, or the two merged ones, cut off after any number of statements. |
| `Migrations.RowsAreSeededOnce` | db/compliance/migrate.py:23-36 | From any start, no run seeds rows that are there. |
| `Migrations.CanComeUpIffNotStuck` | db/compliance/migrate.py:97-146 | A database can come up to date without a reset if and only if it is not one with rows whose seed counts as not applied. |
| `Migrations.EmptyAlwaysComesUp` | db/compliance/migrate.py:69-148 | Any runs on an empty database, cut off anywhere, leave one that can come up to date. |
| `Migrations.PartlySeededIsStuck` | db/compliance/migrate.py:104-108 | Tracking only one of the two older seeds, with its rows, is such a case. |
| `Migrations.SetupComesUpIffNotCutBetween` | db/compliance/migrate.py:90-130 | A database of the older setup script can still come up to date after its first run if and only if that run was not cut off between its two transactions. |
| `Migrations.AdoptionCutOff` | db/compliance/migrate.py:90-146 | That case is reached: after four statements the next run creates the tables once more and fails on the seed, as all later ones will. |
| `Migrations.LegacyNeverExecutes` | db/compliance/migrate.py:22-36 | A database that tracks all four older names never executes a merged file. |

## Left out

- EdgeMerging.Merge: the tiles are given once each and are the whole graph the reader sees; the cache is not trimmed between tiles, which changes no tile.
- EdgeExport.Export: a line is its sequence of edges and its names; shapes, encoding, separators and the progress count are not modelled.
- ShortcutLookup.GetShortcut: edges are compared by id where the original compares pointers, which differ after a tile was evicted and loaded again.
- ShortcutContraction.Contracted: the builder's further tests that make it contract fewer nodes (turn restrictions, conditional access, countries, turn angles), and the shapes, speeds and durations of a shortcut, are left out; the builder finds opposing edges by their attributes, and here they are the ones the tiles name.
- EdgeExport.Export: that a tile is missed depends on the order of the main loop, so the condition behind which edge it can be goes one way; the other way is that without a miss every such edge was come by first.
- ShortcutRecovery.RecoverShortcut: the compared attributes are one record, and the statistics of the prefill are left out.
- IncidentWatcher.NoUpdateIsLost: directory scan mode only, as the program that writes the change log, and the order in which it writes log and files, are not part of the repository; a file that is moved in with an old modification time, and a clock that is set back, are outside of it; the directory iteration comes by every file that is there throughout the scan.
- IncidentWatcher.StepKeepsInv: locked sections and atomic stores are single steps.
- TileCaches.TileCacheLRU.Put: where the original writes through an evicted entry, or at the end of an empty list, the model stops with an error and an empty cache.
- TileCaches.FlatTileCache.Put: where the original writes past the table the model stops with an error. Slot numbers are unbounded here and 32 bit there.
- GraphTiles.GraphReader.GetGraphTile: the source of tiles is fixed while the reader lives; traffic tiles, the level limited reader and the global synchronized cache are left out.
- TilePaths.FileSuffix: the number of digits is exact, where the original rounds a floating point logarithm.
- TilePaths.ParsePath: characters are single units and the separator is `/`.
- TilePaths.GetFile: for tile numbers up to the tiling's last one; the script does not look.
- Departures.GetNextDeparture: a departure's route, block, headsign and elapsed time are carried along unchanged and not modelled.
- NhvrNetworks.ReadGpkgs: opening packages and layers is an optional sequence of segments.
- NhvrNetworks.ParseNhvrNetworks: the lookup of the tagged value in the edge information is left out.
- ConditionalDates.IsConditionalActive: type kYMD from local civil time on; the time zone database, daylight saving gaps at midnight, and ranges by the n-th weekday of a month are left out.
- Migrations.Connection.Migrate: a script either has all its effects or none, as the files hold no transaction statements; the seed's rows are there all together or not, and one of them is enough to fail it; connecting and waiting for the database are left out.
- HTTP, tar and file reading, decompression, protobuf, JSON and the web application: foreign calls.
- Vehicle classification, mass, licence and goods rules: finite threshold tests.
- Lane connectivity, turn lanes, signs and other look-ups: the same search as GetAccessRestrictions.
