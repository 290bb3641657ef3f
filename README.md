# Metro rail router — a Dafny model

This project models the routing core of a small rail-network router. The router finds a
transfer-minimising path between two stations of a metro system with a bounded
best-first search. It has five parts:

- **Graph build.** The line and station directories are fetched once, when empty.
  On each build, every station named in the distance response gets its distance to
  the destination overwritten. A station the response does not name keeps the
  distance it had: unset on the first build, the previous destination's afterwards.
  Each line's ordered station codes then link every station to the stations before
  and after it.
- **Costs.** `costToReachStation(a, b)` takes, over the lines both stations serve, the
  least sum of |Δdistance| between consecutive stations between them. The running
  minimum starts at 100. f(n) is that cost plus the candidate's own distance.
- **Direct-line check.** The check places the station on a line by the last of its
  codes found there. It then compares distances with the single neighbour at an end,
  or with the two neighbours at an interior position.
- **Frontier search.** A fringe list holds stations with an f(n) value and a parent
  link. The set of available lines grows as stations are selected. The loop stops
  after 80 iterations.
- **Path reconstruction.** Parent links are followed back from the returned
  transfer station until a station whose name contains the origin's name.

The supporting pieces are also modelled. `Station` has deduplicating `addLine` and
`addStation`, and `Line` is a plain record. The directory client's result-building is
taken over already-decoded responses: it folds station records into a many-to-one
code/name → Station map, and it builds the line map, the distance map and the ordered
station list.

Layout, one module per file:

- `common.dfy` (`Common`): the error kinds, `Result`, an insertion-ordered `Dict`, and
  Python's `list.index` and substring test.
- `metro_data.dfy` (`MetroData`): `Line` as a datatype. `Station` as a class whose
  `lineList`, `codeList`, `distance`, `fn` and `parent` fields are updated in place.
- `metro_interface.dfy` (`MetroInterface`): the record-folding methods over decoded
  responses.
- `build_spec.dfy` (`BuildSpec`): what the graph build computes, as functions, with
  lemmas about them.
- `rail_spec.dfy` (`RailSpec`): what cost, f(n), the direct-line check, the search and
  the parent walk compute, stated over a value snapshot (`View`) of the directories,
  with lemmas about them.
- `a_star_rail.dfy` (`AStarRail`): the router itself. `RailContext` is a class that
  holds the module-level `lineInfos`, `stationInfos` and `metroGraph`. Its methods
  run the source's loops and are proved equal to the `RailSpec`/`BuildSpec` functions
  over `CurrentView()`.

The source's exceptions become `Err` values of `Common.Error`:

- `KeyError` on a directory → `UnknownStationCode` / `UnknownLine`.
- `AssertionError` from the linking loop's membership assert (AStarRail.py:87), which only a
  line's first code can fail, → `UnknownStationCode`. A later code is looked up as the
  next station one pass earlier (AStarRail.py:93, 105), so it raises `KeyError` first.
- `ValueError` from `list.index` → `StationNotOnLine`.
- `TypeError` from arithmetic on an unset distance → `MissingDistance`.
- `IndexError` in the direct-line check → `IndexOutOfRange`.
- `min()` of an empty fringe → `EmptyFringe`.

The search's "iterations ran out" result (Python `None`) becomes `NoPath` in path
reconstruction. A station without a parent met by the walk becomes `MissingParent`.
It stands for the `AttributeError` Python raises there, since a station gets its
`parent` attribute only when the search scores it. A parent chain that
does not reach the origin within as many links as there are stations becomes
`ParentChainTooLong`.

Where the code departs from what its comments and documentation describe, the model follows the code:

- The cost of two stations that share no line is 100, the initial minimum. The code
  does not refuse such a call.
- The parent walk stops at the first station whose name *contains* the origin's name,
  not only at the origin itself.
- Python `min` breaks ties by taking the first minimal fringe entry.
- The "not in fringe" filter is evaluated against the fringe as it was before a line
  was scanned. A station listed twice on one line therefore joins the fringe twice
  (`RailSpec.RepeatedOnLineEntersTwice`). The fringe stays free of repeats only when
  no line lists a station twice (`RailSpec.SearchFringeDistinct`). A station that was
  selected and removed can also join the fringe again later with a new parent
  (`RailSpec.ExpandAllReadmits`).
- A station seen for the first time gets the neighbour list `[next, previous]` with no
  membership test. A line that lists one station on both sides of another therefore
  gives the middle station that neighbour twice (`BuildSpec.NewStationListRepeats`).
  Only lists that already exist are extended without repeats.

## Model

| member | source | states |
|---|---|---|
| `MetroData.AppendPresent` | MetroData.py:48-56 | the constructor's loop yields the leading entry followed by exactly the present optional entries, in order |
| `MetroData.NonEmpty` | MetroData.py:49-56 | keeps exactly the present (non-empty) entries, never more than were given |
| `MetroData.Station.constructor` | MetroData.py:45-58 | `lineList[0]` is `lineCode1` and `codeList[0]` is `code`; present optional line codes and alternate codes follow in order; distance is unset and there is no parent |
| `MetroData.AppendIfAbsent` | MetroData.py:66-72 | the entry is present afterwards; nothing is removed or reordered (the old list is a prefix); at most one entry is added |
| `MetroData.AppendIfAbsentDistinct` | MetroData.py:66-72 | a list without repeats keeps none |
| `MetroData.Station.AddStation` | MetroData.py:66-68 | `codeList` becomes `AppendIfAbsent` of the old list: code appended at the end iff absent, unchanged otherwise |
| `MetroData.Station.AddLine` | MetroData.py:70-72 | `lineList` becomes `AppendIfAbsent` of the old list: line appended at the end iff absent, unchanged otherwise |
| `MetroData.AppendIfAbsentIdempotent` | MetroData.py:66-72 | adding the same entry twice equals adding it once; adding a present entry changes nothing |
| `MetroData.AppendAll` | MetroInterface.py:67-72 | merging a sequence of entries keeps the old list as a prefix and contains exactly the old and the merged entries |
| `MetroData.AppendAllDistinct` | MetroInterface.py:67-72 | merging entries into a list without repeats adds none |
| `MetroData.AppendAllIdempotent` | MetroInterface.py:67-72 | merging the same record's entries a second time changes nothing |
| `MetroInterface.GetLineInfos` | MetroInterface.py:27-34 | the line map is keyed by line code, one `Line` per record; the last record with a code decides its `Line` |
| `MetroInterface.GetOrderedStationList` | MetroInterface.py:115-119 | one code per path entry, in response order exactly |
| `MetroInterface.GetDistancesToGoal` | MetroInterface.py:133-139 | the loop builds exactly the dictionary of one assignment per response entry, in order, followed by the destination's 0 |
| `MetroInterface.DistancesToGoalHold` | MetroInterface.py:133-139 | in that dictionary every source station maps to the miles of its last entry; the destination always maps to 0, overriding the response; no other keys |
| `MetroInterface.AddNewStation` | MetroInterface.py:55-63 | for a new name, the name, primary code and every present alternate code all map to one new Station built from the record; other keys are untouched |
| `MetroInterface.BindAlternates` | MetroInterface.py:61-63 | each present alternate code is bound to the station; no other key changes |
| `MetroInterface.MergeLines` | MetroInterface.py:67-69 | the record's present line codes are merged into `lineList` without duplicates |
| `MetroInterface.MergeCode` | MetroInterface.py:70-74 | one present code is added to `codeList` if absent and bound to the station only when it is not a key yet |
| `MetroInterface.MergeCodes` | MetroInterface.py:70-74 | the record's present codes are merged into `codeList`; a code that is new as a key is bound to the station; an existing key is never re-pointed |
| `MetroInterface.MergeIntoStation` | MetroInterface.py:64-74 | for a repeated name, lines and codes are merged into that Station, whose other fields are unchanged, and no existing key is re-pointed |
| `MetroInterface.FoldStationRecord` | MetroInterface.py:55-74 | one record is folded as a new station or merged into the named one; all other Stations are unchanged |
| `MetroInterface.GetStationInfos` | MetroInterface.py:44-75 | every record's name and present codes become keys; every Station is new and has no parent |
| `BuildSpec.LinkAt` | AStarRail.py:86-107 | one pass of the linking loop succeeds iff the codes at i and i+1 are in the directory; otherwise it fails with the missing code (the `AssertionError` or `KeyError` of that pass) |
| `BuildSpec.LinkAtLinks` | AStarRail.py:86-107 | one pass only extends neighbour lists, and links position i to positions i-1 and i+1 where they exist |
| `BuildSpec.LinkAtKeepsDistinct` | AStarRail.py:97-107 | a neighbour list without repeats keeps none, because a known station only gets absent neighbours appended |
| `BuildSpec.LinkFrom` | AStarRail.py:86-107 | the loop from position i fails only with a code absent from the directory |
| `BuildSpec.LinkLine` | AStarRail.py:86-107 | linking a line fails only with a code absent from the directory |
| `BuildSpec.LinkFromOk` | AStarRail.py:86-88 | the loop from position i succeeds iff every code from i on is in the directory |
| `BuildSpec.LinkFromGrows` | AStarRail.py:86-107 | the loop from position i only extends existing neighbour lists |
| `BuildSpec.LinkFromLinks` | AStarRail.py:86-107 | after the loop from i, every position j ≥ i has its predecessor and successor among its station's neighbours |
| `BuildSpec.LinkLineLinks` | AStarRail.py:86-107 | a line links iff all its codes are in the directory (fail fast otherwise); the result extends the old graph and links every position both ways |
| `BuildSpec.LinkAtOnlyNeighbours` | AStarRail.py:86-107 | one pass adds keys only for stations on the line, and appends to a station's list only a station next to it on the line |
| `BuildSpec.LinkFromOnlyNeighbours` | AStarRail.py:86-107 | the loop from position i adds keys only for stations on the line, and appends only line neighbours |
| `BuildSpec.LinkLineOnlyNeighbours` | AStarRail.py:86-107 | linking a line adds keys only for its stations and appends to each list only stations next to it on the line; every other key and entry was there before |
| `BuildSpec.NewStationListRepeats` | AStarRail.py:89-93 | codes a, b, c leading to X, Y, X give Y the new list `[X, X]`: a new station's list is built without a membership test |
| `BuildSpec.LinkedGrows` | AStarRail.py:78-107 | links made for an earlier line survive the linking of later lines |
| `BuildSpec.AssignedDistanceLastWins` | AStarRail.py:68-71 | when several keys lead to one Station, the last key written decides its distance |
| `BuildSpec.AssignedDistanceUntouched` | AStarRail.py:68-71 | a Station that no key of the distance map leads to keeps its old distance |
| `Common.IndexOf` | AStarRail.py:137-138 | `list.index`: the position of the first occurrence (also at line 201) |
| `Common.Contains` | AStarRail.py:326 | Python's `in` on strings: true iff the needle occurs at some offset of the haystack |
| `RailSpec.Resolve` | AStarRail.py:135 | mapping codes to Stations succeeds iff every code is in the directory, and then maps position by position; otherwise it fails with a missing code |
| `RailSpec.DistinctMembers` | AStarRail.py:128 | set intersection (and, at line 273, set difference): exactly the entries of the first list that are (or are not) in the second, each once |
| `RailSpec.SpanCost` | AStarRail.py:146-150 | the sum of the absolute distance differences over an index range is non-negative, and it fails only on an unset distance |
| `RailSpec.SpanCostDefined` | AStarRail.py:149-150 | the sum over a range is defined iff every station in the range has a distance |
| `RailSpec.LineCost` | AStarRail.py:132-150 | one line's cost is non-negative and needs the line in the directory |
| `RailSpec.LineCostSymmetric` | AStarRail.py:137-144 | swapping the two stations swaps the index range back, giving the same cost or error |
| `RailSpec.MinCost` | AStarRail.py:124-153 | the running minimum lies between 0 and 100 |
| `RailSpec.MinCostIsMinimum` | AStarRail.py:124-155 | the running minimum is defined iff every line's cost is; it is at most every line's cost, and is 100 or some line's cost |
| `RailSpec.CostOf` | AStarRail.py:113-155 | `costToReachStation` is at least 0 and at most 100 |
| `RailSpec.CostIsLeastShared` | AStarRail.py:124-155 | the cost is the least cost over the shared lines, or 100 when none is less; it is defined iff every shared line's cost is |
| `RailSpec.CostSymmetric` | AStarRail.py:124-155 | `costToReachStation(a, b) == costToReachStation(b, a)`, including which of the two fails |
| `RailSpec.FnIsCostPlusDistance` | AStarRail.py:173 | f(b) = g(a, b) + distance(b), defined iff both are, and between distance(b) and distance(b) + 100 |
| `RailSpec.QueryIndex` | AStarRail.py:195-203 | the index is -1 iff none of the station's codes is on the line; otherwise it is a position holding one of its codes |
| `RailSpec.QueryIndexLastMatch` | AStarRail.py:199-201 | when several codes match, the last matching code's first position is used |
| `RailSpec.Compare` | AStarRail.py:207-213 | a position past the end raises IndexError, an unknown code raises; otherwise the comparison is defined iff both distances are set, and is `>=` (or `>` when strict) on them |
| `RailSpec.DirectVerdictOffLine` | AStarRail.py:202-203 | a station with no code on the line is answered false |
| `RailSpec.DirectVerdictOneStationLine` | AStarRail.py:207-208 | on a one-station line, the lookup past the end raises |
| `RailSpec.DirectVerdictAtEnd` | AStarRail.py:207-210 | at index 0 or at the last index the answer is `s.distance >= neighbour.distance` |
| `RailSpec.DirectVerdictInterior` | AStarRail.py:211-213 | at an interior index the answer is true iff `s.distance` is strictly greater than either neighbour's |
| `RailSpec.DirectVerdictTrue` | AStarRail.py:194-213 | a true answer means one of the station's codes is on the line next to a station no farther from the goal |
| `RailSpec.OnLine` | AStarRail.py:260 | true iff some destination code is in the line's station list; an empty code list answers false without looking the line up; otherwise an unknown line raises |
| `RailSpec.ReachTrue` | AStarRail.py:259-266 | the current station is returned only when some available line has a destination code on it and passes the direct-line check |
| `RailSpec.ReachFalse` | AStarRail.py:259-264 | a negative answer means every available line was examined and each one with the destination on it failed the check |
| `RailSpec.Candidates` | AStarRail.py:243-244 | a station joins the fringe iff it is on the line, not yet in the fringe, and neither the origin nor the destination |
| `RailSpec.Expansion` | AStarRail.py:284-285 | succeeds iff the line and all its codes are known; the result is the line's stations filtered in order, and a station of the line is in it iff it is new to the fringe and neither the origin nor the destination |
| `RailSpec.Assign` | AStarRail.py:290-293 | scoring the new stations leaves the fringe list itself as it was |
| `RailSpec.AssignResult` | AStarRail.py:249-251 | scoring succeeds iff f is defined for each station; each then holds cost + f and has the expanding station as parent; nothing else changes |
| `RailSpec.InitialFringe` | AStarRail.py:239-244 | the initial fringe extends in order, holds only directory stations, and never the origin or the destination |
| `RailSpec.InitialFringeComplete` | AStarRail.py:239-244 | the initial fringe is built iff every line and code is known, and then holds every station of every origin line other than the two endpoints |
| `RailSpec.ExpandAll` | AStarRail.py:280-294 | expanding by the new lines only appends to the fringe and scores every station it adds |
| `RailSpec.ExpandAllKeepsEndpointsOut` | AStarRail.py:284-285 | expansion never adds the origin or the destination |
| `RailSpec.ExpandAllKeepsFringe` | AStarRail.py:284-294 | a station already in the fringe is not added again, so its f(n) and parent are kept |
| `RailSpec.ExpandAllComplete` | AStarRail.py:280-294 | a successful expansion had every new line resolvable, and its fringe holds every station of every new line other than the two endpoints |
| `RailSpec.ExpandAllReadmits` | AStarRail.py:280-294 | a station of a new line that is not in the fringe (for example, one selected and removed earlier) joins it again with the expanding station as its new parent and a new f(n) |
| `RailSpec.ExpandAllScores` | AStarRail.py:290-293 | each added station gets `fn = costSoFar + calculateFn(selected, station)` and the selected station as parent |
| `RailSpec.FirstMin` | AStarRail.py:269 | the selected index has the least f(n) in the fringe, and no earlier entry ties with it (Python `min`) |
| `RailSpec.Selected` | AStarRail.py:269 | the selected station is in the fringe and has the minimum f(n) |
| `RailSpec.NewLines` | AStarRail.py:273 | set difference: exactly the selected station's lines that are not yet available, each once |
| `RailSpec.RemoveFirst` | AStarRail.py:298 | `fringe.remove` drops the first occurrence: one entry fewer, entries before it unchanged, entries after it shifted down by one |
| `RailSpec.RemoveFirstRemovesOne` | AStarRail.py:298 | `fringe.remove` takes out exactly one occurrence and keeps everything else |
| `RailSpec.Advance` | AStarRail.py:269-298 | an iteration that moves on leaves a fully scored fringe |
| `RailSpec.Step` | AStarRail.py:258-299 | one iteration either returns the current station or moves on with a fully scored fringe |
| `RailSpec.StepMovesWhenNotDirect` | AStarRail.py:258-269 | an iteration moves on only when no available line is taken directly and the fringe is not empty |
| `RailSpec.AdvanceSelects` | AStarRail.py:269-297 | the new current station has the minimum f(n); the available lines grow by exactly its lines and never shrink |
| `RailSpec.AdvanceScores` | AStarRail.py:277-293 | cost so far is the selected station's `fn - distance`, and every newly added station is scored from it with the selected station as parent |
| `RailSpec.AdvanceKeepsEndpointsOut` | AStarRail.py:284-298 | an iteration keeps the origin and the destination out of the fringe |
| `RailSpec.StepMovedKeeps` | AStarRail.py:255-299 | an iteration keeps the available lines, keeps the endpoints out of the fringe, and adds no repeats when no line lists a station twice |
| `RailSpec.Run` | AStarRail.py:255-299 | over the bounded loop, the available lines only grow, the endpoints never enter the fringe, and the fringe gains no repeats; a returned station is the current one and some available line takes it directly to the destination |
| `RailSpec.RunMoved` | AStarRail.py:255-299 | an iteration that moves on leaves the rest of the bounded loop to the next search state |
| `RailSpec.InitialSearch` | AStarRail.py:235-251 | the origin is current, its lines are available, and every initial fringe station holds `0 + calculateFn(origin, station)` with the origin as parent |
| `RailSpec.SearchFrom` | AStarRail.py:228-299 | the origin's lines stay available, the endpoints never enter the fringe, and a returned station is directly reachable on an available line |
| `RailSpec.CandidatesDistinct` | AStarRail.py:284-285 | a line without repeated stations adds no repeats |
| `RailSpec.ExpansionKeepsDistinct` | AStarRail.py:284-294 | appending one line's new stations keeps the fringe free of repeats |
| `RailSpec.InitialFringeDistinct` | AStarRail.py:239-244 | the initial fringe holds each station at most once |
| `RailSpec.ExpandAllDistinct` | AStarRail.py:280-294 | expansion by all new lines keeps the fringe free of repeats |
| `RailSpec.RemoveFirstDistinct` | AStarRail.py:298 | removing a station from a fringe without repeats takes it out altogether |
| `RailSpec.AdvanceKeepsDistinct` | AStarRail.py:269-298 | after an iteration the selected station is no longer in the fringe, and the fringe has no repeats |
| `RailSpec.SearchFringeDistinct` | AStarRail.py:235-299 | when no line lists a station twice, the fringe never holds a station twice during the whole search |
| `RailSpec.RepeatedOnLineEntersTwice` | AStarRail.py:284-285 | the filter checks the fringe as it was before the line, so a station listed twice on one line is added twice |
| `RailSpec.DirectFromOrigin` | AStarRail.py:255-266 | when one of the origin's lines already passes the direct check, the origin is returned before any expansion |
| `RailSpec.NoSharedLineNotDirect` | AStarRail.py:259-264 | when no available line has a destination code, the direct check reports false |
| `RailSpec.OriginNotReturnedWithoutSharedLine` | AStarRail.py:255-266 | an origin that shares no line with the destination is not returned by the first iteration |
| `RailSpec.RunOutOfSteps` | AStarRail.py:255 | with no iterations left the search ends without a station (the no-path outcome) |
| `RailSpec.Walk` | AStarRail.py:326-328 | the walk fails only on a missing parent or when its fuel runs out |
| `RailSpec.Reverse` | AStarRail.py:330 | reversing maps position i to position n-1-i |
| `RailSpec.ReverseAround` | AStarRail.py:325-330 | reversing [destination] + pushed + [origin] puts the origin first and the destination last |
| `RailSpec.PathOf` | AStarRail.py:321-330 | there is no path exactly when the search returned no station |
| `RailSpec.PathEnds` | AStarRail.py:325-330 | a reconstructed path starts with the origin's name and ends with the destination's name |
| `RailSpec.Ancestor` | AStarRail.py:326-328 | an ancestor reached by parent links is itself a station of the parent map |
| `RailSpec.WalkFollowsParents` | AStarRail.py:326-328 | the walked names are the names along the parent chain, in order, up to the first whose name contains the origin's name |
| `RailSpec.StopAtContainingName` | AStarRail.py:326 | the substring test stops the walk at a station whose name contains the origin's name, even when that station is not the origin |
| `RailSpec.SubstringStopSkipsStation` | AStarRail.py:326 | for example, from "Pentagon" through "Pentagon City" to "Rosslyn", the path printed is Pentagon, Rosslyn, destination |
| `AStarRail.RailContext.constructor` | AStarRail.py:14-19 | the directories and the graph start empty |
| `AStarRail.RailContext.SpanOf` | AStarRail.py:146-150 | the `dist` accumulation loop computes `SpanCost` |
| `AStarRail.RailContext.LineCostOf` | AStarRail.py:132-150 | one shared line's cost, with endpoints swapped when reversed, is `LineCost` |
| `AStarRail.RailContext.MinOverLines` | AStarRail.py:124-153 | the running minimum over the shared lines, starting from 100, computes `MinCost` |
| `AStarRail.RailContext.CostToReachStation` | AStarRail.py:113-155 | the running-minimum loop computes `CostOf`, the least shared-line cost capped at 100 |
| `AStarRail.RailContext.CalculateFn` | AStarRail.py:157-178 | returns g + h, that is `FnOf` |
| `AStarRail.RailContext.CompareNeighbour` | AStarRail.py:207-213 | one comparison with a neighbour, including its index, key and unset-distance errors |
| `AStarRail.RailContext.CheckShouldTakeDirectLine` | AStarRail.py:180-213 | the code-scanning loop and the comparisons compute `DirectVerdict` |
| `AStarRail.RailContext.DirectlyReachable` | AStarRail.py:259-266 | the scan over the available lines computes `Reach` |
| `AStarRail.RailContext.ExpansionOf` | AStarRail.py:284-285 | the list comprehension computes `Expansion` |
| `AStarRail.RailContext.InitialFringeOf` | AStarRail.py:235-244 | the initial fringe loop computes `InitialFringe` over the origin's lines |
| `AStarRail.RailContext.SelectClosest` | AStarRail.py:269 | the selection loop finds the first station of least f(n) |
| `AStarRail.RailContext.SetScore` | AStarRail.py:291-293 | writes one station's `fn` and `parent`; the heap then agrees with the frontier extended by them |
| `AStarRail.RailContext.AssignAt` | AStarRail.py:290-293 | one scoring pass matches one step of `Assign` and changes no other station's `fn` or `parent` |
| `AStarRail.RailContext.AssignCosts` | AStarRail.py:249-251 | the scoring loop computes `Assign` and changes no other station's `fn` or `parent` |
| `AStarRail.RailContext.ExpandAt` | AStarRail.py:284-294 | one new line's expansion matches one step of `ExpandAll` |
| `AStarRail.RailContext.ExpandLines` | AStarRail.py:280-294 | the loop over the new lines computes `ExpandAll` |
| `AStarRail.RailContext.AdvanceSearch` | AStarRail.py:269-298 | selection, line growth, cost so far, expansion and removal compute `Advance` |
| `AStarRail.RailContext.SearchStep` | AStarRail.py:258-299 | one loop iteration computes `Step` |
| `AStarRail.RailContext.RunLoop` | AStarRail.py:255-299 | the bounded loop computes `Run` |
| `AStarRail.RailContext.RunSearch` | AStarRail.py:235-299 | initial fringe, scoring and the 80-iteration loop compute `SearchFrom` |
| `BuildSpec.LinkFromFirstMissing` | AStarRail.py:86-107 | the linking loop from position i, with every earlier code known, stops on the first code missing from the directory |
| `BuildSpec.LinkLineFirstMissing` | AStarRail.py:86-107 | a line that does not link stops on its first code missing from the directory: the `AssertionError` (first code) or `KeyError` (a later code) the loop raises |
| `BuildSpec.StoppedOnLine` | AStarRail.py:78-107 | when a line stops after every earlier line was built, the per-line loop stops with that line's first missing code |
| `AStarRail.RailContext.LinkLineOf` | AStarRail.py:86-107 | the linking loop over one line computes `LinkLine`, aborting on the first code missing from the directory |
| `AStarRail.RailContext.ApplyDistances` | AStarRail.py:69-71 | succeeds iff every key is in the directory; each Station then holds the distance of the last key that leads to it; a failure names the first missing key in dictionary order |
| `AStarRail.RailContext.BuildLine` | AStarRail.py:78-107 | one line gets the codes of its path response in order, only its stations list changes, and its stations are linked in the grown graph; a failure names the line's first code missing from the directory |
| `BuildSpec.EarlierLinesStayBuilt` | AStarRail.py:78-107 | rebuilding one line and growing the graph keeps every line handled before it ordered and linked, so the lines handled so far, this one included, are built |
| `AStarRail.RailContext.BuildLines` | AStarRail.py:78-107 | every line gets its ordered list from the path response, and afterwards every line's stations are linked both ways in the grown graph; a failure names the first missing code of the first line, in key order, that has one |
| `AStarRail.RailContext.FetchDirectories` | AStarRail.py:45-55 | the line and station directories are fetched only when empty, and are kept otherwise; an empty line directory becomes exactly the map of the line response, and fresh Stations have no distance |
| `AStarRail.RailContext.WriteDistances` | AStarRail.py:67-71 | on every build, each Station named in the distance map gets its distance overwritten; a Station no key leads to keeps its old distance; a failure names the first key, in response order, missing from the directory |
| `AStarRail.RailContext.BuildMetroGraph` | AStarRail.py:33-111 | fetch-when-empty; each line is the fetched one with only its station list replaced; distances overwritten, and the stations not named keep theirs (none on the first build); every line linked; a failure names the first missing distance key or, when there is none, the first missing code of the first failing line (`BuildStoppedAt`) |
| `AStarRail.RailContext.SearchBetween` | AStarRail.py:228-232 | unknown origin or destination codes raise; otherwise the search is `SearchFrom` |
| `AStarRail.RailContext.FindShortestPath` | AStarRail.py:215-299 | build then search: a build error (the one `BuildStoppedAt` names) or unknown codes raise; otherwise the result is `SearchFrom`, with every line linked in the graph |
| `AStarRail.RailContext.ReconstructPath` | AStarRail.py:325-330 | the parent-walk loop, bounded by the number of stations, computes `PathOf` |

## Left out

- HTTP requests, JSON decoding, URLs and API keys. Each directory response is an input
  sequence of decoded records (`MetroInterface.Provider`), and an absent optional field
  (JSON null or empty string) is written `""`.
- `getLineAvgSpeed` and the `mph` assignment. They are float division, used only for
  display.
- The one-second rate-limit sleep, argument parsing, the prompting loop with its default
  station codes, `exit`, and all printing, including the debug output.
- Floating point: distances are `real`, so rounding in the sums and differences is not
  modelled.
- Set iteration order: the shared lines and the new lines are visited in the station's
  `lineList` order. Python's set order is unspecified. The minimum cost does not depend
  on it, but which error is raised first when several lines fail can. The order of the
  new lines (AStarRail.py:280-294) also decides the order in which their stations join
  the fringe. Through `min`'s choice of the first minimal entry (AStarRail.py:269), that
  order can decide which of several equally scored stations is selected. It can
  therefore change the returned transfer station and the printed path; the model
  fixes one order.
- Partial state after an abort: when a build or scoring loop raises halfway, the model
  does not state what earlier passes wrote to the graph or to the stations.
- `MetroInterface.GetStationInfos`: states only that every record's name and present
  codes become keys of new Stations. The exact binding of each record is stated one
  record at a time by `MetroInterface.FoldStationRecord`.
- `AStarRail.RailContext.BuildMetroGraph`: states the Station distances only for keys
  that are the last one written for their Station, not for earlier aliases of it.
- `AStarRail.RailContext.ReconstructPath`: a parent chain longer than the number of
  stations is reported as `ParentChainTooLong`. Python would loop forever on a cycle.
