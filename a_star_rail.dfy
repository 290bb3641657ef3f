/** The router: the line and station directories and the adjacency graph it keeps
    between queries, the cost and f(n) computations, the direct-line check, the bounded
    best-first search and the parent walk that yields the path. Every method is proved
    to compute what RailSpec and BuildSpec define over a snapshot of the directories. */
module AStarRail {
  import opened Common
  import opened MetroData
  import opened MetroInterface
  import opened RailSpec
  import opened BuildSpec

  class RailContext {
    /** Line code to Line, in the order the directory listed them. */
    var lineInfos: Dict<Line>
    /** Station name and every station code to its Station. */
    var stationInfos: map<string, Station>
    /** Station name to its neighbouring stations. */
    var metroGraph: Graph

    /** The line directory is a well-formed dictionary and every parent link leads to a
        station of the directory. */
    ghost predicate Valid()
      reads this, stationInfos.Values`parent
    {
      && lineInfos.Wf()
      && forall s :: s in stationInfos.Values ==> s.parent == null || s.parent in stationInfos.Values
    }

    /** What the router reads: the line directory's station lists, the station
        directory and each station's lines, codes and distance. */
    ghost function CurrentView(): (v: View)
      reads this, stationInfos.Values`lineList, stationInfos.Values`codeList, stationInfos.Values`distance
      ensures v.Wf() && v.infos == stationInfos
      ensures forall l :: l in v.lines <==> l in lineInfos.values
    {
      View(map l | l in lineInfos.values :: lineInfos.values[l].stations,
           stationInfos,
           map s | s in stationInfos.Values :: StationView(s.lineList, s.codeList, s.distance))
    }

    /** Each station's parent link. */
    ghost function Parents(): (up: map<Station, Station?>)
      reads this, stationInfos.Values`parent
      ensures Valid() ==> Closed(up)
    {
      map s | s in stationInfos.Values :: s.parent
    }

    /** The heap agrees with a search frontier: the stations it scored are stations of
        the directory and hold its f(n) values and parents. */
    ghost predicate Tracks(f: Frontier)
      reads this, stationInfos.Values`fn, stationInfos.Values`parent
    {
      && (forall s :: s in f.fn ==> s in stationInfos.Values)
      && (forall s :: s in f.parent ==> s in stationInfos.Values)
      && (forall s :: s in stationInfos.Values && s in f.fn ==> s.fn == f.fn[s])
      && (forall s :: s in stationInfos.Values && s in f.parent ==> s.parent == f.parent[s])
    }

    /** The state before the first query: nothing fetched, no graph. */
    constructor ()
      ensures lineInfos == EmptyDict() && stationInfos == map[] && metroGraph == map[]
      ensures Valid()
    {
      lineInfos := EmptyDict();
      stationInfos := map[];
      metroGraph := map[];
    }

    // ------------------------------------------------------------ cost g(n)

    /** The sum of distance differences between consecutive stations from position lo
        to position hi of a line. */
    method SpanOf(ghost v: View, stationList: seq<Station>, lo: nat, hi: nat) returns (r: Result<real>)
      requires v == CurrentView()
      requires lo <= hi < |stationList|
      requires forall k :: 0 <= k < |stationList| ==> stationList[k] in stationInfos.Values
      ensures r == SpanCost(v, stationList, lo, hi)
    {
      var dist := 0.0;
      for i := lo to hi
        invariant SpanCost(v, stationList, lo, i) == Ok(dist)
      {
        var x, y := stationList[i].distance, stationList[i + 1].distance;
        assert x == v.Distance(stationList[i]) && y == v.Distance(stationList[i + 1]);
        if x.None? || y.None? {
          SpanCostDefined(v, stationList, lo, hi);
          return Err(MissingDistance);
        }
        dist := dist + Abs(x.value - y.value);
      }
      return Ok(dist);
    }

    /** The cost of riding one line between two stations: the span between their first
        positions on it. */
    method LineCostOf(ghost v: View, line: string, a: Station, b: Station) returns (r: Result<real>)
      requires v == CurrentView()
      ensures r == LineCost(v, line, a, b)
    {
      if line !in lineInfos.values {
        return Err(UnknownLine(line));
      }
      assert v.lines[line] == lineInfos.values[line].stations;
      var resolved := Resolve(stationInfos, lineInfos.values[line].stations);
      if resolved.Err? {
        return Err(resolved.error);
      }
      var stationList := resolved.value;
      if a !in stationList || b !in stationList {
        return Err(StationNotOnLine(line));
      }
      var startIndex, endIndex := IndexOf(stationList, a), IndexOf(stationList, b);
      if startIndex > endIndex {
        startIndex, endIndex := endIndex, startIndex;
      }
      r := SpanOf(v, stationList, startIndex, endIndex);
    }

    /** The running minimum over the shared lines, starting at NoLineCost; the first line
        whose cost raises ends it. */
    method MinOverLines(ghost v: View, sharedLines: seq<string>, a: Station, b: Station) returns (r: Result<real>)
      requires v == CurrentView()
      ensures r == MinCost(v, sharedLines, a, b)
    {
      var minDist := NoLineCost;
      for i := 0 to |sharedLines|
        invariant MinCost(v, sharedLines[..i], a, b) == Ok(minDist)
      {
        var dist := LineCostOf(v, sharedLines[i], a, b);
        if dist.Err? {
          assert sharedLines[..i + 1][..i] == sharedLines[..i];
          MinCostErrPrefix(v, sharedLines, a, b, i + 1);
          return Err(dist.error);
        }
        MinCostSnoc(v, sharedLines, a, b, i, minDist, dist.value);
        if dist.value < minDist {
          minDist := dist.value;
        }
      }
      assert sharedLines[..|sharedLines|] == sharedLines;
      return Ok(minDist);
    }

    /** costToReachStation: the running minimum over the lines both stations serve. */
    method CostToReachStation(a: Station, b: Station) returns (r: Result<real>)
      requires a in stationInfos.Values && b in stationInfos.Values
      ensures r == CostOf(CurrentView(), a, b)
    {
      ghost var v := CurrentView();
      assert v.Lines(a) == a.lineList && v.Lines(b) == b.lineList;
      var sharedLines := DistinctMembers(a.lineList, b.lineList, true);
      r := MinOverLines(v, sharedLines, a, b);
    }

    /** calculateFn: g(b) from `a` plus b's distance to the goal. */
    method CalculateFn(a: Station, b: Station) returns (r: Result<real>)
      requires a in stationInfos.Values && b in stationInfos.Values
      ensures r == FnOf(CurrentView(), a, b)
    {
      var g := CostToReachStation(a, b);
      if g.Err? {
        return Err(g.error);
      }
      if b.distance.None? {
        return Err(MissingDistance);
      }
      return Ok(g.value + b.distance.value);
    }

    // ------------------------------------------------------------ direct-line check

    /** Compares q's distance with that of the station at position n of a line. */
    method CompareNeighbour(q: Station, list: seq<string>, n: nat, strict: bool) returns (r: Result<bool>)
      requires q in stationInfos.Values
      ensures r == Compare(CurrentView(), q, list, n, strict)
    {
      if n >= |list| {
        return Err(IndexOutOfRange);
      }
      if list[n] !in stationInfos {
        return Err(UnknownStationCode(list[n]));
      }
      var neighbour := stationInfos[list[n]];
      if q.distance.None? || neighbour.distance.None? {
        return Err(MissingDistance);
      }
      if strict {
        return Ok(q.distance.value > neighbour.distance.value);
      }
      return Ok(q.distance.value >= neighbour.distance.value);
    }

    /** checkShouldTakeDirectLine: position q on the line by the last of its codes that is
        on it, then compare with the neighbour at an end, or with both neighbours. */
    method CheckShouldTakeDirectLine(q: Station, lineCode: string) returns (r: Result<bool>)
      requires q in stationInfos.Values
      ensures r == DirectVerdict(CurrentView(), q, lineCode)
    {
      if lineCode !in lineInfos.values {
        return Err(UnknownLine(lineCode));
      }
      var stationList := lineInfos.values[lineCode].stations;
      var queryIndex: int := -1;
      for i := 0 to |q.codeList|
        invariant queryIndex == QueryIndex(q.codeList[..i], stationList)
      {
        assert q.codeList[..i + 1][..i] == q.codeList[..i];
        if q.codeList[i] in stationList {
          queryIndex := IndexOf(stationList, q.codeList[i]);
        }
      }
      assert q.codeList[..|q.codeList|] == q.codeList;
      if queryIndex == -1 {
        return Ok(false);
      }
      if queryIndex == 0 {
        r := CompareNeighbour(q, stationList, 1, false);
        return;
      }
      if queryIndex == |stationList| - 1 {
        r := CompareNeighbour(q, stationList, queryIndex - 1, false);
        return;
      }
      var left := CompareNeighbour(q, stationList, queryIndex - 1, true);
      if left.Err? || left.value {
        return left;
      }
      r := CompareNeighbour(q, stationList, queryIndex + 1, true);
    }

    /** Whether one of the available lines, in order, has a destination code on it and
        passes the direct-line check from `current`. */
    method DirectlyReachable(current: Station, dest: Station, available: seq<string>) returns (r: Result<bool>)
      requires current in stationInfos.Values && dest in stationInfos.Values
      ensures r == Reach(CurrentView(), current, dest, available)
    {
      ghost var v := CurrentView();
      for i := 0 to |available|
        invariant Reach(v, current, dest, available) == Reach(v, current, dest, available[i..])
      {
        assert available[i..][1..] == available[i + 1..];
        var line := available[i];
        var onLine := false;
        if |dest.codeList| > 0 {
          if line !in lineInfos.values {
            return Err(UnknownLine(line));
          }
          onLine := exists c :: c in dest.codeList && c in lineInfos.values[line].stations;
        }
        assert OnLine(v, line, v.Codes(dest)) == Ok(onLine);
        if onLine {
          var take := CheckShouldTakeDirectLine(current, line);
          if take.Err? || take.value {
            return take;
          }
        }
      }
      return Ok(false);
    }

    // ------------------------------------------------------------ search

    /** The stations of a line that may join the fringe, as the list comprehension
        selects them. */
    method ExpansionOf(line: string, fringe: seq<Station>, start: Station, dest: Station) returns (r: Result<seq<Station>>)
      ensures r == Expansion(CurrentView(), line, fringe, start, dest)
    {
      if line !in lineInfos.values {
        return Err(UnknownLine(line));
      }
      var stations := Resolve(stationInfos, lineInfos.values[line].stations);
      if stations.Err? {
        return Err(stations.error);
      }
      return Ok(Candidates(stations.value, fringe, start, dest));
    }

    /** The initial fringe: the expansions by each of the origin's lines in turn. */
    method InitialFringeOf(start: Station, dest: Station) returns (r: Result<seq<Station>>)
      requires start in stationInfos.Values
      ensures r == InitialFringe(CurrentView(), CurrentView().Lines(start), start, dest, [])
    {
      ghost var v := CurrentView();
      var availableLines := start.lineList;
      assert availableLines == v.Lines(start);
      var fringe := [];
      for i := 0 to |availableLines|
        invariant InitialFringe(v, availableLines, start, dest, []) ==
                  InitialFringe(v, availableLines[i..], start, dest, fringe)
      {
        assert availableLines[i..][1..] == availableLines[i + 1..];
        var nodes := ExpansionOf(availableLines[i], fringe, start, dest);
        if nodes.Err? {
          return Err(nodes.error);
        }
        fringe := fringe + nodes.value;
      }
      return Ok(fringe);
    }

    /** Python's min(fringe, key=fn): the first station of least f(n). */
    method SelectClosest(fringe: seq<Station>, ghost f: Frontier) returns (k: nat)
      requires fringe == f.fringe && fringe != [] && Scored(f) && Tracks(f)
      ensures k == FirstMin(fringe, f.fn)
    {
      k := 0;
      for i := 1 to |fringe|
        invariant k == FirstMin(fringe[..i], f.fn)
      {
        assert fringe[..i + 1][..i] == fringe[..i];
        assert fringe[i].fn == f.fn[fringe[i]] && fringe[k].fn == f.fn[fringe[k]];
        assert fringe[..i][k] == fringe[k];
        if fringe[i].fn < fringe[k].fn {
          k := i;
        }
      }
      assert fringe[..|fringe|] == fringe;
    }

    /** `station.fn = value; station.parent = from`: the heap then agrees with the
        frontier that records them. */
    method SetScore(x: Station, value: real, from: Station, ghost g: Frontier)
      requires Valid() && Tracks(g) && x in stationInfos.Values && from in stationInfos.Values
      modifies x`fn, x`parent
      ensures Valid() && Tracks(Frontier(g.fringe, g.fn[x := value], g.parent[x := from]))
      ensures x.fn == value && x.parent == from
    {
      x.fn := value;
      x.parent := from;
    }

    /** One pass of the assignment loop: score the station at position i. */
    method AssignAt(ghost v: View, nodes: seq<Station>, i: nat, x: Station, from: Station, cost: real, ghost g: Frontier)
      returns (out: Outcome, ghost next: Frontier)
      requires v == CurrentView()
      requires i < |nodes| && x == nodes[i] && Valid() && Tracks(g) && from in stationInfos.Values
      requires x in stationInfos.Values
      modifies x`fn, x`parent
      ensures Valid()
      ensures out.Pass? ==> Tracks(next)
      ensures out.Pass? ==> Assign(v, nodes[i..], from, cost, g) == Assign(v, nodes[i + 1..], from, cost, next)
      ensures out.Fail? ==> Assign(v, nodes[i..], from, cost, g) == Err(out.error)
      ensures out.Fail? ==> unchanged(x)
      ensures forall s :: s in stationInfos.Values && s != x ==> s.fn == old(s.fn) && s.parent == old(s.parent)
    {
      var fn := CalculateFn(from, nodes[i]);
      AssignStep(v, nodes, i, from, cost, g, fn);
      if fn.Err? {
        return Fail(fn.error), g;
      }
      var value := cost + fn.value;
      SetScore(x, value, from, g);
      next := Frontier(g.fringe, g.fn[x := value], g.parent[x := from]);
      out := Pass;
    }

    /** `station.fn = cost + calculateFn(from, station); station.parent = from` for each
        station in turn. Only the f(n) and parent fields of those stations change. */
    method AssignCosts(ghost v: View, nodes: seq<Station>, from: Station, cost: real, ghost f: Frontier)
      returns (out: Outcome, ghost g: Frontier)
      requires v == CurrentView()
      requires Valid() && Tracks(f) && from in stationInfos.Values
      requires forall x :: x in nodes ==> x in stationInfos.Values
      modifies stationInfos.Values`fn, stationInfos.Values`parent
      ensures Valid()
      ensures out.Pass? ==> Assign(v, nodes, from, cost, f) == Ok(g) && Tracks(g)
      ensures out.Fail? ==> Assign(v, nodes, from, cost, f) == Err(out.error)
      ensures forall s :: s in stationInfos.Values && s !in nodes ==> s.fn == old(s.fn) && s.parent == old(s.parent)
    {
      g := f;
      assert nodes[0..] == nodes;
      for i := 0 to |nodes|
        invariant Valid() && Tracks(g)
        invariant Assign(v, nodes, from, cost, f) == Assign(v, nodes[i..], from, cost, g)
        invariant forall s :: s in stationInfos.Values && s !in nodes ==> s.fn == old(s.fn) && s.parent == old(s.parent)
      {
        assert nodes[i] in nodes;
        out, g := AssignAt(v, nodes, i, nodes[i], from, cost, g);
        if out.Fail? {
          return;
        }
      }
      return Pass, g;
    }

    /** One pass of the expansion loop: the stations the line at position i adds, scored
        from `from` and appended to the fringe. */
    method ExpandAt(ghost v: View, lines: seq<string>, i: nat, from: Station, cost: real,
                    start: Station, dest: Station, fringe: seq<Station>, ghost g: Frontier)
      returns (r: Result<seq<Station>>, ghost next: Frontier)
      requires v == CurrentView() && i < |lines|
      requires Valid() && Tracks(g) && Scored(g) && g.fringe == fringe && from in stationInfos.Values
      modifies stationInfos.Values`fn, stationInfos.Values`parent
      ensures Valid()
      ensures r.Ok? ==> Tracks(next) && Scored(next) && next.fringe == r.value
      ensures r.Ok? ==> ExpandAll(v, lines[i..], from, cost, start, dest, g) ==
                        ExpandAll(v, lines[i + 1..], from, cost, start, dest, next)
      ensures r.Err? ==> ExpandAll(v, lines[i..], from, cost, start, dest, g) == Err(r.error)
    {
      assert lines[i..][1..] == lines[i + 1..] && lines[i..][0] == lines[i];
      ExpandAllFirst(v, lines[i..], from, cost, start, dest, g);
      var newNodes := ExpansionOf(lines[i], fringe, start, dest);
      if newNodes.Err? {
        return Err(newNodes.error), g;
      }
      var out, scored := AssignCosts(v, newNodes.value, from, cost, g);
      if out.Fail? {
        return Err(out.error), g;
      }
      next := Frontier(fringe + newNodes.value, scored.fn, scored.parent);
      r := Ok(fringe + newNodes.value);
    }

    /** Expands `from` by each of the new lines in turn. */
    method ExpandLines(ghost v: View, lines: seq<string>, from: Station, cost: real,
                       start: Station, dest: Station, fringe: seq<Station>, ghost f: Frontier)
      returns (r: Result<seq<Station>>, ghost g: Frontier)
      requires v == CurrentView()
      requires Valid() && Tracks(f) && Scored(f) && f.fringe == fringe && from in stationInfos.Values
      modifies stationInfos.Values`fn, stationInfos.Values`parent
      ensures Valid()
      ensures r.Ok? ==> ExpandAll(v, lines, from, cost, start, dest, f) == Ok(g) && r.value == g.fringe && Tracks(g)
      ensures r.Err? ==> ExpandAll(v, lines, from, cost, start, dest, f) == Err(r.error)
    {
      g := f;
      var current := fringe;
      assert lines[0..] == lines;
      for i := 0 to |lines|
        invariant Valid() && Tracks(g) && Scored(g) && g.fringe == current
        invariant ExpandAll(v, lines, from, cost, start, dest, f) == ExpandAll(v, lines[i..], from, cost, start, dest, g)
      {
        var expanded;
        expanded, g := ExpandAt(v, lines, i, from, cost, start, dest, current, g);
        if expanded.Err? {
          return expanded, g;
        }
        current := expanded.value;
      }
      return Ok(current), g;
    }

    /** The rest of one iteration once no direct line is taken: select the closest
        station, add its new lines, expand it with the cost so far f - h, make it current
        and drop it from the fringe. */
    method AdvanceSearch(ghost v: View, start: Station, dest: Station, current: Station,
                         available: seq<string>, fringe: seq<Station>, ghost f: Frontier)
      returns (out: Outcome, next: Station, nextAvailable: seq<string>, nextFringe: seq<Station>, ghost g: Frontier)
      requires v == CurrentView() && fringe != []
      requires Valid() && Tracks(f) && Scored(f) && f.fringe == fringe
      modifies stationInfos.Values`fn, stationInfos.Values`parent
      ensures Valid()
      ensures out.Pass? ==> Advance(v, start, dest, Search(current, available, f)) == Ok(Search(next, nextAvailable, g))
      ensures out.Pass? ==> g.fringe == nextFringe && Tracks(g)
      ensures out.Fail? ==> Advance(v, start, dest, Search(current, available, f)) == Err(out.error)
    {
      ghost var s := Search(current, available, f);
      var k := SelectClosest(fringe, f);
      var closestStation := fringe[k];
      assert closestStation == Selected(f);
      assert closestStation in stationInfos.Values;
      assert closestStation.lineList == v.Lines(closestStation);
      assert closestStation.distance == v.Distance(closestStation);
      var newLines := DistinctMembers(closestStation.lineList, available, false);
      nextAvailable := available + newLines;
      if closestStation.distance.None? {
        AdvanceFirst(v, start, dest, s, closestStation, newLines, 0.0);
        return Fail(MissingDistance), closestStation, nextAvailable, fringe, f;
      }
      var costSoFar := closestStation.fn - closestStation.distance.value;
      AdvanceFirst(v, start, dest, s, closestStation, newLines, costSoFar);
      var expanded, g1 := ExpandLines(v, newLines, closestStation, costSoFar, start, dest, fringe, f);
      if expanded.Err? {
        return Fail(expanded.error), closestStation, nextAvailable, fringe, f;
      }
      RemoveFirstRemovesOne(expanded.value, closestStation);
      nextFringe := RemoveFirst(expanded.value, closestStation);
      g := Frontier(nextFringe, g1.fn, g1.parent);
      return Pass, closestStation, nextAvailable, nextFringe, g;
    }

    /** One iteration of the search loop: stop at the current station when a direct line
        is worth taking, fail on an empty fringe, otherwise advance. */
    method SearchStep(ghost v: View, start: Station, dest: Station, current: Station,
                      available: seq<string>, fringe: seq<Station>, ghost f: Frontier)
      returns (out: Outcome, arrived: bool, next: Station, nextAvailable: seq<string>,
               nextFringe: seq<Station>, ghost g: Frontier)
      requires v == CurrentView()
      requires Valid() && Tracks(f) && Scored(f) && f.fringe == fringe
      requires current in stationInfos.Values && dest in stationInfos.Values
      modifies stationInfos.Values`fn, stationInfos.Values`parent
      ensures Valid()
      ensures out.Fail? ==> Step(v, start, dest, Search(current, available, f)) == Err(out.error)
      ensures out.Pass? && arrived ==> Step(v, start, dest, Search(current, available, f)) == Ok(Arrived)
      ensures out.Pass? && arrived ==> Tracks(f)
      ensures out.Pass? && !arrived ==>
                Step(v, start, dest, Search(current, available, f)) == Ok(Moved(Search(next, nextAvailable, g)))
      ensures out.Pass? && !arrived ==>
                Tracks(g) && Scored(g) && g.fringe == nextFringe && next in stationInfos.Values
    {
      var direct := DirectlyReachable(current, dest, available);
      if direct.Err? {
        return Fail(direct.error), false, current, available, fringe, f;
      }
      if direct.value {
        return Pass, true, current, available, fringe, f;
      }
      if fringe == [] {
        return Fail(EmptyFringe), false, current, available, fringe, f;
      }
      out, next, nextAvailable, nextFringe, g := AdvanceSearch(v, start, dest, current, available, fringe, f);
      arrived := false;
      if out.Pass? {
        assert next == Selected(f);
      }
    }

    /** The first `budget` iterations of the search loop from the given state. */
    method RunLoop(ghost v: View, start: Station, dest: Station, current: Station,
                   available: seq<string>, fringe: seq<Station>, ghost f: Frontier, budget: nat)
      returns (r: Result<Option<Station>>, ghost e: SearchEnd)
      requires v == CurrentView()
      requires Valid() && Tracks(f) && Scored(f) && f.fringe == fringe
      requires current in stationInfos.Values && dest in stationInfos.Values
      modifies stationInfos.Values`fn, stationInfos.Values`parent
      ensures Valid()
      ensures r.Err? ==> Run(v, start, dest, Search(current, available, f), budget) == Err(r.error)
      ensures r.Ok? ==> Run(v, start, dest, Search(current, available, f), budget) == Ok(e)
      ensures r.Ok? ==> r.value == e.found && Tracks(e.last.front)
    {
      var cur, avail, fr, left := current, available, fringe, budget;
      ghost var g := f;
      while left > 0
        invariant Valid() && Tracks(g) && Scored(g) && g.fringe == fr && cur in stationInfos.Values
        invariant Run(v, start, dest, Search(current, available, f), budget) == Run(v, start, dest, Search(cur, avail, g), left)
      {
        ghost var s := Search(cur, avail, g);
        var out, arrived, next, nextAvailable, nextFringe; ghost var h;
        out, arrived, next, nextAvailable, nextFringe, h := SearchStep(v, start, dest, cur, avail, fr, g);
        if out.Fail? {
          RunFirst(v, start, dest, s, left);
          return Err(out.error), SearchEnd(None, s);
        }
        if arrived {
          RunFirst(v, start, dest, s, left);
          return Ok(Some(cur)), SearchEnd(Some(cur), s);
        }
        ghost var spent := left;
        cur, avail, fr, g, left := next, nextAvailable, nextFringe, h, left - 1;
        RunMoved(v, start, dest, s, spent, Search(cur, avail, g), left);
      }
      return Ok(None), SearchEnd(None, Search(cur, avail, g));
    }

    /** The search part of findShortestPath: the initial fringe scored from the origin,
        then at most MaxSteps iterations. A station it returns is the last one to
        transfer at; None means the iterations ran out. */
    method RunSearch(ghost v: View, start: Station, dest: Station)
      returns (r: Result<Option<Station>>, ghost e: SearchEnd)
      requires v == CurrentView()
      requires Valid() && start in stationInfos.Values && dest in stationInfos.Values
      modifies stationInfos.Values`fn, stationInfos.Values`parent
      ensures Valid()
      ensures r.Err? ==> SearchFrom(v, start, dest) == Err(r.error)
      ensures r.Ok? ==> SearchFrom(v, start, dest) == Ok(e) && r.value == e.found && Tracks(e.last.front)
    {
      var initial := InitialFringeOf(start, dest);
      if initial.Err? {
        return Err(initial.error), SearchEnd(None, Search(start, [], Frontier([], map[], map[])));
      }
      var fringe := initial.value;
      var out, g := AssignCosts(v, fringe, start, 0.0, Frontier(fringe, map[], map[]));
      if out.Fail? {
        return Err(out.error), SearchEnd(None, Search(start, [], Frontier([], map[], map[])));
      }
      AssignResult(v, fringe, start, 0.0, Frontier(fringe, map[], map[]));
      var available := start.lineList;
      assert available == v.Lines(start);
      assert InitialSearch(v, start, dest) == Ok(Search(start, available, g));
      r, e := RunLoop(v, start, dest, start, available, fringe, g, MaxSteps);
    }

    // ------------------------------------------------------------ graph build

    /** The linking loop over one line's ordered codes: each station gets the stations
        before and after it as neighbours; a code missing from the directory aborts. */
    method LinkLineOf(codes: seq<string>) returns (out: Outcome)
      modifies this`metroGraph
      ensures out.Pass? ==> LinkLine(old(metroGraph), stationInfos, codes) == Ok(metroGraph)
      ensures out.Fail? ==> LinkLine(old(metroGraph), stationInfos, codes) == Err(out.error)
    {
      for i := 0 to |codes|
        invariant i > 0 ==> codes[i - 1] in stationInfos
        invariant LinkLine(old(metroGraph), stationInfos, codes) == LinkFrom(metroGraph, stationInfos, codes, i)
      {
        ghost var expected := LinkAt(metroGraph, stationInfos, codes, i);
        if codes[i] !in stationInfos {
          return Fail(UnknownStationCode(codes[i]));
        }
        var station := stationInfos[codes[i]];
        var last := |codes| - 1;
        if i != last && codes[i + 1] !in stationInfos {
          return Fail(UnknownStationCode(codes[i + 1]));
        }
        if station.name !in metroGraph {
          var neighbours := [];
          if i != last {
            neighbours := neighbours + [stationInfos[codes[i + 1]]];
          }
          if i != 0 {
            neighbours := neighbours + [stationInfos[codes[i - 1]]];
          }
          assert neighbours == (if i != last then [stationInfos[codes[i + 1]]] else []) +
                               (if i != 0 then [stationInfos[codes[i - 1]]] else []);
          metroGraph := metroGraph[station.name := neighbours];
        } else {
          var neighboursList := metroGraph[station.name];
          if i != 0 {
            var beforeStation := stationInfos[codes[i - 1]];
            if beforeStation !in neighboursList {
              neighboursList := neighboursList + [beforeStation];
            }
          }
          assert neighboursList == if i != 0 then AppendIfAbsent(metroGraph[station.name], stationInfos[codes[i - 1]])
                                   else metroGraph[station.name];
          if i != last {
            var afterStation := stationInfos[codes[i + 1]];
            if afterStation !in neighboursList {
              neighboursList := neighboursList + [afterStation];
            }
          }
          metroGraph := metroGraph[station.name := neighboursList];
        }
        assert expected == Ok(metroGraph);
      }
      return Pass;
    }

    /** Writes each distance of the dictionary, in key order, into the Station its key
        leads to; a key missing from the directory aborts. */
    method ApplyDistances(d: Dict<real>) returns (out: Outcome)
      requires d.Wf()
      modifies stationInfos.Values`distance
      ensures out.Pass? <==> forall k :: k in d.keys ==> k in stationInfos
      ensures out.Pass? ==> forall s :: s in stationInfos.Values ==>
                s.distance == AssignedDistance(stationInfos, d.keys, d.values, s, old(s.distance))
      ensures out.Fail? ==> out.error.UnknownStationCode? && FirstMissing(d.keys, stationInfos, out.error.code)
    {
      for i := 0 to |d.keys|
        invariant forall k :: k in d.keys[..i] ==> k in stationInfos
        invariant forall s :: s in stationInfos.Values ==>
                    s.distance == AssignedDistance(stationInfos, d.keys[..i], d.values, s, old(s.distance))
      {
        var key := d.keys[i];
        if key !in stationInfos {
          assert forall j :: 0 <= j < i ==> d.keys[j] in d.keys[..i];
          return Fail(UnknownStationCode(key));
        }
        assert d.keys[..i + 1][..i] == d.keys[..i] && d.keys[..i + 1][i] == key;
        stationInfos[key].distance := Some(d.values[key]);
      }
      assert d.keys[..|d.keys|] == d.keys;
      return Pass;
    }

    /** One line of the build: its ordered station codes from the path response are
        stored in the line, then its stations are linked. */
    method BuildLine(path: (string, string, string) -> seq<PathEntry>, l: string) returns (out: Outcome)
      requires lineInfos.Wf() && l in lineInfos.values
      modifies this`lineInfos, this`metroGraph
      ensures lineInfos.Wf() && lineInfos.keys == old(lineInfos.keys)
      ensures l in lineInfos.values
      ensures lineInfos.values == old(lineInfos.values)[l := old(lineInfos.values[l]).(stations := lineInfos.values[l].stations)]
      ensures OrderedAlong(path(l, old(lineInfos.values[l]).startStationCode, old(lineInfos.values[l]).endStationCode),
                           lineInfos.values[l])
      ensures out.Pass? ==> Grows(old(metroGraph), metroGraph) && Linked(metroGraph, stationInfos, lineInfos.values[l].stations)
      ensures out.Fail? ==> out.error.UnknownStationCode? && FirstMissing(lineInfos.values[l].stations, stationInfos, out.error.code)
    {
      var line := lineInfos.values[l];
      var orderedList := GetOrderedStationList(path(l, line.startStationCode, line.endStationCode));
      lineInfos := lineInfos.Put(l, line.(stations := orderedList));
      out := LinkLineOf(orderedList);
      LinkLineLinks(old(metroGraph), stationInfos, orderedList);
      if out.Fail? {
        LinkLineFirstMissing(old(metroGraph), stationInfos, orderedList);
      }
    }

    /** The per-line part of the build: each line in key order gets its ordered station
        codes from the path response and its stations are linked. */
    method BuildLines(path: (string, string, string) -> seq<PathEntry>) returns (out: Outcome)
      requires lineInfos.Wf()
      modifies this`lineInfos, this`metroGraph
      ensures lineInfos.Wf() && lineInfos.keys == old(lineInfos.keys)
      ensures forall l :: l in old(lineInfos.values) ==>
                l in lineInfos.values &&
                lineInfos.values[l] == old(lineInfos.values[l]).(stations := lineInfos.values[l].stations)
      ensures out.Pass? ==> Grows(old(metroGraph), metroGraph)
      ensures out.Pass? ==> forall l :: l in lineInfos.values ==>
                var line := lineInfos.values[l];
                && OrderedAlong(path(l, line.startStationCode, line.endStationCode), line)
                && Linked(metroGraph, stationInfos, line.stations)
      ensures out.Fail? ==> out.error.UnknownStationCode? && FirstMissingOnLines(lineInfos, stationInfos, out.error.code)
    {
      var keys := lineInfos.keys;
      for i := 0 to |keys|
        invariant lineInfos.Wf() && lineInfos.keys == keys
        invariant forall l :: l in old(lineInfos.values) ==>
                    l in lineInfos.values &&
                    lineInfos.values[l] == old(lineInfos.values[l]).(stations := lineInfos.values[l].stations)
        invariant Grows(old(metroGraph), metroGraph)
        invariant BuiltBefore(path, metroGraph, stationInfos, keys, lineInfos.values, i)
      {
        ghost var before := lineInfos.values;
        ghost var g := metroGraph;
        var linked := BuildLine(path, keys[i]);
        if linked.Fail? {
          StoppedOnLine(path, g, stationInfos, lineInfos, i, before, linked.error.code);
          return linked;
        }
        GrowsTransitive(old(metroGraph), g, metroGraph);
        EarlierLinesStayBuilt(path, keys, i, before, lineInfos.values[keys[i]], g, metroGraph, stationInfos);
      }
      BuiltAll(path, metroGraph, stationInfos, lineInfos);
      return Pass;
    }

    /** The directories are fetched only when they are empty. */
    method FetchDirectories(api: Provider)
      requires Valid()
      modifies this`lineInfos, this`stationInfos
      ensures Valid()
      ensures old(lineInfos.keys) == [] ==> lineInfos == Inserted(LinePairs(api.lineRecords))
      ensures old(lineInfos.keys) != [] ==> lineInfos == old(lineInfos)
      ensures old(stationInfos) != map[] ==> stationInfos == old(stationInfos)
      ensures old(stationInfos) == map[] ==>
                forall i, c :: 0 <= i < |api.stationRecords| && c in RecordCodes(api.stationRecords[i]) ==> c in stationInfos
      ensures old(stationInfos) == map[] ==> forall k :: k in stationInfos ==> fresh(stationInfos[k])
      ensures old(stationInfos) == map[] ==> forall k :: k in stationInfos ==> stationInfos[k].distance == None
    {
      if lineInfos.keys == [] {
        lineInfos := GetLineInfos(api.lineRecords);
      }
      if stationInfos == map[] {
        stationInfos := GetStationInfos(api.stationRecords);
      }
    }

    /** The distances towards the destination, written into the stations on every
        build. */
    method WriteDistances(destCode: string, api: Provider) returns (out: Outcome)
      modifies stationInfos.Values`distance
      ensures out.Pass? ==>
                var d := Inserted(DistancePairs(api.distancesTo(destCode), destCode));
                && (forall k :: k in d.keys ==> k in stationInfos)
                && forall i :: 0 <= i < |d.keys| && LastAlias(stationInfos, d.keys, i) ==>
                     stationInfos[d.keys[i]].distance == Some(d.values[d.keys[i]])
      ensures out.Pass? ==>
                var d := Inserted(DistancePairs(api.distancesTo(destCode), destCode));
                forall s :: s in stationInfos.Values && (forall k :: k in d.keys ==> stationInfos[k] != s) ==>
                  s.distance == old(s.distance)
      ensures out.Fail? ==>
                && out.error.UnknownStationCode?
                && FirstMissing(Inserted(DistancePairs(api.distancesTo(destCode), destCode)).keys, stationInfos, out.error.code)
    {
      var stationDistances := GetDistancesToGoal(api.distancesTo(destCode), destCode);
      ghost var before := map s | s in stationInfos.Values :: s.distance;
      var applied := ApplyDistances(stationDistances);
      if applied.Fail? {
        return applied;
      }
      forall i | 0 <= i < |stationDistances.keys| && LastAlias(stationInfos, stationDistances.keys, i)
        ensures stationInfos[stationDistances.keys[i]].distance ==
                Some(stationDistances.values[stationDistances.keys[i]])
      {
        AssignedDistanceLastWins(stationInfos, stationDistances.keys, stationDistances.values,
                                 before[stationInfos[stationDistances.keys[i]]], i);
      }
      forall s | s in stationInfos.Values && (forall k :: k in stationDistances.keys ==> stationInfos[k] != s)
        ensures s.distance == before[s]
      {
        AssignedDistanceUntouched(stationInfos, stationDistances.keys, stationDistances.values, s, before[s]);
      }
      return Pass;
    }

    /** buildMetroGraph: fetch the line and station directories when they are empty,
        write the distances towards the destination into the stations, then give each
        line its ordered stations and link them. */
    method BuildMetroGraph(destCode: string, api: Provider) returns (out: Outcome)
      requires Valid()
      modifies this, stationInfos.Values`distance
      ensures Valid()
      ensures var fetched := if old(lineInfos.keys) == [] then Inserted(LinePairs(api.lineRecords)) else old(lineInfos);
                && lineInfos.keys == fetched.keys
                && forall l :: l in fetched.values ==>
                     l in lineInfos.values && lineInfos.values[l] == fetched.values[l].(stations := lineInfos.values[l].stations)
      ensures old(stationInfos) != map[] ==> stationInfos == old(stationInfos)
      ensures old(stationInfos) == map[] ==>
                forall i, c :: 0 <= i < |api.stationRecords| && c in RecordCodes(api.stationRecords[i]) ==> c in stationInfos
      ensures old(stationInfos) == map[] ==> forall k :: k in stationInfos ==> fresh(stationInfos[k])
      ensures out.Pass? ==> Grows(old(metroGraph), metroGraph)
      ensures out.Pass? ==> forall l :: l in lineInfos.values ==>
                var line := lineInfos.values[l];
                && OrderedAlong(api.path(l, line.startStationCode, line.endStationCode), line)
                && Linked(metroGraph, stationInfos, line.stations)
      ensures out.Pass? ==>
                var d := Inserted(DistancePairs(api.distancesTo(destCode), destCode));
                && (forall k :: k in d.keys ==> k in stationInfos)
                && forall i :: 0 <= i < |d.keys| && LastAlias(stationInfos, d.keys, i) ==>
                     stationInfos[d.keys[i]].distance == Some(d.values[d.keys[i]])
      ensures out.Pass? ==>
                var d := Inserted(DistancePairs(api.distancesTo(destCode), destCode));
                forall s :: s in stationInfos.Values && (forall k :: k in d.keys ==> stationInfos[k] != s) ==>
                  s.distance == if old(stationInfos) == map[] then None else old(s.distance)
      ensures out.Fail? ==>
                BuildStoppedAt(Inserted(DistancePairs(api.distancesTo(destCode), destCode)).keys, lineInfos, stationInfos, out.error)
    {
      FetchDirectories(api);
      out := WriteDistances(destCode, api);
      if out.Fail? {
        return;
      }
      out := BuildLines(api.path);
    }

    // ------------------------------------------------------------ queries

    /** The part of findShortestPath after the build: look up the origin and then the
        destination, then search. */
    method SearchBetween(startCode: string, destCode: string)
      returns (r: Result<Option<Station>>, ghost e: Result<SearchEnd>)
      requires Valid()
      modifies stationInfos.Values`fn, stationInfos.Values`parent
      ensures Valid()
      ensures startCode !in stationInfos ==> r == Err(UnknownStationCode(startCode))
      ensures startCode in stationInfos && destCode !in stationInfos ==> r == Err(UnknownStationCode(destCode))
      ensures startCode in stationInfos && destCode in stationInfos ==>
                e == SearchFrom(CurrentView(), stationInfos[startCode], stationInfos[destCode])
      ensures startCode in stationInfos && destCode in stationInfos && r.Err? ==> e == Err(r.error)
      ensures r.Ok? ==> e.Ok? && r.value == e.value.found && Tracks(e.value.last.front)
    {
      e := Err(MissingDistance);
      if startCode !in stationInfos {
        return Err(UnknownStationCode(startCode)), e;
      }
      var startStation := stationInfos[startCode];
      if destCode !in stationInfos {
        return Err(UnknownStationCode(destCode)), e;
      }
      var destStation := stationInfos[destCode];
      ghost var end;
      r, end := RunSearch(CurrentView(), startStation, destStation);
      e := if r.Ok? then Ok(end) else Err(r.error);
    }

    /** findShortestPath: build, then search between the two codes. The station it
        returns is the last one to transfer at; None means the iterations ran out. */
    method FindShortestPath(startCode: string, destCode: string, api: Provider)
      returns (r: Result<Option<Station>>, built: Outcome, ghost e: Result<SearchEnd>)
      requires Valid()
      modifies this, stationInfos.Values`distance, stationInfos.Values`fn, stationInfos.Values`parent
      ensures Valid()
      ensures built.Fail? ==> r == Err(built.error)
      ensures built.Fail? ==>
                BuildStoppedAt(Inserted(DistancePairs(api.distancesTo(destCode), destCode)).keys, lineInfos, stationInfos, built.error)
      ensures built.Pass? && startCode !in stationInfos ==> r == Err(UnknownStationCode(startCode))
      ensures built.Pass? && startCode in stationInfos && destCode !in stationInfos ==>
                r == Err(UnknownStationCode(destCode))
      ensures built.Pass? && startCode in stationInfos && destCode in stationInfos ==>
                e == SearchFrom(CurrentView(), stationInfos[startCode], stationInfos[destCode])
      ensures built.Pass? && startCode in stationInfos && destCode in stationInfos && r.Err? ==> e == Err(r.error)
      ensures r.Ok? ==> e.Ok? && r.value == e.value.found && Tracks(e.value.last.front)
      ensures built.Pass? ==> forall l :: l in lineInfos.values ==> Linked(metroGraph, stationInfos, lineInfos.values[l].stations)
    {
      built := BuildMetroGraph(destCode, api);
      if built.Fail? {
        return Err(built.error), built, Err(built.error);
      }
      r, e := SearchBetween(startCode, destCode);
    }

    /** The printing loop's path: the destination's name, then the names met walking
        parent links from the returned station until one whose name contains the
        origin's name, then the origin's name, all reversed. The walk is cut off after
        as many links as there are stations. */
    method ReconstructPath(startCode: string, destCode: string, finalStop: Station?) returns (r: Result<seq<string>>)
      requires Valid() && (finalStop != null ==> finalStop in stationInfos.Values)
      ensures destCode !in stationInfos ==> r == Err(UnknownStationCode(destCode))
      ensures destCode in stationInfos && startCode !in stationInfos ==> r == Err(UnknownStationCode(startCode))
      ensures destCode in stationInfos && startCode in stationInfos ==>
                r == PathOf(Parents(), stationInfos[startCode], stationInfos[destCode].name, finalStop,
                            |stationInfos.Values|)
    {
      if destCode !in stationInfos {
        return Err(UnknownStationCode(destCode));
      }
      var pathStack := [stationInfos[destCode].name];
      if startCode !in stationInfos {
        return Err(UnknownStationCode(startCode));
      }
      var startName := stationInfos[startCode].name;
      if finalStop == null {
        return Err(NoPath);
      }
      ghost var up := Parents();
      ghost var fuel0 := |stationInfos.Values|;
      var fuel: nat := |stationInfos.Values|;
      var node := finalStop;
      ghost var pushed: seq<string> := [];
      assert Walk(up, startName, node, fuel).Ok? ==> Walk(up, startName, node, fuel).value == pushed + Walk(up, startName, node, fuel).value;
      while node == null || !Contains(node.name, startName)
        invariant node != null ==> node in up
        invariant pathStack == [stationInfos[destCode].name] + pushed
        invariant Walk(up, startName, node, fuel).Err? ==>
                    Walk(up, startName, finalStop, fuel0) == Walk(up, startName, node, fuel)
        invariant Walk(up, startName, node, fuel).Ok? ==>
                    Walk(up, startName, finalStop, fuel0) == Ok(pushed + Walk(up, startName, node, fuel).value)
        decreases fuel
      {
        if node == null {
          return Err(MissingParent);
        }
        if fuel == 0 {
          return Err(ParentChainTooLong);
        }
        assert up[node] == node.parent;
        ghost var w := Walk(up, startName, node.parent, fuel - 1);
        assert w.Ok? ==> Walk(up, startName, node, fuel) == Ok([node.name] + w.value);
        assert w.Ok? ==> pushed + ([node.name] + w.value) == (pushed + [node.name]) + w.value;
        pathStack := pathStack + [node.name];
        pushed := pushed + [node.name];
        node := node.parent;
        fuel := fuel - 1;
      }
      assert Walk(up, startName, node, fuel) == Ok([]);
      assert pushed + [] == pushed;
      assert Walk(up, startName, finalStop, fuel0) == Ok(pushed);
      pathStack := pathStack + [startName];
      ReverseAround(stationInfos[destCode].name, pushed, startName);
      return Ok(Reverse(pathStack));
    }
  }
}
