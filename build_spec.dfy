/** What building the metro graph computes: for each line's ordered station codes, the
    adjacency lists linking every station to the stations before and after it, and the
    distances the build writes into the stations. */
module BuildSpec {
  import opened Common
  import opened MetroData
  import opened MetroInterface

  /** Station name to the list of neighbouring stations. */
  type Graph = map<string, seq<Station>>

  /** Existing neighbour lists are kept and only extended at the end. */
  ghost predicate Grows(g: Graph, h: Graph) {
    forall k :: k in g ==> k in h && g[k] <= h[k]
  }

  /** Every code of the line is in the directory, and the station at each position has
      the stations at the positions before and after it among its neighbours. */
  ghost predicate Linked(g: Graph, infos: map<string, Station>, codes: seq<string>) {
    && (forall c :: c in codes ==> c in infos)
    && forall i :: 0 <= i < |codes| ==>
         && infos[codes[i]].name in g
         && (i > 0 ==> infos[codes[i - 1]] in g[infos[codes[i]].name])
         && (i < |codes| - 1 ==> infos[codes[i + 1]] in g[infos[codes[i]].name])
  }

  /** One pass of the linking loop at position i. A station met for the first time gets
      the list [next, previous] (those that exist); a station that already has a list
      gets the previous and then the next station appended, each only if absent. The
      code at i and the code at i + 1 must be in the directory (the code at i - 1 was
      checked on the previous pass). */
  function LinkAt(g: Graph, infos: map<string, Station>, codes: seq<string>, i: nat): (r: Result<Graph>)
    requires i < |codes| && (i > 0 ==> codes[i - 1] in infos)
    ensures r.Ok? <==> codes[i] in infos && (i < |codes| - 1 ==> codes[i + 1] in infos)
    ensures r.Err? ==> r.error.UnknownStationCode? && r.error.code !in infos
  {
    if codes[i] !in infos then Err(UnknownStationCode(codes[i]))
    else
      var s := infos[codes[i]];
      var hasNext := i != |codes| - 1;
      if hasNext && codes[i + 1] !in infos then Err(UnknownStationCode(codes[i + 1]))
      else if s.name !in g then
        Ok(g[s.name := (if hasNext then [infos[codes[i + 1]]] else []) +
                       (if i != 0 then [infos[codes[i - 1]]] else [])])
      else
        var withPrev := if i != 0 then AppendIfAbsent(g[s.name], infos[codes[i - 1]]) else g[s.name];
        Ok(g[s.name := if hasNext then AppendIfAbsent(withPrev, infos[codes[i + 1]]) else withPrev])
  }

  /** One pass only extends lists, and links position i both ways. */
  lemma LinkAtLinks(g: Graph, infos: map<string, Station>, codes: seq<string>, i: nat)
    requires i < |codes| && (i > 0 ==> codes[i - 1] in infos)
    requires LinkAt(g, infos, codes, i).Ok?
    ensures var h := LinkAt(g, infos, codes, i).value;
      && Grows(g, h)
      && infos[codes[i]].name in h
      && (i > 0 ==> infos[codes[i - 1]] in h[infos[codes[i]].name])
      && (i < |codes| - 1 ==> infos[codes[i + 1]] in h[infos[codes[i]].name])
  {
  }

  /** A list that had no repeats has none after a pass: on a known station the pass
      appends only what is absent. */
  lemma LinkAtKeepsDistinct(g: Graph, infos: map<string, Station>, codes: seq<string>, i: nat, k: string)
    requires i < |codes| && (i > 0 ==> codes[i - 1] in infos)
    requires LinkAt(g, infos, codes, i).Ok? && k in g && Distinct(g[k])
    ensures Distinct(LinkAt(g, infos, codes, i).value[k])
  {
    var s := infos[codes[i]];
    if s.name in g && k == s.name {
      var withPrev := if i != 0 then AppendIfAbsent(g[s.name], infos[codes[i - 1]]) else g[s.name];
      if i != 0 {
        AppendIfAbsentDistinct(g[s.name], infos[codes[i - 1]]);
      }
      if i < |codes| - 1 {
        AppendIfAbsentDistinct(withPrev, infos[codes[i + 1]]);
      }
    }
  }

  /** The linking loop from position i to the end of the line. */
  function LinkFrom(g: Graph, infos: map<string, Station>, codes: seq<string>, i: nat): (r: Result<Graph>)
    requires i <= |codes| && (i > 0 ==> codes[i - 1] in infos)
    ensures r.Err? ==> r.error.UnknownStationCode? && r.error.code !in infos
    decreases |codes| - i
  {
    if i == |codes| then Ok(g)
    else match LinkAt(g, infos, codes, i)
      case Err(e) => Err(e)
      case Ok(h) => LinkFrom(h, infos, codes, i + 1)
  }

  /** The linking loop over a whole line. */
  function LinkLine(g: Graph, infos: map<string, Station>, codes: seq<string>): (r: Result<Graph>)
    ensures r.Err? ==> r.error.UnknownStationCode? && r.error.code !in infos
  {
    LinkFrom(g, infos, codes, 0)
  }

  /** Growth carries links over. */
  lemma LinkedGrows(g: Graph, h: Graph, infos: map<string, Station>, codes: seq<string>)
    requires Linked(g, infos, codes) && Grows(g, h)
    ensures Linked(h, infos, codes)
  {
    forall i | 0 <= i < |codes|
      ensures (i > 0 ==> infos[codes[i - 1]] in h[infos[codes[i]].name])
      ensures (i < |codes| - 1 ==> infos[codes[i + 1]] in h[infos[codes[i]].name])
    {
      var k := infos[codes[i]].name;
      assert k in g && g[k] <= h[k];
      assert forall x :: x in g[k] ==> x in h[k];
    }
  }

  lemma GrowsTransitive(g: Graph, h: Graph, j: Graph)
    requires Grows(g, h) && Grows(h, j)
    ensures Grows(g, j)
  {
    forall k | k in g ensures k in j && g[k] <= j[k] {
      assert g[k] <= h[k] <= j[k];
    }
  }

  /** Linking from position i succeeds exactly when every code from i on is in the
      directory. */
  lemma {:induction false} LinkFromOk(g: Graph, infos: map<string, Station>, codes: seq<string>, i: nat)
    requires i <= |codes| && (i > 0 ==> codes[i - 1] in infos)
    ensures LinkFrom(g, infos, codes, i).Ok? <==> forall j :: i <= j < |codes| ==> codes[j] in infos
    decreases |codes| - i
  {
    if i < |codes| && LinkAt(g, infos, codes, i).Ok? {
      LinkFromOk(LinkAt(g, infos, codes, i).value, infos, codes, i + 1);
    }
  }

  /** The loop from position i, with every earlier code known, stops on the first code
      missing from the directory. */
  lemma {:induction false} LinkFromFirstMissing(g: Graph, infos: map<string, Station>, codes: seq<string>, i: nat)
    requires i <= |codes| && forall j :: 0 <= j < i ==> codes[j] in infos
    requires LinkFrom(g, infos, codes, i).Err?
    ensures FirstMissing(codes, infos, LinkFrom(g, infos, codes, i).error.code)
    decreases |codes| - i
  {
    var e := LinkFrom(g, infos, codes, i).error;
    if codes[i] !in infos {
      assert codes[i] == e.code;
    } else if i < |codes| - 1 && codes[i + 1] !in infos {
      assert codes[i + 1] == e.code;
    } else {
      LinkFromFirstMissing(LinkAt(g, infos, codes, i).value, infos, codes, i + 1);
    }
  }

  /** A line that does not link stops on its first code missing from the directory, as
      the loop does: the AssertionError of its membership assert (the first code) or the
      KeyError of its lookups (a later code). */
  lemma LinkLineFirstMissing(g: Graph, infos: map<string, Station>, codes: seq<string>)
    requires LinkLine(g, infos, codes).Err?
    ensures FirstMissing(codes, infos, LinkLine(g, infos, codes).error.code)
  {
    LinkFromFirstMissing(g, infos, codes, 0);
  }

  /** Linking from position i only extends lists. */
  lemma {:induction false} LinkFromGrows(g: Graph, infos: map<string, Station>, codes: seq<string>, i: nat)
    requires i <= |codes| && (i > 0 ==> codes[i - 1] in infos)
    requires LinkFrom(g, infos, codes, i).Ok?
    ensures Grows(g, LinkFrom(g, infos, codes, i).value)
    decreases |codes| - i
  {
    if i < |codes| {
      var h1 := LinkAt(g, infos, codes, i).value;
      LinkAtLinks(g, infos, codes, i);
      LinkFromGrows(h1, infos, codes, i + 1);
      GrowsTransitive(g, h1, LinkFrom(h1, infos, codes, i + 1).value);
    }
  }

  /** Linking from position i, when every code from i on is in the directory, links
      every position from i on. */
  lemma {:induction false} LinkFromLinks(g: Graph, infos: map<string, Station>, codes: seq<string>, i: nat)
    requires i <= |codes| && (i > 0 ==> codes[i - 1] in infos)
    requires forall j :: i <= j < |codes| ==> codes[j] in infos
    ensures LinkFrom(g, infos, codes, i).Ok?
    ensures var h := LinkFrom(g, infos, codes, i).value;
      forall j :: i <= j < |codes| ==>
        && infos[codes[j]].name in h
        && (j > 0 ==> infos[codes[j - 1]] in h[infos[codes[j]].name])
        && (j < |codes| - 1 ==> infos[codes[j + 1]] in h[infos[codes[j]].name])
    decreases |codes| - i
  {
    LinkFromOk(g, infos, codes, i);
    if i < |codes| {
      var h1 := LinkAt(g, infos, codes, i).value;
      LinkAtLinks(g, infos, codes, i);
      LinkFromLinks(h1, infos, codes, i + 1);
      LinkFromGrows(h1, infos, codes, i + 1);
      var h := LinkFrom(h1, infos, codes, i + 1).value;
      assert LinkFrom(g, infos, codes, i) == Ok(h);
      var k := infos[codes[i]].name;
      assert k in h1 && h1[k] <= h[k];
      forall j | i <= j < |codes|
        ensures infos[codes[j]].name in h
        ensures j > 0 ==> infos[codes[j - 1]] in h[infos[codes[j]].name]
        ensures j < |codes| - 1 ==> infos[codes[j + 1]] in h[infos[codes[j]].name]
      {
        if j == i {
          if j > 0 {
            PrefixKeeps(h1[k], h[k], infos[codes[j - 1]]);
          }
          if j < |codes| - 1 {
            PrefixKeeps(h1[k], h[k], infos[codes[j + 1]]);
          }
        }
      }
    }
  }

  /** A line links exactly when all its codes are in the directory; the result links
      every position and keeps the lists that were there. */
  lemma LinkLineLinks(g: Graph, infos: map<string, Station>, codes: seq<string>)
    ensures LinkLine(g, infos, codes).Ok? <==> forall c :: c in codes ==> c in infos
    ensures LinkLine(g, infos, codes).Ok? ==>
              Grows(g, LinkLine(g, infos, codes).value) && Linked(LinkLine(g, infos, codes).value, infos, codes)
  {
    LinkFromOk(g, infos, codes, 0);
    if LinkLine(g, infos, codes).Ok? {
      LinkFromGrows(g, infos, codes, 0);
      LinkFromLinks(g, infos, codes, 0);
    }
    assert (forall c :: c in codes ==> c in infos) <==> forall j :: 0 <= j < |codes| ==> codes[j] in infos;
  }

  /** Some code of the line leads to a station named k. */
  ghost predicate NamedOnLine(infos: map<string, Station>, codes: seq<string>, k: string) {
    exists i :: 0 <= i < |codes| && codes[i] in infos && infos[codes[i]].name == k
  }

  /** Station x is next to a station named k on the line: some code leads to a station
      named k, and the code just before or just after it leads to x. */
  ghost predicate NextTo(infos: map<string, Station>, codes: seq<string>, k: string, x: Station) {
    exists i :: 0 <= i < |codes| && codes[i] in infos && infos[codes[i]].name == k &&
      ((i > 0 && codes[i - 1] in infos && infos[codes[i - 1]] == x) ||
       (i < |codes| - 1 && codes[i + 1] in infos && infos[codes[i + 1]] == x))
  }

  /** A pass adds only the station at i to the graph, and only its neighbours on the
      line to its list. */
  lemma LinkAtOnlyNeighbours(g: Graph, infos: map<string, Station>, codes: seq<string>, i: nat)
    requires i < |codes| && (i > 0 ==> codes[i - 1] in infos)
    requires LinkAt(g, infos, codes, i).Ok?
    ensures var h := LinkAt(g, infos, codes, i).value;
      forall k :: k in h ==> k in g || NamedOnLine(infos, codes, k)
    ensures var h := LinkAt(g, infos, codes, i).value;
      forall k, x :: k in h && x in h[k] ==> (k in g && x in g[k]) || NextTo(infos, codes, k, x)
  {
    var h := LinkAt(g, infos, codes, i).value;
    var name := infos[codes[i]].name;
    forall k | k in h && k !in g ensures NamedOnLine(infos, codes, k) {
      assert k == name;
    }
    forall k, x | k in h && x in h[k] && !(k in g && x in g[k]) ensures NextTo(infos, codes, k, x) {
      assert k == name;
      assert (i > 0 && x == infos[codes[i - 1]]) || (i < |codes| - 1 && x == infos[codes[i + 1]]);
    }
  }

  /** Linking from position i adds only stations of the line to the graph, and only
      their neighbours on the line to their lists. */
  lemma {:induction false} LinkFromOnlyNeighbours(g: Graph, infos: map<string, Station>, codes: seq<string>, i: nat)
    requires i <= |codes| && (i > 0 ==> codes[i - 1] in infos)
    requires LinkFrom(g, infos, codes, i).Ok?
    ensures var h := LinkFrom(g, infos, codes, i).value;
      forall k :: k in h ==> k in g || NamedOnLine(infos, codes, k)
    ensures var h := LinkFrom(g, infos, codes, i).value;
      forall k, x :: k in h && x in h[k] ==> (k in g && x in g[k]) || NextTo(infos, codes, k, x)
    decreases |codes| - i
  {
    if i < |codes| {
      var h1 := LinkAt(g, infos, codes, i).value;
      LinkAtOnlyNeighbours(g, infos, codes, i);
      LinkFromOnlyNeighbours(h1, infos, codes, i + 1);
    }
  }

  /** Linking a line adds only the line's stations to the graph, and to each station's
      list only stations next to it on the line: a station at an end gets at most its
      one neighbour, an interior station at most its two. */
  lemma LinkLineOnlyNeighbours(g: Graph, infos: map<string, Station>, codes: seq<string>)
    requires LinkLine(g, infos, codes).Ok?
    ensures var h := LinkLine(g, infos, codes).value;
      forall k :: k in h ==> k in g || NamedOnLine(infos, codes, k)
    ensures var h := LinkLine(g, infos, codes).value;
      forall k, x :: k in h && x in h[k] ==> (k in g && x in g[k]) || NextTo(infos, codes, k, x)
  {
    LinkFromOnlyNeighbours(g, infos, codes, 0);
  }

  /** The list of a station met for the first time is built as [next, previous] without
      a membership test, so a station between two codes of one other station lists it
      twice: codes a, b, c with a and c both leading to x. */
  lemma NewStationListRepeats(x: Station, y: Station)
    requires x.name != y.name
    ensures var infos := map["a" := x, "b" := y, "c" := x];
      && LinkLine(map[], infos, ["a", "b", "c"]).Ok?
      && y.name in LinkLine(map[], infos, ["a", "b", "c"]).value
      && LinkLine(map[], infos, ["a", "b", "c"]).value[y.name] == [x, x]
  {
    var infos := map["a" := x, "b" := y, "c" := x];
    var codes := ["a", "b", "c"];
    var g0: Graph := map[];
    var g1 := g0[x.name := [y]];
    var g2 := g1[y.name := [x, x]];
    var g3 := g2[x.name := [y]];
    assert codes[0] == "a" && codes[1] == "b" && codes[2] == "c" && |codes| == 3;
    assert infos["a"] == x && infos["b"] == y && infos["c"] == x;
    assert x.name !in g0 && y.name !in g1 && x.name in g2;
    assert [infos[codes[1]]] + [] == [y] && [infos[codes[2]]] + [infos[codes[0]]] == [x, x];
    assert LinkAt(g0, infos, codes, 0) == Ok(g1);
    assert LinkAt(g1, infos, codes, 1) == Ok(g2);
    assert LinkAt(g2, infos, codes, 2) == Ok(g3);
    assert LinkFrom(g3, infos, codes, 3) == Ok(g3);
    assert LinkLine(g0, infos, codes) == Ok(g3);
  }

  /** The ordered station codes of a line are the codes of the path response for it,
      in order. */
  ghost predicate OrderedAlong(entries: seq<PathEntry>, line: Line) {
    |line.stations| == |entries| && forall i :: 0 <= i < |entries| ==> line.stations[i] == entries[i].stationCode
  }

  /** Line l holds the station codes of its path response, in order, and they are
      linked in g. */
  ghost predicate LineBuilt(path: (string, string, string) -> seq<PathEntry>, g: Graph,
                            infos: map<string, Station>, l: string, line: Line) {
    OrderedAlong(path(l, line.startStationCode, line.endStationCode), line) && Linked(g, infos, line.stations)
  }

  /** The lines at the first i keys are built in g. */
  ghost predicate BuiltBefore(path: (string, string, string) -> seq<PathEntry>, g: Graph, infos: map<string, Station>,
                              keys: seq<string>, lines: map<string, Line>, i: nat) {
    forall j :: 0 <= j < i && j < |keys| ==> keys[j] in lines && LineBuilt(path, g, infos, keys[j], lines[keys[j]])
  }

  /** When every key's line is built, every line of the dictionary is. */
  lemma BuiltAll(path: (string, string, string) -> seq<PathEntry>, g: Graph, infos: map<string, Station>, lines: Dict<Line>)
    requires lines.Wf() && BuiltBefore(path, g, infos, lines.keys, lines.values, |lines.keys|)
    ensures forall l :: l in lines.values ==> LineBuilt(path, g, infos, l, lines.values[l])
  {
    forall l | l in lines.values ensures LineBuilt(path, g, infos, l, lines.values[l]) {
      var j :| 0 <= j < |lines.keys| && lines.keys[j] == l;
    }
  }

  /** The error of the per-line loop: every line before the i-th in key order has all its
      codes in the directory, and `code` is the first missing code of the i-th line. */
  ghost predicate FirstMissingOnLines(lines: Dict<Line>, infos: map<string, Station>, code: string) {
    exists i :: 0 <= i < |lines.keys| && lines.keys[i] in lines.values &&
      FirstMissing(lines.values[lines.keys[i]].stations, infos, code) &&
      forall j :: 0 <= j < i ==>
        lines.keys[j] in lines.values && forall c :: c in lines.values[lines.keys[j]].stations ==> c in infos
  }

  /** The error a build stops with: the first distance key missing from the directory;
      or, when every distance key is known, the first missing code of the first line in
      key order that does not link. */
  ghost predicate BuildStoppedAt(distanceKeys: seq<string>, lines: Dict<Line>, infos: map<string, Station>, e: Error) {
    && e.UnknownStationCode?
    && (|| FirstMissing(distanceKeys, infos, e.code)
        || ((forall k :: k in distanceKeys ==> k in infos) && FirstMissingOnLines(lines, infos, e.code)))
  }

  /** When the line at keys[i] stops on a missing code, after every line before it was
      built, the per-line loop stops with that code. */
  lemma StoppedOnLine(path: (string, string, string) -> seq<PathEntry>, g: Graph, infos: map<string, Station>,
                      lines: Dict<Line>, i: nat, before: map<string, Line>, code: string)
    requires lines.Wf() && i < |lines.keys| && lines.values == before[lines.keys[i] := lines.values[lines.keys[i]]]
    requires BuiltBefore(path, g, infos, lines.keys, before, i)
    requires FirstMissing(lines.values[lines.keys[i]].stations, infos, code)
    ensures FirstMissingOnLines(lines, infos, code)
  {
    forall j | 0 <= j < i
      ensures lines.keys[j] in lines.values && forall c :: c in lines.values[lines.keys[j]].stations ==> c in infos
    {
      assert lines.keys[j] != lines.keys[i];
    }
  }

  /** Rebuilding the line at keys[i] and growing the graph leaves every line before it
      built; with the line at keys[i] built too, the first i + 1 lines are. */
  lemma EarlierLinesStayBuilt(path: (string, string, string) -> seq<PathEntry>, keys: seq<string>, i: nat,
                              before: map<string, Line>, line: Line, g: Graph, h: Graph,
                              infos: map<string, Station>)
    requires Distinct(keys) && i < |keys| && Grows(g, h)
    requires BuiltBefore(path, g, infos, keys, before, i)
    requires LineBuilt(path, h, infos, keys[i], line)
    ensures BuiltBefore(path, h, infos, keys, before[keys[i] := line], i + 1)
  {
    forall j | 0 <= j < i
      ensures keys[j] in before[keys[i] := line]
      ensures LineBuilt(path, h, infos, keys[j], before[keys[i] := line][keys[j]])
    {
      assert keys[j] != keys[i];
      LinkedGrows(g, h, infos, before[keys[j]].stations);
    }
  }

  // ---------------------------------------------------------------- distances

  /** The distance station s holds after `stationInfos[k].distance = values[k]` for each
      key k in order: the value of the last key that leads to s, or `prior` if none. */
  function AssignedDistance(infos: map<string, Station>, keys: seq<string>, values: map<string, real>,
                            s: Station, prior: Option<real>): Option<real>
    requires forall k :: k in keys ==> k in infos && k in values
  {
    if keys == [] then prior
    else
      var k := keys[|keys| - 1];
      if infos[k] == s then Some(values[k]) else AssignedDistance(infos, keys[..|keys| - 1], values, s, prior)
  }

  /** No later key leads to the same station as key i. */
  ghost predicate LastAlias(infos: map<string, Station>, keys: seq<string>, i: nat)
    requires i < |keys| && forall k :: k in keys ==> k in infos
  {
    forall j :: i < j < |keys| ==> infos[keys[j]] != infos[keys[i]]
  }

  /** The last key leading to a station decides its distance. */
  lemma {:induction false} AssignedDistanceLastWins(infos: map<string, Station>, keys: seq<string>,
                                                    values: map<string, real>, prior: Option<real>, i: nat)
    requires forall k :: k in keys ==> k in infos && k in values
    requires i < |keys| && LastAlias(infos, keys, i)
    ensures AssignedDistance(infos, keys, values, infos[keys[i]], prior) == Some(values[keys[i]])
  {
    if i < |keys| - 1 {
      var init := keys[..|keys| - 1];
      assert init[i] == keys[i];
      assert LastAlias(infos, init, i) by {
        forall j | i < j < |init| ensures infos[init[j]] != infos[init[i]] {
          assert init[j] == keys[j];
        }
      }
      AssignedDistanceLastWins(infos, init, values, prior, i);
    }
  }

  /** A station no key leads to keeps its distance. */
  lemma {:induction false} AssignedDistanceUntouched(infos: map<string, Station>, keys: seq<string>,
                                                     values: map<string, real>, s: Station, prior: Option<real>)
    requires forall k :: k in keys ==> k in infos && k in values
    requires forall k :: k in keys ==> infos[k] != s
    ensures AssignedDistance(infos, keys, values, s, prior) == prior
  {
    if keys != [] {
      AssignedDistanceUntouched(infos, keys[..|keys| - 1], values, s, prior);
    }
  }
}
