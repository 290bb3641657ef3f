/** The directory client, taken over already-decoded responses: the HTTP requests and
    JSON decoding are outside the model, so each query's response is an input sequence
    of records, and turning it into the router's dictionaries is what is modelled. */
module MetroInterface {
  import opened Common
  import opened MetroData

  /** One entry of the line list response. */
  datatype LineRecord = LineRecord(displayName: string, lineCode: string,
                                   startStationCode: string, endStationCode: string)

  /** One entry of the station list response; absent optional fields are "". */
  datatype StationRecord = StationRecord(name: string, code: string,
                                         lineCode1: string, lineCode2: string,
                                         lineCode3: string, lineCode4: string,
                                         stationTogether1: string, stationTogether2: string)

  /** One entry of the path response along a line. */
  datatype PathEntry = PathEntry(stationCode: string)

  /** One entry of the station-to-station response towards a destination. */
  datatype DistanceEntry = DistanceEntry(sourceStation: string, compositeMiles: real)

  /** The directory service as the router sees it: the line list, the station list,
      the path along a line for (line, start, end), and the distance entries towards
      a destination code. */
  datatype Provider = Provider(lineRecords: seq<LineRecord>,
                               stationRecords: seq<StationRecord>,
                               path: (string, string, string) -> seq<PathEntry>,
                               distancesTo: string -> seq<DistanceEntry>)

  function LineOf(r: LineRecord): Line {
    Line(r.displayName, r.lineCode, r.startStationCode, r.endStationCode, [])
  }

  function LinePairs(records: seq<LineRecord>): (pairs: seq<(string, Line)>)
    ensures |pairs| == |records|
    ensures forall i :: 0 <= i < |records| ==> pairs[i] == (records[i].lineCode, LineOf(records[i]))
  {
    seq(|records|, i requires 0 <= i < |records| => (records[i].lineCode, LineOf(records[i])))
  }

  /** No later record repeats the line code of record `i`. */
  ghost predicate LastLineRecord(records: seq<LineRecord>, i: nat)
    requires i < |records|
  {
    forall j :: i < j < |records| ==> records[j].lineCode != records[i].lineCode
  }

  /** The line dictionary, keyed by line code, one Line per record; a code that occurs
      twice keeps its first place and the last record's Line. */
  method GetLineInfos(records: seq<LineRecord>) returns (lineInfos: Dict<Line>)
    ensures lineInfos.Wf() && lineInfos == Inserted(LinePairs(records))
    ensures forall i :: 0 <= i < |records| ==> records[i].lineCode in lineInfos.values
    ensures forall i :: 0 <= i < |records| && LastLineRecord(records, i) ==>
              lineInfos.values[records[i].lineCode] == LineOf(records[i])
  {
    lineInfos := EmptyDict();
    var pairs := LinePairs(records);
    for i := 0 to |records|
      invariant lineInfos == Inserted(pairs[..i])
    {
      assert pairs[..i + 1][..i] == pairs[..i];
      lineInfos := lineInfos.Put(records[i].lineCode, LineOf(records[i]));
    }
    assert pairs[..|records|] == pairs;
    InsertedKeys(pairs);
    forall i | 0 <= i < |records| && LastLineRecord(records, i)
      ensures lineInfos.values[records[i].lineCode] == LineOf(records[i])
    {
      InsertedLastWins(pairs, i);
    }
  }

  /** The ordered station codes along one line: the response order exactly, one code
      per path entry. */
  method GetOrderedStationList(entries: seq<PathEntry>) returns (orderedStations: seq<string>)
    ensures |orderedStations| == |entries|
    ensures forall i :: 0 <= i < |entries| ==> orderedStations[i] == entries[i].stationCode
  {
    orderedStations := [];
    for i := 0 to |entries|
      invariant |orderedStations| == i
      invariant forall j :: 0 <= j < i ==> orderedStations[j] == entries[j].stationCode
    {
      orderedStations := orderedStations + [entries[i].stationCode];
    }
  }

  function DistancePairs(entries: seq<DistanceEntry>, destCode: string): (pairs: seq<(string, real)>)
    ensures |pairs| == |entries| + 1 && pairs[|entries|] == (destCode, 0.0)
    ensures forall i :: 0 <= i < |entries| ==> pairs[i] == (entries[i].sourceStation, entries[i].compositeMiles)
  {
    seq(|entries|, i requires 0 <= i < |entries| => (entries[i].sourceStation, entries[i].compositeMiles))
      + [(destCode, 0.0)]
  }

  /** No later entry repeats the source station of entry `i`. */
  ghost predicate LastDistanceEntry(entries: seq<DistanceEntry>, i: nat)
    requires i < |entries|
  {
    forall j :: i < j < |entries| ==> entries[j].sourceStation != entries[i].sourceStation
  }

  /** The distance dictionary: every source station of the response holds the miles of
      its last entry, and the destination itself always holds 0, whatever the response
      said about it. */
  lemma DistancesToGoalHold(entries: seq<DistanceEntry>, destCode: string)
    ensures var d := Inserted(DistancePairs(entries, destCode));
      && destCode in d.values && d.values[destCode] == 0.0
      && (forall i :: 0 <= i < |entries| ==> entries[i].sourceStation in d.values)
      && (forall k :: k in d.values ==> k == destCode || exists i :: 0 <= i < |entries| && entries[i].sourceStation == k)
      && (forall i :: 0 <= i < |entries| && entries[i].sourceStation != destCode && LastDistanceEntry(entries, i) ==>
            d.values[entries[i].sourceStation] == entries[i].compositeMiles)
  {
    var pairs := DistancePairs(entries, destCode);
    var d := Inserted(pairs);
    assert d == Inserted(pairs[..|entries|]).Put(destCode, 0.0);
    InsertedKeys(pairs);
    forall k | k in d.values
      ensures k == destCode || exists i :: 0 <= i < |entries| && entries[i].sourceStation == k
    {
      var i :| 0 <= i < |pairs| && pairs[i].0 == k;
      if i < |entries| {
        assert entries[i].sourceStation == k;
      }
    }
    forall i | 0 <= i < |entries| && entries[i].sourceStation != destCode && LastDistanceEntry(entries, i)
      ensures d.values[entries[i].sourceStation] == entries[i].compositeMiles
    {
      InsertedLastWins(pairs, i);
    }
  }

  /** The loop of getDistancesToGoal: one assignment per response entry, in order, then
      the destination's own 0. */
  method GetDistancesToGoal(entries: seq<DistanceEntry>, destCode: string)
    returns (stationDists: Dict<real>)
    ensures stationDists.Wf() && stationDists == Inserted(DistancePairs(entries, destCode))
  {
    var pairs := DistancePairs(entries, destCode);
    stationDists := EmptyDict();
    for i := 0 to |entries|
      invariant stationDists == Inserted(pairs[..i])
    {
      assert pairs[..i + 1][..i] == pairs[..i];
      stationDists := stationDists.Put(entries[i].sourceStation, entries[i].compositeMiles);
    }
    assert pairs[..|pairs| - 1] == pairs[..|entries|];
    stationDists := stationDists.Put(destCode, 0.0);
  }

  /** Folds one station record into the directory: a record with a new name makes a
      Station (AddNewStation), a record whose name is known is merged into the Station
      that name leads to (MergeIntoStation). */
  method FoldStationRecord(stationInfos: map<string, Station>, r: StationRecord)
    returns (result: map<string, Station>)
    modifies stationInfos.Values
    ensures r.name !in stationInfos ==> NewStationBound(stationInfos, r, result)
    ensures r.name !in stationInfos ==> fresh(result[r.name])
    ensures r.name !in stationInfos ==> forall t :: t in stationInfos.Values ==> unchanged(t)
    ensures r.name in stationInfos ==> CodesBoundOnce(stationInfos, r, result)
    ensures r.name in stationInfos ==>
      var s := stationInfos[r.name];
      && s.lineList == AppendAll(old(s.lineList), RecordLines(r))
      && s.codeList == AppendAll(old(s.codeList), RecordCodes(r))
      && s.distance == old(s.distance) && s.fn == old(s.fn) && s.parent == old(s.parent)
      && (forall t :: t in stationInfos.Values && t != s ==> unchanged(t))
    ensures forall k :: k in stationInfos ==> k in result
    ensures r.name in result && forall c :: c in RecordCodes(r) ==> c in result
  {
    if r.name !in stationInfos {
      result := AddNewStation(stationInfos, r);
    } else {
      result := MergeIntoStation(stationInfos, r);
    }
  }

  /** The line codes a record names, present ones only. */
  function RecordLines(r: StationRecord): seq<string> {
    NonEmpty([r.lineCode1, r.lineCode2, r.lineCode3, r.lineCode4])
  }

  /** The station's codes a record names: its alternates and primary code, present ones only. */
  function RecordCodes(r: StationRecord): seq<string> {
    NonEmpty([r.stationTogether1, r.stationTogether2, r.code])
  }

  /** The keys a record with a new name binds: name, primary code, present alternates. */
  function NewRecordKeys(r: StationRecord): set<string> {
    {r.name, r.code} + (set c | c in [r.stationTogether1, r.stationTogether2] && c != "")
  }

  /** After a new-name record: its name, primary code and present alternates all lead to
      one Station built from the record; every other key is as before. */
  ghost predicate NewStationBound(before: map<string, Station>, r: StationRecord, after: map<string, Station>)
    reads if r.name in after then {after[r.name]} else {}
  {
    && r.name in after
    && var s := after[r.name];
    && s.name == r.name
    && s.lineList == [r.lineCode1] + NonEmpty([r.lineCode2, r.lineCode3, r.lineCode4])
    && s.codeList == [r.code] + NonEmpty([r.stationTogether1, r.stationTogether2])
    && s.distance == None && s.parent == null
    && after.Keys == before.Keys + NewRecordKeys(r)
    && (forall k :: k in NewRecordKeys(r) ==> after[k] == s)
    && (forall k :: k in before && k !in NewRecordKeys(r) ==> after[k] == before[k])
  }

  /** After a known-name record: the record's present codes that were not keys now lead
      to the Station its name leads to; no existing key is re-pointed. */
  ghost predicate CodesBoundOnce(before: map<string, Station>, r: StationRecord, after: map<string, Station>)
    requires r.name in before
  {
    && (forall k :: k in after <==> k in before || k in RecordCodes(r))
    && (forall k :: k in before ==> after[k] == before[k])
    && (forall k :: k in after && k !in before ==> after[k] == before[r.name])
  }

  method AddNewStation(stationInfos: map<string, Station>, r: StationRecord)
    returns (result: map<string, Station>)
    requires r.name !in stationInfos
    ensures NewStationBound(stationInfos, r, result) && fresh(result[r.name])
  {
    var station := new Station(r.name, r.code, r.lineCode1, r.lineCode2, r.lineCode3,
                               r.lineCode4, r.stationTogether1, r.stationTogether2);
    result := BindAlternates(stationInfos[r.name := station][r.code := station],
                             [r.stationTogether1, r.stationTogether2], station);
  }

  /** `for st in [st1, st2]: if st: stationInfos[st] = station`. */
  method BindAlternates(m: map<string, Station>, alternates: seq<string>, station: Station)
    returns (result: map<string, Station>)
    ensures result.Keys == m.Keys + (set c | c in alternates && c != "")
    ensures forall k :: k in alternates && k != "" ==> result[k] == station
    ensures forall k :: k in m && !(k in alternates && k != "") ==> result[k] == m[k]
  {
    result := m;
    for i := 0 to |alternates|
      invariant result.Keys == m.Keys + (set c | c in alternates[..i] && c != "")
      invariant forall k :: k in alternates[..i] && k != "" ==> result[k] == station
      invariant forall k :: k in m && !(k in alternates[..i] && k != "") ==> result[k] == m[k]
    {
      assert alternates[..i + 1] == alternates[..i] + [alternates[i]];
      if alternates[i] != "" {
        result := result[alternates[i] := station];
      }
    }
    assert alternates[..|alternates|] == alternates;
  }

  method MergeIntoStation(stationInfos: map<string, Station>, r: StationRecord)
    returns (result: map<string, Station>)
    requires r.name in stationInfos
    modifies stationInfos[r.name]
    ensures CodesBoundOnce(stationInfos, r, result)
    ensures stationInfos[r.name].lineList == AppendAll(old(stationInfos[r.name].lineList), RecordLines(r))
    ensures stationInfos[r.name].codeList == AppendAll(old(stationInfos[r.name].codeList), RecordCodes(r))
    ensures var s := stationInfos[r.name];
      s.distance == old(s.distance) && s.fn == old(s.fn) && s.parent == old(s.parent)
  {
    var station := stationInfos[r.name];
    MergeLines(station, [r.lineCode1, r.lineCode2, r.lineCode3, r.lineCode4]);
    result := MergeCodes(stationInfos, station, [r.stationTogether1, r.stationTogether2, r.code]);
  }

  /** `for newLine in [...]: if newLine: station.addLine(newLine)`. */
  method MergeLines(station: Station, lines: seq<string>)
    modifies station`lineList
    ensures station.lineList == AppendAll(old(station.lineList), NonEmpty(lines))
  {
    ghost var l0 := station.lineList;
    ghost var pre: seq<string> := [];
    for i := 0 to |lines|
      invariant pre == NonEmpty(lines[..i])
      invariant station.lineList == AppendAll(l0, pre)
    {
      NonEmptyPrefix(lines, i);
      if lines[i] != "" {
        AppendAllSnoc(l0, pre, lines[i]);
        station.AddLine(lines[i]);
        pre := pre + [lines[i]];
      }
    }
    assert lines[..|lines|] == lines;
  }

  /** One present code: `station.addStation(code)`, and the code is bound to the
      station unless it is a key already. */
  method MergeCode(m: map<string, Station>, station: Station, code: string)
    returns (result: map<string, Station>)
    modifies station`codeList
    ensures station.codeList == AppendIfAbsent(old(station.codeList), code)
    ensures forall k :: k in result <==> k in m || k == code
    ensures forall k :: k in m ==> result[k] == m[k]
    ensures code !in m ==> result[code] == station
  {
    station.AddStation(code);
    result := m;
    if code !in result {
      result := result[code := station];
    }
  }

  /** Every key of `m` keeps its Station, the keys added are exactly `keys` not already
      in `m`, and each of them leads to `station`. */
  ghost predicate BoundTo(m: map<string, Station>, keys: seq<string>, station: Station,
                          result: map<string, Station>) {
    && (forall k :: k in result <==> k in m || k in keys)
    && (forall k :: k in m ==> result[k] == m[k])
    && (forall k :: k in result && k !in m ==> result[k] == station)
  }

  /** Binding one more code keeps the directory bound to the codes so far. */
  lemma BoundToStep(m: map<string, Station>, keys: seq<string>, station: Station, acc: map<string, Station>,
                    code: string, result: map<string, Station>)
    requires BoundTo(m, keys, station, acc)
    requires forall k :: k in result <==> k in acc || k == code
    requires forall k :: k in acc ==> result[k] == acc[k]
    requires code !in acc ==> result[code] == station
    ensures BoundTo(m, keys + [code], station, result)
  {
    assert forall k :: k in keys + [code] <==> k in keys || k == code;
  }

  /** `for newCode in [...]: if newCode: station.addStation(newCode)` and bind the code
      to the station unless it is a key already. */
  method MergeCodes(m: map<string, Station>, station: Station, codes: seq<string>)
    returns (result: map<string, Station>)
    modifies station`codeList
    ensures station.codeList == AppendAll(old(station.codeList), NonEmpty(codes))
    ensures forall k :: k in result <==> k in m || k in NonEmpty(codes)
    ensures forall k :: k in m ==> result[k] == m[k]
    ensures forall k :: k in result && k !in m ==> result[k] == station
  {
    result := m;
    ghost var c0 := station.codeList;
    ghost var pre: seq<string> := [];
    for i := 0 to |codes|
      invariant pre == NonEmpty(codes[..i])
      invariant station.codeList == AppendAll(c0, pre)
      invariant BoundTo(m, pre, station, result)
    {
      NonEmptyPrefix(codes, i);
      if codes[i] != "" {
        AppendAllSnoc(c0, pre, codes[i]);
        ghost var acc := result;
        result := MergeCode(result, station, codes[i]);
        BoundToStep(m, pre, station, acc, codes[i], result);
        pre := pre + [codes[i]];
      }
    }
    assert codes[..|codes|] == codes;
  }

  /** The station directory, indexed by name and by every code: records are folded in
      response order; every record's name and present codes end up as keys, and every
      Station in it is new. */
  method GetStationInfos(records: seq<StationRecord>) returns (stationInfos: map<string, Station>)
    ensures forall k :: k in stationInfos ==> fresh(stationInfos[k])
    ensures forall k :: k in stationInfos ==> stationInfos[k].parent == null && stationInfos[k].distance == None
    ensures forall i :: 0 <= i < |records| ==> records[i].name in stationInfos
    ensures forall i, c :: 0 <= i < |records| && c in RecordCodes(records[i]) ==> c in stationInfos
  {
    stationInfos := map[];
    for i := 0 to |records|
      invariant forall k :: k in stationInfos ==> fresh(stationInfos[k])
      invariant forall k :: k in stationInfos ==> stationInfos[k].parent == null && stationInfos[k].distance == None
      invariant forall j :: 0 <= j < i ==> records[j].name in stationInfos
      invariant forall j, c :: 0 <= j < i && c in RecordCodes(records[j]) ==> c in stationInfos
    {
      ghost var before := stationInfos;
      stationInfos := FoldStationRecord(stationInfos, records[i]);
      forall j, c | 0 <= j < i + 1 && c in RecordCodes(records[j])
        ensures c in stationInfos
      {
        if j < i {
          assert c in before;
        }
      }
    }
  }
}
