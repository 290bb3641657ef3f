/** The two records of the rail directory: a Line (plain data) and a Station (an object
    whose line and code lists are extended in place while the directory is merged, and
    whose distance, priority and parent fields the router overwrites). */
module MetroData {
  import opened Common

  /** A line: display name, two-letter code, the codes of its two terminals, and the
      ordered station codes along it (empty until the graph is built). */
  datatype Line = Line(displayName: string, lineCode: string,
                       startStationCode: string, endStationCode: string,
                       stations: seq<string>)

  /** The entries of `xs` that are present: JSON null and the empty string are both
      falsy in the source, and both are written "" here. Order is kept. */
  function NonEmpty(xs: seq<string>): (r: seq<string>)
    ensures forall x :: x in r <==> x in xs && x != ""
    ensures |r| <= |xs|
  {
    if xs == [] then []
    else NonEmpty(xs[..|xs| - 1]) + (if xs[|xs| - 1] != "" then [xs[|xs| - 1]] else [])
  }

  /** `if x not in xs: xs.append(x)`. */
  function AppendIfAbsent<T(==)>(xs: seq<T>, x: T): (r: seq<T>)
    ensures x in r
    ensures forall y :: y in xs ==> y in r
    ensures forall y :: y in r ==> y in xs || y == x
    ensures |xs| <= |r| <= |xs| + 1 && r[..|xs|] == xs
  {
    if x in xs then xs else xs + [x]
  }

  /** A list without repeats keeps none when an entry is added only if absent. */
  lemma AppendIfAbsentDistinct<T>(xs: seq<T>, x: T)
    requires Distinct(xs)
    ensures Distinct(AppendIfAbsent(xs, x))
  {
    if x !in xs {
      var r := xs + [x];
      forall i, j | 0 <= i < j < |r| ensures r[i] != r[j] {
        if j == |xs| {
          assert xs[i] in xs;
        }
      }
    }
  }

  /** Appending every entry of `ys` in turn with AppendIfAbsent. */
  function AppendAll<T(==)>(xs: seq<T>, ys: seq<T>): (r: seq<T>)
    ensures forall y :: y in xs ==> y in r
    ensures forall y :: y in ys ==> y in r
    ensures forall y :: y in r ==> y in xs || y in ys
    ensures |xs| <= |r| && r[..|xs|] == xs
  {
    if ys == [] then xs else AppendIfAbsent(AppendAll(xs, ys[..|ys| - 1]), ys[|ys| - 1])
  }

  /** Merging entries into a list without repeats adds none. */
  lemma {:induction false} AppendAllDistinct<T>(xs: seq<T>, ys: seq<T>)
    requires Distinct(xs)
    ensures Distinct(AppendAll(xs, ys))
  {
    if ys != [] {
      AppendAllDistinct(xs, ys[..|ys| - 1]);
      AppendIfAbsentDistinct(AppendAll(xs, ys[..|ys| - 1]), ys[|ys| - 1]);
    }
  }

  /** Appending an entry that is already present changes nothing, so a second
      AppendIfAbsent of the same entry is a no-op. */
  lemma AppendIfAbsentIdempotent<T>(xs: seq<T>, x: T)
    ensures AppendIfAbsent(AppendIfAbsent(xs, x), x) == AppendIfAbsent(xs, x)
    ensures x in xs ==> AppendIfAbsent(xs, x) == xs
  {
  }

  /** Merging the same entries twice is the same as merging them once. */
  lemma {:induction false} AppendAllIdempotent<T>(xs: seq<T>, ys: seq<T>)
    ensures AppendAll(AppendAll(xs, ys), ys) == AppendAll(xs, ys)
  {
    AppendAllOfPresent(AppendAll(xs, ys), ys);
  }

  /** Entries that are all present already leave the list as it is. */
  lemma {:induction false} AppendAllOfPresent<T>(xs: seq<T>, ys: seq<T>)
    requires forall y :: y in ys ==> y in xs
    ensures AppendAll(xs, ys) == xs
  {
    if ys != [] {
      AppendAllOfPresent(xs, ys[..|ys| - 1]);
    }
  }

  /** Merging one more entry is one more AppendIfAbsent. */
  lemma AppendAllSnoc<T>(xs: seq<T>, ys: seq<T>, y: T)
    ensures AppendAll(xs, ys + [y]) == AppendIfAbsent(AppendAll(xs, ys), y)
  {
    assert (ys + [y])[..|ys|] == ys;
  }

  /** Extending the filtered list by one entry is filtering the extended list. */
  lemma NonEmptySnoc(xs: seq<string>, x: string)
    ensures NonEmpty(xs + [x]) == NonEmpty(xs) + (if x != "" then [x] else [])
  {
    assert (xs + [x])[..|xs|] == xs;
  }

  /** Filtering one entry longer a prefix of xs. */
  lemma NonEmptyPrefix(xs: seq<string>, i: nat)
    requires i < |xs|
    ensures NonEmpty(xs[..i + 1]) == NonEmpty(xs[..i]) + (if xs[i] != "" then [xs[i]] else [])
  {
    assert xs[..i + 1] == xs[..i] + [xs[i]];
    NonEmptySnoc(xs[..i], xs[i]);
  }

  /** The constructor's loop: each optional entry that is present is appended to
      `xs` in order. */
  method AppendPresent(xs: seq<string>, optional: seq<string>) returns (r: seq<string>)
    ensures r == xs + NonEmpty(optional)
  {
    r := xs;
    for i := 0 to |optional|
      invariant r == xs + NonEmpty(optional[..i])
    {
      NonEmptyPrefix(optional, i);
      if optional[i] != "" {
        r := r + [optional[i]];
      }
    }
    assert optional[..|optional|] == optional;
  }

  class Station {
    const name: string
    var lineList: seq<string>
    var codeList: seq<string>
    var distance: Option<real>   // unset (None) until a build supplies it
    var fn: real                 // f(n), written by the search
    var parent: Station?         // back-link, written by the search

    /** A station from one directory record: the first line code always leads the
        line list and the primary code always leads the code list; the optional
        entries follow in order, and only when present. */
    constructor (name: string, code: string,
                 lineCode1: string, lineCode2: string, lineCode3: string, lineCode4: string,
                 stationTogether1: string, stationTogether2: string)
      ensures this.name == name
      ensures lineList == [lineCode1] + NonEmpty([lineCode2, lineCode3, lineCode4])
      ensures codeList == [code] + NonEmpty([stationTogether1, stationTogether2])
      ensures distance == None && parent == null
    {
      this.name := name;
      var lines := AppendPresent([lineCode1], [lineCode2, lineCode3, lineCode4]);
      var codes := AppendPresent([code], [stationTogether1, stationTogether2]);
      lineList := lines;
      codeList := codes;
      distance := None;
      fn := 0.0;  // no f(n) exists until the search scores the station; nothing reads it before
      parent := null;
    }

    /** Adds an alternate code at the end unless the station already has it. */
    method AddStation(code: string)
      modifies this`codeList
      ensures codeList == AppendIfAbsent(old(codeList), code)
    {
      if code !in codeList {
        codeList := codeList + [code];
      }
    }

    /** Adds a served line at the end unless the station already lists it. */
    method AddLine(line: string)
      modifies this`lineList
      ensures lineList == AppendIfAbsent(old(lineList), line)
    {
      if line !in lineList {
        lineList := lineList + [line];
      }
    }
  }
}
