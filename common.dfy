/** Shared vocabulary: results with the failure kinds the router can raise, and an
    insertion-ordered dictionary (the iteration order of the directories matters). */
module Common {

  datatype Option<T> = None | Some(value: T)

  /** The ways a routing run can abort. Each one stands for an exception the program
      raises (or, for the last three, for the unguarded parent walk). */
  datatype Error =
    | UnknownStationCode(code: string)   // KeyError on the station directory, or the linking loop's assert
    | UnknownLine(line: string)          // KeyError on the line directory
    | StationNotOnLine(line: string)     // ValueError from list.index on a line's stations
    | MissingDistance                    // arithmetic or comparison on an unset distance
    | IndexOutOfRange                    // the direct-line check on a one-station line
    | EmptyFringe                        // min() over an empty fringe
    | NoPath                             // the search stopped at its step limit (None returned)
    | MissingParent                      // the parent walk met a station with no parent (AttributeError)
    | ParentChainTooLong                 // the parent walk did not reach the origin within its bound

  datatype Result<T> = Ok(value: T) | Err(error: Error)

  datatype Outcome = Pass | Fail(error: Error)

  ghost predicate Distinct<T>(xs: seq<T>) {
    forall i, j :: 0 <= i < j < |xs| ==> xs[i] != xs[j]
  }

  /** Position of the first occurrence of `x` in `xs` (Python's list.index). */
  function IndexOf<T(==)>(xs: seq<T>, x: T): (k: nat)
    requires x in xs
    ensures k < |xs| && xs[k] == x
    ensures forall j :: 0 <= j < k ==> xs[j] != x
  {
    if xs[0] == x then 0 else 1 + IndexOf(xs[1..], x)
  }

  /** `k` is the first of `keys`, in order, that is not a key of `m`: the key a loop
      of `m[key]` lookups over `keys` raises KeyError on. */
  ghost predicate FirstMissing<V>(keys: seq<string>, m: map<string, V>, k: string) {
    exists i :: 0 <= i < |keys| && keys[i] == k && k !in m && forall j :: 0 <= j < i ==> keys[j] in m
  }

  /** An entry of a prefix is an entry of the longer sequence. */
  lemma PrefixKeeps<T>(a: seq<T>, b: seq<T>, x: T)
    requires a <= b && x in a
    ensures x in b
  {
    var n :| 0 <= n < |a| && a[n] == x;
    assert b[n] == x;
  }

  /** Python's `needle in hay` on strings: substring containment, tried at each start
      position of `hay` in turn. */
  function Contains(hay: string, needle: string): (r: bool)
    ensures r <==> exists i :: 0 <= i <= |hay| && needle <= hay[i..]
  {
    if needle <= hay then
      assert needle <= hay[0..];
      true
    else if |hay| == 0 then false
    else
      var r := Contains(hay[1..], needle);
      assert forall i :: 1 <= i <= |hay| ==> hay[1..][i - 1..] == hay[i..];
      r
  }

  /** A dictionary that remembers the order in which its keys were first inserted,
      as Python dictionaries do. */
  datatype Dict<V> = Dict(keys: seq<string>, values: map<string, V>) {

    ghost predicate Wf() {
      Distinct(keys) && forall k :: k in values <==> k in keys
    }

    /** `d[k] = v`: a new key goes to the end, an existing key keeps its place. */
    function Put(k: string, v: V): (d: Dict<V>)
      requires Wf()
      ensures d.Wf()
      ensures d.values == values[k := v]
      ensures k in keys ==> d.keys == keys
      ensures k !in keys ==> d.keys == keys + [k]
    {
      if k in values then Dict(keys, values[k := v]) else Dict(keys + [k], values[k := v])
    }
  }

  function EmptyDict<V>(): (d: Dict<V>)
    ensures d.Wf() && d.keys == [] && d.values == map[]
  {
    Dict([], map[])
  }

  /** The dictionary a loop of `d[k] = v` assignments builds, one per pair, in order. */
  function Inserted<V>(pairs: seq<(string, V)>): (d: Dict<V>)
    ensures d.Wf()
  {
    if pairs == [] then EmptyDict()
    else Inserted(pairs[..|pairs| - 1]).Put(pairs[|pairs| - 1].0, pairs[|pairs| - 1].1)
  }

  /** The keys are exactly the keys of the pairs. */
  lemma {:induction false} InsertedKeys<V>(pairs: seq<(string, V)>)
    ensures forall i :: 0 <= i < |pairs| ==> pairs[i].0 in Inserted(pairs).values
    ensures forall k :: k in Inserted(pairs).values ==> exists i :: 0 <= i < |pairs| && pairs[i].0 == k
  {
    if pairs != [] {
      InsertedKeys(pairs[..|pairs| - 1]);
    }
  }

  /** Each key holds the value of its last pair: later assignments overwrite. */
  lemma {:induction false} InsertedLastWins<V>(pairs: seq<(string, V)>, i: nat)
    requires i < |pairs|
    requires forall j :: i < j < |pairs| ==> pairs[j].0 != pairs[i].0
    ensures pairs[i].0 in Inserted(pairs).values && Inserted(pairs).values[pairs[i].0] == pairs[i].1
  {
    if i < |pairs| - 1 {
      InsertedLastWins(pairs[..|pairs| - 1], i);
    }
  }

  /** The keys are listed in the order of their first pair. */
  lemma {:induction false} InsertedOrder<V>(pairs: seq<(string, V)>)
    ensures forall p, q :: 0 <= p < q < |Inserted(pairs).keys| ==>
      FirstKeyAt(pairs, Inserted(pairs).keys[p]) < FirstKeyAt(pairs, Inserted(pairs).keys[q])
  {
    if pairs != [] {
      var init := pairs[..|pairs| - 1];
      var k := pairs[|pairs| - 1].0;
      InsertedOrder(init);
      InsertedKeys(init);
      forall x | x in Inserted(init).values
        ensures KeyIn(pairs, x) && FirstKeyAt(pairs, x) == FirstKeyAt(init, x) < |init|
      {
        FirstKeyAtPrefix(pairs, init, x);
      }
      var d := Inserted(init);
      var ks := Inserted(pairs).keys;
      assert ks == if k in d.keys then d.keys else d.keys + [k];
      if k !in d.values {
        assert !KeyIn(init, k);
        FirstKeyAtLast(pairs, k);
      }
      forall p, q | 0 <= p < q < |ks|
        ensures FirstKeyAt(pairs, ks[p]) < FirstKeyAt(pairs, ks[q])
      {
        assert ks[p] == d.keys[p] && d.keys[p] in d.keys;
        if q < |d.keys| {
          assert ks[q] == d.keys[q] && d.keys[q] in d.keys;
        }
      }
    }
  }

  ghost predicate KeyIn<V>(pairs: seq<(string, V)>, k: string) {
    exists i :: 0 <= i < |pairs| && pairs[i].0 == k
  }

  /** Position of the first pair with key `k`. */
  ghost function FirstKeyAt<V>(pairs: seq<(string, V)>, k: string): (i: nat)
    ensures KeyIn(pairs, k) ==> i < |pairs| && pairs[i].0 == k && forall j :: 0 <= j < i ==> pairs[j].0 != k
  {
    if pairs == [] then 0
    else if pairs[0].0 == k then 0
    else
      assert KeyIn(pairs, k) && pairs[0].0 != k ==> KeyIn(pairs[1..], k) by {
        if KeyIn(pairs, k) && pairs[0].0 != k {
          var i :| 0 <= i < |pairs| && pairs[i].0 == k;
          assert pairs[1..][i - 1].0 == k;
        }
      }
      1 + FirstKeyAt(pairs[1..], k)
  }

  lemma FirstKeyAtPrefix<V>(pairs: seq<(string, V)>, init: seq<(string, V)>, k: string)
    requires init <= pairs && KeyIn(init, k)
    ensures KeyIn(pairs, k) && FirstKeyAt(pairs, k) == FirstKeyAt(init, k)
  {
    var i := FirstKeyAt(init, k);
    assert pairs[i] == init[i];
    FirstKeyAtUnique(pairs, k, i);
  }

  lemma FirstKeyAtLast<V>(pairs: seq<(string, V)>, k: string)
    requires pairs != [] && pairs[|pairs| - 1].0 == k && !KeyIn(pairs[..|pairs| - 1], k)
    ensures FirstKeyAt(pairs, k) == |pairs| - 1
  {
    forall j | 0 <= j < |pairs| - 1 ensures pairs[j].0 != k {
      assert pairs[..|pairs| - 1][j] == pairs[j];
    }
    FirstKeyAtUnique(pairs, k, |pairs| - 1);
  }

  lemma FirstKeyAtUnique<V>(pairs: seq<(string, V)>, k: string, i: nat)
    requires i < |pairs| && pairs[i].0 == k && forall j :: 0 <= j < i ==> pairs[j].0 != k
    ensures FirstKeyAt(pairs, k) == i
  {
    assert KeyIn(pairs, k);
  }
}
