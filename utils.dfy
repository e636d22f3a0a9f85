/**
 * The helpers of utils.ts and of the bundled dist/index.cjs: records of
 * lists with `insert`, `reverse`, `reverseUniq`; substring search
 * (`findOccurrences`, `findNumOccurrences`); `max`, `longest` and
 * `cumulativeSum`. String primitives of JavaScript that the code relies on
 * (`startsWith`, `indexOf`) are defined here as well.
 */
module Utils {
  import opened Wrappers
  import opened Seqs

  // ---------------------------------------------------------------------
  // Records: `Record<string, string[]>` keeps its keys in insertion order.
  // ---------------------------------------------------------------------

  /** A JavaScript record of lists: its keys in insertion order, and the lists. */
  datatype Record<K(==,!new), V> = Record(order: seq<K>, lists: map<K, seq<V>>) {
    ghost predicate Valid() {
      && (forall i, j :: 0 <= i < j < |order| ==> order[i] != order[j])
      && (forall k :: k in lists <==> k in order)
    }
  }

  function EmptyRecord<K(==,!new), V>(): (r: Record<K, V>)
    ensures r.Valid() && r.lists == map[]
  {
    Record([], map[])
  }

  /** `db[k] ?? []` */
  function Get<K(==,!new), V>(db: Record<K, V>, k: K): seq<V> {
    if k in db.lists then db.lists[k] else []
  }

  /**
   * `insert(db, newKey, newVal, dedupe)`: an absent key gets an empty list
   * (appended to the key order); then `newVal` is pushed, unless `dedupe`
   * is set and the list already holds it.
   */
  function Inserted<K(==,!new), V(==,!new)>(db: Record<K, V>, k: K, v: V, dedupe: bool): (r: Record<K, V>)
    ensures db.Valid() ==> r.Valid()
    ensures k in r.lists && r.lists.Keys == db.lists.Keys + {k}
    ensures forall k' :: k' != k ==> Get(r, k') == Get(db, k')
    ensures forall k' :: Get(db, k') <= Get(r, k')
    ensures v in Get(r, k)
  {
    var list := Get(db, k);
    var order := if k in db.lists then db.order else db.order + [k];
    Record(order, db.lists[k := if dedupe && v in list then list else list + [v]])
  }

  /** Without dedupe, the list of `k` grows by exactly `v`. */
  lemma {:induction false} InsertAppends<K(!new), V(!new)>(db: Record<K, V>, k: K, v: V)
    ensures Get(Inserted(db, k, v, false), k) == Get(db, k) + [v]
  {
  }

  /** With dedupe, a value already present leaves the list unchanged. */
  lemma {:induction false} InsertDedupes<K(!new), V(!new)>(db: Record<K, V>, k: K, v: V)
    ensures v in Get(db, k) ==> Get(Inserted(db, k, v, true), k) == Get(db, k)
    ensures v !in Get(db, k) ==> Get(Inserted(db, k, v, true), k) == Get(db, k) + [v]
  {
  }

  /** Inserting v under k (no dedupe) adds one count of v to k's list and nothing else. */
  lemma {:induction false} InsertCount<K(!new), V(!new)>(db: Record<K, V>, k: K, v: V, k': K, v': V)
    ensures multiset(Get(Inserted(db, k, v, false), k'))[v'] ==
            multiset(Get(db, k'))[v'] + (if k' == k && v' == v then 1 else 0)
  {
  }

  /** No list of the record is empty. */
  predicate NonEmptyLists<K(==,!new), V>(r: Record<K, V>) {
    forall k :: k in r.lists ==> r.lists[k] != []
  }

  /** `ret` is `ret0` with `k0` added once under `v` for every `v` of `part`. */
  ghost predicate Counted<K(!new), V(!new)>(ret: Record<V, K>, ret0: Record<V, K>, k0: K, part: seq<V>) {
    forall v, k :: multiset(Get(ret, v))[k] == multiset(Get(ret0, v))[k] + (if k == k0 then multiset(part)[v] else 0)
  }

  /** Inserting keeps every list non-empty. */
  lemma {:induction false} InsertNonEmpty<K(!new), V(!new)>(prev: Record<V, K>, v0: V, k0: K)
    requires NonEmptyLists(prev)
    ensures NonEmptyLists(Inserted(prev, v0, k0, false))
  {
    var ret := Inserted(prev, v0, k0, false);
    forall v | v in ret.lists
      ensures ret.lists[v] != []
    {
      if v != v0 {
        assert Get(ret, v) == Get(prev, v);
      }
    }
  }

  /** One count of `k0` under `v` for the value `v0` just inserted. */
  lemma {:induction false} CountOne<K(!new), V(!new)>(prev: Record<V, K>, ret0: Record<V, K>, k0: K, part: seq<V>, v0: V, v: V, k: K)
    requires multiset(Get(prev, v))[k] == multiset(Get(ret0, v))[k] + (if k == k0 then multiset(part)[v] else 0)
    ensures multiset(Get(Inserted(prev, v0, k0, false), v))[k] ==
            multiset(Get(ret0, v))[k] + (if k == k0 then multiset(part + [v0])[v] else 0)
  {
    InsertCount(prev, v0, k0, v, k);
    assert multiset(part + [v0]) == multiset(part) + multiset{v0};
  }

  /** One turn of the inner loop of `reverse` counts one more value. */
  lemma {:induction false} InsertCounted<K(!new), V(!new)>(prev: Record<V, K>, ret0: Record<V, K>, k0: K, part: seq<V>, v0: V)
    requires Counted(prev, ret0, k0, part)
    ensures Counted(Inserted(prev, v0, k0, false), ret0, k0, part + [v0])
  {
    forall v, k
      ensures multiset(Get(Inserted(prev, v0, k0, false), v))[k] ==
              multiset(Get(ret0, v))[k] + (if k == k0 then multiset(part + [v0])[v] else 0)
    {
      CountOne(prev, ret0, k0, part, v0, v, k);
    }
  }

  /** One turn of the inner loop of `reverse`: `insert(ret, v0, k0)`. */
  method InsertReversed<K(==,!new), V(==,!new)>(prev: Record<V, K>, ghost ret0: Record<V, K>, k0: K, ghost part: seq<V>, v0: V)
    returns (ret: Record<V, K>)
    requires prev.Valid() && NonEmptyLists(prev) && Counted(prev, ret0, k0, part)
    ensures ret.Valid() && NonEmptyLists(ret) && Counted(ret, ret0, k0, part + [v0])
  {
    InsertNonEmpty(prev, v0, k0);
    InsertCounted(prev, ret0, k0, part, v0);
    ret := Inserted(prev, v0, k0, false);
  }

  /** The inner loop of `reverse`: `insert(ret, v, k0)` for each `v` of `list`. */
  method InsertEachReversed<K(==,!new), V(==,!new)>(ret0: Record<V, K>, k0: K, list: seq<V>) returns (ret: Record<V, K>)
    requires ret0.Valid() && NonEmptyLists(ret0)
    ensures ret.Valid() && NonEmptyLists(ret)
    ensures forall v, k :: multiset(Get(ret, v))[k] == multiset(Get(ret0, v))[k] + (if k == k0 then multiset(list)[v] else 0)
  {
    ret := ret0;
    for j := 0 to |list|
      invariant ret.Valid() && NonEmptyLists(ret)
      invariant Counted(ret, ret0, k0, list[..j])
    {
      SliceStep(list, j);
      ret := InsertReversed(ret, ret0, k0, list[..j], list[j]);
    }
    assert list[..|list|] == list;
    assert Counted(ret, ret0, k0, list);
  }

  /**
   * `reverse`: `k` appears in the list of `v` once for each time `v`
   * appears in the list of `k`; no list of the result is empty.
   */
  method Reverse<K(==,!new), V(==,!new)>(input: Record<K, V>) returns (ret: Record<V, K>)
    requires input.Valid()
    ensures ret.Valid()
    ensures forall v, k :: multiset(Get(ret, v))[k] == multiset(Get(input, k))[v]
    ensures NonEmptyLists(ret)
  {
    ret := EmptyRecord();
    for i := 0 to |input.order|
      invariant ret.Valid()
      invariant NonEmptyLists(ret)
      invariant forall v, k :: multiset(Get(ret, v))[k] == (if k in input.order[..i] then multiset(Get(input, k))[v] else 0)
    {
      var k0 := input.order[i];
      assert k0 !in input.order[..i];
      assert input.order[..i + 1] == input.order[..i] + [k0];
      ret := InsertEachReversed(ret, k0, input.lists[k0]);
    }
    assert input.order[..|input.order|] == input.order;
  }

  /** No value appears twice, neither within one list nor across lists. */
  ghost predicate UniqueValues<K(!new), V(!new)>(m: map<K, seq<V>>) {
    forall k1, k2, i, j ::
      k1 in m && k2 in m && 0 <= i < |m[k1]| && 0 <= j < |m[k2]| && m[k1][i] == m[k2][j] ==>
        k1 == k2 && i == j
  }

  /** Each value `ret` holds sits at position `pos[v]` of the list of `ret[v]`. */
  ghost predicate Placed<K(!new), V(!new)>(ret: map<V, K>, pos: map<V, nat>, m: map<K, seq<V>>) {
    && ret.Keys == pos.Keys
    && forall v :: v in ret ==> ret[v] in m && pos[v] < |m[ret[v]]| && m[ret[v]][pos[v]] == v
  }

  /** The first `n` values of the list of `k` are held by `ret`, mapped to `k`. */
  ghost predicate Covers<K(!new), V(!new)>(ret: map<V, K>, pos: map<V, nat>, m: map<K, seq<V>>, k: K, n: nat)
    requires k in m && n <= |m[k]|
  {
    forall idx :: 0 <= idx < n ==> m[k][idx] in ret && ret[m[k][idx]] == k && m[k][idx] in pos && pos[m[k][idx]] == idx
  }

  /** The inner loop of `reverseUniq` over the list of `k0`. */
  method PlaceEach<K(==,!new), V(==,!new)>(m: map<K, seq<V>>, k0: K, ret0: map<V, K>, ghost pos0: map<V, nat>)
    returns (ok: bool, ret: map<V, K>, ghost pos: map<V, nat>)
    requires k0 in m && Placed(ret0, pos0, m)
    requires forall v :: v in ret0 ==> ret0[v] != k0
    ensures !ok ==> !UniqueValues(m)
    ensures ok ==> Placed(ret, pos, m) && Covers(ret, pos, m, k0, |m[k0]|)
    ensures ok ==> forall v :: v in ret0 ==> v in ret && ret[v] == ret0[v] && pos[v] == pos0[v]
    ensures ok ==> forall v :: v in ret ==> v in ret0 || ret[v] == k0
  {
    ret, pos := ret0, pos0;
    var list := m[k0];
    for j := 0 to |list|
      invariant Placed(ret, pos, m) && Covers(ret, pos, m, k0, j)
      invariant forall v :: v in ret0 ==> v in ret && ret[v] == ret0[v] && pos[v] == pos0[v]
      invariant forall v :: v in ret ==> v in ret0 || (ret[v] == k0 && pos[v] < j)
    {
      var v := list[j];
      if v in ret {
        var k1, i1 := ret[v], pos[v];
        assert m[k1][i1] == m[k0][j];
        assert k1 != k0 || i1 != j;
        return false, ret, pos;
      }
      ret := ret[v := k0];
      pos := pos[v := j];
    }
    ok := true;
  }

  /**
   * `reverseUniq`: fails with "non-unique values" exactly when some value
   * occurs twice in the input; otherwise maps each value to the key whose
   * list holds it, and holds nothing else.
   */
  method ReverseUniq<K(==,!new), V(==,!new)>(input: Record<K, V>) returns (r: Result<map<V, K>, Error>)
    requires input.Valid()
    ensures r.Ok? <==> UniqueValues(input.lists)
    ensures r.Err? ==> r.error == NonUniqueValues
    ensures r.Ok? ==> forall k, v :: k in input.lists && v in input.lists[k] ==> v in r.value && r.value[v] == k
    ensures r.Ok? ==> forall v :: v in r.value ==> r.value[v] in input.lists && v in input.lists[r.value[v]]
  {
    var ret: map<V, K> := map[];
    ghost var pos: map<V, nat> := map[];
    for i := 0 to |input.order|
      invariant Placed(ret, pos, input.lists)
      invariant forall v :: v in ret ==> ret[v] in input.order[..i]
      invariant forall k :: k in input.order[..i] ==> Covers(ret, pos, input.lists, k, |input.lists[k]|)
    {
      var k0 := input.order[i];
      assert k0 !in input.order[..i];
      assert input.order[..i + 1] == input.order[..i] + [k0];
      var ok;
      ghost var prevRet, prevPos := ret, pos;
      ok, ret, pos := PlaceEach(input.lists, k0, ret, pos);
      if !ok {
        return Err(NonUniqueValues);
      }
      forall k | k in input.order[..i]
        ensures Covers(ret, pos, input.lists, k, |input.lists[k]|)
      {
        assert Covers(prevRet, prevPos, input.lists, k, |input.lists[k]|);
      }
    }
    assert input.order[..|input.order|] == input.order;
    assert forall k :: k in input.lists ==> Covers(ret, pos, input.lists, k, |input.lists[k]|);
    r := Ok(ret);
  }

  // ---------------------------------------------------------------------
  // String search
  // ---------------------------------------------------------------------

  /** `s.startsWith(p)` */
  predicate StartsWith(s: string, p: string) {
    |p| <= |s| && s[..|p|] == p
  }

  /** `needle` occurs in `haystack` at position `p`. */
  predicate OccursAt(haystack: string, needle: string, p: int) {
    0 <= p && p + |needle| <= |haystack| && haystack[p..p + |needle|] == needle
  }

  /** The position at which `indexOf` starts: `from` clamped into [0, |s|]. */
  function Clamp(from: int, len: nat): (p: nat)
    ensures p <= len
  {
    if from < 0 then 0 else if from > len then len else from
  }

  /** `haystack.indexOf(needle, from)`: the first occurrence at or after `from`, or -1. */
  function IndexOf(haystack: string, needle: string, from: int): (r: int)
    ensures r == -1 || (Clamp(from, |haystack|) <= r && OccursAt(haystack, needle, r))
    ensures r == -1 ==> forall p :: Clamp(from, |haystack|) <= p ==> !OccursAt(haystack, needle, p)
    ensures r >= 0 ==> forall p :: Clamp(from, |haystack|) <= p < r ==> !OccursAt(haystack, needle, p)
    decreases |haystack| - Clamp(from, |haystack|)
  {
    var p := Clamp(from, |haystack|);
    if p + |needle| > |haystack| then -1
    else if haystack[p..p + |needle|] == needle then p
    else IndexOf(haystack, needle, p + 1)
  }

  /** Every position at or after `p` where `needle` occurs, in increasing order. */
  function OccurrencesFrom(haystack: string, needle: string, p: nat): seq<nat>
    decreases |haystack| + 1 - p
  {
    if p + |needle| > |haystack| then []
    else (if haystack[p..p + |needle|] == needle then [p] else []) + OccurrencesFrom(haystack, needle, p + 1)
  }

  /** Every position where `needle` occurs, overlapping ones included. */
  function Occurrences(haystack: string, needle: string): seq<nat> {
    OccurrencesFrom(haystack, needle, 0)
  }

  lemma {:induction false} OccurrencesFromSpec(haystack: string, needle: string, p: nat)
    ensures forall i :: 0 <= i < |OccurrencesFrom(haystack, needle, p)| ==>
              p <= OccurrencesFrom(haystack, needle, p)[i]
    ensures forall q :: q in OccurrencesFrom(haystack, needle, p) <==> p <= q && OccursAt(haystack, needle, q)
    ensures forall i, j :: 0 <= i < j < |OccurrencesFrom(haystack, needle, p)| ==>
              OccurrencesFrom(haystack, needle, p)[i] < OccurrencesFrom(haystack, needle, p)[j]
    decreases |haystack| + 1 - p
  {
    if p + |needle| <= |haystack| {
      OccurrencesFromSpec(haystack, needle, p + 1);
    }
  }

  /**
   * `findOccurrences` returns every start position of the needle,
   * overlapping ones included, in strictly increasing order.
   */
  lemma {:induction false} OccurrencesSpec(haystack: string, needle: string)
    ensures forall q :: q in Occurrences(haystack, needle) <==> OccursAt(haystack, needle, q)
    ensures forall i, j :: 0 <= i < j < |Occurrences(haystack, needle)| ==>
              Occurrences(haystack, needle)[i] < Occurrences(haystack, needle)[j]
  {
    OccurrencesFromSpec(haystack, needle, 0);
  }

  /** `indexOf` from `p` skips exactly the positions that hold no occurrence. */
  lemma {:induction false} IndexOfSkips(haystack: string, needle: string, p: nat)
    requires p <= |haystack|
    ensures IndexOf(haystack, needle, p) < 0 ==> OccurrencesFrom(haystack, needle, p) == []
    ensures IndexOf(haystack, needle, p) >= 0 ==>
              OccurrencesFrom(haystack, needle, p) == OccurrencesFrom(haystack, needle, IndexOf(haystack, needle, p))
    decreases |haystack| - p
  {
    assert Clamp(p, |haystack|) == p;
    if p + |needle| <= |haystack| && haystack[p..p + |needle|] != needle {
      assert OccurrencesFrom(haystack, needle, p) == OccurrencesFrom(haystack, needle, p + 1);
      assert IndexOf(haystack, needle, p) == IndexOf(haystack, needle, p + 1);
      IndexOfSkips(haystack, needle, p + 1);
    }
  }

  /** The occurrences from an occurrence are that one and those after it. */
  lemma {:induction false} OccurrencesFromHit(haystack: string, needle: string, p: nat)
    requires OccursAt(haystack, needle, p)
    ensures OccurrencesFrom(haystack, needle, p) == [p] + OccurrencesFrom(haystack, needle, p + 1)
  {
  }

  /**
   * One turn of the `findOccurrences` loop at an occurrence: record it and
   * search again one position later.
   */
  method NextOccurrence(haystack: string, needle: string, hits0: seq<nat>, position: nat) returns (hits: seq<nat>, next: int)
    requires needle != [] && OccursAt(haystack, needle, position)
    ensures -1 <= next <= |haystack|
    ensures next >= 0 ==> position < next && OccursAt(haystack, needle, next) &&
                          hits + OccurrencesFrom(haystack, needle, next) == hits0 + OccurrencesFrom(haystack, needle, position)
    ensures next < 0 ==> hits == hits0 + OccurrencesFrom(haystack, needle, position)
  {
    OccurrencesFromHit(haystack, needle, position);
    IndexOfSkips(haystack, needle, position + 1);
    AppendAssoc(hits0, [position], OccurrencesFrom(haystack, needle, position + 1));
    hits := hits0 + [position];
    next := IndexOf(haystack, needle, position + 1);
  }

  /** `findOccurrences(haystack, needle)`; the needle must be non-empty or the loop never ends. */
  method FindOccurrences(haystack: string, needle: string) returns (hits: seq<nat>)
    requires needle != []
    ensures hits == Occurrences(haystack, needle)
  {
    hits := [];
    IndexOfSkips(haystack, needle, 0);
    var position := IndexOf(haystack, needle, 0);
    while position >= 0
      invariant -1 <= position <= |haystack|
      invariant position >= 0 ==> OccursAt(haystack, needle, position)
      invariant position >= 0 ==> hits + OccurrencesFrom(haystack, needle, position) == Occurrences(haystack, needle)
      invariant position < 0 ==> hits == Occurrences(haystack, needle)
      decreases if position < 0 then 0 else |haystack| + 1 - position
    {
      hits, position := NextOccurrence(haystack, needle, hits, position);
    }
  }

  /** `findNumOccurrences(haystack, needle)` counts what `findOccurrences` lists. */
  method FindNumOccurrences(haystack: string, needle: string) returns (count: nat)
    requires needle != []
    ensures count == |Occurrences(haystack, needle)|
  {
    count := 0;
    IndexOfSkips(haystack, needle, 0);
    var position := IndexOf(haystack, needle, 0);
    while position >= 0
      invariant position >= -1
      invariant position >= 0 ==> OccursAt(haystack, needle, position)
      invariant position >= 0 ==> count + |OccurrencesFrom(haystack, needle, position)| == |Occurrences(haystack, needle)|
      invariant position < 0 ==> count == |Occurrences(haystack, needle)|
      decreases if position < 0 then 0 else |haystack| + 1 - position
    {
      OccurrencesFromHit(haystack, needle, position);
      count := count + 1;
      IndexOfSkips(haystack, needle, position + 1);
      position := IndexOf(haystack, needle, position + 1);
    }
  }

  // ---------------------------------------------------------------------
  // max, longest, cumulativeSum
  // ---------------------------------------------------------------------

  /** Index of the first element of maximal measure (a later one must be strictly larger). */
  function FirstMaxIndex<T>(v: seq<T>, measure: T -> int): (i: nat)
    requires |v| > 0
    ensures i < |v|
    ensures forall j :: 0 <= j < |v| ==> measure(v[j]) <= measure(v[i])
    ensures forall j :: 0 <= j < i ==> measure(v[j]) < measure(v[i])
  {
    if |v| == 1 then 0
    else
      var i := FirstMaxIndex(v[..|v| - 1], measure);
      if measure(v[|v| - 1]) > measure(v[i]) then |v| - 1 else i
  }

  lemma {:induction false} FirstMaxIndexStep<T>(v: seq<T>, measure: T -> int, n: nat)
    requires 0 < n < |v|
    ensures FirstMaxIndex(v[..n + 1], measure) ==
      if measure(v[n]) > measure(v[FirstMaxIndex(v[..n], measure)]) then n else FirstMaxIndex(v[..n], measure)
  {
    assert v[..n + 1][..n] == v[..n];
  }

  /**
   * `max(v, measure)`: throws "empty" on an empty list, otherwise returns
   * the first element of maximal measure (the comparison is a strict `>`).
   */
  method Max<T>(v: seq<T>, measure: T -> int) returns (r: Result<T, Error>)
    ensures v == [] <==> r.Err?
    ensures r.Err? ==> r.error == Empty
    ensures v != [] ==> r == Ok(v[FirstMaxIndex(v, measure)])
  {
    if |v| == 0 {
      return Err(Empty);
    }
    var best := v[0];
    var bestY := measure(best);
    ghost var bestIdx := 0;
    for i := 0 to |v|
      invariant bestIdx == FirstMaxIndex(v[..if i == 0 then 1 else i], measure)
      invariant best == v[bestIdx] && bestY == measure(best)
    {
      var y := measure(v[i]);
      if i > 0 {
        FirstMaxIndexStep(v, measure, i);
      }
      if y > bestY {
        bestY := y;
        best := v[i];
        bestIdx := i;
      }
    }
    assert v[..|v|] == v;
    r := Ok(best);
  }

  function Len(s: string): int {
    |s|
  }

  /** `v.reduce((prev, curr) => curr.length > prev.length ? curr : prev)` from `prev`. */
  function LongestFold(prev: string, rest: seq<string>): string
    decreases |rest|
  {
    if rest == [] then prev
    else LongestFold(if |rest[0]| > |prev| then rest[0] else prev, rest[1..])
  }

  /** `longest(v)`: throws "empty" on an empty list, otherwise reduces with a strict `>`. */
  function Longest(v: seq<string>): (r: Result<string, Error>)
  {
    if v == [] then Err(Empty) else Ok(LongestFold(v[0], v[1..]))
  }

  lemma {:induction false} LongestFoldIsFirstMax(v: seq<string>, i: nat)
    requires 0 < i <= |v|
    ensures LongestFold(v[FirstMaxIndex(v[..i], Len)], v[i..]) == v[FirstMaxIndex(v, Len)]
    decreases |v| - i
  {
    if i == |v| {
      assert v[..i] == v;
    } else {
      FirstMaxIndexStep(v, Len, i);
      assert v[i..][1..] == v[i + 1..];
      LongestFoldIsFirstMax(v, i + 1);
    }
  }

  /**
   * `longest` fails exactly on the empty list and otherwise returns the
   * first string of maximal length: no string of the list is longer, and
   * every earlier one is strictly shorter.
   */
  lemma {:induction false} LongestSpec(v: seq<string>)
    ensures Longest(v).Err? <==> v == []
    ensures Longest(v).Err? ==> Longest(v).error == Empty
    ensures v != [] ==> Longest(v) == Ok(v[FirstMaxIndex(v, Len)])
    ensures v != [] ==> Longest(v).value in v && forall s :: s in v ==> |s| <= |Longest(v).value|
  {
    if v != [] {
      assert v[..1] == [v[0]];
      LongestFoldIsFirstMax(v, 1);
      assert v[1..] == v[1..];
    }
  }

  function Sum(v: seq<int>): int {
    if v == [] then 0 else Sum(v[..|v| - 1]) + v[|v| - 1]
  }

  /**
   * `cumulativeSum`: a copy of `v` updated in place so that each slot holds
   * the sum of the input up to and including it.
   */
  method CumulativeSum(v: seq<int>) returns (ret: seq<int>)
    ensures |ret| == |v|
    ensures |v| > 0 ==> ret[0] == v[0]
    ensures forall i :: 0 < i < |v| ==> ret[i] == ret[i - 1] + v[i]
    ensures forall i :: 0 <= i < |v| ==> ret[i] == Sum(v[..i + 1])
  {
    var a := new int[|v|];
    for i := 0 to |v|
      invariant forall j :: 0 <= j < i ==> a[j] == v[j]
    {
      a[i] := v[i];
    }
    for i := 0 to a.Length
      invariant forall j :: 0 <= j < i ==> a[j] == Sum(v[..j + 1])
      invariant forall j :: i <= j < a.Length ==> a[j] == v[j]
    {
      assert v[..i + 1][..i] == v[..i];
      a[i] := a[i] + (if i > 0 then a[i - 1] else 0);
    }
    ret := a[..];
    forall i | 0 < i < |v|
      ensures ret[i] == ret[i - 1] + v[i]
    {
      assert v[..i + 1][..i] == v[..i];
    }
  }
}
