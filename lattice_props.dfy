/**
 * What the builder of index.ts does to the dictionaries, proved about the
 * specification functions of module Lattice (which the builder's methods
 * are proved to follow): the step of `insertFurigana`, the mainline pass,
 * a replacement chain and the two outflow rules of `parseSynonyms`.
 */
module LatticeProps {
  import opened Furigana
  import opened Utils
  import opened Keys
  import opened Tables
  import opened Lattice
  import opened Seqs

  // ---------------------------------------------------------------------
  // insertFurigana
  // ---------------------------------------------------------------------

  lemma {:induction false} TokenKeysDistinct(f: Furigana, place: Place)
    requires DistinctKeys(f)
    ensures Distinct(TokenKeys(f, place))
  {
  }

  /**
   * `insertFurigana` appends exactly `prev` to the predecessor list of each
   * new key and leaves every other key's list as it was.
   */
  lemma {:induction false} InsertStepLinks(st: Snapshot, f: Furigana, place: Place, prev: seq<Key>)
    requires DistinctKeys(f)
    ensures forall k :: k in TokenKeys(f, place) ==>
              Get(InsertStep(st, f, place, prev).0.keyToPrev, k) == Get(st.keyToPrev, k) + prev
    ensures forall k :: k !in TokenKeys(f, place) ==>
              Get(InsertStep(st, f, place, prev).0.keyToPrev, k) == Get(st.keyToPrev, k)
  {
    TokenKeysDistinct(f, place);
    LinkAllSpec(st.keyToPrev, TokenKeys(f, place), prev, false);
  }

  /**
   * `insertFurigana` lists each new key under its own text, after the keys
   * already there, and returns the new keys.
   */
  lemma {:induction false} InsertStepTexts(st: Snapshot, f: Furigana, place: Place, prev: seq<Key>)
    ensures InsertStep(st, f, place, prev).1 == TokenKeys(f, place)
    ensures forall t :: Get(InsertStep(st, f, place, prev).0.textToKeys, t) ==
              Get(st.textToKeys, t) + WithText(TokenKeys(f, place), t)
  {
    EnrollAllSpec(st.textToKeys, TokenKeys(f, place));
  }

  // ---------------------------------------------------------------------
  // The mainline pass
  // ---------------------------------------------------------------------

  /** Every token has distinct keys (no ruby token reads the same as it is spelled). */
  predicate AllDistinctKeys(fs: seq<Furigana>) {
    forall i :: 0 <= i < |fs| ==> DistinctKeys(fs[i])
  }

  /** `k` is a key of one of the first `n` mainline tokens. */
  predicate MainKey(fs: seq<Furigana>, n: nat, k: Key)
    requires n <= |fs|
  {
    k.place.Main? && k.place.index < n && k in TokenKeys(fs[k.place.index], Main(k.place.index))
  }

  /** The predecessor list the mainline pass gives `k` once it has laid `n` tokens. */
  function MainPrev(fs: seq<Furigana>, n: nat, k: Key): seq<Key>
    requires n <= |fs|
  {
    if MainKey(fs, n, k) then PrevMainKeys(fs, k.place.index) else []
  }

  lemma {:induction false} MainlineLinksStep(st: Snapshot, fs: seq<Furigana>, m: nat)
    requires m < |fs| && DistinctKeys(fs[m])
    requires forall k :: Get(st.keyToPrev, k) == MainPrev(fs, m, k)
    ensures forall k :: Get(InsertStep(st, fs[m], Main(m), PrevMainKeys(fs, m)).0.keyToPrev, k) == MainPrev(fs, m + 1, k)
  {
    var prev := PrevMainKeys(fs, m);
    InsertStepLinks(st, fs[m], Main(m), prev);
    EmptyAppend(prev);
    forall k
      ensures Get(InsertStep(st, fs[m], Main(m), prev).0.keyToPrev, k) == MainPrev(fs, m + 1, k)
    {
      MainKeyStep(fs, m, k);
    }
  }

  /** The keys of the first `m + 1` mainline tokens are those of the first `m` and those of token `m`. */
  lemma {:induction false} MainKeyStep(fs: seq<Furigana>, m: nat, k: Key)
    requires m < |fs|
    ensures MainKey(fs, m + 1, k) <==> MainKey(fs, m, k) || k in TokenKeys(fs[m], Main(m))
    ensures k in TokenKeys(fs[m], Main(m)) ==> !MainKey(fs, m, k) && k.place.index == m
  {
  }

  /**
   * After the mainline pass over `n` tokens, every key of token i > 0 has
   * exactly the keys of token i - 1 as predecessors, and every other key
   * (among them those of the first token) has none.
   */
  lemma {:induction false} MainlineLinks(fs: seq<Furigana>, n: nat)
    requires n <= |fs| && AllDistinctKeys(fs)
    ensures forall k :: Get(Mainline(fs, n).keyToPrev, k) == MainPrev(fs, n, k)
  {
    if n > 0 {
      var m := n - 1;
      MainlineLinks(fs, m);
      MainlineLinksStep(Mainline(fs, m), fs, m);
      MainlineUnfold(fs, m);
    }
  }

  lemma {:induction false} MainlineDomainStep(st: Snapshot, fs: seq<Furigana>, m: nat)
    requires m < |fs|
    requires forall k :: k in st.keyToPrev.lists <==> MainKey(fs, m, k) && k.place.index > 0
    ensures forall k :: k in InsertStep(st, fs[m], Main(m), PrevMainKeys(fs, m)).0.keyToPrev.lists <==>
              MainKey(fs, m + 1, k) && k.place.index > 0
  {
    LinkAllKeys(st.keyToPrev, TokenKeys(fs[m], Main(m)), PrevMainKeys(fs, m), false);
  }

  /**
   * After the mainline pass, exactly the keys of the tokens after the
   * first have an entry in `keyToPrev`: the first token's keys have none.
   */
  lemma {:induction false} MainlineDomain(fs: seq<Furigana>, n: nat)
    requires n <= |fs|
    ensures forall k :: k in Mainline(fs, n).keyToPrev.lists <==> MainKey(fs, n, k) && k.place.index > 0
  {
    if n > 0 {
      var m := n - 1;
      MainlineDomain(fs, m);
      MainlineDomainStep(Mainline(fs, m), fs, m);
      MainlineUnfold(fs, m);
    }
  }

  /** The keys of the first `n` mainline tokens, token by token. */
  function MainKeys(fs: seq<Furigana>, n: nat): seq<Key>
    requires n <= |fs|
  {
    if n == 0 then [] else MainKeys(fs, n - 1) + TokenKeys(fs[n - 1], Main(n - 1))
  }

  lemma {:induction false} WithTextAppend(a: seq<Key>, b: seq<Key>, t: string)
    ensures WithText(a + b, t) == WithText(a, t) + WithText(b, t)
    decreases |b|
  {
    if b != [] {
      var init, last := b[..|b| - 1], b[|b| - 1];
      var tl := if last.text == t then [last] else [];
      SnocFront(a, b);
      WithTextAppend(a, init, t);
      AppendAssoc(WithText(a, t), WithText(init, t), tl);
    } else {
      AppendEmpty(a);
      AppendEmpty(WithText(a, t));
    }
  }

  lemma {:induction false} MainlineTextsStep(st: Snapshot, fs: seq<Furigana>, m: nat)
    requires m < |fs|
    requires forall t :: Get(st.textToKeys, t) == WithText(MainKeys(fs, m), t)
    ensures forall t :: Get(InsertStep(st, fs[m], Main(m), PrevMainKeys(fs, m)).0.textToKeys, t) == WithText(MainKeys(fs, m + 1), t)
  {
    var keys := TokenKeys(fs[m], Main(m));
    InsertStepTexts(st, fs[m], Main(m), PrevMainKeys(fs, m));
    assert MainKeys(fs, m + 1) == MainKeys(fs, m) + keys;
    forall t
      ensures WithText(MainKeys(fs, m + 1), t) == WithText(MainKeys(fs, m), t) + WithText(keys, t)
    {
      WithTextAppend(MainKeys(fs, m), keys, t);
    }
  }

  /** After the mainline pass, a text lists the keys of exactly the tokens that carry it, in order. */
  lemma {:induction false} MainlineTexts(fs: seq<Furigana>, n: nat)
    requires n <= |fs|
    ensures forall t :: Get(Mainline(fs, n).textToKeys, t) == WithText(MainKeys(fs, n), t)
  {
    if n > 0 {
      var m := n - 1;
      MainlineTexts(fs, m);
      MainlineTextsStep(Mainline(fs, m), fs, m);
      MainlineUnfold(fs, m);
    }
  }

  /** The mainline keys are pairwise different: a repeated text gets one key per occurrence. */
  lemma {:induction false} MainKeysDistinct(fs: seq<Furigana>, n: nat)
    requires n <= |fs| && AllDistinctKeys(fs)
    ensures Distinct(MainKeys(fs, n))
    ensures forall k :: k in MainKeys(fs, n) <==> MainKey(fs, n, k)
  {
    if n > 0 {
      var m := n - 1;
      MainKeysDistinct(fs, m);
      var a, b := MainKeys(fs, m), TokenKeys(fs[m], Main(m));
      TokenKeysDistinct(fs[m], Main(m));
      DistinctAppend(a, b);
      forall k
        ensures k in a + b <==> MainKey(fs, n, k)
      {
        MainKeyStep(fs, m, k);
      }
    }
  }

  // ---------------------------------------------------------------------
  // A replacement chain
  // ---------------------------------------------------------------------

  /** `k` is a key of one of the first `n` replacement tokens spliced at `start`. */
  predicate ChainKey(source: string, start: nat, dest: seq<Furigana>, n: nat, k: Key)
    requires n <= |dest|
  {
    k.place.Alt? && k.place.source == source && k.place.start == start && k.place.fidx < n &&
    k in TokenKeys(dest[k.place.fidx], k.place)
  }

  /** What the chain links replacement token `j` to: `entry` for the first, else the previous token's keys. */
  function ChainPrev(source: string, start: nat, dest: seq<Furigana>, j: nat, entry: seq<Key>): seq<Key>
    requires j <= |dest|
  {
    if j == 0 then entry else TokenKeys(dest[j - 1], Alt(source, start, j - 1))
  }

  /** One more replacement token is one more `insertFurigana` step, linked to the previous tail. */
  lemma {:induction false} ChainUnfold(st: Snapshot, source: string, start: nat, dest: seq<Furigana>, m: nat, entry: seq<Key>)
    requires m < |dest|
    ensures Chain(st, source, start, dest, m + 1, entry) ==
              InsertStep(Chain(st, source, start, dest, m, entry).0, dest[m], Alt(source, start, m), Chain(st, source, start, dest, m, entry).1)
  {
  }

  lemma {:induction false} ChainLinksStep(st: Snapshot, r: Snapshot, source: string, start: nat, dest: seq<Furigana>, m: nat, entry: seq<Key>)
    requires m < |dest| && DistinctKeys(dest[m])
    requires forall k :: Get(r.keyToPrev, k) ==
               Get(st.keyToPrev, k) + (if ChainKey(source, start, dest, m, k) then ChainPrev(source, start, dest, k.place.fidx, entry) else [])
    ensures forall k :: Get(InsertStep(r, dest[m], Alt(source, start, m), ChainPrev(source, start, dest, m, entry)).0.keyToPrev, k) ==
              Get(st.keyToPrev, k) + (if ChainKey(source, start, dest, m + 1, k) then ChainPrev(source, start, dest, k.place.fidx, entry) else [])
  {
    var place := Alt(source, start, m);
    var prev := ChainPrev(source, start, dest, m, entry);
    var next := InsertStep(r, dest[m], place, prev).0;
    InsertStepLinks(r, dest[m], place, prev);
    forall k
      ensures Get(next.keyToPrev, k) ==
                Get(st.keyToPrev, k) + (if ChainKey(source, start, dest, m + 1, k) then ChainPrev(source, start, dest, k.place.fidx, entry) else [])
    {
      ChainLinkAt(Get(st.keyToPrev, k), Get(r.keyToPrev, k), Get(next.keyToPrev, k), source, start, dest, m, entry, k);
    }
  }

  /** `ChainLinksStep` for one key, given its lists before the chain, before this step and after it. */
  lemma {:induction false} ChainLinkAt(before: seq<Key>, mid: seq<Key>, after: seq<Key>,
                                       source: string, start: nat, dest: seq<Furigana>, m: nat, entry: seq<Key>, k: Key)
    requires m < |dest|
    requires mid == before + (if ChainKey(source, start, dest, m, k) then ChainPrev(source, start, dest, k.place.fidx, entry) else [])
    requires k in TokenKeys(dest[m], Alt(source, start, m)) ==> after == mid + ChainPrev(source, start, dest, m, entry)
    requires k !in TokenKeys(dest[m], Alt(source, start, m)) ==> after == mid
    ensures after == before + (if ChainKey(source, start, dest, m + 1, k) then ChainPrev(source, start, dest, k.place.fidx, entry) else [])
  {
    ChainKeyStep(source, start, dest, m, k);
    if k in TokenKeys(dest[m], Alt(source, start, m)) {
      AppendEmpty(before);
    }
  }

  /** The keys of the first `m + 1` replacement tokens are those of the first `m` and those of token `m`. */
  lemma {:induction false} ChainKeyStep(source: string, start: nat, dest: seq<Furigana>, m: nat, k: Key)
    requires m < |dest|
    ensures ChainKey(source, start, dest, m + 1, k) <==>
              ChainKey(source, start, dest, m, k) || k in TokenKeys(dest[m], Alt(source, start, m))
    ensures k in TokenKeys(dest[m], Alt(source, start, m)) ==> !ChainKey(source, start, dest, m, k) && k.place.fidx == m
  {
  }

  /** A chain ends in the keys of its last token, or in `entry` when it has none. */
  lemma {:induction false} ChainTail(st: Snapshot, source: string, start: nat, dest: seq<Furigana>, n: nat, entry: seq<Key>)
    requires n <= |dest|
    ensures Chain(st, source, start, dest, n, entry).1 == ChainPrev(source, start, dest, n, entry)
  {
    if n > 0 {
      var m := n - 1;
      ChainUnfold(st, source, start, dest, m, entry);
    }
  }

  /**
   * A chain gives each replacement key, on top of what it had, the
   * predecessors of the span's first token for the first replacement token
   * and the previous replacement token's keys for the others; other keys
   * keep their lists.
   */
  lemma {:induction false} ChainLinks(st: Snapshot, source: string, start: nat, dest: seq<Furigana>, n: nat, entry: seq<Key>)
    requires n <= |dest| && AllDistinctKeys(dest)
    ensures forall k :: Get(Chain(st, source, start, dest, n, entry).0.keyToPrev, k) ==
              Get(st.keyToPrev, k) + (if ChainKey(source, start, dest, n, k) then ChainPrev(source, start, dest, k.place.fidx, entry) else [])
  {
    if n > 0 {
      var m := n - 1;
      ChainLinks(st, source, start, dest, m, entry);
      ChainTail(st, source, start, dest, m, entry);
      ChainLinksStep(st, Chain(st, source, start, dest, m, entry).0, source, start, dest, m, entry);
      ChainUnfold(st, source, start, dest, m, entry);
    }
  }

  // ---------------------------------------------------------------------
  // The outflow rules
  // ---------------------------------------------------------------------

  lemma {:induction false} MainlineKeysDistinct(fs: seq<Furigana>, i: nat)
    requires i < |fs| && DistinctKeys(fs[i])
    ensures Distinct(MainlineKeys(fs, i).value)
  {
  }

  /**
   * "outflow: mainline": when a truthy token follows the span, each of its
   * keys gets the chain's tail appended (without dedupe); nothing else changes.
   */
  lemma {:induction false} NextOutflowSpec(kp: Links, fs: seq<Furigana>, e: nat, tail: seq<Key>)
    requires e < |fs| && AllDistinctKeys(fs)
    ensures forall k :: Get(NextOutflow(kp, fs, e, tail), k) ==
              Get(kp, k) + (if HasNext(fs, e) && k in MainlineKeys(fs, e + 1).value then tail else [])
  {
    if HasNext(fs, e) {
      MainlineKeysDistinct(fs, e + 1);
      LinkAllSpec(kp, MainlineKeys(fs, e + 1).value, tail, false);
    }
  }

  /**
   * "outflow: others": every key whose predecessors include a key of the
   * span's last token gets each tail key that it does not hold yet, once;
   * every other key is left alone.
   */
  lemma {:induction false} CrossOutflowSpec(kp: Links, fs: seq<Furigana>, e: nat, tail: seq<Key>)
    requires e < |fs| && kp.Valid()
    ensures forall k :: Get(CrossOutflow(kp, fs, e, tail), k) ==
              if Feeds(Get(kp, k), MainlineKeys(fs, e).value) then AppendNew(Get(kp, k), tail) else Get(kp, k)
  {
    var targets := MainlineKeys(fs, e).value;
    FedByDistinct(kp, kp.order, targets);
    LinkAllSpec(kp, FedBy(kp, kp.order, targets), tail, true);
    forall k | Feeds(Get(kp, k), targets)
      ensures k in FedBy(kp, kp.order, targets)
    {
      assert k in kp.lists;
    }
  }

  /** The cross outflow adds each tail key at most once to a list, and not at all where it already was. */
  lemma {:induction false} CrossOutflowOnce(kp: Links, fs: seq<Furigana>, e: nat, tail: seq<Key>, k: Key, t: Key)
    requires e < |fs| && kp.Valid()
    ensures t in Get(kp, k) ==> multiset(Get(CrossOutflow(kp, fs, e, tail), k))[t] == multiset(Get(kp, k))[t]
    ensures t !in Get(kp, k) ==> multiset(Get(CrossOutflow(kp, fs, e, tail), k))[t] <= 1
  {
    CrossOutflowSpec(kp, fs, e, tail);
    AppendNewSpec(Get(kp, k), tail);
  }
}
