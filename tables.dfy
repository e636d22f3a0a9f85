/**
 * What the builder's loops of `insert` calls do to `textToKeys` and
 * `keyToPrev` (index.ts), stated as functions on records: each is the
 * specification of one loop of the builder, and the lemmas below say
 * what it adds and what it leaves alone.
 */
module Tables {
  import opened Utils
  import opened Keys
  import opened Seqs

  /** `list` after appending `sources`: all of them, or with dedupe only those not yet present. */
  function Linked(list: seq<Key>, sources: seq<Key>, dedupe: bool): seq<Key> {
    if dedupe then AppendNew(list, sources) else list + sources
  }

  /** Pushes each of `sources` that the list does not already hold, one at a time. */
  function AppendNew(list: seq<Key>, sources: seq<Key>): (r: seq<Key>)
    ensures list <= r
    decreases |sources|
  {
    if sources == [] then list
    else
      var acc := AppendNew(list, sources[..|sources| - 1]);
      if sources[|sources| - 1] in acc then acc else acc + [sources[|sources| - 1]]
  }

  /**
   * Deduplicated appending keeps the list as a prefix, adds every source,
   * and adds each new value exactly once: a value the list already held
   * keeps its count.
   */
  lemma {:induction false} AppendNewSpec(list: seq<Key>, sources: seq<Key>)
    ensures forall x :: x in AppendNew(list, sources) <==> x in list || x in sources
    ensures forall x :: x in list ==> multiset(AppendNew(list, sources))[x] == multiset(list)[x]
    ensures forall x :: x !in list && x in sources ==> multiset(AppendNew(list, sources))[x] == 1
    decreases |sources|
  {
    if sources != [] {
      var init := sources[..|sources| - 1];
      AppendNewSpec(list, init);
      assert sources == init + [sources[|sources| - 1]];
    }
  }

  /** `for (const prev of sources) insert(kp, target, prev, dedupe)` */
  function LinkEach(kp: Links, target: Key, sources: seq<Key>, dedupe: bool): (r: Links)
    ensures kp.Valid() ==> r.Valid()
    decreases |sources|
  {
    if sources == [] then kp
    else Inserted(LinkEach(kp, target, sources[..|sources| - 1], dedupe), target, sources[|sources| - 1], dedupe)
  }

  /**
   * Linking `target` to `sources` appends them to its predecessor list
   * (deduplicated when asked), creates its entry only when there is
   * something to append, and leaves every other key untouched.
   */
  lemma {:induction false} LinkEachSpec(kp: Links, target: Key, sources: seq<Key>, dedupe: bool)
    ensures Get(LinkEach(kp, target, sources, dedupe), target) == Linked(Get(kp, target), sources, dedupe)
    ensures forall t :: t != target ==> Get(LinkEach(kp, target, sources, dedupe), t) == Get(kp, t)
    decreases |sources|
  {
    if sources != [] {
      var init := sources[..|sources| - 1];
      var last := sources[|sources| - 1];
      LinkEachSpec(kp, target, init, dedupe);
      if !dedupe {
        AppendSnoc(Get(kp, target), sources);
      }
    }
  }

  /** Linking creates the target's entry, unless there is nothing to link it to. */
  lemma {:induction false} LinkEachKeys(kp: Links, target: Key, sources: seq<Key>, dedupe: bool)
    ensures LinkEach(kp, target, sources, dedupe).lists.Keys ==
              kp.lists.Keys + (if sources == [] then {} else {target})
    decreases |sources|
  {
    if sources != [] {
      LinkEachKeys(kp, target, sources[..|sources| - 1], dedupe);
    }
  }

  /** `for (const t of targets) for (const prev of sources) insert(kp, t, prev, dedupe)` */
  function LinkAll(kp: Links, targets: seq<Key>, sources: seq<Key>, dedupe: bool): (r: Links)
    ensures kp.Valid() ==> r.Valid()
    decreases |targets|
  {
    if targets == [] then kp
    else LinkEach(LinkAll(kp, targets[..|targets| - 1], sources, dedupe), targets[|targets| - 1], sources, dedupe)
  }

  /** Linking one target more links the targets before it and then that one. */
  lemma {:induction false} LinkAllStep(kp: Links, targets: seq<Key>, n: nat, sources: seq<Key>, dedupe: bool)
    requires n < |targets|
    ensures LinkAll(kp, targets[..n + 1], sources, dedupe) == LinkEach(LinkAll(kp, targets[..n], sources, dedupe), targets[n], sources, dedupe)
  {
    assert targets[..n + 1][..n] == targets[..n];
  }

  /** The targets are pairwise different. */
  predicate Distinct(ks: seq<Key>) {
    forall i, j :: 0 <= i < j < |ks| ==> ks[i] != ks[j]
  }

  /** Two lists without repeats and without a common key join into one without repeats. */
  lemma {:induction false} DistinctAppend(a: seq<Key>, b: seq<Key>)
    requires Distinct(a) && Distinct(b) && forall k :: k in a ==> k !in b
    ensures Distinct(a + b)
  {
    forall i, j | 0 <= i < j < |a + b|
      ensures (a + b)[i] != (a + b)[j]
    {
      if i < |a| <= j {
        assert (a + b)[i] in a && (a + b)[j] == b[j - |a|];
      }
    }
  }

  /**
   * Linking distinct targets to the same sources gives each of them the
   * sources and changes nothing else.
   */
  lemma {:induction false} LinkAllSpec(kp: Links, targets: seq<Key>, sources: seq<Key>, dedupe: bool)
    requires Distinct(targets)
    ensures forall t :: t in targets ==> Get(LinkAll(kp, targets, sources, dedupe), t) == Linked(Get(kp, t), sources, dedupe)
    ensures forall t :: t !in targets ==> Get(LinkAll(kp, targets, sources, dedupe), t) == Get(kp, t)
    decreases |targets|
  {
    if targets != [] {
      var init := targets[..|targets| - 1];
      var last := targets[|targets| - 1];
      assert targets == init + [last];
      assert Distinct(init) && last !in init by {
        assert forall i :: 0 <= i < |init| ==> init[i] == targets[i];
      }
      var mid := LinkAll(kp, init, sources, dedupe);
      var r := LinkAll(kp, targets, sources, dedupe);
      assert r == LinkEach(mid, last, sources, dedupe);
      LinkAllSpec(kp, init, sources, dedupe);
      LinkEachSpec(mid, last, sources, dedupe);
      forall t | t in targets
        ensures Get(r, t) == Linked(Get(kp, t), sources, dedupe)
      {
        if t != last {
          assert t in init;
        }
      }
    }
  }

  /** Linking creates entries for the targets, unless there is nothing to link them to. */
  lemma {:induction false} LinkAllKeys(kp: Links, targets: seq<Key>, sources: seq<Key>, dedupe: bool)
    ensures forall k :: k in LinkAll(kp, targets, sources, dedupe).lists <==>
              k in kp.lists || (sources != [] && k in targets)
    decreases |targets|
  {
    if targets != [] {
      var init := targets[..|targets| - 1];
      var last := targets[|targets| - 1];
      assert targets == init + [last];
      LinkAllKeys(kp, init, sources, dedupe);
      LinkEachKeys(LinkAll(kp, init, sources, dedupe), last, sources, dedupe);
    }
  }

  /** The keys of `keys` whose text is `text`, in order. */
  function WithText(keys: seq<Key>, text: string): (r: seq<Key>)
    ensures forall k :: k in r <==> k in keys && k.text == text
  {
    if keys == [] then []
    else WithText(keys[..|keys| - 1], text) + (if keys[|keys| - 1].text == text then [keys[|keys| - 1]] else [])
  }

  /** Every key is listed only under its own text. */
  ghost predicate TextsMatch(tk: TextIndex) {
    forall t, k :: k in Get(tk, t) ==> k.text == t
  }

  /** `for (const k of keys) insert(textToKeys, k.text, k)` */
  function EnrollAll(tk: TextIndex, keys: seq<Key>): (r: TextIndex)
    ensures tk.Valid() ==> r.Valid()
    ensures TextsMatch(tk) ==> TextsMatch(r)
    decreases |keys|
  {
    if keys == [] then tk
    else
      var k := keys[|keys| - 1];
      var prev := EnrollAll(tk, keys[..|keys| - 1]);
      InsertAppends(prev, k.text, k);
      Inserted(prev, k.text, k, false)
  }

  /** Enrolling one key more enrolls the keys before it and then that one. */
  lemma {:induction false} EnrollAllStep(tk: TextIndex, keys: seq<Key>, n: nat)
    requires n < |keys|
    ensures EnrollAll(tk, keys[..n + 1]) == Inserted(EnrollAll(tk, keys[..n]), keys[n].text, keys[n], false)
  {
    assert keys[..n + 1][..n] == keys[..n];
  }

  /** Enrolling appends each key to the list of its own text, and only there. */
  lemma {:induction false} EnrollAllSpec(tk: TextIndex, keys: seq<Key>)
    ensures forall text :: Get(EnrollAll(tk, keys), text) == Get(tk, text) + WithText(keys, text)
    decreases |keys|
  {
    if keys != [] {
      var init := keys[..|keys| - 1];
      var k := keys[|keys| - 1];
      EnrollAllSpec(tk, init);
      var prev := EnrollAll(tk, init);
      assert EnrollAll(tk, keys) == Inserted(prev, k.text, k, false);
      forall text
        ensures Get(EnrollAll(tk, keys), text) == Get(tk, text) + WithText(keys, text)
      {
        EnrollOne(prev, Get(tk, text), WithText(init, text), k, text);
      }
    }
  }

  /** Enrolling one more key `k` appends it to the list of its own text only. */
  lemma {:induction false} EnrollOne(prev: TextIndex, before: seq<Key>, found: seq<Key>, k: Key, text: string)
    requires Get(prev, text) == before + found
    ensures Get(Inserted(prev, k.text, k, false), text) == before + (found + if k.text == text then [k] else [])
  {
    if text == k.text {
      InsertAppends(prev, k.text, k);
      AppendAssoc(before, found, [k]);
    }
  }

  /** Enrolling creates an entry for the text of every key. */
  lemma {:induction false} EnrollAllKeys(tk: TextIndex, keys: seq<Key>)
    ensures EnrollAll(tk, keys).lists.Keys == tk.lists.Keys + set k | k in keys :: k.text
    decreases |keys|
  {
    if keys != [] {
      var init := keys[..|keys| - 1];
      assert keys == init + [keys[|keys| - 1]];
      EnrollAllKeys(tk, init);
    }
  }

  /** `keys.flatMap((key) => keyToPrev[key] ?? [])` */
  function FlatPreds(kp: Links, keys: seq<Key>): (r: seq<Key>)
    ensures forall p :: p in r <==> exists k :: k in keys && p in Get(kp, k)
  {
    if keys == [] then []
    else FlatPreds(kp, keys[..|keys| - 1]) + Get(kp, keys[|keys| - 1])
  }

  /** `targets.some((t) => parents.includes(t))` */
  predicate Feeds(parents: seq<Key>, targets: seq<Key>) {
    exists t :: t in targets && t in parents
  }

  /**
   * `Object.entries(keyToPrev).filter(([, parents]) => ...).map(([key]) => key)`
   * over the keys in `order`.
   */
  function FedBy(kp: Links, order: seq<Key>, targets: seq<Key>): (r: seq<Key>)
    ensures forall k :: k in r <==> k in order && Feeds(Get(kp, k), targets)
  {
    if order == [] then []
    else
      var k := order[|order| - 1];
      FedBy(kp, order[..|order| - 1], targets) + (if Feeds(Get(kp, k), targets) then [k] else [])
  }

  /** The keys fed by `targets` are listed once each, because the record's keys are. */
  lemma {:induction false} FedByDistinct(kp: Links, order: seq<Key>, targets: seq<Key>)
    requires Distinct(order)
    ensures Distinct(FedBy(kp, order, targets))
    decreases |order|
  {
    if order != [] {
      var init := order[..|order| - 1];
      assert forall i, j :: 0 <= i < j < |init| ==> init[i] == order[i] && init[j] == order[j];
      FedByDistinct(kp, init, targets);
    }
  }
}
