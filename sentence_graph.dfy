/**
 * `sentenceToGraph` of index.ts, and when it succeeds. The builder's
 * steps live in module Lattice and what they do to the dictionaries in
 * module LatticeProps; this module puts the two together.
 */
module SentenceGraph {
  import opened Wrappers
  import opened Furigana
  import opened Utils
  import opened Keys
  import opened Tables
  import opened Lattice
  import opened LatticeProps
  import opened Seqs

  /** Keeping only the keys with one text keeps a list free of repeats. */
  lemma {:induction false} WithTextDistinct(keys: seq<Key>, text: string)
    requires Distinct(keys)
    ensures Distinct(WithText(keys, text))
    decreases |keys|
  {
    if keys != [] {
      var init, last := keys[..|keys| - 1], keys[|keys| - 1];
      assert Distinct(init);
      WithTextDistinct(init, text);
      var kept := if last.text == text then [last] else [];
      assert last !in init;
      DistinctAppend(WithText(init, text), kept);
    }
  }

  /**
   * When no token reads as it is spelled, the mainline pass lists every
   * key once, under its own text only: the values of `textToKeys` are
   * unique.
   */
  lemma {:induction false} MainlineUnique(fs: seq<Furigana>)
    requires AllDistinctKeys(fs)
    ensures UniqueValues(Mainline(fs, |fs|).textToKeys.lists)
  {
    var n := |fs|;
    var tk := Mainline(fs, n).textToKeys;
    var all := MainKeys(fs, n);
    MainlineTexts(fs, n);
    MainKeysDistinct(fs, n);
    forall t1, t2, i, j |
      t1 in tk.lists && t2 in tk.lists && 0 <= i < |tk.lists[t1]| && 0 <= j < |tk.lists[t2]| &&
      tk.lists[t1][i] == tk.lists[t2][j]
      ensures t1 == t2 && i == j
    {
      assert tk.lists[t1] == Get(tk, t1) == WithText(all, t1);
      assert tk.lists[t2] == Get(tk, t2) == WithText(all, t2);
      assert tk.lists[t1][i] in WithText(all, t1) && tk.lists[t2][j] in WithText(all, t2);
      WithTextDistinct(all, t1);
    }
  }

  lemma {:induction false} WithTextOne(k: Key, text: string)
    requires k.text == text
    ensures WithText([k], text) == [k]
  {
    assert [k][..0] == [];
  }

  /** The keys of mainline tokens `m` to `n - 1`, in the order they are enrolled. */
  function KeysBetween(fs: seq<Furigana>, m: nat, n: nat): seq<Key>
    requires m <= n <= |fs|
    decreases n - m
  {
    if m == n then [] else KeysBetween(fs, m, n - 1) + TokenKeys(fs[n - 1], Main(n - 1))
  }

  /** Later tokens only add keys after those of earlier ones. */
  lemma {:induction false} MainKeysSplit(fs: seq<Furigana>, m: nat, n: nat)
    requires m <= n <= |fs|
    ensures MainKeys(fs, n) == MainKeys(fs, m) + KeysBetween(fs, m, n)
    decreases n - m
  {
    if m < n {
      MainKeysSplit(fs, m, n - 1);
      AppendAssoc(MainKeys(fs, m), KeysBetween(fs, m, n - 1), TokenKeys(fs[n - 1], Main(n - 1)));
    } else {
      AppendEmpty(MainKeys(fs, m));
    }
  }

  /** A ruby token whose reading is its spelling enrolls its key twice in a row. */
  lemma {:induction false} TwiceInARow(fs: seq<Furigana>, i: nat) returns (w: seq<Key>)
    requires i < |fs| && !DistinctKeys(fs[i])
    ensures WithText(MainKeys(fs, i + 1), fs[i].rt) == w + [Key(fs[i].rt, Main(i))] + [Key(fs[i].rt, Main(i))]
  {
    var t := fs[i].rt;
    var k, before := Key(t, Main(i)), MainKeys(fs, i);
    assert TokenKeys(fs[i], Main(i)) == [k] + [k];
    assert MainKeys(fs, i + 1) == (before + [k]) + [k];
    WithTextOne(k, t);
    WithTextAppend(before + [k], [k], t);
    WithTextAppend(before, [k], t);
    w := WithText(before, t);
  }

  /** Keys enrolled later leave a pair enrolled earlier where it was. */
  lemma {:induction false} PairStays(head: seq<Key>, rest: seq<Key>, w: seq<Key>, k: Key)
    requires WithText(head, k.text) == w + [k] + [k]
    ensures |w| + 1 < |WithText(head + rest, k.text)|
    ensures WithText(head + rest, k.text)[|w|] == k == WithText(head + rest, k.text)[|w| + 1]
  {
    WithTextAppend(head, rest, k.text);
  }

  /** A ruby token that reads as it is spelled makes the values of `textToKeys` repeat. */
  lemma {:induction false} MainlineNotUnique(fs: seq<Furigana>, i: nat)
    requires i < |fs| && !DistinctKeys(fs[i])
    ensures !UniqueValues(Mainline(fs, |fs|).textToKeys.lists)
  {
    var n := |fs|;
    var tk := Mainline(fs, n).textToKeys;
    var t := fs[i].rt;
    var w := TwiceInARow(fs, i);
    var k, head, rest := Key(t, Main(i)), MainKeys(fs, i + 1), KeysBetween(fs, i + 1, n);
    MainKeysSplit(fs, i + 1, n);
    PairStays(head, rest, w, k);
    MainlineTexts(fs, n);
    assert Get(tk, t) == WithText(head + rest, t);
    assert t in tk.lists;
    assert tk.lists[t][|w|] == tk.lists[t][|w| + 1];
  }

  /**
   * A sentence without synonyms always passes validation, and its build
   * succeeds exactly when no ruby token reads as it is spelled: then every
   * key is listed once, under its own text.
   */
  lemma {:induction false} NoSynonymsBuild(s: Sentence)
    requires s.synonyms == []
    ensures SynonymsValid(s) && Built(s) == Ok(Mainline(s.furigana, |s.furigana|))
    ensures UniqueValues(Built(s).value.textToKeys.lists) <==> AllDistinctKeys(s.furigana)
  {
    if AllDistinctKeys(s.furigana) {
      MainlineUnique(s.furigana);
    } else {
      var i :| 0 <= i < |s.furigana| && !DistinctKeys(s.furigana[i]);
      MainlineNotUnique(s.furigana, i);
    }
  }

  /** `sentenceToGraph`. */
  method SentenceToGraph(s: Sentence) returns (r: Result<Graph, Error>)
    requires SourcesNonEmpty(s.synonyms)
    ensures !SynonymsValid(s) ==> r == Err(InvalidSynonyms)
    ensures SynonymsValid(s) ==> (r.Ok? <==> UniqueValues(Built(s).value.textToKeys.lists))
    ensures SynonymsValid(s) && r.Err? ==> r.error == NonUniqueValues
    ensures r.Ok? ==> SynonymsValid(s) && GraphOf(Built(s).value, r.value)
    ensures s.synonyms == [] ==> (r.Ok? <==> AllDistinctKeys(s.furigana))
  {
    var valid := ValidateSynonyms(s);
    if !valid {
      return Err(InvalidSynonyms);
    }
    var lattice := LayMainline(s.furigana);
    var parsed := lattice.ParseSynonyms(s);
    ParseSucceeds(Mainline(s.furigana, |s.furigana|), s);
    r := WrapUp(lattice.Snap());
    if s.synonyms == [] {
      NoSynonymsBuild(s);
    }
  }
}
