/**
 * The lattice builder of index.ts: `validateSynonyms`, `insertFurigana`,
 * `parseSynonyms` and the steps of `sentenceToGraph` (the method itself
 * is in module SentenceGraph).
 *
 * The two dictionaries the builder threads through its helpers and
 * updates in place, `textToKeys` and `keyToPrev`, are the fields of a
 * `Lattice` object; `insert` on them is an assignment of `Inserted`.
 * Each method is tied to a function on a `Snapshot` of both dictionaries,
 * and the lemmas about those functions state what the builder promises.
 */
module Lattice {
  import opened Wrappers
  import opened Furigana
  import opened Utils
  import opened Keys
  import opened Tables

  // ---------------------------------------------------------------------
  // validateSynonyms
  // ---------------------------------------------------------------------

  /** `charToMorphemeIdx[i]`, which is undefined outside the text. */
  function OwnerAt(owners: seq<nat>, i: int): Option<nat> {
    if 0 <= i < |owners| then Some(owners[i]) else None
  }

  /**
   * The checks `validateSynonyms` makes of one source: it occurs in the
   * plain text, and at its first occurrence the characters just outside it
   * (where they exist) belong to other tokens than its first and last
   * characters.
   */
  predicate SourceValid(fs: seq<Furigana>, source: string) {
    var start := IndexOf(ToPlain(fs), source, 0);
    start >= 0 && SpanChecks(fs, start, start + |source| - 1)
  }

  /**
   * The two checks on a span from `start` to `end` (inclusive): the
   * characters just before and just after it, where they exist, belong to
   * other tokens than its first and last characters.
   */
  predicate SpanChecks(fs: seq<Furigana>, start: int, end: int) {
    var plain := ToPlain(fs);
    var owners := Owners(fs);
    && !(start > 0 && OwnerAt(owners, start) == OwnerAt(owners, start - 1))
    && !(end < |plain| - 1 && OwnerAt(owners, end) == OwnerAt(owners, end + 1))
  }

  predicate SynonymsValid(s: Sentence) {
    forall i :: 0 <= i < |s.synonyms| ==> SourceValid(s.furigana, s.synonyms[i].0)
  }

  /** `validateSynonyms`: the loop returns false at the first source that fails a check. */
  method ValidateSynonyms(s: Sentence) returns (valid: bool)
    ensures valid == SynonymsValid(s)
  {
    var plain := ToPlain(s.furigana);
    var owners := Owners(s.furigana);
    for i := 0 to |s.synonyms|
      invariant forall j :: 0 <= j < i ==> SourceValid(s.furigana, s.synonyms[j].0)
    {
      var synonym := s.synonyms[i].0;
      var start := IndexOf(plain, synonym, 0);
      if start < 0 {
        return false;
      }
      var end := start + |synonym| - 1;
      if start > 0 && OwnerAt(owners, start) == OwnerAt(owners, start - 1) {
        return false;
      }
      if end < |plain| - 1 && OwnerAt(owners, end) == OwnerAt(owners, end + 1) {
        return false;
      }
    }
    return true;
  }

  /** Position `p` of the plain text is where some token starts (or the text ends). */
  predicate IsBoundary(fs: seq<Furigana>, p: int) {
    exists k :: 0 <= k <= |fs| && Offset(fs, k) == p
  }

  /**
   * Inside the text, two neighbouring characters belong to different
   * tokens exactly when a token boundary falls between them.
   */
  lemma {:induction false} BoundaryIff(fs: seq<Furigana>, p: int)
    requires 0 < p < |Owners(fs)|
    ensures Owners(fs)[p - 1] != Owners(fs)[p] <==> IsBoundary(fs, p)
  {
    OwnersSpan(fs);
    var j, j' := Owners(fs)[p - 1], Owners(fs)[p];
    assert InToken(fs, p - 1, j) && InToken(fs, p, j');
    if IsBoundary(fs, p) {
      var k :| 0 <= k <= |fs| && Offset(fs, k) == p;
      if j >= k {
        OffsetMonotone(fs, k, j);
      }
      if j' < k {
        OffsetMonotone(fs, j' + 1, k);
      }
    }
    if j != j' {
      if j' < j {
        OffsetMonotone(fs, j' + 1, j);
      } else {
        OffsetMonotone(fs, j + 1, j');
        assert Offset(fs, j + 1) == p;
      }
    }
  }

  /** The check on the character before a span starting at `p`, in the form `validateSynonyms` makes it. */
  lemma {:induction false} StartCheck(fs: seq<Furigana>, p: int)
    requires 0 <= p < |ToPlain(fs)|
    ensures !(p > 0 && OwnerAt(Owners(fs), p) == OwnerAt(Owners(fs), p - 1)) <==> IsBoundary(fs, p)
  {
    OwnersLength(fs);
    if p == 0 {
      assert Offset(fs, 0) == 0;
    } else {
      BoundaryIff(fs, p);
    }
  }

  /** The check on the character after a span whose last character is `end`, just before `q`. */
  lemma {:induction false} EndCheck(fs: seq<Furigana>, end: int, q: int)
    requires 0 <= end < |ToPlain(fs)| && q == end + 1
    ensures !(end < |ToPlain(fs)| - 1 && OwnerAt(Owners(fs), end) == OwnerAt(Owners(fs), end + 1)) <==> IsBoundary(fs, q)
  {
    OwnersLength(fs);
    if q == |ToPlain(fs)| {
      assert fs[..|fs|] == fs;
      assert Offset(fs, |fs|) == q;
    } else {
      BoundaryIff(fs, q);
    }
  }

  /**
   * A non-empty source passes `validateSynonyms` exactly when it occurs in
   * the plain text and its first occurrence starts and ends on token
   * boundaries.
   */
  lemma {:induction false} SourceValidIff(fs: seq<Furigana>, source: string)
    requires source != []
    ensures SourceValid(fs, source) <==>
              var start := IndexOf(ToPlain(fs), source, 0);
              start >= 0 && IsBoundary(fs, start) && IsBoundary(fs, start + |source|)
  {
    var start := IndexOf(ToPlain(fs), source, 0);
    if start >= 0 {
      ChecksIff(fs, start, start + |source| - 1, start + |source|);
    }
  }

  /**
   * For a span from `start` to `end` (inclusive) inside the plain text,
   * the two checks of `validateSynonyms` pass exactly when the span starts
   * and ends on token boundaries.
   */
  lemma {:induction false} ChecksIff(fs: seq<Furigana>, start: int, end: int, q: int)
    requires q == end + 1 && 0 <= start <= end < |ToPlain(fs)|
    ensures SpanChecks(fs, start, end) <==> IsBoundary(fs, start) && IsBoundary(fs, q)
  {
    StartCheck(fs, start);
    EndCheck(fs, end, q);
  }

  /** A valid source has an occurrence, so `parseSynonyms` never throws "synonym not found". */
  lemma {:induction false} ValidSourceOccurs(fs: seq<Furigana>, source: string)
    requires SourceValid(fs, source)
    ensures Occurrences(ToPlain(fs), source) != []
  {
    OccurrencesSpec(ToPlain(fs), source);
    assert IndexOf(ToPlain(fs), source, 0) in Occurrences(ToPlain(fs), source);
  }

  // ---------------------------------------------------------------------
  // The builder's dictionaries, as values
  // ---------------------------------------------------------------------

  /** `textToKeys` and `keyToPrev` at one moment. */
  datatype Snapshot = Snapshot(textToKeys: TextIndex, keyToPrev: Links)

  /** Both dictionaries are well-formed records and every key is listed only under its own text. */
  ghost predicate WellFormed(st: Snapshot) {
    st.textToKeys.Valid() && st.keyToPrev.Valid() && TextsMatch(st.textToKeys)
  }

  function EmptySnapshot(): (r: Snapshot)
    ensures WellFormed(r)
  {
    Snapshot(EmptyRecord(), EmptyRecord())
  }

  /** `insertFurigana`: enroll the token's keys under their texts, link each to `prev`. */
  function InsertStep(st: Snapshot, f: Furigana, place: Place, prev: seq<Key>): (r: (Snapshot, seq<Key>))
    ensures WellFormed(st) ==> WellFormed(r.0)
  {
    var keys := TokenKeys(f, place);
    (Snapshot(EnrollAll(st.textToKeys, keys), LinkAll(st.keyToPrev, keys, prev, false)), keys)
  }

  /** The keys of the mainline token before token `n`, or none for the first. */
  function PrevMainKeys(fs: seq<Furigana>, n: nat): seq<Key>
    requires n <= |fs|
  {
    if n == 0 then [] else TokenKeys(fs[n - 1], Main(n - 1))
  }

  /** The dictionaries after the mainline loop of `sentenceToGraph` has run over `n` tokens. */
  function Mainline(fs: seq<Furigana>, n: nat): (r: Snapshot)
    requires n <= |fs|
    ensures WellFormed(r)
  {
    if n == 0 then EmptySnapshot()
    else InsertStep(Mainline(fs, n - 1), fs[n - 1], Main(n - 1), PrevMainKeys(fs, n - 1)).0
  }

  /** The chain loop of `parseSynonyms` over the first `n` replacement tokens. */
  function Chain(st: Snapshot, source: string, start: nat, dest: seq<Furigana>, n: nat, entry: seq<Key>): (r: (Snapshot, seq<Key>))
    requires n <= |dest|
    ensures WellFormed(st) ==> WellFormed(r.0)
  {
    if n == 0 then (st, entry)
    else
      var (st', prev) := Chain(st, source, start, dest, n - 1, entry);
      InsertStep(st', dest[n - 1], Alt(source, start, n - 1), prev)
  }

  /** The index of the token holding the first character of the occurrence at `start`. */
  function StartToken(fs: seq<Furigana>, source: string, start: nat): (i: nat)
    requires source != [] && OccursAt(ToPlain(fs), source, start)
    ensures i < |fs|
  {
    OwnersSpan(fs);
    Owners(fs)[start]
  }

  /** The index of the token holding the last character of the occurrence at `start`. */
  function EndToken(fs: seq<Furigana>, source: string, start: nat): (i: nat)
    requires source != [] && OccursAt(ToPlain(fs), source, start)
    ensures i < |fs|
  {
    OwnersSpan(fs);
    Owners(fs)[start + |source| - 1]
  }

  /** `if (sentence.furigana[endFuriganaIdx + 1])`: a next token exists and is truthy. */
  predicate HasNext(fs: seq<Furigana>, e: nat) {
    e + 1 < |fs| && Truthy(fs[e + 1])
  }

  /** The predecessors a replacement chain starts from: those of the span's first mainline token. */
  function SpliceEntry(kp: Links, fs: seq<Furigana>, s: nat): seq<Key>
    requires s < |fs|
  {
    FlatPreds(kp, MainlineKeys(fs, s).value)
  }

  /** "outflow: mainline": the next token, if truthy, follows the chain's tail (no dedupe). */
  function NextOutflow(kp: Links, fs: seq<Furigana>, e: nat, tail: seq<Key>): (r: Links)
    requires e < |fs|
    ensures kp.Valid() ==> r.Valid()
  {
    if HasNext(fs, e) then LinkAll(kp, MainlineKeys(fs, e + 1).value, tail, false) else kp
  }

  /** "outflow: others": every key fed by the span's last token also follows the tail (dedupe). */
  function CrossOutflow(kp: Links, fs: seq<Furigana>, e: nat, tail: seq<Key>): (r: Links)
    requires e < |fs|
    ensures kp.Valid() ==> r.Valid()
  {
    LinkAll(kp, FedBy(kp, kp.order, MainlineKeys(fs, e).value), tail, true)
  }

  /** Both outflow steps after a chain ending in `tail`. */
  function Outflow(kp: Links, fs: seq<Furigana>, e: nat, tail: seq<Key>): (r: Links)
    requires e < |fs|
    ensures kp.Valid() ==> r.Valid()
  {
    CrossOutflow(NextOutflow(kp, fs, e, tail), fs, e, tail)
  }

  /** The body of the `starts` loop of `parseSynonyms`: splice one occurrence. */
  function Splice(st: Snapshot, fs: seq<Furigana>, source: string, dest: seq<Furigana>, start: nat): (r: Snapshot)
    requires source != [] && OccursAt(ToPlain(fs), source, start)
    ensures WellFormed(st) ==> WellFormed(r)
  {
    var e := EndToken(fs, source, start);
    var entry := SpliceEntry(st.keyToPrev, fs, StartToken(fs, source, start));
    var (st1, tail) := Chain(st, source, start, dest, |dest|, entry);
    Snapshot(st1.textToKeys, Outflow(st1.keyToPrev, fs, e, tail))
  }

  /** Every position in `starts` is an occurrence of `source`. */
  predicate AllOccur(fs: seq<Furigana>, source: string, starts: seq<nat>) {
    forall i :: 0 <= i < |starts| ==> OccursAt(ToPlain(fs), source, starts[i])
  }

  /** The `starts` loop of `parseSynonyms`. */
  function SpliceAll(st: Snapshot, fs: seq<Furigana>, source: string, dest: seq<Furigana>, starts: seq<nat>): (r: Snapshot)
    requires source != [] && AllOccur(fs, source, starts)
    ensures WellFormed(st) ==> WellFormed(r)
    decreases |starts|
  {
    if starts == [] then st
    else Splice(SpliceAll(st, fs, source, dest, starts[..|starts| - 1]), fs, source, dest, starts[|starts| - 1])
  }

  /** Splicing one more occurrence of `source` is one more `Splice`. */
  lemma {:induction false} SpliceAllStep(st: Snapshot, fs: seq<Furigana>, source: string, dest: seq<Furigana>, starts: seq<nat>, j: nat)
    requires source != [] && AllOccur(fs, source, starts) && j < |starts|
    ensures AllOccur(fs, source, starts[..j]) && AllOccur(fs, source, starts[..j + 1])
    ensures SpliceAll(st, fs, source, dest, starts[..j + 1])
         == Splice(SpliceAll(st, fs, source, dest, starts[..j]), fs, source, dest, starts[j])
  {
    assert starts[..j + 1][..j] == starts[..j];
  }

  lemma {:induction false} OccurrencesOccur(fs: seq<Furigana>, source: string)
    ensures AllOccur(fs, source, Occurrences(ToPlain(fs), source))
  {
    OccurrencesSpec(ToPlain(fs), source);
  }

  /** The body of the synonym loop of `parseSynonyms`: splice every occurrence of one source. */
  function ParseOne(st: Snapshot, fs: seq<Furigana>, source: string, dest: seq<Furigana>): (r: Result<Snapshot, Error>)
    requires source != []
    ensures r.Err? ==> r.error == SynonymNotFound && Occurrences(ToPlain(fs), source) == []
    ensures WellFormed(st) && r.Ok? ==> WellFormed(r.value)
  {
    var starts := Occurrences(ToPlain(fs), source);
    OccurrencesOccur(fs, source);
    if starts == [] then Err(SynonymNotFound) else Ok(SpliceAll(st, fs, source, dest, starts))
  }

  /** `parseSynonyms` over the synonyms in order; "synonym not found" stops it. */
  function Parse(st: Snapshot, fs: seq<Furigana>, syns: seq<Synonym>): (r: Result<Snapshot, Error>)
    requires SourcesNonEmpty(syns)
    ensures r.Err? ==> r.error == SynonymNotFound
    ensures WellFormed(st) && r.Ok? ==> WellFormed(r.value)
    decreases |syns|
  {
    if syns == [] then Ok(st)
    else
      var n := |syns| - 1;
      match Parse(st, fs, syns[..n])
      case Err(e) => Err(e)
      case Ok(st') => ParseOne(st', fs, syns[n].0, syns[n].1)
  }

  /** Once a prefix of the synonyms throws, so do all of them, with the same error. */
  lemma {:induction false} ParseStopsAtError(st: Snapshot, fs: seq<Furigana>, syns: seq<Synonym>, i: nat)
    requires SourcesNonEmpty(syns) && i <= |syns|
    requires Parse(st, fs, syns[..i]).Err?
    ensures Parse(st, fs, syns) == Parse(st, fs, syns[..i])
    decreases |syns| - i
  {
    if i < |syns| {
      assert syns[..i + 1][..i] == syns[..i];
      ParseStopsAtError(st, fs, syns, i + 1);
    } else {
      assert syns[..i] == syns;
    }
  }

  /** One more synonym: the prefix's result carried through `ParseOne`. */
  lemma {:induction false} ParseStep(st: Snapshot, fs: seq<Furigana>, syns: seq<Synonym>, i: nat, st': Snapshot)
    requires SourcesNonEmpty(syns) && i < |syns|
    requires Parse(st, fs, syns[..i]) == Ok(st')
    ensures Parse(st, fs, syns[..i + 1]) == ParseOne(st', fs, syns[i].0, syns[i].1)
  {
    assert syns[..i + 1][..i] == syns[..i];
  }

  /** When every source is valid, `parseSynonyms` does not throw. */
  lemma {:induction false} ParseSucceeds(st: Snapshot, s: Sentence)
    requires SourcesNonEmpty(s.synonyms) && SynonymsValid(s)
    ensures Parse(st, s.furigana, s.synonyms).Ok?
  {
    ParsePrefixSucceeds(st, s, |s.synonyms|);
    assert s.synonyms[..|s.synonyms|] == s.synonyms;
  }

  /** Parsing the first `i` synonyms of a sentence whose sources are all valid does not throw. */
  lemma {:induction false} ParsePrefixSucceeds(st: Snapshot, s: Sentence, i: nat)
    requires SourcesNonEmpty(s.synonyms) && SynonymsValid(s) && i <= |s.synonyms|
    ensures Parse(st, s.furigana, s.synonyms[..i]).Ok?
    decreases i
  {
    if i > 0 {
      var j := i - 1;
      ParsePrefixSucceeds(st, s, j);
      var st' := Parse(st, s.furigana, s.synonyms[..j]).value;
      ParseStep(st, s.furigana, s.synonyms, j, st');
      ValidSourceOccurs(s.furigana, s.synonyms[j].0);
      assert j + 1 == i;
    }
  }

  /**
   * The dictionaries `sentenceToGraph` builds: "Invalid synonyms" when a
   * source fails validation, else the mainline pass followed by
   * `parseSynonyms`.
   */
  function Built(s: Sentence): (r: Result<Snapshot, Error>)
    requires SourcesNonEmpty(s.synonyms)
    ensures r.Err? <==> !SynonymsValid(s)
    ensures r.Err? ==> r.error == InvalidSynonyms
    ensures r.Ok? ==> WellFormed(r.value)
  {
    if !SynonymsValid(s) then Err(InvalidSynonyms)
    else
      ParseSucceeds(Mainline(s.furigana, |s.furigana|), s);
      Parse(Mainline(s.furigana, |s.furigana|), s.furigana, s.synonyms)
  }

  /** One more mainline token is one more `insertFurigana` step. */
  lemma {:induction false} MainlineUnfold(fs: seq<Furigana>, m: nat)
    requires m < |fs|
    ensures Mainline(fs, m + 1) == InsertStep(Mainline(fs, m), fs[m], Main(m), PrevMainKeys(fs, m)).0
    ensures PrevMainKeys(fs, m + 1) == TokenKeys(fs[m], Main(m))
  {
  }

  /** `k` has no list, or an empty one. */
  predicate NoneIn(links: Links, k: Key) {
    Get(links, k) == []
  }

  // ---------------------------------------------------------------------
  // The builder, in place
  // ---------------------------------------------------------------------

  class Lattice {
    var textToKeys: TextIndex
    var keyToPrev: Links

    function Snap(): Snapshot
      reads this
    {
      Snapshot(textToKeys, keyToPrev)
    }

    constructor ()
      ensures Snap() == EmptySnapshot()
    {
      textToKeys := EmptyRecord();
      keyToPrev := EmptyRecord();
    }

    /** `for (const prev of sources) insert(keyToPrev, target, prev, dedupe)` */
    method Link(target: Key, sources: seq<Key>, dedupe: bool)
      modifies this
      ensures textToKeys == old(textToKeys)
      ensures keyToPrev == LinkEach(old(keyToPrev), target, sources, dedupe)
    {
      for i := 0 to |sources|
        invariant textToKeys == old(textToKeys)
        invariant keyToPrev == LinkEach(old(keyToPrev), target, sources[..i], dedupe)
      {
        assert sources[..i + 1][..i] == sources[..i];
        keyToPrev := Inserted(keyToPrev, target, sources[i], dedupe);
      }
      assert sources[..|sources|] == sources;
    }

    /** `for (const t of targets) for (const prev of sources) insert(keyToPrev, t, prev, dedupe)` */
    method LinkTargets(targets: seq<Key>, sources: seq<Key>, dedupe: bool)
      modifies this
      ensures textToKeys == old(textToKeys)
      ensures keyToPrev == LinkAll(old(keyToPrev), targets, sources, dedupe)
    {
      for n := 0 to |targets|
        invariant textToKeys == old(textToKeys)
        invariant keyToPrev == LinkAll(old(keyToPrev), targets[..n], sources, dedupe)
      {
        assert targets[..n + 1][..n] == targets[..n];
        Link(targets[n], sources, dedupe);
      }
      assert targets[..|targets|] == targets;
    }

    /** `insertFurigana`: enroll each new key under its text and link it to `previousKeys`. */
    method InsertFurigana(f: Furigana, place: Place, previousKeys: seq<Key>) returns (keys: seq<Key>)
      modifies this
      ensures (Snap(), keys) == InsertStep(old(Snap()), f, place, previousKeys)
    {
      keys := TokenKeys(f, place);
      for n := 0 to |keys|
        invariant textToKeys == EnrollAll(old(textToKeys), keys[..n])
        invariant keyToPrev == LinkAll(old(keyToPrev), keys[..n], previousKeys, false)
      {
        EnrollAllStep(old(textToKeys), keys, n);
        LinkAllStep(old(keyToPrev), keys, n, previousKeys, false);
        textToKeys := Inserted(textToKeys, keys[n].text, keys[n], false);
        Link(keys[n], previousKeys, false);
      }
      assert keys[..|keys|] == keys;
    }

    /**
     * One occurrence of a synonym: chain the replacement tokens after the
     * predecessors of the span's first token, then link the chain's tail
     * into the next mainline token and, deduplicated, into every key that
     * follows the span's last token.
     */
    method SpliceOccurrence(fs: seq<Furigana>, source: string, dest: seq<Furigana>, start: nat)
      modifies this
      requires source != [] && OccursAt(ToPlain(fs), source, start)
      ensures Snap() == Splice(old(Snap()), fs, source, dest, start)
    {
      var owners := Owners(fs);
      var end := start + |source| - 1;
      OwnersSpan(fs);
      var startFuriganaIdx := owners[start];
      var endFuriganaIdx := owners[end];
      assert startFuriganaIdx == StartToken(fs, source, start) && endFuriganaIdx == EndToken(fs, source, start);
      var previousKeys := ChainReplacement(fs, source, dest, start, startFuriganaIdx);
      LinkOutflows(fs, endFuriganaIdx, previousKeys);
    }

    /** The chain loop of `parseSynonyms`: the replacement tokens, the first linked to the span's predecessors. */
    method ChainReplacement(fs: seq<Furigana>, source: string, dest: seq<Furigana>, start: nat, startFuriganaIdx: nat)
      returns (previousKeys: seq<Key>)
      modifies this
      requires startFuriganaIdx < |fs|
      ensures (Snap(), previousKeys) ==
                Chain(old(Snap()), source, start, dest, |dest|, SpliceEntry(old(keyToPrev), fs, startFuriganaIdx))
    {
      previousKeys := FlatPreds(keyToPrev, MainlineKeys(fs, startFuriganaIdx).value);
      ghost var entry := previousKeys;
      for fidx := 0 to |dest|
        invariant (Snap(), previousKeys) == Chain(old(Snap()), source, start, dest, fidx, entry)
      {
        previousKeys := InsertFurigana(dest[fidx], Alt(source, start, fidx), previousKeys);
      }
    }

    /** The two outflow steps of `parseSynonyms` after a chain ending in `tail`. */
    method LinkOutflows(fs: seq<Furigana>, endFuriganaIdx: nat, tail: seq<Key>)
      modifies this
      requires endFuriganaIdx < |fs|
      ensures textToKeys == old(textToKeys)
      ensures keyToPrev == Outflow(old(keyToPrev), fs, endFuriganaIdx, tail)
    {
      if endFuriganaIdx + 1 < |fs| && Truthy(fs[endFuriganaIdx + 1]) {
        LinkTargets(MainlineKeys(fs, endFuriganaIdx + 1).value, tail, false);
      }
      assert keyToPrev == NextOutflow(old(keyToPrev), fs, endFuriganaIdx, tail);
      var allOutflows := FedBy(keyToPrev, keyToPrev.order, MainlineKeys(fs, endFuriganaIdx).value);
      LinkTargets(allOutflows, tail, true);
    }

    /** The `starts` loop of `parseSynonyms`: splice each occurrence of `source` in turn. */
    method SpliceSource(fs: seq<Furigana>, source: string, dest: seq<Furigana>, starts: seq<nat>)
      modifies this
      requires source != [] && AllOccur(fs, source, starts)
      ensures Snap() == SpliceAll(old(Snap()), fs, source, dest, starts)
    {
      for j := 0 to |starts|
        invariant Snap() == SpliceAll(old(Snap()), fs, source, dest, starts[..j])
      {
        SpliceAllStep(old(Snap()), fs, source, dest, starts, j);
        SpliceOccurrence(fs, source, dest, starts[j]);
      }
      assert starts[..|starts|] == starts;
    }

    /** One iteration of the synonym loop of `parseSynonyms`; false when the source does not occur. */
    method ParseSource(fs: seq<Furigana>, source: string, dest: seq<Furigana>) returns (ok: bool)
      modifies this
      requires source != []
      ensures ok ==> ParseOne(old(Snap()), fs, source, dest) == Ok(Snap())
      ensures !ok ==> ParseOne(old(Snap()), fs, source, dest) == Err(SynonymNotFound)
    {
      var starts := FindOccurrences(ToPlain(fs), source);
      OccurrencesOccur(fs, source);
      if |starts| == 0 {
        return false;
      }
      SpliceSource(fs, source, dest, starts);
      return true;
    }

    /** `parseSynonyms`: splice every occurrence of every source, in order. */
    method ParseSynonyms(s: Sentence) returns (r: Result<(), Error>)
      modifies this
      requires SourcesNonEmpty(s.synonyms)
      ensures Parse(old(Snap()), s.furigana, s.synonyms).Ok? ==>
                r.Ok? && Snap() == Parse(old(Snap()), s.furigana, s.synonyms).value
      ensures Parse(old(Snap()), s.furigana, s.synonyms).Err? ==>
                r == Err(Parse(old(Snap()), s.furigana, s.synonyms).error)
    {
      var fs, syns := s.furigana, s.synonyms;
      for i := 0 to |syns|
        invariant Parse(old(Snap()), fs, syns[..i]) == Ok(Snap())
      {
        ghost var before := Snap();
        var ok := ParseSource(fs, syns[i].0, syns[i].1);
        ParseStep(old(Snap()), fs, syns, i, before);
        if !ok {
          ParseStopsAtError(old(Snap()), fs, syns, i + 1);
          return Err(SynonymNotFound);
        }
      }
      assert syns[..|syns|] == syns;
      return Ok(());
    }
  }

  /**
   * `g` is the graph `sentenceToGraph` wraps up from `st`: its own
   * dictionaries, `keyToNext` the exact inverse of `keyToPrev`, every
   * listed key mapped to its text, and ancestors and leaves the keys with
   * no predecessors or no successors.
   */
  ghost predicate GraphOf(st: Snapshot, g: Graph) {
    && g.textToKeys == st.textToKeys
    && g.keyToPrev == st.keyToPrev
    && (forall k, v :: multiset(Get(g.keyToNext, v))[k] == multiset(Get(g.keyToPrev, k))[v])
    && (forall t, k :: k in Get(g.textToKeys, t) ==> k in g.keyToText && g.keyToText[k] == t)
    && (forall k :: k in g.keyToText ==> g.keyToText[k] == k.text && k in Get(g.textToKeys, k.text))
    && (forall k :: k in g.ancestorKeys <==> k in g.keyToText && NoneIn(g.keyToPrev, k))
    && (forall k :: k in g.leafKeys <==> k in g.keyToText && NoneIn(g.keyToNext, k))
  }

  /** The mainline loop of `sentenceToGraph`: one `insertFurigana` per token, each linked to the previous token. */
  method LayMainline(fs: seq<Furigana>) returns (lattice: Lattice)
    ensures fresh(lattice)
    ensures lattice.Snap() == Mainline(fs, |fs|)
  {
    lattice := new Lattice();
    var previousKeys: seq<Key> := [];
    for fidx := 0 to |fs|
      invariant lattice.Snap() == Mainline(fs, fidx)
      invariant previousKeys == PrevMainKeys(fs, fidx)
    {
      previousKeys := lattice.InsertFurigana(fs[fidx], Main(fidx), previousKeys);
      MainlineUnfold(fs, fidx);
    }
  }

  /**
   * The wrap-up of `sentenceToGraph`: successors by `reverse`, each key's
   * text by `reverseUniq` (which throws when a key is listed twice), then
   * the ancestors and the leaves among the keys that have a text.
   */
  method WrapUp(st: Snapshot) returns (r: Result<Graph, Error>)
    requires WellFormed(st)
    ensures r.Ok? <==> UniqueValues(st.textToKeys.lists)
    ensures r.Err? ==> r.error == NonUniqueValues
    ensures r.Ok? ==> GraphOf(st, r.value)
  {
    var keyToNext := Reverse(st.keyToPrev);
    var keyToText := ReverseUniq(st.textToKeys);
    if keyToText.Err? {
      return Err(keyToText.error);
    }
    var text := keyToText.value;
    var ancestorKeys := set k | k in text.Keys && NoneIn(st.keyToPrev, k);
    var leafKeys := set k | k in text.Keys && NoneIn(keyToNext, k);
    r := Ok(Graph(st.textToKeys, st.keyToPrev, text, keyToNext, ancestorKeys, leafKeys));
    WrapUpGraph(st, r.value);
  }

  /** The facts `WrapUp` gathers make up `GraphOf`. */
  lemma {:induction false} WrapUpGraph(st: Snapshot, g: Graph)
    requires TextsMatch(st.textToKeys)
    requires g.textToKeys == st.textToKeys && g.keyToPrev == st.keyToPrev
    requires forall k, v :: multiset(Get(g.keyToNext, v))[k] == multiset(Get(g.keyToPrev, k))[v]
    requires forall t, k :: t in st.textToKeys.lists && k in st.textToKeys.lists[t] ==> k in g.keyToText && g.keyToText[k] == t
    requires forall k :: k in g.keyToText ==> g.keyToText[k] in st.textToKeys.lists && k in st.textToKeys.lists[g.keyToText[k]]
    requires forall k :: k in g.ancestorKeys <==> k in g.keyToText && NoneIn(g.keyToPrev, k)
    requires forall k :: k in g.leafKeys <==> k in g.keyToText && NoneIn(g.keyToNext, k)
    ensures GraphOf(st, g)
  {
    forall k | k in g.keyToText
      ensures g.keyToText[k] == k.text && k in Get(g.textToKeys, k.text)
    {
      assert k in Get(st.textToKeys, g.keyToText[k]);
    }
  }
}
