/**
 * enumerateAcceptable.ts: the list of acceptable token sequences of a
 * sentence, for a quiz to show. The sentence itself comes first; then, for
 * every synonym in order and every disjoint occurrence of its source in the
 * plain text, the sentence with that stretch of characters replaced by the
 * synonym's tokens.
 *
 * The per-character table (`charToFuri`) holds a token at its first
 * character and `undefined` (here `None`) at the rest; a replacement is a
 * splice into a copy of that table, then the holes and empty strings are
 * filtered out.
 */
module Enumerate {
  import opened Wrappers
  import opened Furigana
  import opened Utils
  import opened Seqs

  // ---------------------------------------------------------------------
  // findAllMatches
  // ---------------------------------------------------------------------

  /**
   * The hits `findAllMatches` collects from position `p` on: the first
   * occurrence at or after `p` (what `indexOf` from `p` finds, see
   * `DisjointFromStep`), then again from just past it.
   */
  function DisjointFrom(big: string, small: string, p: nat): seq<nat>
    requires small != [] && p <= |big|
    decreases |big| - p
  {
    var later := OccurrencesFrom(big, small, p);
    if later == [] then []
    else
      OccurrencesFromSpec(big, small, p);
      assert later[0] in later;
      [later[0]] + DisjointFrom(big, small, later[0] + |small|)
  }

  /** Each hit from `p` on is an occurrence, and consecutive hits do not overlap. */
  lemma {:induction false} DisjointFromSpec(big: string, small: string, p: nat)
    requires small != [] && p <= |big|
    ensures forall i :: 0 <= i < |DisjointFrom(big, small, p)| ==>
              p <= DisjointFrom(big, small, p)[i] && OccursAt(big, small, DisjointFrom(big, small, p)[i])
    ensures forall i, j :: 0 <= i < j < |DisjointFrom(big, small, p)| ==>
              DisjointFrom(big, small, p)[i] + |small| <= DisjointFrom(big, small, p)[j]
    decreases |big| - p
  {
    var later := OccurrencesFrom(big, small, p);
    if later != [] {
      OccurrencesFromSpec(big, small, p);
      var hit := later[0];
      assert hit in later;
      var next := hit + |small|;
      DisjointFromSpec(big, small, next);
      var hits, rest := DisjointFrom(big, small, p), DisjointFrom(big, small, next);
      assert hits == [hit] + rest;
      SpacedCons(hit, rest, |small|);
    }
  }

  /** A hit followed by hits that start at least `len` past it, and are so spaced themselves, are so spaced. */
  lemma {:induction false} SpacedCons(hit: nat, rest: seq<nat>, len: nat)
    requires forall i :: 0 <= i < |rest| ==> hit + len <= rest[i]
    requires forall i, j :: 0 <= i < j < |rest| ==> rest[i] + len <= rest[j]
    ensures forall i, j :: 0 <= i < j < |[hit] + rest| ==> ([hit] + rest)[i] + len <= ([hit] + rest)[j]
  {
    var hits := [hit] + rest;
    forall i, j | 0 <= i < j < |hits|
      ensures hits[i] + len <= hits[j]
    {
      assert hits[j] == rest[j - 1];
      if i > 0 {
        assert hits[i] == rest[i - 1];
      }
    }
  }

  /** One step of the search: the hit `indexOf` finds from `p`, then the hits past it. */
  lemma {:induction false} DisjointFromStep(big: string, small: string, p: nat, hit: int)
    requires small != [] && p <= |big| && hit == IndexOf(big, small, p)
    ensures hit < 0 ==> DisjointFrom(big, small, p) == []
    ensures hit >= 0 ==> p <= hit && hit + |small| <= |big|
    ensures hit >= 0 ==> DisjointFrom(big, small, p) == [hit] + DisjointFrom(big, small, hit + |small|)
  {
    IndexOfSkips(big, small, p);
    if hit >= 0 {
      OccurrencesFromHit(big, small, hit);
      assert OccurrencesFrom(big, small, p)[0] == hit;
    }
  }

  /** `findAllMatches(big, small)`: the disjoint occurrences from the start. */
  function Matches(big: string, small: string): seq<nat>
    requires small != []
  {
    DisjointFrom(big, small, 0)
  }

  /** Occurrence `q` starts at one of the hits or inside the span of one. */
  predicate Covered(hits: seq<nat>, len: nat, q: int) {
    exists i :: 0 <= i < |hits| && hits[i] <= q < hits[i] + len
  }

  /**
   * The search is greedy from the left: an occurrence that is not itself a
   * hit overlaps a hit, which is why it was skipped.
   */
  lemma {:induction false} DisjointFromCovers(big: string, small: string, p: nat, q: int)
    requires small != [] && p <= |big|
    requires p <= q && OccursAt(big, small, q)
    ensures Covered(DisjointFrom(big, small, p), |small|, q)
    decreases |big| - p
  {
    var hits := DisjointFrom(big, small, p);
    var later := OccurrencesFrom(big, small, p);
    OccurrencesFromSpec(big, small, p);
    assert q in later;
    var k :| 0 <= k < |later| && later[k] == q;
    var hit := later[0];
    assert hit <= q;
    assert hit in later;
    var next := hit + |small|;
    var rest := DisjointFrom(big, small, next);
    assert hits == [hit] + rest;
    if q < next {
      assert hits[0] <= q < hits[0] + |small|;
    } else {
      DisjointFromCovers(big, small, next, q);
      var i :| 0 <= i < |rest| && rest[i] <= q < rest[i] + |small|;
      assert hits[i + 1] == rest[i];
    }
  }

  /**
   * `findAllMatches` lists occurrences in strictly increasing order, each
   * at least a needle's length after the previous one, and skips only
   * occurrences that overlap a listed one.
   */
  lemma {:induction false} MatchesSpec(big: string, small: string)
    requires small != []
    ensures forall i :: 0 <= i < |Matches(big, small)| ==> OccursAt(big, small, Matches(big, small)[i])
    ensures forall i, j :: 0 <= i < j < |Matches(big, small)| ==>
              Matches(big, small)[i] + |small| <= Matches(big, small)[j]
    ensures forall q :: OccursAt(big, small, q) ==> Covered(Matches(big, small), |small|, q)
  {
    DisjointFromSpec(big, small, 0);
    forall q | OccursAt(big, small, q)
      ensures Covered(Matches(big, small), |small|, q)
    {
      DisjointFromCovers(big, small, 0, q);
    }
  }

  /**
   * One turn of the `findAllMatches` loop from position `from`: search,
   * and on a hit record it and move just past it.
   */
  method Search(big: string, small: string, hits0: seq<nat>, from: nat) returns (hits: seq<nat>, hit: int)
    requires small != [] && from <= |big|
    ensures -1 <= hit <= |big|
    ensures hit >= 0 ==> from < hit && hits + DisjointFrom(big, small, hit) == hits0 + DisjointFrom(big, small, from)
    ensures hit < 0 ==> hits == hits0 + DisjointFrom(big, small, from)
  {
    hits := hits0;
    hit := IndexOf(big, small, from);
    DisjointFromStep(big, small, from, hit);
    if hit >= 0 {
      ghost var rest := DisjointFrom(big, small, hit + |small|);
      AppendAssoc(hits0, [hit], rest);
      hits := hits + [hit];
      hit := hit + |small|;
    }
  }

  /**
   * `findAllMatches(big, small)`. An empty `small` makes the source loop
   * forever (the search never advances), hence the precondition.
   */
  method FindAllMatches(big: string, small: string) returns (hits: seq<nat>)
    requires small != []
    ensures hits == Matches(big, small)
  {
    hits := [];
    var hit := 0;
    while hit >= 0
      invariant -1 <= hit <= |big|
      invariant hit >= 0 ==> hits + DisjointFrom(big, small, hit) == Matches(big, small)
      invariant hit < 0 ==> hits == Matches(big, small)
      decreases if hit < 0 then 0 else |big| + 1 - hit
    {
      hits, hit := Search(big, small, hits, hit);
    }
  }

  // ---------------------------------------------------------------------
  // The per-character token table
  // ---------------------------------------------------------------------

  /** Slots after a token's first one: `remaining`, when it is at least 1. */
  function Remaining(f: Furigana): nat {
    if |Spelling(f)| - 1 >= 1 then |Spelling(f)| - 1 else 0
  }

  /** The slots one token contributes: itself, then `remaining` holes. */
  function Cell(f: Furigana): seq<Option<Furigana>> {
    [Some(f)] + Repeat(None, Remaining(f))
  }

  /** `charToFuri`: each token, then `undefined` for its other characters. */
  function Slots(fs: seq<Furigana>): seq<Option<Furigana>> {
    if fs == [] then [] else Slots(fs[..|fs| - 1]) + Cell(fs[|fs| - 1])
  }

  /** The loop that fills `charToFuri`. */
  method CharTable(fs: seq<Furigana>) returns (slots: seq<Option<Furigana>>)
    ensures slots == Slots(fs)
  {
    slots := [];
    for i := 0 to |fs|
      invariant slots == Slots(fs[..i])
    {
      var f := fs[i];
      ghost var before := slots;
      slots := slots + [Some(f)];
      var remaining := |Spelling(f)| - 1;
      if remaining >= 1 {
        slots := slots + Repeat(None, remaining);
      }
      assert slots == before + Cell(f);
      assert fs[..i + 1][..i] == fs[..i];
    }
    assert fs[..|fs|] == fs;
  }

  lemma {:induction false} SlotsAppend(a: seq<Furigana>, b: seq<Furigana>)
    ensures Slots(a + b) == Slots(a) + Slots(b)
    decreases |b|
  {
    if b == [] {
      assert a + b == a;
    } else {
      var n := |b| - 1;
      var init, last := b[..n], b[n];
      assert (a + b)[..|a + b| - 1] == a + init;
      assert (a + b)[|a + b| - 1] == last;
      assert Slots(a + b) == Slots(a + init) + Cell(last);
      SlotsAppend(a, init);
      assert Slots(b) == Slots(init) + Cell(last);
      assert Slots(a) + Slots(init) + Cell(last) == Slots(a) + (Slots(init) + Cell(last));
    }
  }

  /** Every token spells at least one character. */
  predicate Spelled(fs: seq<Furigana>) {
    forall k :: 0 <= k < |fs| ==> Spelling(fs[k]) != []
  }

  /** When every token spells something, the table has one slot per character. */
  lemma {:induction false} SlotsLength(fs: seq<Furigana>)
    requires Spelled(fs)
    ensures |Slots(fs)| == |ToPlain(fs)|
    decreases |fs|
  {
    if fs != [] {
      SlotsLength(fs[..|fs| - 1]);
    }
  }

  /** When every token spells something, token `k`'s slots start at its character offset. */
  lemma {:induction false} SlotsOffset(fs: seq<Furigana>, k: nat)
    requires Spelled(fs) && k <= |fs|
    ensures |Slots(fs[..k])| == Offset(fs, k)
  {
    var before := fs[..k];
    assert Spelled(before);
    SlotsLength(before);
  }

  /**
   * One slot per plain-text character: token `k` sits at the offset of its
   * first character and `None` fills the slots of its other characters.
   */
  lemma {:induction false} SlotsSpec(fs: seq<Furigana>, k: nat)
    requires Spelled(fs) && k < |fs|
    ensures |Slots(fs)| == |ToPlain(fs)|
    ensures |Slots(fs[..k])| == Offset(fs, k)
    ensures Slots(fs) == Slots(fs[..k]) + Cell(fs[k]) + Slots(fs[k + 1..])
    ensures Cell(fs[k]) == [Some(fs[k])] + Repeat(None, |Spelling(fs[k])| - 1)
  {
    var before, token, after := fs[..k], fs[k], fs[k + 1..];
    SlotsLength(fs);
    SlotsOffset(fs, k);
    SplitAt(fs, k);
    SlotsAround(before, token, after);
  }

  lemma {:induction false} SlotsAround(before: seq<Furigana>, token: Furigana, after: seq<Furigana>)
    ensures Slots(before + [token] + after) == Slots(before) + Cell(token) + Slots(after)
  {
    SlotsAppend(before + [token], after);
    SlotsAppend(before, [token]);
    assert Slots([token]) == Cell(token) by {
      assert [token][..0] == [];
    }
  }

  // ---------------------------------------------------------------------
  // Splicing and filtering
  // ---------------------------------------------------------------------

  /** `s.splice(start, deleteCount, ...items)` on a copy: both bounds clamp to the end. */
  function Splice(s: seq<Option<Furigana>>, start: nat, deleteCount: nat, items: seq<Option<Furigana>>): seq<Option<Furigana>> {
    var from := if start <= |s| then start else |s|;
    var to := if from + deleteCount <= |s| then from + deleteCount else |s|;
    s[..from] + items + s[to..]
  }

  /** The spread `...synFuri`: every replacement token as a defined slot. */
  function Defined(fs: seq<Furigana>): (r: seq<Option<Furigana>>)
    ensures |r| == |fs|
  {
    if fs == [] then [] else Defined(fs[..|fs| - 1]) + [Some(fs[|fs| - 1])]
  }

  /** `filter((x) => !!x)`: holes and empty plain strings are dropped. */
  function Present(slots: seq<Option<Furigana>>): seq<Furigana> {
    if slots == [] then []
    else
      var last := slots[|slots| - 1];
      Present(slots[..|slots| - 1]) + (if last.Some? && Truthy(last.value) then [last.value] else [])
  }

  /** The tokens of `fs` that are not empty plain strings, in order. */
  function Truthful(fs: seq<Furigana>): seq<Furigana> {
    if fs == [] then []
    else Truthful(fs[..|fs| - 1]) + (if Truthy(fs[|fs| - 1]) then [fs[|fs| - 1]] else [])
  }

  lemma {:induction false} PresentAppend(a: seq<Option<Furigana>>, b: seq<Option<Furigana>>)
    ensures Present(a + b) == Present(a) + Present(b)
    decreases |b|
  {
    if b == [] {
      AppendEmpty(a);
      AppendEmpty(Present(a));
    } else {
      var n := |b| - 1;
      var last := b[n];
      SnocFront(a, b);
      PresentAppend(a, b[..n]);
      AppendAssoc(Present(a), Present(b[..n]), if last.Some? && Truthy(last.value) then [last.value] else []);
    }
  }

  lemma {:induction false} PresentHoles(n: nat)
    ensures Present(Repeat(None, n)) == []
  {
    if n > 0 {
      PresentHoles(n - 1);
    }
  }

  /** Filtering the table gives back the tokens, empty strings removed. */
  lemma {:induction false} PresentSlots(fs: seq<Furigana>)
    ensures Present(Slots(fs)) == Truthful(fs)
    decreases |fs|
  {
    if fs != [] {
      var init, last := fs[..|fs| - 1], fs[|fs| - 1];
      PresentSlots(init);
      PresentAppend(Slots(init), Cell(last));
      PresentCell(last);
    }
  }

  /** A token's slots filter down to the token itself, unless it is an empty string. */
  lemma {:induction false} PresentCell(f: Furigana)
    ensures Present(Cell(f)) == if Truthy(f) then [f] else []
  {
    var head: seq<Option<Furigana>> := [Some(f)];
    PresentAppend(head, Repeat(None, Remaining(f)));
    PresentHoles(Remaining(f));
    assert head[..0] == [];
    AppendEmpty(Present(head));
  }

  /** Filtering the spread replacement drops exactly its empty strings. */
  lemma {:induction false} PresentDefined(fs: seq<Furigana>)
    ensures Present(Defined(fs)) == Truthful(fs)
    decreases |fs|
  {
    if fs != [] {
      PresentDefined(fs[..|fs| - 1]);
    }
  }

  /** Tokens that spell something are all truthy. */
  lemma {:induction false} TruthfulSpelled(fs: seq<Furigana>)
    requires Spelled(fs)
    ensures Truthful(fs) == fs
    decreases |fs|
  {
    if fs != [] {
      TruthfulSpelled(fs[..|fs| - 1]);
    }
  }

  /** The sequence pushed for one hit of one synonym. */
  function Variant(slots: seq<Option<Furigana>>, hit: nat, syn: Synonym): seq<Furigana> {
    Present(Splice(slots, hit, |syn.0|, Defined(syn.1)))
  }

  /**
   * Splicing at the offset of token `a` over the characters of tokens
   * `a..b` removes exactly their slots.
   */
  lemma {:induction false} SpliceAligned(fs: seq<Furigana>, a: nat, b: nat, items: seq<Option<Furigana>>)
    requires Spelled(fs) && a <= b <= |fs|
    ensures Splice(Slots(fs), Offset(fs, a), |ToPlain(fs[a..b])|, items) == Slots(fs[..a]) + items + Slots(fs[b..])
  {
    var before, span, after := fs[..a], fs[a..b], fs[b..];
    assert fs == before + span + after;
    assert Spelled(before) && Spelled(span);
    SlotsLength(before);
    SlotsLength(span);
    SlotsAppend(before + span, after);
    SlotsAppend(before, span);
    SpliceMiddle(Slots(before), Slots(span), Slots(after), items);
  }

  /** Splicing out exactly the middle part of a table. */
  lemma {:induction false} SpliceMiddle(x: seq<Option<Furigana>>, y: seq<Option<Furigana>>, z: seq<Option<Furigana>>, items: seq<Option<Furigana>>)
    ensures Splice(x + y + z, |x|, |y|, items) == x + items + z
  {
    var s := x + y + z;
    assert s[..|x|] == x;
    assert s[|x| + |y|..] == z;
  }

  /** Filtering the spliced table keeps the surrounding tokens and the truthy replacement. */
  lemma {:induction false} PresentAround(fs: seq<Furigana>, a: nat, b: nat, items: seq<Furigana>)
    requires Spelled(fs) && a <= b <= |fs|
    ensures Present(Slots(fs[..a]) + Defined(items) + Slots(fs[b..])) == fs[..a] + Truthful(items) + fs[b..]
  {
    var before, after := fs[..a], fs[b..];
    assert Spelled(before) && Spelled(after);
    PresentAppend(Slots(before) + Defined(items), Slots(after));
    PresentAppend(Slots(before), Defined(items));
    PresentSlots(before);
    PresentSlots(after);
    PresentDefined(items);
    TruthfulSpelled(before);
    TruthfulSpelled(after);
  }

  /**
   * A hit that starts at token `a` and ends where token `b` starts gives
   * the tokens before `a`, the replacement (empty strings dropped), and
   * the tokens from `b` on; an empty replacement deletes the span.
   */
  lemma {:induction false} AlignedVariant(fs: seq<Furigana>, a: nat, b: nat, syn: Synonym)
    requires Spelled(fs) && a <= b <= |fs|
    requires ToPlain(fs[a..b]) == syn.0
    ensures Variant(Slots(fs), Offset(fs, a), syn) == fs[..a] + Truthful(syn.1) + fs[b..]
  {
    SpliceAligned(fs, a, b, Defined(syn.1));
    PresentAround(fs, a, b, syn.1);
  }

  // ---------------------------------------------------------------------
  // enumerateAcceptable
  // ---------------------------------------------------------------------

  /** One sequence per hit, in hit order. */
  function VariantsOf(slots: seq<Option<Furigana>>, hits: seq<nat>, syn: Synonym): (r: seq<seq<Furigana>>)
    ensures |r| == |hits|
  {
    if hits == [] then []
    else VariantsOf(slots, hits[..|hits| - 1], syn) + [Variant(slots, hits[|hits| - 1], syn)]
  }

  /** The `i`-th pushed sequence comes from the `i`-th hit. */
  lemma {:induction false} VariantsOfAt(slots: seq<Option<Furigana>>, hits: seq<nat>, syn: Synonym, i: nat)
    requires i < |hits|
    ensures VariantsOf(slots, hits, syn)[i] == Variant(slots, hits[i], syn)
    decreases |hits|
  {
    var n := |hits| - 1;
    if i < n {
      VariantsOfAt(slots, hits[..n], syn, i);
    }
  }

  /** The sequences pushed for the first `n` synonyms, in synonym order then hit order. */
  function AllVariants(slots: seq<Option<Furigana>>, plain: string, syns: seq<Synonym>, n: nat): seq<seq<Furigana>>
    requires SourcesNonEmpty(syns) && n <= |syns|
  {
    if n == 0 then []
    else AllVariants(slots, plain, syns, n - 1) + VariantsOf(slots, Matches(plain, syns[n - 1].0), syns[n - 1])
  }

  /** The first `j + 1` synonyms push what the first `j` push, then the hits of synonym `j`. */
  lemma {:induction false} AllVariantsStep(slots: seq<Option<Furigana>>, plain: string, syns: seq<Synonym>, j: nat)
    requires SourcesNonEmpty(syns) && j < |syns|
    ensures AllVariants(slots, plain, syns, j + 1) ==
            AllVariants(slots, plain, syns, j) + VariantsOf(slots, Matches(plain, syns[j].0), syns[j])
  {
  }

  /** The number of hits of the first `n` synonyms. */
  function TotalHits(plain: string, syns: seq<Synonym>, n: nat): nat
    requires SourcesNonEmpty(syns) && n <= |syns|
  {
    if n == 0 then 0 else TotalHits(plain, syns, n - 1) + |Matches(plain, syns[n - 1].0)|
  }

  /** The value `enumerateAcceptable` returns. */
  function Acceptable(s: Sentence): seq<seq<Furigana>>
    requires SourcesNonEmpty(s.synonyms)
  {
    [s.furigana] + AllVariants(Slots(s.furigana), ToPlain(s.furigana), s.synonyms, |s.synonyms|)
  }

  /** One pushed sequence per (synonym, hit). */
  lemma {:induction false} AllVariantsCount(slots: seq<Option<Furigana>>, plain: string, syns: seq<Synonym>, n: nat)
    requires SourcesNonEmpty(syns) && n <= |syns|
    ensures |AllVariants(slots, plain, syns, n)| == TotalHits(plain, syns, n)
  {
    if n > 0 {
      AllVariantsCount(slots, plain, syns, n - 1);
    }
  }

  /**
   * Hit `i` of synonym `j` lands after the hits of the synonyms before
   * `j` and the hits of `j` before `i`.
   */
  lemma {:induction false} AllVariantsAt(slots: seq<Option<Furigana>>, plain: string, syns: seq<Synonym>, n: nat, j: nat, i: nat)
    requires SourcesNonEmpty(syns) && j < n <= |syns| && i < |Matches(plain, syns[j].0)|
    ensures TotalHits(plain, syns, j) + i < |AllVariants(slots, plain, syns, n)|
    ensures AllVariants(slots, plain, syns, n)[TotalHits(plain, syns, j) + i] ==
            Variant(slots, Matches(plain, syns[j].0)[i], syns[j])
  {
    var m := n - 1;
    AllVariantsCount(slots, plain, syns, m);
    AllVariantsCount(slots, plain, syns, n);
    if j < m {
      AllVariantsAt(slots, plain, syns, m, j, i);
    } else {
      VariantsOfAt(slots, Matches(plain, syns[j].0), syns[j], i);
    }
  }

  /**
   * The sentence comes first; without synonyms it is alone; otherwise one
   * sequence follows per (synonym, hit).
   */
  lemma {:induction false} AcceptableSpec(s: Sentence)
    requires SourcesNonEmpty(s.synonyms)
    ensures Acceptable(s)[0] == s.furigana
    ensures s.synonyms == [] ==> Acceptable(s) == [s.furigana]
    ensures |Acceptable(s)| == 1 + TotalHits(ToPlain(s.furigana), s.synonyms, |s.synonyms|)
  {
    AllVariantsCount(Slots(s.furigana), ToPlain(s.furigana), s.synonyms, |s.synonyms|);
  }

  /** The inner loop: push one filtered, spliced copy of the table per hit. */
  method PushVariants(ret0: seq<seq<Furigana>>, slots: seq<Option<Furigana>>, hits: seq<nat>, syn: Synonym)
    returns (ret: seq<seq<Furigana>>)
    ensures ret == ret0 + VariantsOf(slots, hits, syn)
  {
    ret := ret0;
    for i := 0 to |hits|
      invariant ret == ret0 + VariantsOf(slots, hits[..i], syn)
    {
      // `slots` is a value: splicing the copy leaves the table unchanged
      var copy := Splice(slots, hits[i], |syn.0|, Defined(syn.1));
      ret := ret + [Present(copy)];
      assert hits[..i + 1][..i] == hits[..i];
    }
    assert hits[..|hits|] == hits;
  }

  /** One turn of the loop over the synonyms: find the hits of synonym `j`, push a sequence per hit. */
  method PushSynonym(ret0: seq<seq<Furigana>>, slots: seq<Option<Furigana>>, plain: string, syns: seq<Synonym>, j: nat,
                     ghost head: seq<seq<Furigana>>)
    returns (ret: seq<seq<Furigana>>)
    requires SourcesNonEmpty(syns) && j < |syns|
    requires ret0 == head + AllVariants(slots, plain, syns, j)
    ensures ret == head + AllVariants(slots, plain, syns, j + 1)
  {
    var syn := syns[j];
    var hits := FindAllMatches(plain, syn.0);
    ret := PushVariants(ret0, slots, hits, syn);
    AllVariantsStep(slots, plain, syns, j);
  }

  /** `enumerateAcceptable(sentence)`. */
  method EnumerateAcceptable(sentence: Sentence) returns (ret: seq<seq<Furigana>>)
    requires SourcesNonEmpty(sentence.synonyms)
    ensures ret == Acceptable(sentence)
  {
    ret := [sentence.furigana];
    if sentence.synonyms == [] {
      return;
    }
    var slots := CharTable(sentence.furigana);
    var plain := ToPlain(sentence.furigana);
    var syns := sentence.synonyms;
    for j := 0 to |syns|
      invariant ret == [sentence.furigana] + AllVariants(slots, plain, syns, j)
    {
      ret := PushSynonym(ret, slots, plain, syns, j, [sentence.furigana]);
    }
  }
}
