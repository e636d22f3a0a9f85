/**
 * addSynonym.ts: given a sentence and a full alternative phrasing of it,
 * trim the tokens the two share on the left and on the right (as long as
 * what is left still locates itself uniquely), and record what remains as
 * a new synonym `[source text, replacement tokens]`, unless it is a no-op
 * or a duplicate.
 *
 * The helpers `zip`, `zipRight`, `furiganaEqual` and `appearsExactlyOnce`
 * come from a utils.ts that is not part of this model; they are defined
 * here minimally.
 */
module AddSynonym {
  import opened Furigana
  import opened Utils
  import opened Seqs

  // ---------------------------------------------------------------------
  // Helpers
  // ---------------------------------------------------------------------

  /**
   * `furiganaEqual`: two plain tokens with the same text, or two ruby
   * tokens with the same reading (the spelling may differ).
   */
  predicate FuriganaEqual(a: Furigana, b: Furigana) {
    || (a.Plain? && b.Plain? && a.text == b.text)
    || (a.Ruby? && b.Ruby? && a.rt == b.rt)
  }

  function Min(a: nat, b: nat): nat {
    if a <= b then a else b
  }

  /** `zip(a, b)`: pairs from the left, as many as the shorter list has. */
  function Zip<T>(a: seq<T>, b: seq<T>): (r: seq<(T, T)>)
    ensures |r| == Min(|a|, |b|)
    ensures forall i :: 0 <= i < |r| ==> r[i] == (a[i], b[i])
  {
    seq(Min(|a|, |b|), i requires 0 <= i < Min(|a|, |b|) => (a[i], b[i]))
  }

  /** The `i`-th element counted from the end. */
  function FromEnd<T>(v: seq<T>, i: nat): T
    requires i < |v|
  {
    v[|v| - 1 - i]
  }

  /** The `j`-th pair from the left is equal. */
  predicate Agree(orig: seq<Furigana>, syn: seq<Furigana>, j: nat)
    requires j < |orig| && j < |syn|
  {
    FuriganaEqual(orig[j], syn[j])
  }

  /** The `j`-th pair from the right is equal. */
  predicate AgreeFromEnd(orig: seq<Furigana>, syn: seq<Furigana>, j: nat)
    requires j < |orig| && j < |syn|
  {
    FuriganaEqual(FromEnd(orig, j), FromEnd(syn, j))
  }

  /** `zipRight(a, b)`: pairs from the right, as many as the shorter list has. */
  function ZipRight<T>(a: seq<T>, b: seq<T>): (r: seq<(T, T)>)
    ensures |r| == Min(|a|, |b|)
    ensures forall i :: 0 <= i < |r| ==> r[i] == (FromEnd(a, i), FromEnd(b, i))
  {
    seq(Min(|a|, |b|), i requires 0 <= i < Min(|a|, |b|) => (FromEnd(a, i), FromEnd(b, i)))
  }

  /** `appearsExactlyOnce(haystack, needle)` */
  predicate AppearsExactlyOnce(haystack: string, needle: string) {
    |Occurrences(haystack, needle)| == 1
  }

  /** `appearsExactlyOnce` by counting with `findNumOccurrences`. */
  method CountOnce(haystack: string, needle: string) returns (once: bool)
    requires needle != []
    ensures once <==> AppearsExactlyOnce(haystack, needle)
  {
    var n := FindNumOccurrences(haystack, needle);
    once := n == 1;
  }

  /**
   * The test that lets a trim grow: the proposed texts (what would remain
   * of the sentence's tokens and of the candidate's) are non-empty and
   * each occurs exactly once in its list's full plain text.
   */
  predicate Locates(origPlain: string, synPlain: string, origProposed: string, synProposed: string) {
    && origProposed != [] && synProposed != []
    && AppearsExactlyOnce(origPlain, origProposed)
    && AppearsExactlyOnce(synPlain, synProposed)
  }

  /** The test of `Locates`, short-circuiting as the two loops of `addSynonym` do. */
  method CheckLocates(origPlain: string, synPlain: string, origProposed: string, synProposed: string) returns (ok: bool)
    ensures ok <==> Locates(origPlain, synPlain, origProposed, synProposed)
  {
    ok := false;
    if origProposed != [] && synProposed != [] {
      var o := CountOnce(origPlain, origProposed);
      if o {
        ok := CountOnce(synPlain, synProposed);
      }
    }
  }

  /**
   * Where the trims stop: after `n` equal pairs, given `tests[k]`, whether
   * the trim may grow from `k - 1` to `k` tokens, the trim is the count
   * reached by growing at each pair whose test passes.
   */
  function Scan(tests: seq<bool>, n: nat): (count: nat)
    requires n < |tests|
    ensures count <= n
  {
    if n == 0 then 0
    else
      var c := Scan(tests, n - 1);
      if tests[c + 1] then c + 1 else c
  }

  lemma {:induction false} ScanUnfold(tests: seq<bool>, n: nat)
    requires n + 1 < |tests|
    ensures Scan(tests, n + 1) == if tests[Scan(tests, n) + 1] then Scan(tests, n) + 1 else Scan(tests, n)
  {
  }

  /** A trim that grew at all stopped at a count whose test passed. */
  lemma {:induction false} ScanPassed(tests: seq<bool>, n: nat)
    requires n < |tests|
    ensures Scan(tests, n) > 0 ==> tests[Scan(tests, n)]
  {
    if n > 0 {
      var m := n - 1;
      ScanPassed(tests, m);
      ScanUnfold(tests, m);
    }
  }

  /** Which end of the two lists a trim eats into. */
  datatype Side = Leading | Trailing

  /**
   * The test that lets a trim grow to `k` tokens: what would remain of
   * each list after dropping `k` tokens from that end locates itself.
   */
  predicate TrimTest(side: Side, origPlain: string, synPlain: string, orig: seq<Furigana>, syn: seq<Furigana>, k: nat)
    requires k <= |orig| && k <= |syn|
  {
    match side
    case Leading => Locates(origPlain, synPlain, ToPlain(orig[k..]), ToPlain(syn[k..]))
    case Trailing => Locates(origPlain, synPlain, ToPlain(orig[..|orig| - k]), ToPlain(syn[..|syn| - k]))
  }

  /** `tests[k]` is `TrimTest` at `k`, for every `k` up to the shorter list's length. */
  ghost predicate TestsAre(tests: seq<bool>, side: Side, origPlain: string, synPlain: string, orig: seq<Furigana>, syn: seq<Furigana>) {
    && |tests| == Min(|orig|, |syn|) + 1
    && forall k {:trigger TrimTest(side, origPlain, synPlain, orig, syn, k)} ::
         0 <= k < |tests| ==> tests[k] == TrimTest(side, origPlain, synPlain, orig, syn, k)
  }

  lemma {:induction false} TestsExist(side: Side, origPlain: string, synPlain: string, orig: seq<Furigana>, syn: seq<Furigana>)
    ensures exists tests :: TestsAre(tests, side, origPlain, synPlain, orig, syn)
  {
    var n := Min(|orig|, |syn|) + 1;
    var tests := seq(n, k requires 0 <= k < n => TrimTest(side, origPlain, synPlain, orig, syn, k));
    assert TestsAre(tests, side, origPlain, synPlain, orig, syn);
  }

  /** Every test a trim on `side` can ask, as a sequence. */
  ghost function Tests(side: Side, origPlain: string, synPlain: string, orig: seq<Furigana>, syn: seq<Furigana>): (tests: seq<bool>)
    ensures TestsAre(tests, side, origPlain, synPlain, orig, syn)
  {
    TestsExist(side, origPlain, synPlain, orig, syn);
    var tests :| TestsAre(tests, side, origPlain, synPlain, orig, syn);
    tests
  }

  /** One test of a trim loop: may the trim on `side` grow to `k` tokens? */
  method Test(side: Side, origPlain: string, synPlain: string, orig: seq<Furigana>, syn: seq<Furigana>, k: nat)
    returns (ok: bool)
    requires k <= |orig| && k <= |syn|
    ensures ok == TrimTest(side, origPlain, synPlain, orig, syn, k)
  {
    var origProposed, synProposed;
    if side == Leading {
      origProposed, synProposed := ToPlain(orig[k..]), ToPlain(syn[k..]);
    } else {
      origProposed, synProposed := ToPlain(orig[..|orig| - k]), ToPlain(syn[..|syn| - k]);
    }
    ok := CheckLocates(origPlain, synPlain, origProposed, synProposed);
  }

  /** One pass of a trim loop over an equal pair: test, and grow the trim if it passes. */
  method Grow(side: Side, origPlain: string, synPlain: string, orig: seq<Furigana>, syn: seq<Furigana>,
              ghost tests: seq<bool>, count: nat, ghost i: nat)
    returns (next: nat)
    requires TestsAre(tests, side, origPlain, synPlain, orig, syn)
    requires i < |orig| && i < |syn|
    requires count == Scan(tests, i)
    ensures next == Scan(tests, i + 1)
  {
    ScanUnfold(tests, i);
    var ok := Test(side, origPlain, synPlain, orig, syn, count + 1);
    next := if ok then count + 1 else count;
  }

  /** The number of leading tokens `addSynonym` trims. */
  ghost function LeftTrim(origPlain: string, synPlain: string, orig: seq<Furigana>, syn: seq<Furigana>): nat {
    Scan(Tests(Leading, origPlain, synPlain, orig, syn), EqualPrefix(orig, syn))
  }

  /**
   * The number of trailing tokens trimmed once the left trim is done (the
   * source counts it as a negative `right`).
   */
  ghost function RightTrim(origPlain: string, synPlain: string, orig: seq<Furigana>, syn: seq<Furigana>): nat {
    Scan(Tests(Trailing, origPlain, synPlain, orig, syn), EqualSuffix(orig, syn))
  }

  // ---------------------------------------------------------------------
  // furiganasToFull
  // ---------------------------------------------------------------------

  /** The reading a token contributes to its full text: none for a plain token. */
  function Reading(f: Furigana): string {
    match f
    case Plain(_) => []
    case Ruby(_, rt) => rt
  }

  /**
   * `furiganasToFull`: every token's full text, joined; a plain token's
   * full text is itself, a ruby token's is its reading then its spelling.
   */
  function Full(v: seq<Furigana>): string {
    if v == [] then [] else Full(v[..|v| - 1]) + Reading(v[|v| - 1]) + Spelling(v[|v| - 1])
  }

  /** `furiganasToFull` distributes over concatenation. */
  lemma {:induction false} FullAppend(a: seq<Furigana>, b: seq<Furigana>)
    ensures Full(a + b) == Full(a) + Full(b)
    decreases |b|
  {
    if b == [] {
      AppendEmpty(a);
    } else {
      var n := |b| - 1;
      SnocFront(a, b);
      FullAppend(a, b[..n]);
      AppendAssoc(Full(a), Full(b[..n]) + Reading(b[n]), Spelling(b[n]));
      AppendAssoc(Full(a), Full(b[..n]), Reading(b[n]));
    }
  }

  /** On plain tokens the full text is the plain text; a ruby token adds its reading. */
  lemma {:induction false} FullLength(v: seq<Furigana>)
    ensures |Full(v)| >= |ToPlain(v)|
    ensures (forall i :: 0 <= i < |v| ==> v[i].Plain?) ==> Full(v) == ToPlain(v)
    decreases |v|
  {
    if v != [] {
      FullLength(v[..|v| - 1]);
    }
  }

  // ---------------------------------------------------------------------
  // The left trim
  // ---------------------------------------------------------------------

  /** From pair `i` on, how far the pairs stay `furiganaEqual`. */
  function EqualFrom(orig: seq<Furigana>, syn: seq<Furigana>, i: nat): (p: nat)
    requires i <= Min(|orig|, |syn|)
    ensures i <= p <= Min(|orig|, |syn|)
    ensures forall j :: i <= j < p ==> Agree(orig, syn, j)
    ensures p < Min(|orig|, |syn|) ==> !Agree(orig, syn, p)
    decreases Min(|orig|, |syn|) - i
  {
    if i == Min(|orig|, |syn|) || !Agree(orig, syn, i) then i
    else EqualFrom(orig, syn, i + 1)
  }

  /** How many leading tokens are pairwise `furiganaEqual`: where the left loop breaks. */
  function EqualPrefix(orig: seq<Furigana>, syn: seq<Furigana>): (p: nat)
    ensures p <= |orig| && p <= |syn|
    ensures forall i :: 0 <= i < p ==> Agree(orig, syn, i)
    ensures p < |orig| && p < |syn| ==> !Agree(orig, syn, p)
  {
    EqualFrom(orig, syn, 0)
  }

  /** A run of equal pairs that cannot be extended is the shared prefix. */
  lemma {:induction false} PrefixEnds(orig: seq<Furigana>, syn: seq<Furigana>, i: nat)
    requires i <= |orig| && i <= |syn|
    requires forall j :: 0 <= j < i ==> Agree(orig, syn, j)
    requires i == |orig| || i == |syn| || !Agree(orig, syn, i)
    ensures i == EqualPrefix(orig, syn)
  {
  }

  /** The left loop of `addSynonym`. */
  method TrimLeft(origPlain: string, synPlain: string, orig: seq<Furigana>, syn: seq<Furigana>) returns (left: nat)
    ensures left == LeftTrim(origPlain, synPlain, orig, syn)
  {
    ghost var tests := Tests(Leading, origPlain, synPlain, orig, syn);
    var pairs := Zip(orig, syn);
    left := 0;
    var i := 0;
    while i < |pairs|
      invariant i <= |pairs|
      invariant forall j :: 0 <= j < i ==> Agree(orig, syn, j)
      invariant left == Scan(tests, i)
    {
      var (a, b) := pairs[i];
      if !FuriganaEqual(a, b) {
        break;
      }
      assert Agree(orig, syn, i);
      left := Grow(Leading, origPlain, synPlain, orig, syn, tests, left, i);
      i := i + 1;
    }
    PrefixEnds(orig, syn, i);
  }

  /**
   * When the left trim trims at all, what remains of each list has a
   * non-empty text found exactly once in that list's plain text.
   */
  lemma {:induction false} LeftTrimLocates(origPlain: string, synPlain: string, orig: seq<Furigana>, syn: seq<Furigana>)
    ensures var left := LeftTrim(origPlain, synPlain, orig, syn);
            left > 0 ==> Locates(origPlain, synPlain, ToPlain(orig[left..]), ToPlain(syn[left..]))
  {
    var tests := Tests(Leading, origPlain, synPlain, orig, syn);
    ScanPassed(tests, EqualPrefix(orig, syn));
    var left := LeftTrim(origPlain, synPlain, orig, syn);
    if left > 0 {
      assert TrimTest(Leading, origPlain, synPlain, orig, syn, left);
    }
  }

  // ---------------------------------------------------------------------
  // The right trim
  // ---------------------------------------------------------------------

  /** From pair `i` on, counting from the end, how far the pairs stay `furiganaEqual`. */
  function EqualFromEnd(orig: seq<Furigana>, syn: seq<Furigana>, i: nat): (p: nat)
    requires i <= Min(|orig|, |syn|)
    ensures i <= p <= Min(|orig|, |syn|)
    ensures forall j :: i <= j < p ==> AgreeFromEnd(orig, syn, j)
    ensures p < Min(|orig|, |syn|) ==> !AgreeFromEnd(orig, syn, p)
    decreases Min(|orig|, |syn|) - i
  {
    if i == Min(|orig|, |syn|) || !AgreeFromEnd(orig, syn, i) then i
    else EqualFromEnd(orig, syn, i + 1)
  }

  /** How many trailing tokens are pairwise `furiganaEqual`: where the right loop breaks. */
  function EqualSuffix(orig: seq<Furigana>, syn: seq<Furigana>): (p: nat)
    ensures p <= |orig| && p <= |syn|
    ensures forall i :: 0 <= i < p ==> AgreeFromEnd(orig, syn, i)
    ensures p < |orig| && p < |syn| ==> !AgreeFromEnd(orig, syn, p)
  {
    EqualFromEnd(orig, syn, 0)
  }

  /** A run of equal pairs from the end that cannot be extended is the shared suffix. */
  lemma {:induction false} SuffixEnds(orig: seq<Furigana>, syn: seq<Furigana>, i: nat)
    requires i <= |orig| && i <= |syn|
    requires forall j :: 0 <= j < i ==> AgreeFromEnd(orig, syn, j)
    requires i == |orig| || i == |syn| || !AgreeFromEnd(orig, syn, i)
    ensures i == EqualSuffix(orig, syn)
  {
  }

  /** The right loop of `addSynonym`; `orig` and `syn` are what the left trim left. */
  method TrimRight(origPlain: string, synPlain: string, orig: seq<Furigana>, syn: seq<Furigana>) returns (right: nat)
    ensures right == RightTrim(origPlain, synPlain, orig, syn)
  {
    ghost var tests := Tests(Trailing, origPlain, synPlain, orig, syn);
    var pairs := ZipRight(orig, syn);
    right := 0;
    var i := 0;
    while i < |pairs|
      invariant i <= |pairs|
      invariant forall j :: 0 <= j < i ==> AgreeFromEnd(orig, syn, j)
      invariant right == Scan(tests, i)
    {
      var (a, b) := pairs[i];
      if !FuriganaEqual(a, b) {
        break;
      }
      assert AgreeFromEnd(orig, syn, i);
      right := Grow(Trailing, origPlain, synPlain, orig, syn, tests, right, i);
      i := i + 1;
    }
    SuffixEnds(orig, syn, i);
  }

  /**
   * When the right trim trims at all, what remains of each list has a
   * non-empty text found exactly once in the full plain text of that list.
   */
  lemma {:induction false} RightTrimLocates(origPlain: string, synPlain: string, orig: seq<Furigana>, syn: seq<Furigana>)
    ensures var right := RightTrim(origPlain, synPlain, orig, syn);
            right > 0 ==> Locates(origPlain, synPlain, ToPlain(orig[..|orig| - right]), ToPlain(syn[..|syn| - right]))
  {
    var tests := Tests(Trailing, origPlain, synPlain, orig, syn);
    ScanPassed(tests, EqualSuffix(orig, syn));
    var right := RightTrim(origPlain, synPlain, orig, syn);
    if right > 0 {
      assert TrimTest(Trailing, origPlain, synPlain, orig, syn, right);
    }
  }

  // ---------------------------------------------------------------------
  // addSynonym
  // ---------------------------------------------------------------------

  /**
   * How many tokens `addSynonym` trims from the left of both lists, and
   * then from the right of what is left: never past their shared equal
   * prefix, nor past the equal suffix of what the left trim leaves.
   */
  ghost function Trims(orig: seq<Furigana>, syn: seq<Furigana>): (t: (nat, nat))
    ensures t.0 <= EqualPrefix(orig, syn)
    ensures t.1 <= EqualSuffix(orig[t.0..], syn[t.0..])
  {
    var origPlain, synPlain := ToPlain(orig), ToPlain(syn);
    var left := LeftTrim(origPlain, synPlain, orig, syn);
    var right := RightTrim(origPlain, synPlain, orig[left..], syn[left..]);
    (left, right)
  }

  /**
   * The untrimmed middles of the sentence's tokens and of the candidate:
   * the same number of tokens cut from the left of both, and the same
   * number from the right of both.
   */
  ghost function Middles(orig: seq<Furigana>, syn: seq<Furigana>): (seq<Furigana>, seq<Furigana>) {
    var (left, right) := Trims(orig, syn);
    (orig[left..|orig| - right], syn[left..|syn| - right])
  }

  /** The middles are what the trims leave. */
  lemma {:induction false} MiddlesOf(orig: seq<Furigana>, syn: seq<Furigana>, left: nat, right: nat)
    requires Trims(orig, syn) == (left, right)
    ensures left + right <= |orig| && left + right <= |syn|
    ensures Middles(orig, syn) == (orig[left..|orig| - right], syn[left..|syn| - right])
  {
  }

  /** The middles as the two trimming steps cut them: first from the left, then from the right. */
  lemma {:induction false} MiddlesAfter(orig: seq<Furigana>, syn: seq<Furigana>, left: nat, right: nat,
                                        o: seq<Furigana>, s: seq<Furigana>)
    requires Trims(orig, syn) == (left, right) && o == orig[left..] && s == syn[left..]
    ensures right <= |o| && right <= |s|
    ensures Middles(orig, syn) == (o[..|o| - right], s[..|s| - right])
  {
    MiddlesOf(orig, syn, left, right);
    DropTake(orig, left, |orig| - right, |o| - right);
    DropTake(syn, left, |syn| - right, |s| - right);
  }

  /** Some declared synonym has this source text and this full replacement text. */
  predicate Declared(synonyms: seq<Synonym>, plain: string, full: string) {
    exists i :: 0 <= i < |synonyms| && Full(synonyms[i].1) == full && synonyms[i].0 == plain
  }

  /**
   * The sentence `addSynonym` returns: unchanged for a no-op or an already
   * declared synonym, else with the middles appended as one new synonym.
   */
  ghost function Added(original: Sentence, syn: seq<Furigana>): Sentence {
    var (o, s) := Middles(original.furigana, syn);
    if Full(s) == Full(o) then original
    else if Declared(original.synonyms, ToPlain(o), Full(s)) then original
    else original.(synonyms := original.synonyms + [(ToPlain(o), s)])
  }

  /** The two trimming loops of `addSynonym`, and the slices they leave. */
  method Untrimmed(orig0: seq<Furigana>, syn0: seq<Furigana>) returns (orig: seq<Furigana>, syn: seq<Furigana>)
    ensures (orig, syn) == Middles(orig0, syn0)
  {
    var origPlain, synPlain := ToPlain(orig0), ToPlain(syn0);
    var left := TrimLeft(origPlain, synPlain, orig0, syn0);
    orig, syn := orig0[left..], syn0[left..];
    var right := TrimRight(origPlain, synPlain, orig, syn);
    assert Trims(orig0, syn0) == (left, right);
    MiddlesAfter(orig0, syn0, left, right, orig, syn);
    orig, syn := orig[..|orig| - right], syn[..|syn| - right];
  }

  /** `addSynonym`. */
  method AddSynonymTo(original: Sentence, candidate: seq<Furigana>) returns (r: Sentence)
    ensures r == Added(original, candidate)
  {
    var orig, syn := Untrimmed(original.furigana, candidate);
    var proposedOrigPlain := ToPlain(orig);
    var proposedSynFull := Full(syn);
    if proposedSynFull == Full(orig) {
      return original;
    }
    if Declared(original.synonyms, proposedOrigPlain, proposedSynFull) {
      return original;
    }
    return original.(synonyms := original.synonyms + [(proposedOrigPlain, syn)]);
  }

  /**
   * The tokens and the earlier synonyms are kept; the result is the
   * original, or it appends exactly one pair: the middles' source text and
   * replacement.
   */
  lemma {:induction false} AddedShape(original: Sentence, syn: seq<Furigana>)
    ensures Added(original, syn).furigana == original.furigana
    ensures Added(original, syn) == original ||
            Added(original, syn).synonyms ==
              original.synonyms + [(ToPlain(Middles(original.furigana, syn).0), Middles(original.furigana, syn).1)]
  {
  }

  /** A replacement whose full text equals that of the slice it replaces is not recorded. */
  lemma {:induction false} NoTautology(original: Sentence, syn: seq<Furigana>)
    ensures var (o, s) := Middles(original.furigana, syn);
            Full(s) == Full(o) ==> Added(original, syn) == original
  {
  }

  /**
   * Whatever is recorded locates itself: if anything was trimmed, the new
   * source text occurs exactly once in the sentence's plain text and the
   * replacement's text exactly once in the candidate's.
   */
  lemma {:induction false} TrimmedLocates(orig: seq<Furigana>, syn: seq<Furigana>)
    ensures var (left, right) := Trims(orig, syn);
            left > 0 || right > 0 ==>
              Locates(ToPlain(orig), ToPlain(syn), ToPlain(Middles(orig, syn).0), ToPlain(Middles(orig, syn).1))
  {
    var origPlain, synPlain := ToPlain(orig), ToPlain(syn);
    var left := LeftTrim(origPlain, synPlain, orig, syn);
    var o, s := orig[left..], syn[left..];
    var right := RightTrim(origPlain, synPlain, o, s);
    assert Trims(orig, syn) == (left, right);
    var mo, ms := orig[left..|orig| - right], syn[left..|syn| - right];
    MiddlesOf(orig, syn, left, right);
    if right > 0 {
      DropTake(orig, left, |orig| - right, |o| - right);
      DropTake(syn, left, |syn| - right, |s| - right);
      RightPartLocates(origPlain, synPlain, o, s, right, mo, ms);
    } else if left > 0 {
      DropAll(orig, left, |orig| - right);
      DropAll(syn, left, |syn| - right);
      LeftPartLocates(origPlain, synPlain, orig, syn, left, mo, ms);
    }
  }

  /** A right trim locates the untrimmed front of what it was applied to. */
  lemma {:induction false} RightPartLocates(origPlain: string, synPlain: string, o: seq<Furigana>, s: seq<Furigana>,
                                            right: nat, mo: seq<Furigana>, ms: seq<Furigana>)
    requires right == RightTrim(origPlain, synPlain, o, s) && right > 0
    requires mo == o[..|o| - right] && ms == s[..|s| - right]
    ensures Locates(origPlain, synPlain, ToPlain(mo), ToPlain(ms))
  {
    RightTrimLocates(origPlain, synPlain, o, s);
  }

  /** A left trim locates the untrimmed rest. */
  lemma {:induction false} LeftPartLocates(origPlain: string, synPlain: string, orig: seq<Furigana>, syn: seq<Furigana>,
                                           left: nat, mo: seq<Furigana>, ms: seq<Furigana>)
    requires left == LeftTrim(origPlain, synPlain, orig, syn) && left > 0
    requires mo == orig[left..] && ms == syn[left..]
    ensures Locates(origPlain, synPlain, ToPlain(mo), ToPlain(ms))
  {
    LeftTrimLocates(origPlain, synPlain, orig, syn);
  }

  /** Adding the same candidate twice adds nothing the second time. */
  lemma {:induction false} AddedIdempotent(original: Sentence, syn: seq<Furigana>)
    ensures Added(Added(original, syn), syn) == Added(original, syn)
  {
    var once := Added(original, syn);
    var (o, s) := Middles(original.furigana, syn);
    assert Middles(once.furigana, syn) == (o, s);
    if once != original {
      var n := |original.synonyms|;
      assert once.synonyms[n] == (ToPlain(o), s);
      assert Declared(once.synonyms, ToPlain(o), Full(s));
    }
  }
}
