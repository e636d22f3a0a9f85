/**
 * The data of interfaces.ts: a token ("furigana") is plain text or a
 * ruby/reading pair; a sentence is a token list plus synonym declarations.
 * Also the plain-text projection shared by the builder, the minimiser and
 * the enumerator.
 */
module Furigana {
  import opened Seqs

  /** `string | { ruby, rt }`: `ruby` is the spelling, `rt` the reading. */
  datatype Furigana = Plain(text: string) | Ruby(ruby: string, rt: string)

  /** `[source, replacement]`: source text of the mainline, alternative tokens. */
  type Synonym = (string, seq<Furigana>)

  /** An absent `synonyms` field is modelled as the empty list. */
  datatype Sentence = Sentence(furigana: seq<Furigana>, synonyms: seq<Synonym>)

  /**
   * Every synonym source is non-empty: the occurrence searches of the
   * builder and of the enumerator never return on an empty needle.
   */
  predicate SourcesNonEmpty(syns: seq<Synonym>) {
    forall i :: 0 <= i < |syns| ==> syns[i].0 != []
  }

  /** `typeof f === "string" ? f : f.ruby` */
  function Spelling(f: Furigana): string {
    match f
    case Plain(t) => t
    case Ruby(ruby, _) => ruby
  }

  /** JavaScript truthiness of a token: only the empty plain string is falsy. */
  predicate Truthy(f: Furigana) {
    !(f.Plain? && f.text == [])
  }

  /** `furiganasToPlain`, the `rawRubies.join("")` of index.ts: spellings joined. */
  function ToPlain(fs: seq<Furigana>): string {
    if fs == [] then [] else ToPlain(fs[..|fs| - 1]) + Spelling(fs[|fs| - 1])
  }

  /** Character offset at which token `k` starts in the plain text. */
  function Offset(fs: seq<Furigana>, k: nat): (r: nat)
    requires k <= |fs|
    ensures r == |ToPlain(fs[..k])|
  {
    |ToPlain(fs[..k])|
  }

  lemma {:induction false} ToPlainAppend(a: seq<Furigana>, b: seq<Furigana>)
    ensures ToPlain(a + b) == ToPlain(a) + ToPlain(b)
    decreases |b|
  {
    if b == [] {
      AppendEmpty(a);
    } else {
      var n := |b| - 1;
      SnocFront(a, b);
      ToPlainAppend(a, b[..n]);
      AppendAssoc(ToPlain(a), ToPlain(b[..n]), Spelling(b[n]));
    }
  }

  /** Offsets grow token by token: token k covers [Offset(k), Offset(k+1)). */
  lemma {:induction false} OffsetStep(fs: seq<Furigana>, k: nat)
    requires k < |fs|
    ensures Offset(fs, k + 1) == Offset(fs, k) + |Spelling(fs[k])|
    ensures ToPlain(fs[..k + 1]) == ToPlain(fs[..k]) + Spelling(fs[k])
  {
    assert fs[..k + 1][..k] == fs[..k];
  }

  /** Offsets within a prefix of the tokens are the same as in the whole. */
  lemma {:induction false} OffsetPrefix(fs: seq<Furigana>, n: nat, k: nat)
    requires k <= n <= |fs|
    ensures Offset(fs[..n], k) == Offset(fs, k)
  {
    assert fs[..n][..k] == fs[..k];
  }

  lemma {:induction false} OffsetMonotone(fs: seq<Furigana>, j: nat, k: nat)
    requires j <= k <= |fs|
    ensures Offset(fs, j) <= Offset(fs, k)
    decreases k - j
  {
    if j < k {
      OffsetStep(fs, k - 1);
      OffsetMonotone(fs, j, k - 1);
    }
  }

  /** `n` copies of `x`: `Array.from({ length: n }, () => x)`. */
  function Repeat<T>(x: T, n: nat): (r: seq<T>)
    ensures |r| == n && forall i :: 0 <= i < n ==> r[i] == x
  {
    if n == 0 then [] else Repeat(x, n - 1) + [x]
  }

  /**
   * `charToMorphemeIdx` / `entryNumber`: for each character of the plain
   * text, the index of the token it belongs to.
   */
  function Owners(fs: seq<Furigana>): seq<nat> {
    if fs == [] then [] else Owners(fs[..|fs| - 1]) + Repeat(|fs| - 1, |Spelling(fs[|fs| - 1])|)
  }

  lemma {:induction false} OwnersLength(fs: seq<Furigana>)
    ensures |Owners(fs)| == |ToPlain(fs)|
    decreases |fs|
  {
    if fs != [] {
      OwnersLength(fs[..|fs| - 1]);
    }
  }

  /** Character p lies in the span of token k. */
  predicate InToken(fs: seq<Furigana>, p: int, k: int)
    requires 0 <= k < |fs|
  {
    Offset(fs, k) <= p < Offset(fs, k + 1)
  }

  lemma {:induction false} OwnersAt(fs: seq<Furigana>, p: int, k: int)
    requires 0 <= p < |Owners(fs)| && 0 <= k < |fs|
    ensures Owners(fs)[p] < |fs|
    ensures Owners(fs)[p] == k <==> InToken(fs, p, k)
  {
    OwnerSpan(fs, p);
    var o := Owners(fs)[p];
    if o < k {
      SpansDisjoint(fs, p, o, k);
    } else if k < o {
      SpansDisjoint(fs, p, k, o);
    }
  }

  /** The token that owns character `p` has `p` in its span. */
  lemma {:induction false} OwnerSpan(fs: seq<Furigana>, p: int)
    requires 0 <= p < |Owners(fs)|
    ensures Owners(fs)[p] < |fs| && InToken(fs, p, Owners(fs)[p])
    decreases |fs|
  {
    var n := |fs| - 1;
    var init := fs[..n];
    OwnersUnfold(fs);
    AppendIndex(Owners(init), Repeat(n, |Spelling(fs[n])|), p);
    if p < Offset(fs, n) {
      OwnerSpan(init, p);
      var o := Owners(init)[p];
      OffsetPrefix(fs, n, o);
      OffsetPrefix(fs, n, o + 1);
    } else {
      assert n + 1 == |fs|;
    }
  }

  /** No character lies in the spans of two different tokens. */
  lemma {:induction false} SpansDisjoint(fs: seq<Furigana>, p: int, j: nat, k: nat)
    requires j < k < |fs|
    ensures !(InToken(fs, p, j) && InToken(fs, p, k))
  {
    OffsetMonotone(fs, j + 1, k);
  }

  /** The last token's characters come after the others', and the offsets count them. */
  lemma {:induction false} OwnersUnfold(fs: seq<Furigana>)
    requires fs != []
    ensures Owners(fs) == Owners(fs[..|fs| - 1]) + Repeat(|fs| - 1, |Spelling(fs[|fs| - 1])|)
    ensures |Owners(fs[..|fs| - 1])| == Offset(fs, |fs| - 1)
    ensures |Owners(fs)| == Offset(fs, |fs|)
  {
    OwnersLength(fs[..|fs| - 1]);
    OwnersLength(fs);
    assert fs[..|fs|] == fs;
  }

  /** Character p belongs to token k exactly when p lies in k's span. */
  lemma {:induction false} OwnersSpan(fs: seq<Furigana>)
    ensures |Owners(fs)| == |ToPlain(fs)|
    ensures forall p :: 0 <= p < |Owners(fs)| ==> Owners(fs)[p] < |fs|
    ensures forall p, k :: 0 <= p < |Owners(fs)| && 0 <= k < |fs| ==>
              (Owners(fs)[p] == k <==> InToken(fs, p, k))
  {
    OwnersLength(fs);
    forall p | 0 <= p < |Owners(fs)|
      ensures Owners(fs)[p] < |fs|
    {
      OwnersAt(fs, p, 0);
    }
    forall p, k | 0 <= p < |Owners(fs)| && 0 <= k < |fs|
      ensures Owners(fs)[p] == k <==> InToken(fs, p, k)
    {
      OwnersAt(fs, p, k);
    }
  }
}
