/**
 * The worked examples of tests/addSyn.ts, each token one letter of a
 * plain string (`"abc".split("")`).
 */
module AddSynonymExamples {
  import opened Furigana
  import opened Utils
  import opened AddSynonym

  /** `s.split("")`: one plain token per character. */
  function Letters(s: string): (r: seq<Furigana>)
    ensures |r| == |s| && forall i :: 0 <= i < |s| ==> r[i] == Plain([s[i]])
  {
    seq(|s|, i requires 0 <= i < |s| => Plain([s[i]]))
  }

  /** Splitting into letters and joining the letters gives the string back. */
  lemma {:induction false} LettersPlain(s: string)
    ensures ToPlain(Letters(s)) == s
    decreases |s|
  {
    if s != [] {
      var n := |s| - 1;
      LettersPlain(s[..n]);
      assert Letters(s)[..n] == Letters(s[..n]);
    }
  }

  /** A slice of the letters is the letters of the slice. */
  lemma {:induction false} LettersSlice(s: string, i: nat, j: nat)
    requires i <= j <= |s|
    ensures Letters(s)[i..j] == Letters(s[i..j])
    ensures ToPlain(Letters(s)[i..j]) == s[i..j]
  {
    LettersPlain(s[i..j]);
  }

  /** The letters after the first `k`. */
  lemma {:induction false} LettersDrop(s: string, k: nat)
    requires k <= |s|
    ensures Letters(s)[k..] == Letters(s[k..])
    ensures ToPlain(Letters(s)[k..]) == s[k..]
  {
    LettersPlain(s[k..]);
  }

  /** The first `k` letters. */
  lemma {:induction false} LettersTake(s: string, k: nat)
    requires k <= |s|
    ensures Letters(s)[..k] == Letters(s[..k])
    ensures ToPlain(Letters(s)[..k]) == s[..k]
  {
    LettersPlain(s[..k]);
  }

  /** All tokens are plain, so the full text is the string itself. */
  lemma {:induction false} LettersFull(s: string)
    ensures Full(Letters(s)) == s
  {
    FullLength(Letters(s));
    LettersPlain(s);
  }

  /** Two letters are `furiganaEqual` exactly when they are the same character. */
  lemma {:induction false} LettersAgree(s: string, t: string, j: nat)
    requires j < |s| && j < |t|
    ensures Agree(Letters(s), Letters(t), j) <==> s[j] == t[j]
  {
    assert [s[j]][0] == s[j];
  }

  /** The same, counting from the end. */
  lemma {:induction false} LettersAgreeFromEnd(s: string, t: string, j: nat)
    requires j < |s| && j < |t|
    ensures AgreeFromEnd(Letters(s), Letters(t), j) <==> s[|s| - 1 - j] == t[|t| - 1 - j]
  {
    assert [s[|s| - 1 - j]][0] == s[|s| - 1 - j];
  }

  /** The equal prefix of two letter lists is the common prefix of the strings. */
  lemma {:induction false} LettersPrefix(s: string, t: string, n: nat)
    requires n <= |s| && n <= |t| && s[..n] == t[..n]
    requires n == |s| || n == |t| || s[n] != t[n]
    ensures EqualPrefix(Letters(s), Letters(t)) == n
  {
    forall j | 0 <= j < n
      ensures Agree(Letters(s), Letters(t), j)
    {
      assert s[j] == s[..n][j] && t[j] == t[..n][j];
      LettersAgree(s, t, j);
    }
    if n < |s| && n < |t| {
      LettersAgree(s, t, n);
    }
    PrefixEnds(Letters(s), Letters(t), n);
  }

  /** The equal suffix of two letter lists is the common suffix of the strings. */
  lemma {:induction false} LettersSuffix(s: string, t: string, n: nat)
    requires n <= |s| && n <= |t| && s[|s| - n..] == t[|t| - n..]
    requires n == |s| || n == |t| || s[|s| - 1 - n] != t[|t| - 1 - n]
    ensures EqualSuffix(Letters(s), Letters(t)) == n
  {
    forall j | 0 <= j < n
      ensures AgreeFromEnd(Letters(s), Letters(t), j)
    {
      assert s[|s| - 1 - j] == s[|s| - n..][n - 1 - j];
      assert t[|t| - 1 - j] == t[|t| - n..][n - 1 - j];
      LettersAgreeFromEnd(s, t, j);
    }
    if n < |s| && n < |t| {
      LettersAgreeFromEnd(s, t, n);
    }
    SuffixEnds(Letters(s), Letters(t), n);
  }

  /**
   * A trim over `n` equal pairs whose first `m` tests pass and whose next
   * test (if any) fails stops at `m`.
   */
  lemma {:induction false} ScanStops(tests: seq<bool>, n: nat, m: nat)
    requires m <= n < |tests|
    requires forall k :: 1 <= k <= m ==> tests[k]
    requires m < n ==> !tests[m + 1]
    ensures Scan(tests, n) == m
  {
    if n > m {
      ScanStops(tests, n - 1, m);
      ScanUnfold(tests, n - 1);
    } else if n > 0 {
      ScanStops(tests, n - 1, m - 1);
      ScanUnfold(tests, n - 1);
    }
  }

  /** What is left of `s` once its last `k` characters are cut. */
  function Untrailed(s: string, k: nat): (r: string)
    requires k <= |s|
    ensures |r| == |s| - k && r <= s
  {
    s[..|s| - k]
  }

  /** The test of the left trim at `k`, on letters. */
  lemma {:induction false} LeadingTest(op: string, sp: string, s: string, t: string, k: nat)
    requires k <= |s| && k <= |t|
    ensures TrimTest(Leading, op, sp, Letters(s), Letters(t), k) == Locates(op, sp, s[k..], t[k..])
  {
    LettersDrop(s, k);
    LettersDrop(t, k);
  }

  /** The test of the right trim at `k`, on letters. */
  lemma {:induction false} TrailingTest(op: string, sp: string, s: string, t: string, k: nat)
    requires k <= |s| && k <= |t|
    ensures TrimTest(Trailing, op, sp, Letters(s), Letters(t), k) == Locates(op, sp, Untrailed(s, k), Untrailed(t, k))
  {
    LettersTake(s, |s| - k);
    LettersTake(t, |t| - k);
    assert ToPlain(Letters(s)[..|Letters(s)| - k]) == Untrailed(s, k);
    assert ToPlain(Letters(t)[..|Letters(t)| - k]) == Untrailed(t, k);
  }

  /** The left trim of two letter lists, from the located texts its tests ask about. */
  lemma {:induction false} LettersLeftTrim(op: string, sp: string, s: string, t: string, n: nat, m: nat)
    requires EqualPrefix(Letters(s), Letters(t)) == n && m <= n
    requires forall k :: 1 <= k <= m ==> Locates(op, sp, s[k..], t[k..])
    requires m < n ==> !Locates(op, sp, s[m + 1..], t[m + 1..])
    ensures LeftTrim(op, sp, Letters(s), Letters(t)) == m
  {
    var tests := Tests(Leading, op, sp, Letters(s), Letters(t));
    forall k | 1 <= k <= n
      ensures tests[k] == Locates(op, sp, s[k..], t[k..])
    {
      LeadingTest(op, sp, s, t, k);
      assert tests[k] == TrimTest(Leading, op, sp, Letters(s), Letters(t), k);
    }
    ScanStops(tests, n, m);
  }

  /** The right trim of two letter lists, from the located texts its tests ask about. */
  lemma {:induction false} LettersRightTrim(op: string, sp: string, s: string, t: string, n: nat, m: nat)
    requires EqualSuffix(Letters(s), Letters(t)) == n && m <= n
    requires forall k :: 1 <= k <= m ==> Locates(op, sp, Untrailed(s, k), Untrailed(t, k))
    requires m < n ==> !Locates(op, sp, Untrailed(s, m + 1), Untrailed(t, m + 1))
    ensures RightTrim(op, sp, Letters(s), Letters(t)) == m
  {
    var tests := Tests(Trailing, op, sp, Letters(s), Letters(t));
    forall k | 1 <= k <= n
      ensures tests[k] == Locates(op, sp, Untrailed(s, k), Untrailed(t, k))
    {
      TrailingTest(op, sp, s, t, k);
      assert tests[k] == TrimTest(Trailing, op, sp, Letters(s), Letters(t), k);
    }
    ScanStops(tests, n, m);
  }

  /** The trims of two letter lists. */
  lemma {:induction false} LettersTrims(s: string, t: string, left: nat, right: nat)
    requires left <= |s| && left <= |t|
    requires LeftTrim(s, t, Letters(s), Letters(t)) == left
    requires RightTrim(s, t, Letters(s[left..]), Letters(t[left..])) == right
    ensures Trims(Letters(s), Letters(t)) == (left, right)
  {
    LettersPlain(s);
    LettersPlain(t);
    LettersDrop(s, left);
    LettersDrop(t, left);
  }

  /**
   * What `addSynonym` adds to a sentence of letters with no synonyms yet,
   * given the trims: the untrimmed middles, when their texts differ.
   */
  lemma {:induction false} LettersAdded(s: string, t: string, left: nat, right: nat, o: string, m: string)
    requires Trims(Letters(s), Letters(t)) == (left, right)
    requires left + right <= |s| && left + right <= |t|
    requires o == s[left..|s| - right] && m == t[left..|t| - right] && o != m
    ensures Added(Sentence(Letters(s), []), Letters(t)).synonyms == [(o, Letters(m))]
  {
    LettersMiddles(s, t, left, right);
    LettersFull(o);
    LettersFull(m);
    LettersPlain(o);
  }

  /** The middles of two letter lists are the letters of the strings' middles. */
  lemma {:induction false} LettersMiddles(s: string, t: string, left: nat, right: nat)
    requires Trims(Letters(s), Letters(t)) == (left, right)
    ensures left + right <= |s| && left + right <= |t|
    ensures Middles(Letters(s), Letters(t)).0 == Letters(s[left..|s| - right])
    ensures Middles(Letters(s), Letters(t)).1 == Letters(t[left..|t| - right])
  {
    MiddlesOf(Letters(s), Letters(t), left, right);
    LettersMiddle(s, left, right);
    LettersMiddle(t, left, right);
  }

  /** The letters between a left and a right cut are the letters of the string between them. */
  lemma {:induction false} LettersMiddle(s: string, left: nat, right: nat)
    requires left + right <= |s|
    ensures Letters(s)[left..|Letters(s)| - right] == Letters(s[left..|s| - right])
  {
    LettersSlice(s, left, |s| - right);
  }

  /** Strictly increasing positions spread at least one apart. */
  lemma {:induction false} Spread(hits: seq<nat>)
    requires hits != []
    requires forall i, j :: 0 <= i < j < |hits| ==> hits[i] < hits[j]
    ensures hits[|hits| - 1] - hits[0] >= |hits| - 1
    decreases |hits|
  {
    if |hits| > 1 {
      Spread(hits[..|hits| - 1]);
      assert hits[|hits| - 2] < hits[|hits| - 1];
    }
  }

  /**
   * A needle found at `p` appears exactly once when no other position of
   * the haystack even holds its first character.
   */
  lemma {:induction false} OnlyAt(haystack: string, needle: string, p: nat)
    requires needle != [] && OccursAt(haystack, needle, p)
    requires forall q :: 0 <= q <= |haystack| - |needle| && q != p ==> haystack[q] != needle[0]
    ensures AppearsExactlyOnce(haystack, needle)
  {
    OccurrencesSpec(haystack, needle);
    var hits := Occurrences(haystack, needle);
    assert p in hits;
    forall i | 0 <= i < |hits|
      ensures hits[i] == p
    {
      var q := hits[i];
      assert hits[i] in hits;
      assert haystack[q] == haystack[q..q + |needle|][0];
    }
    Spread(hits);
  }

  // ---------------------------------------------------------------------
  // "abc" -> "axyzc" adds b -> xyz
  // ---------------------------------------------------------------------

  lemma {:induction false} MiddleReplacedTexts()
    ensures "abc"[..1] == "axyzc"[..1] && "abc"[1] != "axyzc"[1]
    ensures "abc"[1..] == "bc" && "axyzc"[1..] == "xyzc"
    ensures "bc"[|"bc"| - 1..] == "xyzc"[|"xyzc"| - 1..] && "bc"[0] != "xyzc"[2]
    ensures Locates("abc", "axyzc", "abc"[1..], "axyzc"[1..])
    ensures Locates("abc", "axyzc", Untrailed("bc", 1), Untrailed("xyzc", 1))
  {
    assert Untrailed("bc", 1) == "b" && Untrailed("xyzc", 1) == "xyz";
    OnlyAt("abc", "bc", 1);
    OnlyAt("axyzc", "xyzc", 1);
    OnlyAt("abc", "b", 1);
    OnlyAt("axyzc", "xyz", 1);
  }

  /** Both trims stop after one token: `bc`/`xyzc` and `b`/`xyz` each occur once. */
  lemma {:induction false} MiddleReplacedTrims()
    ensures Trims(Letters("abc"), Letters("axyzc")) == (1, 1)
  {
    MiddleReplacedTexts();
    LettersPrefix("abc", "axyzc", 1);
    LettersLeftTrim("abc", "axyzc", "abc", "axyzc", 1, 1);
    MiddleReplacedRight();
    LettersTrims("abc", "axyzc", 1, 1);
  }

  lemma {:induction false} MiddleReplacedRight()
    ensures RightTrim("abc", "axyzc", Letters("abc"[1..]), Letters("axyzc"[1..])) == 1
  {
    MiddleReplacedTexts();
    LettersSuffix("bc", "xyzc", 1);
    LettersRightTrim("abc", "axyzc", "bc", "xyzc", 1, 1);
  }

  /** `"abc" -> "axyzc"`: the shared `a` and `c` are trimmed, leaving `b -> xyz`. */
  lemma {:induction false} MiddleReplaced()
    ensures Added(Sentence(Letters("abc"), []), Letters("axyzc")).synonyms == [("b", Letters("xyz"))]
  {
    MiddleReplacedTrims();
    assert "abc"[1..2] == "b" && "axyzc"[1..4] == "xyz";
    LettersAdded("abc", "axyzc", 1, 1, "b", "xyz");
  }

  // ---------------------------------------------------------------------
  // "abc" -> "abcd" adds c -> cd
  // ---------------------------------------------------------------------

  lemma {:induction false} AppendedTexts()
    ensures "abc"[..3] == "abcd"[..3]
    ensures Locates("abc", "abcd", "abc"[1..], "abcd"[1..])
    ensures Locates("abc", "abcd", "abc"[2..], "abcd"[2..])
    ensures "abc"[3..] == []
    ensures "abc"[2..] == "c" && "abcd"[2..] == "cd"
    ensures "c"[1..] == "cd"[2..] && "c"[0] != "cd"[1]
  {
    assert "abc"[1..] == "bc" && "abcd"[1..] == "bcd";
    OnlyAt("abc", "bc", 1);
    OnlyAt("abcd", "bcd", 1);
    OnlyAt("abc", "c", 2);
    OnlyAt("abcd", "cd", 2);
  }

  /**
   * The left trim keeps going while `bc`/`bcd` and `c`/`cd` locate
   * themselves and stops before emptying the sentence; nothing is shared
   * on the right of `c` and `cd`.
   */
  lemma {:induction false} AppendedTrims()
    ensures Trims(Letters("abc"), Letters("abcd")) == (2, 0)
  {
    AppendedTexts();
    LettersPrefix("abc", "abcd", 3);
    forall k | 1 <= k <= 2
      ensures Locates("abc", "abcd", "abc"[k..], "abcd"[k..])
    {
    }
    LettersLeftTrim("abc", "abcd", "abc", "abcd", 3, 2);
    LettersSuffix("c", "cd", 0);
    LettersRightTrim("abc", "abcd", "c", "cd", 0, 0);
    LettersTrims("abc", "abcd", 2, 0);
  }

  /** `"abc" -> "abcd"`: the shared `ab` is trimmed, leaving `c -> cd`. */
  lemma {:induction false} Appended()
    ensures Added(Sentence(Letters("abc"), []), Letters("abcd")).synonyms == [("c", Letters("cd"))]
  {
    AppendedTrims();
    assert "abc"[2..3] == "c" && "abcd"[2..4] == "cd";
    LettersAdded("abc", "abcd", 2, 0, "c", "cd");
  }

  // ---------------------------------------------------------------------
  // "bc" -> "abc" adds b -> ab
  // ---------------------------------------------------------------------

  lemma {:induction false} PrependedTexts()
    ensures "bc"[..0] == "abc"[..0] && "bc"[0] != "abc"[0]
    ensures "bc"[0..] == "bc" && "abc"[0..] == "abc"
    ensures "bc"[|"bc"| - 2..] == "abc"[|"abc"| - 2..]
    ensures Locates("bc", "abc", Untrailed("bc", 1), Untrailed("abc", 1))
    ensures Untrailed("bc", 2) == []
  {
    assert Untrailed("bc", 1) == "b" && Untrailed("abc", 1) == "ab";
    OnlyAt("bc", "b", 0);
    OnlyAt("abc", "ab", 0);
  }

  /** Nothing is shared on the left; the right trim takes `c` but not `bc`, which would empty the sentence. */
  lemma {:induction false} PrependedTrims()
    ensures Trims(Letters("bc"), Letters("abc")) == (0, 1)
  {
    PrependedTexts();
    LettersPrefix("bc", "abc", 0);
    LettersLeftTrim("bc", "abc", "bc", "abc", 0, 0);
    LettersSuffix("bc", "abc", 2);
    LettersRightTrim("bc", "abc", "bc", "abc", 2, 1);
    LettersTrims("bc", "abc", 0, 1);
  }

  /** `"bc" -> "abc"`: the shared `c` is trimmed, leaving `b -> ab`. */
  lemma {:induction false} Prepended()
    ensures Added(Sentence(Letters("bc"), []), Letters("abc")).synonyms == [("b", Letters("ab"))]
  {
    PrependedTrims();
    assert "bc"[0..1] == "b" && "abc"[0..2] == "ab";
    LettersAdded("bc", "abc", 0, 1, "b", "ab");
  }

  // ---------------------------------------------------------------------
  // "a" -> "x" adds a -> x
  // ---------------------------------------------------------------------

  /** Nothing is shared on either side. */
  lemma {:induction false} ReplacedTrims()
    ensures Trims(Letters("a"), Letters("x")) == (0, 0)
  {
    assert "a"[..0] == "x"[..0] && "a"[0..] == "a" && "x"[0..] == "x";
    assert "a"[1 - 0..] == "x"[1 - 0..];
    LettersPrefix("a", "x", 0);
    LettersLeftTrim("a", "x", "a", "x", 0, 0);
    LettersSuffix("a", "x", 0);
    LettersRightTrim("a", "x", "a", "x", 0, 0);
    LettersTrims("a", "x", 0, 0);
  }

  /** `"a" -> "x"`: the whole sentence is replaced. */
  lemma {:induction false} Replaced()
    ensures Added(Sentence(Letters("a"), []), Letters("x")).synonyms == [("a", Letters("x"))]
  {
    ReplacedTrims();
    assert "a"[0..1] == "a" && "x"[0..1] == "x";
    LettersAdded("a", "x", 0, 0, "a", "x");
  }

  // ---------------------------------------------------------------------
  // "aa" -> "a" adds aa -> a
  // ---------------------------------------------------------------------

  lemma {:induction false} ShortenedTexts()
    ensures "aa"[..1] == "a"[..1]
    ensures "a"[1..] == [] && "aa"[0..] == "aa" && "a"[0..] == "a"
    ensures "aa"[|"aa"| - 1..] == "a"[|"a"| - 1..]
    ensures Untrailed("a", 1) == []
  {
  }

  /** Either trim would empty the candidate, so neither happens. */
  lemma {:induction false} ShortenedTrims()
    ensures Trims(Letters("aa"), Letters("a")) == (0, 0)
  {
    ShortenedTexts();
    LettersPrefix("aa", "a", 1);
    LettersLeftTrim("aa", "a", "aa", "a", 1, 0);
    LettersSuffix("aa", "a", 1);
    LettersRightTrim("aa", "a", "aa", "a", 1, 0);
    LettersTrims("aa", "a", 0, 0);
  }

  /** `"aa" -> "a"`: nothing can be trimmed, so the whole sentence is the synonym's source. */
  lemma {:induction false} Shortened()
    ensures Added(Sentence(Letters("aa"), []), Letters("a")).synonyms == [("aa", Letters("a"))]
  {
    ShortenedTrims();
    assert "aa"[0..2] == "aa" && "a"[0..1] == "a";
    LettersAdded("aa", "a", 0, 0, "aa", "a");
  }
}
