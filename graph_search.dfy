/**
 * graphSearch.ts: matching typed input against a lattice. Texts are
 * compared after `kata2hira`, so katakana input matches hiragana words;
 * what is returned is always a slice of the input as typed.
 */
module GraphSearch {
  import opened Wrappers
  import opened Utils
  import opened Kana
  import opened Keys
  import opened Seqs

  /**
   * What the search relies on in a lattice: the text index is a record,
   * every key it lists and every successor has a text, a key listed under
   * a text has that text, and no text is empty (otherwise `followGreedy`
   * and `chunkInput` would not advance).
   */
  ghost predicate Searchable(g: Graph) {
    && g.textToKeys.Valid()
    && (forall t, k :: k in Get(g.textToKeys, t) ==> k in g.keyToText && g.keyToText[k] == t)
    && (forall k, n :: n in Get(g.keyToNext, k) ==> n in g.keyToText)
    && (forall k :: k in g.keyToText ==> g.keyToText[k] != [])
  }

  // ---------------------------------------------------------------------
  // findMatchingWords
  // ---------------------------------------------------------------------

  /** The words among `words`, in order, whose normalised form starts `inputHiragana`. */
  function MatchingAmong(inputHiragana: string, words: seq<string>): (r: seq<string>)
    ensures forall w :: w in r <==> w in words && StartsWith(inputHiragana, Kata2Hira(w))
    ensures |r| <= |words|
  {
    if words == [] then []
    else
      var w := words[|words| - 1];
      MatchingAmong(inputHiragana, words[..|words| - 1]) + (if StartsWith(inputHiragana, Kata2Hira(w)) then [w] else [])
  }

  /**
   * The filter keeps the words' order: filtering two lists joined is
   * joining their filtered parts, and a single word is kept exactly when
   * its normalised form starts the input.
   */
  lemma {:induction false} MatchingAmongAppend(inputHiragana: string, a: seq<string>, b: seq<string>)
    ensures MatchingAmong(inputHiragana, a + b) == MatchingAmong(inputHiragana, a) + MatchingAmong(inputHiragana, b)
    decreases |b|
  {
    if b == [] {
      assert a + b == a;
    } else {
      var n, w := |b| - 1, b[|b| - 1];
      var kept := if StartsWith(inputHiragana, Kata2Hira(w)) then [w] else [];
      MatchingAmongAppend(inputHiragana, a, b[..n]);
      assert (a + b)[..|a + b| - 1] == a + b[..n] && (a + b)[|a + b| - 1] == w;
      calc {
        MatchingAmong(inputHiragana, a + b);
        MatchingAmong(inputHiragana, a + b[..n]) + kept;
        (MatchingAmong(inputHiragana, a) + MatchingAmong(inputHiragana, b[..n])) + kept;
        { AppendAssoc(MatchingAmong(inputHiragana, a), MatchingAmong(inputHiragana, b[..n]), kept); }
        MatchingAmong(inputHiragana, a) + (MatchingAmong(inputHiragana, b[..n]) + kept);
        MatchingAmong(inputHiragana, a) + MatchingAmong(inputHiragana, b);
      }
    }
  }

  lemma {:induction false} MatchingAmongOne(inputHiragana: string, w: string)
    ensures MatchingAmong(inputHiragana, [w]) == if StartsWith(inputHiragana, Kata2Hira(w)) then [w] else []
  {
    assert [w][..0] == [];
  }

  /** `findMatchingWords`: undefined for empty input, else the matching words in key order. */
  function MatchingWords(inputHiragana: string, g: Graph): (r: Option<seq<string>>)
    ensures r.None? <==> inputHiragana == []
    ensures r.Some? ==> forall w :: w in r.value <==> w in g.textToKeys.order && StartsWith(inputHiragana, Kata2Hira(w))
  {
    if inputHiragana == [] then None else Some(MatchingAmong(inputHiragana, g.textToKeys.order))
  }

  /** The `for (const word in textToKeys)` loop of `findMatchingWords`. */
  method FindMatchingWords(inputHiragana: string, g: Graph) returns (r: Option<seq<string>>)
    ensures r == MatchingWords(inputHiragana, g)
  {
    if inputHiragana == [] {
      return None;
    }
    var words := g.textToKeys.order;
    var matchingWords: seq<string> := [];
    for i := 0 to |words|
      invariant matchingWords == MatchingAmong(inputHiragana, words[..i])
    {
      assert words[..i + 1][..i] == words[..i];
      if StartsWith(inputHiragana, Kata2Hira(words[i])) {
        matchingWords := matchingWords + [words[i]];
      }
    }
    assert words[..|words|] == words;
    return Some(matchingWords);
  }

  // ---------------------------------------------------------------------
  // followGreedy
  // ---------------------------------------------------------------------

  /** `s.startsWith(p)` after normalising both. */
  predicate Fits(s: string, p: string) {
    StartsWith(Kata2Hira(s), Kata2Hira(p))
  }

  /** The successors of `key` whose text, after the head's, still fits the input. */
  function NextKeys(g: Graph, key: Key, inputHiragana: string, headHiragana: string): (r: seq<Key>)
    requires forall n :: n in Get(g.keyToNext, key) ==> n in g.keyToText
    ensures forall n :: n in r <==> n in Get(g.keyToNext, key) && StartsWith(inputHiragana, headHiragana + Kata2Hira(g.keyToText[n]))
  {
    FilterFits(g, Get(g.keyToNext, key), inputHiragana, headHiragana)
  }

  function FilterFits(g: Graph, keys: seq<Key>, inputHiragana: string, headHiragana: string): (r: seq<Key>)
    requires forall n :: n in keys ==> n in g.keyToText
    ensures forall n :: n in r <==> n in keys && StartsWith(inputHiragana, headHiragana + Kata2Hira(g.keyToText[n]))
  {
    if keys == [] then []
    else
      var n := keys[|keys| - 1];
      FilterFits(g, keys[..|keys| - 1], inputHiragana, headHiragana) +
        (if StartsWith(inputHiragana, headHiragana + Kata2Hira(g.keyToText[n])) then [n] else [])
  }

  /** A successor that fits after the head fits the rest of the input. */
  lemma {:induction false} NextFitsRest(input: string, head: string, next: string)
    requires |head| <= |input|
    requires StartsWith(Kata2Hira(input), Kata2Hira(head) + Kata2Hira(next))
    ensures Fits(input[|head|..], next)
  {
    Kata2HiraSlice(input, |head|, |input|);
    var ih, hh, nh := Kata2Hira(input), Kata2Hira(head), Kata2Hira(next);
    assert ih[|head|..][..|nh|] == ih[|head|..|head| + |nh|] == (hh + nh)[|head|..];
  }

  /** A prefix of the input followed by a prefix of what remains is a prefix of the input. */
  lemma {:induction false} PrefixThenPrefix(input: string, n: nat, s: string)
    requires n <= |input| && s <= input[n..]
    ensures input[..n] + s <= input
  {
    assert input[..n] + s == input[..n + |s|];
  }

  /** Every successor that fits after the head fits the rest of the input. */
  lemma {:induction false} NextKeysFitRest(input: string, key: Key, g: Graph)
    requires Searchable(g) && key in g.keyToText && |g.keyToText[key]| <= |input|
    ensures forall n :: n in NextKeys(g, key, Kata2Hira(input), Kata2Hira(g.keyToText[key])) ==>
              Fits(input[|g.keyToText[key]|..], g.keyToText[n])
  {
    var head := g.keyToText[key];
    forall n | n in NextKeys(g, key, Kata2Hira(input), Kata2Hira(head))
      ensures Fits(input[|head|..], g.keyToText[n])
    {
      NextFitsRest(input, head, g.keyToText[n]);
    }
  }

  /**
   * `followGreedy` past its checks: the head as typed, followed by the
   * longest of the successors' continuations, if any successor fits.
   * Its result is a prefix of the input at least as long as the head.
   */
  function Walk(input: string, key: Key, g: Graph): (r: string)
    requires Searchable(g) && key in g.keyToText && Fits(input, g.keyToText[key])
    ensures |g.keyToText[key]| <= |r| && r <= input
    decreases |input|, 0
  {
    var head := g.keyToText[key];
    var nextKeys := NextKeys(g, key, Kata2Hira(input), Kata2Hira(head));
    var headAsInput := input[..|head|];
    if nextKeys == [] then headAsInput
    else
      var rest := input[|head|..];
      NextKeysFitRest(input, key, g);
      var downstream := Downstream(rest, nextKeys, g);
      LongestSpec(downstream);
      var best := Longest(downstream).value;
      PrefixThenPrefix(input, |head|, best);
      headAsInput + best
  }

  /** `nextKeys.map((key) => followGreedy(rest, key, graph))` */
  function Downstream(rest: string, keys: seq<Key>, g: Graph): (r: seq<string>)
    requires Searchable(g) && forall n :: n in keys ==> n in g.keyToText && Fits(rest, g.keyToText[n])
    ensures |r| == |keys|
    ensures forall i :: 0 <= i < |keys| ==> r[i] == Follow(rest, keys[i], g)
    ensures forall s :: s in r ==> s <= rest
    decreases |rest|, 2
  {
    seq(|keys|, i requires 0 <= i < |keys| => Follow(rest, keys[i], g))
  }

  /** `followGreedy` on a successor: empty once the input is used up, else the walk. */
  function Follow(rest: string, key: Key, g: Graph): (r: string)
    requires Searchable(g) && key in g.keyToText && Fits(rest, g.keyToText[key])
    ensures r <= rest
    ensures rest != [] ==> |g.keyToText[key]| <= |r|
    decreases |rest|, 1
  {
    if rest == [] then [] else Walk(rest, key, g)
  }

  /**
   * `followGreedy`: "" for empty input, a failed lookup for a key without
   * text, "bad startKey" when the key's text does not start the input,
   * and otherwise the walk.
   */
  function FollowGreedy(input: string, startKey: Key, g: Graph): (r: Result<string, Error>)
    requires Searchable(g)
    ensures input == [] ==> r == Ok([])
    ensures input != [] && startKey !in g.keyToText ==> r == Err(MissingKey)
    ensures input != [] && startKey in g.keyToText ==> (r.Err? <==> !Fits(input, g.keyToText[startKey]))
    ensures r.Err? ==> r.error == MissingKey || r.error == BadStartKey
    ensures r.Ok? ==> r.value <= input
    ensures r.Ok? && input != [] ==> |g.keyToText[startKey]| <= |r.value|
  {
    if input == [] then Ok(input)
    else if startKey !in g.keyToText then Err(MissingKey)
    else if !Fits(input, g.keyToText[startKey]) then Err(BadStartKey)
    else Ok(Walk(input, startKey, g))
  }

  /**
   * With no fitting successor the walk returns exactly the head as typed;
   * otherwise the head as typed followed by the continuation of successor
   * `i`, which is no shorter than any other successor's and strictly
   * longer than those before it.
   */
  lemma {:induction false} WalkChoice(input: string, key: Key, g: Graph)
    requires Searchable(g) && key in g.keyToText && Fits(input, g.keyToText[key])
    ensures var head := g.keyToText[key];
            var nextKeys := NextKeys(g, key, Kata2Hira(input), Kata2Hira(head));
            && (nextKeys == [] ==> Walk(input, key, g) == input[..|head|])
            && (forall n :: n in nextKeys ==> Fits(input[|head|..], g.keyToText[n]))
            && (nextKeys != [] ==>
                  exists i :: 0 <= i < |nextKeys| &&
                    Walk(input, key, g) == input[..|head|] + Follow(input[|head|..], nextKeys[i], g) &&
                    (forall j :: 0 <= j < |nextKeys| ==> |Follow(input[|head|..], nextKeys[j], g)| <= |Follow(input[|head|..], nextKeys[i], g)|) &&
                    (forall j :: 0 <= j < i ==> |Follow(input[|head|..], nextKeys[j], g)| < |Follow(input[|head|..], nextKeys[i], g)|))
  {
    var head := g.keyToText[key];
    var nextKeys := NextKeys(g, key, Kata2Hira(input), Kata2Hira(head));
    NextKeysFitRest(input, key, g);
    if nextKeys != [] {
      var i := ChosenSuccessor(input, key, g);
    }
  }

  /** The successor whose continuation the walk takes: the first of the longest. */
  lemma {:induction false} ChosenSuccessor(input: string, key: Key, g: Graph) returns (i: nat)
    requires Searchable(g) && key in g.keyToText && Fits(input, g.keyToText[key])
    requires NextKeys(g, key, Kata2Hira(input), Kata2Hira(g.keyToText[key])) != []
    ensures var head := g.keyToText[key];
            var nextKeys := NextKeys(g, key, Kata2Hira(input), Kata2Hira(head));
            var rest := input[|head|..];
            && (forall n :: n in nextKeys ==> Fits(rest, g.keyToText[n]))
            && i < |nextKeys|
            && Walk(input, key, g) == input[..|head|] + Follow(rest, nextKeys[i], g)
            && (forall j :: 0 <= j < |nextKeys| ==> |Follow(rest, nextKeys[j], g)| <= |Follow(rest, nextKeys[i], g)|)
            && (forall j :: 0 <= j < i ==> |Follow(rest, nextKeys[j], g)| < |Follow(rest, nextKeys[i], g)|)
  {
    var head := g.keyToText[key];
    var nextKeys := NextKeys(g, key, Kata2Hira(input), Kata2Hira(head));
    var rest := input[|head|..];
    NextKeysFitRest(input, key, g);
    var downstream := Downstream(rest, nextKeys, g);
    LongestSpec(downstream);
    i := FirstMaxIndex(downstream, Len);
    assert Walk(input, key, g) == input[..|head|] + downstream[i];
    forall j | 0 <= j < |nextKeys|
      ensures |Follow(rest, nextKeys[j], g)| <= |Follow(rest, nextKeys[i], g)|
      ensures j < i ==> |Follow(rest, nextKeys[j], g)| < |Follow(rest, nextKeys[i], g)|
    {
      assert Len(downstream[j]) <= Len(downstream[i]);
    }
  }

  /** The texts of `path`'s keys, joined. */
  ghost function PathText(g: Graph, path: seq<Key>): string
    requires forall k :: k in path ==> k in g.keyToText
  {
    if path == [] then [] else g.keyToText[path[0]] + PathText(g, path[1..])
  }

  /** `path` starts at `key` and follows `keyToNext` edges between keys that have texts. */
  ghost predicate IsPath(g: Graph, key: Key, path: seq<Key>) {
    && path != [] && path[0] == key
    && (forall k :: k in path ==> k in g.keyToText)
    && (forall i :: 0 <= i < |path| - 1 ==> path[i + 1] in Get(g.keyToNext, path[i]))
  }

  /** The walk's result is `input`'s prefix that spells, after normalising, the texts along `path`. */
  ghost predicate WalkedAlong(input: string, key: Key, g: Graph, r: string, path: seq<Key>) {
    && IsPath(g, key, path)
    && Fits(input, PathText(g, path))
    && r == input[..|PathText(g, path)|]
  }

  /** A walk from a successor, preceded by the head's step, is a walk from the head. */
  lemma {:induction false} ExtendWalk(input: string, key: Key, g: Graph, next: Key, tail: seq<Key>, r: string)
    requires key in g.keyToText && Fits(input, g.keyToText[key])
    requires |g.keyToText[key]| <= |input|
    requires WalkedAlong(input[|g.keyToText[key]|..], next, g, r, tail)
    requires next in Get(g.keyToNext, key)
    ensures WalkedAlong(input, key, g, input[..|g.keyToText[key]|] + r, [key] + tail)
  {
    var head := g.keyToText[key];
    var t := PathText(g, tail);
    PathTextCons(g, key, tail);
    FitsAppend(input, head, t);
    assert IsPath(g, key, [key] + tail) by {
      assert ([key] + tail)[1..] == tail;
    }
  }

  /** The text along `[key] + tail` is the head's text followed by the text along `tail`. */
  lemma {:induction false} PathTextCons(g: Graph, key: Key, tail: seq<Key>)
    requires key in g.keyToText && forall k :: k in tail ==> k in g.keyToText
    ensures PathText(g, [key] + tail) == g.keyToText[key] + PathText(g, tail)
  {
    assert ([key] + tail)[1..] == tail;
  }

  /** A text that fits, followed by one that fits the rest of the input, fits the input. */
  lemma {:induction false} FitsAppend(input: string, head: string, t: string)
    requires |head| <= |input| && Fits(input, head) && Fits(input[|head|..], t)
    ensures Fits(input, head + t)
    ensures input[..|head + t|] == input[..|head|] + input[|head|..][..|t|]
  {
    var rest := input[|head|..];
    PrefixSplit(input, input[..|head|]);
    Kata2HiraSlice(input, 0, |head|);
    Kata2HiraAppend(input[..|head|], rest);
    Kata2HiraAppend(head, t);
  }

  /** The path along which the walk from `key` goes, built successor by successor. */
  lemma {:induction false} WalkPath(input: string, key: Key, g: Graph) returns (path: seq<Key>)
    requires Searchable(g) && key in g.keyToText && Fits(input, g.keyToText[key])
    ensures WalkedAlong(input, key, g, Walk(input, key, g), path)
    decreases |input|
  {
    var head := g.keyToText[key];
    var nextKeys := NextKeys(g, key, Kata2Hira(input), Kata2Hira(head));
    if nextKeys == [] {
      assert PathText(g, [key]) == head + PathText(g, []);
      path := [key];
    } else {
      var rest := input[|head|..];
      NextKeysFitRest(input, key, g);
      var downstream := Downstream(rest, nextKeys, g);
      LongestSpec(downstream);
      var n := nextKeys[FirstMaxIndex(downstream, Len)];
      assert Walk(input, key, g) == input[..|head|] + Walk(rest, n, g);
      var tail := WalkPath(rest, n, g);
      ExtendWalk(input, key, g, n, tail, Walk(rest, n, g));
      path := [key] + tail;
    }
  }

  /**
   * What `followGreedy` finds is a path of the lattice: its result, read
   * as hiragana, is the texts of a chain of successors starting at the
   * start key, and it is exactly as long as those texts.
   */
  lemma {:induction false} WalkIsPath(input: string, key: Key, g: Graph)
    requires Searchable(g) && key in g.keyToText && Fits(input, g.keyToText[key])
    ensures exists path :: WalkedAlong(input, key, g, Walk(input, key, g), path)
  {
    var path := WalkPath(input, key, g);
  }

  // ---------------------------------------------------------------------
  // findGreedyPath
  // ---------------------------------------------------------------------

  /** One result of `findGreedyPath`. */
  datatype Hit = Hit(firstKey: Key, result: string)

  /** `heads.flatMap((word) => graph.textToKeys[word])` */
  function KeysOf(g: Graph, words: seq<string>): (r: seq<Key>)
    ensures forall k :: k in r <==> exists w :: w in words && k in Get(g.textToKeys, w)
  {
    if words == [] then []
    else KeysOf(g, words[..|words| - 1]) + Get(g.textToKeys, words[|words| - 1])
  }

  /** The keys `findGreedyPath` starts from: those of every word that starts the normalised input. */
  function StartKeys(input: string, g: Graph): (r: seq<Key>)
  {
    var heads := MatchingWords(Kata2Hira(input), g);
    KeysOf(g, if heads.Some? then heads.value else [])
  }

  /** A start key's text starts the input, so `followGreedy` from it does not throw. */
  lemma {:induction false} StartKeysFit(input: string, g: Graph)
    requires Searchable(g)
    ensures forall k :: k in StartKeys(input, g) ==> k in g.keyToText && Fits(input, g.keyToText[k])
    ensures forall k :: k in StartKeys(input, g) <==>
              input != [] && k in g.keyToText && k in Get(g.textToKeys, g.keyToText[k]) && Fits(input, g.keyToText[k])
  {
    var heads := MatchingWords(Kata2Hira(input), g);
    forall k | k in StartKeys(input, g)
      ensures k in g.keyToText && Fits(input, g.keyToText[k])
    {
      var w :| w in (if heads.Some? then heads.value else []) && k in Get(g.textToKeys, w);
    }
    forall k | input != [] && k in g.keyToText && k in Get(g.textToKeys, g.keyToText[k]) && Fits(input, g.keyToText[k])
      ensures k in StartKeys(input, g)
    {
      assert g.keyToText[k] in g.textToKeys.lists;
    }
  }

  /** `followGreedy` from every start key, with the key. */
  function WalkAll(input: string, g: Graph, keys: seq<Key>): (r: seq<Hit>)
    requires Searchable(g)
    requires forall k :: k in keys ==> k in g.keyToText && Fits(input, g.keyToText[k])
    ensures |r| == |keys|
    ensures forall i :: 0 <= i < |r| ==> r[i].firstKey == keys[i] && FollowGreedy(input, keys[i], g) == Ok(r[i].result)
  {
    seq(|keys|, i requires 0 <= i < |keys| => Hit(keys[i], FollowGreedy(input, keys[i], g).value))
  }

  /**
   * `findGreedyPath`: one hit per key of every word that starts the
   * normalised input, in key order, each with its greedy continuation.
   */
  function FindGreedyPath(input: string, g: Graph): (r: seq<Hit>)
    requires Searchable(g)
    ensures |r| == |StartKeys(input, g)|
    ensures input == [] ==> r == []
    ensures forall i :: 0 <= i < |r| ==>
              r[i].firstKey == StartKeys(input, g)[i] && FollowGreedy(input, r[i].firstKey, g) == Ok(r[i].result)
  {
    StartKeysFit(input, g);
    WalkAll(input, g, StartKeys(input, g))
  }

  /** Every hit is a non-empty prefix of the input. */
  lemma {:induction false} HitsArePrefixes(input: string, g: Graph)
    requires Searchable(g)
    ensures forall h :: h in FindGreedyPath(input, g) ==> h.result <= input && 0 < |h.result|
  {
    StartKeysFit(input, g);
    forall h | h in FindGreedyPath(input, g)
      ensures h.result <= input && 0 < |h.result|
    {
      var i :| 0 <= i < |FindGreedyPath(input, g)| && FindGreedyPath(input, g)[i] == h;
    }
  }

  // ---------------------------------------------------------------------
  // chunkInput
  // ---------------------------------------------------------------------

  /** `"unknown"` and `"ok"`. */
  datatype Status = Unknown | Matched

  /** `Chunk` of interfaces.ts, without the never-set `full`. */
  datatype Chunk = Chunk(text: string, status: Status, start: bool)

  function ResultLength(h: Hit): int {
    |h.result|
  }

  /**
   * One iteration of `chunkInput`: an unknown one-character chunk when
   * nothing matches, else the longest hit (the first on ties), marked as a
   * start when its first key is an ancestor.
   */
  function NextChunk(rest: string, g: Graph): (c: Chunk)
    requires Searchable(g) && rest != []
    ensures 0 < |c.text| && c.text <= rest
  {
    var hits := FindGreedyPath(rest, g);
    if hits == [] then Chunk(rest[..1], Unknown, false)
    else
      HitsArePrefixes(rest, g);
      var hit := hits[FirstMaxIndex(hits, ResultLength)];
      Chunk(hit.result, Matched, hit.firstKey in g.ancestorKeys)
  }

  /** The chunks `chunkInput` produces for `rest`. */
  function Chunks(rest: string, g: Graph): (r: seq<Chunk>)
    requires Searchable(g)
    decreases |rest|
  {
    if rest == [] then []
    else
      var c := NextChunk(rest, g);
      [c] + Chunks(rest[|c.text|..], g)
  }

  /** The chunk texts, joined. */
  function Joined(chunks: seq<Chunk>): string {
    if chunks == [] then [] else Joined(chunks[..|chunks| - 1]) + chunks[|chunks| - 1].text
  }

  lemma {:induction false} JoinedAppend(a: seq<Chunk>, b: seq<Chunk>)
    ensures Joined(a + b) == Joined(a) + Joined(b)
    decreases |b|
  {
    if b != [] {
      var init := b[..|b| - 1];
      assert (a + b)[..|a + b| - 1] == a + init;
      JoinedAppend(a, init);
    } else {
      assert a + b == a;
    }
  }

  /** Joining the chunks gives back the input exactly; every chunk is non-empty. */
  lemma {:induction false} ChunksCover(rest: string, g: Graph)
    requires Searchable(g)
    ensures Joined(Chunks(rest, g)) == rest
    ensures forall c :: c in Chunks(rest, g) ==> c.text != []
    decreases |rest|
  {
    if rest != [] {
      var c := NextChunk(rest, g);
      var tail := rest[|c.text|..];
      ChunksCover(tail, g);
      ChunksUnfold(rest, g);
      JoinedCons(c, Chunks(tail, g));
      PrefixSplit(rest, c.text);
    }
  }

  lemma {:induction false} JoinedCons(c: Chunk, chunks: seq<Chunk>)
    ensures Joined([c] + chunks) == c.text + Joined(chunks)
  {
    JoinedAppend([c], chunks);
    assert Joined([c]) == Joined([]) + c.text;
    assert [] + c.text == c.text;
  }

  /**
   * What one chunk says: unknown exactly when no word matches, then one
   * character and not a start; otherwise the longest hit's text, the
   * first of the longest on ties, with `start` its key's ancestry.
   */
  lemma {:induction false} NextChunkSpec(rest: string, g: Graph)
    requires Searchable(g) && rest != []
    ensures NextChunk(rest, g).status == Unknown <==> FindGreedyPath(rest, g) == []
    ensures NextChunk(rest, g).status == Unknown ==> NextChunk(rest, g) == Chunk(rest[..1], Unknown, false)
    ensures NextChunk(rest, g).status == Matched ==>
              exists i :: 0 <= i < |FindGreedyPath(rest, g)| &&
                NextChunk(rest, g).text == FindGreedyPath(rest, g)[i].result &&
                NextChunk(rest, g).start == (FindGreedyPath(rest, g)[i].firstKey in g.ancestorKeys) &&
                (forall j :: 0 <= j < |FindGreedyPath(rest, g)| ==> |FindGreedyPath(rest, g)[j].result| <= |NextChunk(rest, g).text|) &&
                (forall j :: 0 <= j < i ==> |FindGreedyPath(rest, g)[j].result| < |NextChunk(rest, g).text|)
  {
    var hits := FindGreedyPath(rest, g);
    if hits != [] {
      var i := FirstMaxIndex(hits, ResultLength);
      assert NextChunk(rest, g).text == hits[i].result;
    }
  }

  lemma {:induction false} ChunksUnfold(rest: string, g: Graph)
    requires Searchable(g) && rest != []
    ensures Chunks(rest, g) == [NextChunk(rest, g)] + Chunks(rest[|NextChunk(rest, g).text|..], g)
  {
  }

  /** One iteration of `chunkInput`'s loop: the chunk cut off the front of `rest`. */
  method CutChunk(rest: string, g: Graph) returns (c: Chunk)
    requires Searchable(g) && rest != []
    ensures c == NextChunk(rest, g)
  {
    var hits := FindGreedyPath(rest, g);
    if |hits| == 0 {
      c := Chunk(rest[..1], Unknown, false);
    } else {
      var hit := Max(hits, ResultLength);
      c := Chunk(hit.value.result, Matched, hit.value.firstKey in g.ancestorKeys);
    }
  }

  /** One turn of `chunkInput`'s loop: push the next chunk and cut its text off `rest`. */
  method CutNext(chunks0: seq<Chunk>, rest0: string, g: Graph, ghost input: string) returns (chunks: seq<Chunk>, rest: string)
    requires Searchable(g) && rest0 != []
    requires chunks0 + Chunks(rest0, g) == Chunks(input, g)
    ensures chunks + Chunks(rest, g) == Chunks(input, g)
    ensures |rest| < |rest0|
  {
    var c := CutChunk(rest0, g);
    rest := rest0[|c.text|..];
    ChunksUnfold(rest0, g);
    AppendAssoc(chunks0, [c], Chunks(rest, g));
    chunks := chunks0 + [c];
  }

  /** `chunkInput`: repeatedly cut the next chunk off the front of the input. */
  method ChunkInput(input: string, g: Graph) returns (chunks: seq<Chunk>)
    requires Searchable(g)
    ensures chunks == Chunks(input, g)
    ensures Joined(chunks) == input
  {
    chunks := [];
    var rest := input;
    EmptyAppend(Chunks(input, g));
    while rest != []
      invariant chunks + Chunks(rest, g) == Chunks(input, g)
      decreases |rest|
    {
      chunks, rest := CutNext(chunks, rest, g, input);
    }
    AppendEmpty(chunks);
    ChunksCover(input, g);
  }
}
