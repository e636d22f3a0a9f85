# tabito-lib furigana lattice, modelled in Dafny

tabito-lib turns a Japanese sentence into a *lattice* (a directed graph of
words) and matches typed input against it. A sentence is a list of
*furigana* tokens: each is either a plain string or a ruby pair
`{ruby, rt}` (spelling and reading). A sentence may also list *synonyms*:
pairs of a source text, found in the sentence's plain text on token
boundaries, and a replacement list of tokens.

This project models the library's four components and the helpers they use:

- **Lattice builder** (`index.ts`). `sentenceToGraph`:
  - validates every synonym source;
  - lays the tokens down as a chain of keys, two parallel keys for a ruby token;
  - splices in one replacement chain for each occurrence of each source, with two outflow rules;
  - derives successors, key texts, ancestors and leaves.

  The two dictionaries it updates in place (`textToKeys`, `keyToPrev`) are the fields of the class `Lattice.Lattice`. Each method is tied to a function on a `Snapshot` of both dictionaries, and lemmas state what the builder promises about that function.
- **Search** (`graphSearch.ts`):
  - `findMatchingWords` compares inputs after katakana-to-hiragana normalisation;
  - `followGreedy` walks every fitting branch and keeps the longest continuation;
  - `findGreedyPath` runs `followGreedy` from every matching key;
  - `chunkInput` cuts the input into "ok" and "unknown" chunks.
- **Synonym minimiser** (`addSynonym.ts`). `addSynonym` trims a shared prefix and suffix of tokens while what remains still locates itself uniquely. It refuses tautological or already declared synonyms, and otherwise appends exactly one pair.
- **Acceptable-sentence enumerator** (`enumerateAcceptable.ts`). It builds a per-character token table, finds disjoint matches of each source, and splices each replacement into a copy of the table.
- **Helpers**:
  - from `utils.ts`: `insert`, `reverse`, `cumulativeSum`, `findOccurrences`, `findNumOccurrences`;
  - from the bundle `dist/index.cjs`: `insert` with dedupe, `reverseUniq`, `max`, `longest` and `kata2hira` with its kana tables.

Module layout:

| module | file | contents |
|---|---|---|
| Wrappers | `wrappers.dfy` | `Option`, `Result`, and one `Error` constructor per `throw` |
| Seqs | `seqs.dfy` | small lemmas on concatenation and slicing |
| Furigana | `furigana.dfy` | tokens, sentences, the plain-text projection, the character-to-token map |
| Utils | `utils.dfy` | `Record` (an insertion-ordered `Record<string, string[]>`) and the helpers |
| Kana | `kana.dfy` | `kata2hira` with the tables as shipped and as intended |
| Keys | `keys.dfy` | lattice keys as a datatype, `mainlineKeys`, the `Graph` record |
| Tables | `tables.dfy` | the loops of `insert` calls the builder makes, as functions |
| Lattice | `lattice.dfy` | `validateSynonyms`, `insertFurigana`, `parseSynonyms` and the wrap-up of `sentenceToGraph` |
| LatticeProps | `lattice_props.dfy` | what the mainline pass, the chains and the outflows do to `keyToPrev`/`textToKeys` |
| SentenceGraph | `sentence_graph.dfy` | `sentenceToGraph`, and when a sentence without synonyms builds |
| GraphSearch | `graph_search.dfy` | `findMatchingWords`, `followGreedy`, `findGreedyPath`, `chunkInput` |
| AddSynonym | `add_synonym.dfy` | `addSynonym`, `furiganasToFull`, and the unseen helpers it imports |
| AddSynonymExamples | `add_synonym_examples.dfy` | the cases of `tests/addSyn.ts`, worked out on sentences with one plain token per letter |
| Enumerate | `enumerate.dfy` | `enumerateAcceptable`, `findAllMatches` |

A key is written as the string `text/fidx` (mainline) or `text/source/start/fidx` (replacement) in the library. Here it is the datatype `Key(text, place)`, where `place` is `Main(index)` or `Alt(source, start, fidx)`.

## Model

| member | source | states |
|---|---|---|
| Furigana.OwnersSpan | index.ts:13-15 | `charToMorphemeIdx` has one entry per plain-text character; each entry names a token, and it names token `k` exactly when the character lies inside token `k`'s span |
| Furigana.ToPlainAppend | index.ts:8-11 | the plain text of two token lists joined is the two plain texts joined |
| Utils.Inserted | utils.ts:183-192 | `insert` keeps the record valid, creates the key if it was absent, leaves every other key's list unchanged, never shortens a list, and leaves the value in the key's list |
| Utils.InsertAppends | utils.ts:183-192 | without dedupe, `insert` appends exactly the value to the key's list |
| Utils.InsertDedupes | dist/index.cjs:30-37 | with dedupe, `insert` leaves the list as it was when the value is already present, and appends it otherwise |
| Utils.InsertCount | utils.ts:183-192 | without dedupe, `insert` raises one value's count in one list by exactly one and changes no other count |
| Utils.Reverse | utils.ts:216-224 | `k` occurs in `result[v]` exactly as often as `v` occurs in `input[k]`, and every list of the result is non-empty |
| Utils.ReverseUniq | dist/index.cjs:47-57 | fails with "non-unique values" exactly when some value occurs twice across the lists; otherwise it maps every listed value to the key that lists it, and maps nothing else |
| Utils.IndexOf | index.ts:18 | `indexOf` returns -1 when there is no occurrence at or after the start position, else the first such occurrence |
| Utils.OccurrencesSpec | utils.ts:233-240 | the occurrence list holds every start position of the needle, overlapping ones included, and nothing else, in strictly increasing order |
| Utils.FindOccurrences | utils.ts:233-240 | the `indexOf` loop returns exactly the occurrence list |
| Utils.FindNumOccurrences | utils.ts:241-251 | the count equals the length of the occurrence list |
| Utils.FirstMaxIndex | dist/index.cjs:66-79 | the chosen index has a maximal measure, and every earlier element has a strictly smaller one |
| Utils.Max | dist/index.cjs:66-79 | `max` fails exactly on empty input; otherwise it returns the first element of maximal measure |
| Utils.LongestSpec | dist/index.cjs:80-84 | `longest` fails exactly on empty input; otherwise it returns the first longest string, which is in the list and at least as long as every other |
| Utils.CumulativeSum | utils.ts:226-232 | same length; `ret[0] = v[0]`; `ret[i] = ret[i-1] + v[i]`; and `ret[i]` is the sum of `v[0..i]` |
| Kana.TablesSameLength | dist/index.cjs:87-91 | the two tables have equal length, so the module-level check never throws |
| Kana.Lookup | dist/index.cjs:92-100 | a character outside the table is unchanged; one inside maps to its partner at the same table position |
| Kana.Kata2HiraCharShift | dist/index.cjs:87-100 | with the full tables, katakana U+30A1-U+30F6 moves down by 0x60 and every other character is unchanged |
| Kana.Kata2HiraCharAsWrittenShift | dist/index.cjs:87-100 | with the tables as shipped, the same holds except that U+30DD is left unchanged |
| Kana.Kata2Hira | dist/index.cjs:98-100 | `kata2hira` preserves length and maps each character on its own |
| Kana.Kata2HiraIdempotent | dist/index.cjs:87-100 | with the full tables, no katakana survives normalisation, so normalising twice is normalising once |
| Kana.Kata2HiraAsWrittenIdempotent | dist/index.cjs:87-100 | with the tables as shipped, ポ (U+30DD) is the only katakana that can survive normalisation, and normalising twice is still normalising once |
| Kana.AsWrittenAgreesWithoutPo | dist/index.cjs:87-100 | on a text without ポ, the tables as shipped and the full tables normalise alike |
| Kana.Kata2HiraAppend | dist/index.cjs:98-100 | normalising a concatenation is concatenating the normalised parts |
| Kana.PoIsNotConverted | dist/index.cjs:87-88 | with the shipped tables katakana PO stays unconverted, so it never equals hiragana PO after normalisation; with the full tables the two agree |
| Keys.TokenKeys | index.ts:127-163 | `insertFurigana` makes one key for a plain token and two for a ruby token (the spelling first), all at the token's place |
| Keys.MainlineKeys | index.ts:109-118 | "weird index" exactly when the index is out of range; otherwise the token's keys at its mainline place: `[text]` for a plain token, `[reading, spelling]` for a ruby token |
| Tables.AppendNewSpec | dist/index.cjs:30-37 | a run of deduplicating inserts adds each new value exactly once and keeps the counts of values already present |
| Tables.LinkEachSpec | index.ts:139-141 | linking one key to a list of predecessors appends them (deduplicated or not) to that key's list only |
| Tables.LinkAllSpec | index.ts:81-103 | linking several keys to the same predecessors changes exactly the listed keys, each in the same way |
| Tables.EnrollAllSpec | index.ts:134-158 | enrolling keys appends each key under its own text, in order, after the keys already there |
| Tables.FedBy | index.ts:91-97 | the keys selected for the cross outflow are exactly the keys of `keyToPrev` whose predecessors include a key of the given token |
| Lattice.ValidateSynonyms | index.ts:7-37 | the loop returns true exactly when every source occurs and passes both boundary checks at its first occurrence |
| Lattice.SourceValidIff | index.ts:17-35 | a non-empty source passes exactly when it occurs and its first occurrence starts and ends on token boundaries |
| Lattice.BoundaryIff | index.ts:13-15 | two neighbouring characters belong to different tokens exactly when a token boundary falls between them |
| Lattice.ValidSourceOccurs | index.ts:55-59 | a validated source has an occurrence, so "synonym not found" is never thrown after validation |
| Lattice.Lattice.Link | index.ts:139-141 | the `insert` loop of one key: `keyToPrev` becomes the linked table and `textToKeys` is unchanged |
| Lattice.Lattice.InsertFurigana | index.ts:127-163 | the new dictionaries and the returned keys are one `InsertStep` of the old ones |
| LatticeProps.InsertStepLinks | index.ts:127-163 | each new key's predecessor list gains exactly `previousKeys` at its end, and every other key's list is unchanged |
| LatticeProps.InsertStepTexts | index.ts:127-163 | `insertFurigana` returns the token's keys and lists each under its own text after the keys already there |
| Lattice.LayMainline | index.ts:173-182 | the mainline loop leaves the dictionaries of the mainline pass over every token |
| LatticeProps.MainlineLinks | index.ts:173-182 | after the mainline pass, each key of token `i > 0` has exactly the keys of token `i-1` as predecessors, and every other key has none |
| LatticeProps.MainlineDomain | index.ts:173-182 | after the mainline pass, `keyToPrev` has entries exactly for the keys of tokens after the first |
| LatticeProps.MainlineTexts | index.ts:173-182 | after the mainline pass, each text lists exactly the mainline keys with that text, in token order |
| LatticeProps.MainKeysDistinct | index.ts:173-182 | the mainline keys are pairwise distinct, so a repeated text gets one key per occurrence |
| LatticeProps.ChainLinks | index.ts:68-80 | the chain's first replacement key gets the predecessors of the span's first token; each later one gets the keys of the replacement token before it; nothing else changes |
| LatticeProps.ChainTail | index.ts:72-80 | after the chain, `previousKeys` holds the keys of the last replacement token, or the entry keys for an empty replacement |
| LatticeProps.NextOutflowSpec | index.ts:81-88 | if a truthy token follows the span, each of its keys gets the chain's tail appended without dedupe; nothing else changes |
| LatticeProps.CrossOutflowSpec | index.ts:89-103 | every key whose predecessors include a key of the span's last token gets the tail keys it lacks appended; every other key is unchanged |
| LatticeProps.CrossOutflowOnce | index.ts:89-103 | the cross outflow adds each tail key at most once to any list, and never adds one that was already present |
| Lattice.Lattice.SpliceOccurrence | index.ts:60-103 | one occurrence: the chain, then both outflow rules, as `Splice` of the old dictionaries |
| Lattice.Lattice.ParseSource | index.ts:54-104 | one source: "synonym not found" exactly when it has no occurrence, else every occurrence spliced in order |
| Lattice.Lattice.ParseSynonyms | index.ts:40-106 | `parseSynonyms` leaves the dictionaries `Parse` computes, or fails with that function's error |
| Lattice.ParseSucceeds | index.ts:55-59 | when every source is valid, `parseSynonyms` never throws |
| Lattice.Built | index.ts:165-185 | the builder fails with "Invalid synonyms" exactly when validation fails; otherwise both dictionaries are well formed |
| Lattice.WrapUp | index.ts:188-196 | fails with "non-unique values" exactly when some key is listed twice in `textToKeys`; otherwise `keyToNext` is the exact inverse of `keyToPrev`, each key has its own text, and ancestors and leaves are the keys with no predecessors or successors |
| Lattice.WrapUpGraph | index.ts:188-196 | the derived relations together make the graph of the built dictionaries |
| SentenceGraph.SentenceToGraph | index.ts:165-205 | "Invalid synonyms" when validation fails; "non-unique values" exactly when a key repeats; otherwise the graph of the built dictionaries; a sentence without synonyms builds exactly when no ruby token reads as it is spelled |
| SentenceGraph.NoSynonymsBuild | index.ts:165-196 | a sentence without synonyms always validates and builds the mainline dictionaries, whose `textToKeys` lists no key twice exactly when no ruby token's reading equals its spelling |
| SentenceGraph.MainlineUnique | index.ts:173-196 | when every token's keys differ, the mainline `textToKeys` lists each key once, under its own text, so `reverseUniq` succeeds |
| SentenceGraph.TwiceInARow | index.ts:145-161 | a ruby token whose reading equals its spelling enrolls the same key twice in a row under that text |
| SentenceGraph.MainlineNotUnique | index.ts:173-196 | such a token makes the same key appear twice in `textToKeys`, so `reverseUniq` fails |
| GraphSearch.MatchingAmong | graphSearch.ts:8-12 | keeps exactly the words whose normalised form starts the normalised input, and no more words than it was given |
| GraphSearch.MatchingAmongAppend | graphSearch.ts:8-12 | filtering a concatenation is filtering each part and concatenating, so the kept words stay in the order of `textToKeys` |
| GraphSearch.MatchingAmongOne | graphSearch.ts:8-12 | one word is kept exactly when its normalised form starts the normalised input |
| GraphSearch.MatchingWords | graphSearch.ts:5-14 | undefined exactly for empty input; otherwise exactly the texts of `textToKeys` whose normalised form starts the normalised input |
| GraphSearch.FindMatchingWords | graphSearch.ts:5-14 | the push loop computes `MatchingWords` |
| GraphSearch.NextKeys | graphSearch.ts:41-44 | exactly the successors whose text, after the head's, still starts the normalised input |
| GraphSearch.Walk | graphSearch.ts:41-52 | past the checks, the result is a prefix of the typed input, at least as long as the start key's text |
| GraphSearch.Follow | graphSearch.ts:29-53 | the recursive call returns a prefix of its input, and at least the key's text when that input is non-empty |
| GraphSearch.FollowGreedy | graphSearch.ts:29-53 | "" on empty input; "bad startKey" exactly when the key's text does not fit; otherwise a prefix of the input at least as long as the key's text |
| GraphSearch.WalkChoice | graphSearch.ts:41-52 | with no fitting successor the result is exactly the head as typed; otherwise it is the head followed by one successor's continuation, no shorter than any other's and strictly longer than those before it |
| GraphSearch.ChosenSuccessor | graphSearch.ts:50-52 | returns the successor whose continuation the walk takes: the first of the longest |
| GraphSearch.WalkIsPath | graphSearch.ts:29-53 | the walk's result is the input prefix spelling the texts along some path of successor edges from the start key |
| GraphSearch.KeysOf | graphSearch.ts:22 | the start keys are exactly the keys listed under the matching words |
| GraphSearch.StartKeysFit | graphSearch.ts:16-27 | every start key fits the input, and the start keys are exactly the text-indexed keys whose text fits a non-empty input |
| GraphSearch.FindGreedyPath | graphSearch.ts:16-27 | one hit per start key, in order, each holding that key and its `followGreedy` result; no hits for empty input |
| GraphSearch.HitsArePrefixes | graphSearch.ts:16-27 | every hit's result is a non-empty prefix of the input |
| GraphSearch.NextChunkSpec | graphSearch.ts:58-71 | "unknown" exactly when nothing matches, and then one character with `start` false; otherwise the first longest hit, with `start` its key's membership in the ancestors |
| GraphSearch.ChunksCover | graphSearch.ts:55-74 | the chunk texts joined give back the input, and no chunk is empty |
| GraphSearch.ChunkInput | graphSearch.ts:55-74 | the `while` loop returns the chunk list, whose texts join back to the input |
| AddSynonym.Zip | addSynonym.ts:16 | pairs the lists position by position, as long as the shorter list |
| AddSynonym.ZipRight | addSynonym.ts:37 | pairs the lists from their ends, as long as the shorter list |
| AddSynonym.CountOnce | utils.ts:241-251 | true exactly when the needle occurs once in the haystack |
| AddSynonym.CheckLocates | addSynonym.ts:20-25 | true exactly when both proposed texts are non-empty and each occurs exactly once in its list's plain text |
| AddSynonym.EqualPrefix | addSynonym.ts:16-31 | the `zip` loop stops at the first pair that is not `furiganaEqual` |
| AddSynonym.EqualSuffix | addSynonym.ts:37-52 | the `zipRight` loop stops at the first pair from the end that is not `furiganaEqual` |
| AddSynonym.TrimLeft | addSynonym.ts:15-31 | the left loop computes `LeftTrim` |
| AddSynonym.LeftTrimLocates | addSynonym.ts:15-31 | a left trim happens only when what remains of both lists has a non-empty text occurring exactly once |
| AddSynonym.TrimRight | addSynonym.ts:36-52 | the right loop computes `RightTrim` |
| AddSynonym.RightTrimLocates | addSynonym.ts:36-52 | a right trim happens only when what remains of both lists has a non-empty text occurring exactly once |
| AddSynonym.Trims | addSynonym.ts:15-52 | the left trim never passes the shared equal prefix, and the right trim never passes the equal suffix of what is left |
| AddSynonym.MiddlesOf | addSynonym.ts:33-55 | the kept slices are contiguous: the same count cut from the left of both lists and the same count from the right |
| AddSynonym.Untrimmed | addSynonym.ts:15-55 | the two loops and their slices leave exactly the middles |
| AddSynonym.FullAppend | addSynonym.ts:84-88 | `furiganasToFull` of two lists joined is their full texts joined |
| AddSynonym.FullLength | addSynonym.ts:84-88 | the full text is no shorter than the plain text, and equals it when every token is plain |
| AddSynonym.AddSynonymTo | addSynonym.ts:10-82 | returns `Added`: the original for a tautology or a declared synonym, else the original with the middles appended as one pair |
| AddSynonym.AddedShape | addSynonym.ts:57-81 | the tokens never change; the result is the original or appends exactly one pair, the middle's plain text and the candidate's middle |
| AddSynonym.NoTautology | addSynonym.ts:61-64 | a replacement whose full text equals that of the slice it replaces is not recorded |
| AddSynonym.TrimmedLocates | addSynonym.ts:15-55 | whenever anything was trimmed, the recorded source occurs exactly once in the sentence's plain text and the replacement's text exactly once in the candidate's |
| AddSynonym.AddedIdempotent | addSynonym.ts:66-76 | adding the same candidate a second time adds nothing |
| AddSynonymExamples.LettersPrefix | addSynonym.ts:16-31 | on one-letter tokens, the left loop's run of `furiganaEqual` pairs is the strings' common prefix |
| AddSynonymExamples.LettersSuffix | addSynonym.ts:37-52 | on one-letter tokens, the right loop's run of `furiganaEqual` pairs is the strings' common suffix |
| AddSynonymExamples.ScanStops | addSynonym.ts:15-31 | a trim loop over `n` equal pairs whose first `m` tests pass, and whose next test fails when there is one, trims exactly `m` tokens |
| AddSynonymExamples.LettersLeftTrim | addSynonym.ts:15-31 | on one-letter tokens, the left trim is the largest run of cuts whose remaining texts locate themselves |
| AddSynonymExamples.LettersRightTrim | addSynonym.ts:36-52 | on one-letter tokens, the right trim is the largest run of cuts whose remaining texts locate themselves |
| AddSynonymExamples.OnlyAt | utils.ts:241-251 | a needle found at one position, when no other position holds its first character, occurs exactly once |
| AddSynonymExamples.LettersAdded | addSynonym.ts:54-81 | given the trims, adding a candidate to a sentence of letters with no synonyms records exactly the untrimmed middles, when their texts differ |
| AddSynonymExamples.MiddleReplaced | tests/addSyn.ts:5-8 | adding `axyzc` to the sentence `abc` records exactly the synonym `b` → `xyz` |
| AddSynonymExamples.Appended | tests/addSyn.ts:10-13 | adding `abcd` to `abc` records exactly `c` → `cd`: the left trim stops before emptying the sentence |
| AddSynonymExamples.Prepended | tests/addSyn.ts:15-18 | adding `abc` to `bc` records exactly `b` → `ab` |
| AddSynonymExamples.Replaced | tests/addSyn.ts:20-23 | adding `x` to `a` records exactly `a` → `x` |
| AddSynonymExamples.Shortened | tests/addSyn.ts:25-28 | adding `a` to `aa` records exactly `aa` → `a`: either trim would empty the candidate |
| Enumerate.DisjointFromSpec | enumerateAcceptable.ts:47-57 | every hit is an occurrence at or after the start, and consecutive hits do not overlap |
| Enumerate.DisjointFromStep | enumerateAcceptable.ts:50-55 | each turn of the loop records the first occurrence at or after `hit`, and resumes just past it |
| Enumerate.DisjointFromCovers | enumerateAcceptable.ts:47-57 | an occurrence that is not a hit lies inside some hit's span, so the search is greedy from the left |
| Enumerate.MatchesSpec | enumerateAcceptable.ts:41-58 | `findAllMatches` returns occurrences in strictly increasing, non-overlapping order, and covers every occurrence |
| Enumerate.FindAllMatches | enumerateAcceptable.ts:47-58 | the `while` loop returns `Matches` |
| Enumerate.CharTable | enumerateAcceptable.ts:16-25 | the push loop builds the per-character table `Slots` |
| Enumerate.SlotsSpec | enumerateAcceptable.ts:16-25 | with spelled tokens, the table has one slot per plain character; each token sits at its first character's offset and undefined fills the rest of its span |
| Enumerate.PresentSlots | enumerateAcceptable.ts:34 | filtering the untouched table gives back the truthy tokens |
| Enumerate.AlignedVariant | enumerateAcceptable.ts:31-34 | for a hit aligned to tokens `a..b`, the copy is tokens before `a`, the replacement's truthy tokens, then tokens from `b`; an empty replacement deletes the span |
| Enumerate.AllVariantsCount | enumerateAcceptable.ts:28-36 | one pushed sequence per (synonym, hit) |
| Enumerate.AllVariantsAt | enumerateAcceptable.ts:28-36 | hit `i` of synonym `j` is pushed after the hits of earlier synonyms and earlier hits of `j` |
| Enumerate.AcceptableSpec | enumerateAcceptable.ts:10-39 | the sentence's tokens come first; with no synonyms they are alone; the length is one plus the total number of hits |
| Enumerate.PushVariants | enumerateAcceptable.ts:30-35 | the inner loop appends one spliced, filtered copy per hit, and the table itself is left alone |
| Enumerate.EnumerateAcceptable | enumerateAcceptable.ts:10-39 | the method returns `Acceptable(sentence)` |

## Left out

- AddSynonymExamples.MiddleReplaced and the four cases beside it: `tests/addSyn.ts` compares `synonyms` with the bare pair `[plain, tokens]`. `addSynonym` returns a list that holds that pair, and these lemmas state the list. The sentences of these cases have no `synonyms` field, which the model writes as the empty list.
- Utils.Record: JavaScript objects enumerate integer-like keys first and the rest in insertion order. The model keeps plain insertion order. Only the order of `findMatchingWords` can differ, when a text looks like a number. The cross-outflow targets come from `keyToPrev`, whose keys all contain "/" and so are never integer-like.
- Utils.Inserted: JavaScript's `in` also finds names inherited from `Object.prototype` (dist/index.cjs:30-32). A token text such as "toString", "constructor", "valueOf" or "__proto__" therefore counts as already present in an empty `textToKeys`, and the following `push` throws a `TypeError` (index.ts:137). The model's record has no inherited names: it creates the key, so `SentenceGraph.SentenceToGraph` and `SentenceGraph.NoSynonymsBuild` build a graph for such sentences where the source throws.
- Keys.Key: key strings `text/fidx` can collide when a text contains "/". Datatype keys cannot collide, so `reverseUniq` fails in the model only when the same key is enrolled twice. This happens for a ruby token whose reading equals its spelling (index.ts:145-161). It also happens for two synonyms with the same source whose replacements have the same text at the same position (index.ts:71-78). The source builds the same key string twice in both cases.
- GraphSearch.Chunk: `full` (interfaces.ts:35) is never set by `chunkInput`, so it is not modelled.
- GraphSearch.NextChunkSpec: `start` is membership of the first key in the ancestor set (dist/index.cjs:155). graphSearch.ts:68 reads the set as a record, which would be undefined at run time.
- GraphSearch.Searchable: the search assumes every key has a non-empty text, every listed key and successor has a text, and a key is listed under its own text. With an empty text, `followGreedy` would no longer shrink its input, so the model's termination measure fails, and `chunkInput` loops forever when its longest hit is empty (for example tokens `["", "a"]` and input "b"). This is a precondition, not modelled behaviour.
- GraphSearch.FollowGreedy: a start key without a text makes `kata2hira(undefined)` throw a `TypeError`. The model returns `MissingKey` for it.
- Furigana.SourcesNonEmpty: an empty synonym source makes `findOccurrences` and `findAllMatches` loop forever. The builder, the enumerator and the occurrence helpers require non-empty sources or needles.
- Furigana.Sentence: an absent `synonyms` field is modelled as an empty list. The source treats both alike.
- AddSynonym.FuriganaEqual: `furiganaEqual` is imported from a `utils` version that is not part of this model. It is modelled as equality of two plain strings, or of the readings of two ruby tokens; a plain token never equals a ruby token.
- AddSynonym.Zip: `zip` and `zipRight` are not part of this model either. They are assumed to stop at the shorter list; `zipRight` pairs elements from the end.
- AddSynonym.AppearsExactlyOnce: modelled as an occurrence count of one, overlapping occurrences included, as `findNumOccurrences` counts them.
- `furiganasToPlain` is not part of this model either. It is modelled as the projection of `index.ts:8-11`.
- AddSynonym.TrimRight: the source counts `right` as a negative slice end (0 meaning "to the end"). The model counts the trimmed tokens as a natural number.
- Enumerate.CharTable: the copy and `splice` of each table are modelled on sequence values, so the table is immutable by construction.
- Enumerate.AlignedVariant: it requires every token to have a non-empty spelling (`Spelled`). A token with an empty spelling still takes one slot in `charToFuri`, so a splice offset can then be out of step with the plain text. `AllVariantsAt` still states what is pushed for such inputs.
- Lattice.ParseSource: the "synonym not found" error is modelled, but `Lattice.ParseSucceeds` shows it cannot happen after validation.
- The rest of `utils.ts` (its older graph builder, `treeToDot`, the demo), `demo.ts`, `docs/index.js` and the tests are not part of this model. Neither is the module boilerplate of `dist/index.cjs`.
- Kana: the model uses the code-point ranges the tables list and no other Unicode data.
- GraphSearch.MatchingAmong, GraphSearch.MatchingWords, GraphSearch.NextKeys and the rest of the search normalise with the full tables (`Kana.Kata2Hira`), not the shipped ones (see Findings). On ポ they match where the bundle does not. On texts without U+30DD the two agree (`Kana.AsWrittenAgreesWithoutPo`).
- GraphSearch.ChunkInput: strings are sequences of code points. JavaScript strings are UTF-16, so `rest[0]` of an astral character absent from the lattice is a lone surrogate: the source emits two "unknown" chunks for it (graphSearch.ts:60-62), the model one.
- Utils.CumulativeSum: sums are unbounded integers. JavaScript adds doubles, so rounding above 2^53 is not modelled.

## Findings

| source | as written | input that shows it | evidently intended | confidence | as-written member | corrected member |
|---|---|---|---|---|---|---|
| dist/index.cjs:87-88 | the kana tables list U+3041-U+3096 and U+30A1-U+30F6 but skip U+307D (ぽ) and U+30DD (ポ), so `kata2hira` leaves ポ unconverted | input "ポ" against a lattice word "ぽ": `kata2hira("ポ")` is "ポ", which does not start with "ぽ", so the word does not match | ポ normalises to ぽ like every other katakana letter | not executed | Kana.PoIsNotConverted | Kana.Kata2HiraCharShift |
