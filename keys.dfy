/**
 * Lattice keys and the graph record of interfaces.ts.
 *
 * index.ts names each lattice node by the string `${text}/${fidx}`, where
 * `fidx` is the token's mainline index, or `${source}/${start}/${fidx}` for
 * token `fidx` of a synonym replacement spliced at character `start`. Here
 * the key is a datatype with the same three ingredients, so that two keys
 * are equal exactly when text and position are.
 */
module Keys {
  import opened Wrappers
  import opened Furigana
  import opened Utils

  /** Where a key's token sits in the lattice. */
  datatype Place =
    | Main(index: nat)
    | Alt(source: string, start: nat, fidx: nat)

  /** `${text}/${place}` */
  datatype Key = Key(text: string, place: Place)

  /** `Tree` of interfaces.ts when it maps texts to keys (`textToKeys`). */
  type TextIndex = Record<string, Key>

  /** `Tree` of interfaces.ts when it maps keys to keys (`keyToPrev`, `keyToNext`). */
  type Links = Record<Key, Key>

  /** `Graph` of interfaces.ts; the `Record<string, true>` sets are sets. */
  datatype Graph = Graph(
    textToKeys: TextIndex,
    keyToPrev: Links,
    keyToText: map<Key, string>,
    keyToNext: Links,
    ancestorKeys: set<Key>,
    leafKeys: set<Key>)

  /**
   * The keys `insertFurigana` generates for token `f` at `place`, in the
   * order it returns them: the spelling first, then the reading.
   */
  function TokenKeys(f: Furigana, place: Place): (keys: seq<Key>)
    ensures 1 <= |keys| <= 2
    ensures forall k :: k in keys ==> k.place == place
    ensures f.Plain? ==> keys == [Key(f.text, place)]
    ensures f.Ruby? ==> keys == [Key(f.ruby, place), Key(f.rt, place)]
  {
    match f
    case Plain(t) => [Key(t, place)]
    case Ruby(ruby, rt) => [Key(ruby, place), Key(rt, place)]
  }

  /** The token's keys differ from each other (false only for a ruby token whose reading is its spelling). */
  predicate DistinctKeys(f: Furigana) {
    f.Plain? || f.ruby != f.rt
  }

  /**
   * `mainlineKeys`: the keys of mainline token `i`, the reading first for a
   * ruby token; "weird index" when `i` is out of range.
   */
  function MainlineKeys(fs: seq<Furigana>, i: int): (r: Result<seq<Key>, Error>)
    ensures r.Ok? <==> 0 <= i < |fs|
    ensures r.Err? ==> r.error == WeirdIndex
    ensures r.Ok? ==> |r.value| == |TokenKeys(fs[i], Main(i))|
    ensures r.Ok? ==> forall k :: k in r.value <==> k in TokenKeys(fs[i], Main(i))
    ensures r.Ok? && fs[i].Plain? ==> r.value == [Key(fs[i].text, Main(i))]
    ensures r.Ok? && fs[i].Ruby? ==> r.value == [Key(fs[i].rt, Main(i)), Key(fs[i].ruby, Main(i))]
  {
    if i < 0 || i >= |fs| then Err(WeirdIndex)
    else match fs[i]
      case Plain(t) => Ok([Key(t, Main(i))])
      case Ruby(ruby, rt) => Ok([Key(rt, Main(i)), Key(ruby, Main(i))])
  }
}
