/**
 * kana.ts (as bundled in dist/index.cjs): `kata2hira` maps each katakana
 * character to its hiragana counterpart through a pair of parallel tables
 * and leaves every other character unchanged.
 *
 * The bundled tables hold 85 characters each and skip one pair: U+30DD
 * (katakana PO) and U+307D (hiragana PO). Every other entry of the
 * katakana table is its hiragana partner plus 0x60. `Kata2HiraCharAsWritten`
 * models the tables as shipped; `Kata2HiraChar` models the evidently
 * intended full tables, and is the one the search uses.
 */
module Kana {
  import opened Wrappers

  /** The characters with code points lo, lo + 1, ..., hi - 1. */
  function CharRange(lo: nat, hi: nat): (r: seq<char>)
    requires lo <= hi <= 0xD800
    ensures |r| == hi - lo
    ensures forall i :: 0 <= i < |r| ==> r[i] as int == lo + i
  {
    seq(hi - lo, i requires 0 <= i < hi - lo => (lo + i) as char)
  }

  /** The bundled hiragana table: U+3041 to U+3096 without U+307D. */
  function HiraganaAsWritten(): seq<char> {
    CharRange(0x3041, 0x307D) + CharRange(0x307E, 0x3097)
  }

  /** The bundled katakana table: U+30A1 to U+30F6 without U+30DD. */
  function KatakanaAsWritten(): seq<char> {
    CharRange(0x30A1, 0x30DD) + CharRange(0x30DE, 0x30F7)
  }

  /** The full hiragana table: U+3041 to U+3096. */
  function Hiragana(): seq<char> {
    CharRange(0x3041, 0x3097)
  }

  /** The full katakana table: U+30A1 to U+30F6. */
  function Katakana(): seq<char> {
    CharRange(0x30A1, 0x30F7)
  }

  /** The module-level length check of the tables never throws. */
  lemma {:induction false} TablesSameLength()
    ensures |HiraganaAsWritten()| == |KatakanaAsWritten()| == 85
    ensures |Hiragana()| == |Katakana()| == 86
  {
  }

  /** Index of the first occurrence of `c` in `s`, or -1. */
  function FirstIndex(s: seq<char>, c: char): (r: int)
    ensures -1 <= r < |s|
    ensures r == -1 <==> c !in s
    ensures r >= 0 ==> s[r] == c && forall j :: 0 <= j < r ==> s[j] != c
  {
    if s == [] then -1
    else if s[0] == c then 0
    else
      var r := FirstIndex(s[1..], c);
      assert forall j :: 1 <= j < |s| ==> s[j] == s[1..][j - 1];
      if r < 0 then -1 else r + 1
  }

  /**
   * `kata2hiraMap.get(c) || c` for the map built from the parallel tables
   * `from` (katakana) and `to` (hiragana).
   */
  function Lookup(c: char, from: seq<char>, to: seq<char>): (h: char)
    requires |from| == |to|
    ensures c !in from ==> h == c
    ensures c in from ==> exists i :: 0 <= i < |from| && from[i] == c && to[i] == h
  {
    var i := FirstIndex(from, c);
    if i < 0 then c else to[i]
  }

  /** `kata2hira` on one character, with the tables as shipped. */
  function Kata2HiraCharAsWritten(c: char): char {
    Lookup(c, KatakanaAsWritten(), HiraganaAsWritten())
  }

  /** `kata2hira` on one character, with the full tables. */
  function Kata2HiraChar(c: char): char {
    Lookup(c, Katakana(), Hiragana())
  }

  /** A katakana character of the tables' range, U+30A1 to U+30F6. */
  predicate IsKatakana(c: char) {
    0x30A1 <= c as int <= 0x30F6
  }

  /** With the full tables, katakana moves down by 0x60 and nothing else changes. */
  lemma {:induction false} Kata2HiraCharShift(c: char)
    ensures IsKatakana(c) ==> Kata2HiraChar(c) as int == c as int - 0x60
    ensures !IsKatakana(c) ==> Kata2HiraChar(c) == c
  {
    var i := FirstIndex(Katakana(), c);
    if IsKatakana(c) {
      assert Katakana()[c as int - 0x30A1] == c;
    }
  }

  /** With the shipped tables, the same holds except that U+30DD is left as it is. */
  lemma {:induction false} Kata2HiraCharAsWrittenShift(c: char)
    ensures IsKatakana(c) && c as int != 0x30DD ==> Kata2HiraCharAsWritten(c) as int == c as int - 0x60
    ensures !IsKatakana(c) || c as int == 0x30DD ==> Kata2HiraCharAsWritten(c) == c
  {
    var k, h := KatakanaAsWritten(), HiraganaAsWritten();
    assert forall j :: 0 <= j < 60 ==> k[j] as int == 0x30A1 + j && h[j] as int == 0x3041 + j;
    assert forall j :: 60 <= j < 85 ==> k[j] as int == 0x30DE + (j - 60) && h[j] as int == 0x307E + (j - 60);
    var i := FirstIndex(k, c);
    if IsKatakana(c) && c as int < 0x30DD {
      assert k[c as int - 0x30A1] == c;
    } else if IsKatakana(c) && c as int > 0x30DD {
      assert k[c as int - 0x30DE + 60] == c;
    }
  }

  /** The shipped and the full tables agree on every character but U+30DD. */
  lemma {:induction false} AsWrittenAgreesElsewhere(c: char)
    requires c as int != 0x30DD
    ensures Kata2HiraCharAsWritten(c) == Kata2HiraChar(c)
  {
    Kata2HiraCharShift(c);
    Kata2HiraCharAsWrittenShift(c);
  }

  /** `kata2hira`: split into characters, map each, join. */
  function Kata2Hira(s: string): (r: string)
    ensures |r| == |s|
    ensures forall i :: 0 <= i < |s| ==> r[i] == Kata2HiraChar(s[i])
  {
    seq(|s|, i requires 0 <= i < |s| => Kata2HiraChar(s[i]))
  }

  /** `kata2hira` with the shipped tables. */
  function Kata2HiraAsWritten(s: string): (r: string)
    ensures |r| == |s|
    ensures forall i :: 0 <= i < |s| ==> r[i] == Kata2HiraCharAsWritten(s[i])
  {
    seq(|s|, i requires 0 <= i < |s| => Kata2HiraCharAsWritten(s[i]))
  }

  /** Converting twice is converting once: the output holds no katakana of the tables. */
  lemma {:induction false} Kata2HiraIdempotent(s: string)
    ensures forall i :: 0 <= i < |s| ==> !IsKatakana(Kata2Hira(s)[i])
    ensures Kata2Hira(Kata2Hira(s)) == Kata2Hira(s)
  {
    forall i | 0 <= i < |s|
      ensures !IsKatakana(Kata2Hira(s)[i]) && Kata2HiraChar(Kata2Hira(s)[i]) == Kata2Hira(s)[i]
    {
      Kata2HiraCharShift(s[i]);
      Kata2HiraCharShift(Kata2Hira(s)[i]);
    }
  }

  /**
   * With the shipped tables, only katakana PO survives conversion, and it
   * maps to itself, so converting twice is still converting once.
   */
  lemma {:induction false} Kata2HiraAsWrittenIdempotent(s: string)
    ensures forall i :: 0 <= i < |s| ==>
      !IsKatakana(Kata2HiraAsWritten(s)[i]) || Kata2HiraAsWritten(s)[i] as int == 0x30DD
    ensures Kata2HiraAsWritten(Kata2HiraAsWritten(s)) == Kata2HiraAsWritten(s)
  {
    var r := Kata2HiraAsWritten(s);
    forall i | 0 <= i < |s|
      ensures (!IsKatakana(r[i]) || r[i] as int == 0x30DD) && Kata2HiraCharAsWritten(r[i]) == r[i]
    {
      Kata2HiraCharAsWrittenShift(s[i]);
      Kata2HiraCharAsWrittenShift(r[i]);
    }
  }

  /**
   * On a text without katakana PO the shipped and the full tables convert
   * alike, so whatever the model's search does with the full tables the
   * bundled search does too.
   */
  lemma {:induction false} AsWrittenAgreesWithoutPo(s: string)
    requires forall i :: 0 <= i < |s| ==> s[i] as int != 0x30DD
    ensures Kata2HiraAsWritten(s) == Kata2Hira(s)
  {
    forall i | 0 <= i < |s|
      ensures Kata2HiraAsWritten(s)[i] == Kata2Hira(s)[i]
    {
      AsWrittenAgreesElsewhere(s[i]);
    }
  }

  /** Conversion commutes with concatenation and slicing. */
  lemma {:induction false} Kata2HiraAppend(a: string, b: string)
    ensures Kata2Hira(a + b) == Kata2Hira(a) + Kata2Hira(b)
  {
  }

  lemma {:induction false} Kata2HiraSlice(s: string, i: nat, j: nat)
    requires i <= j <= |s|
    ensures Kata2Hira(s[i..j]) == Kata2Hira(s)[i..j]
  {
  }

  /**
   * The shipped tables leave katakana PO unconverted, so a lattice word
   * written in hiragana PO never matches an input typed in katakana,
   * whereas the full tables convert it.
   */
  lemma {:induction false} PoIsNotConverted(po: char, hiraPo: char)
    requires po as int == 0x30DD && hiraPo as int == 0x307D
    ensures Kata2HiraAsWritten([po]) == [po]
    ensures Kata2Hira([po]) == [hiraPo]
    ensures Kata2HiraAsWritten([po]) != Kata2HiraAsWritten([hiraPo])
    ensures Kata2Hira([po]) == Kata2Hira([hiraPo])
  {
    Kata2HiraCharAsWrittenShift(po);
    Kata2HiraCharAsWrittenShift(hiraPo);
    Kata2HiraCharShift(po);
    Kata2HiraCharShift(hiraPo);
    assert Kata2HiraAsWritten([po])[0] != Kata2HiraAsWritten([hiraPo])[0];
  }
}
