/**
 * The vocabulary side of the word-embedding table: the word-to-index map
 * and the normalisation that maps an arbitrary token onto a vocabulary
 * word or onto `<UNK>`.
 */
module Embeddings {

  const Unknown := "<UNK>"
  /** The index `_case_normalizer` gives a variant that is not in the vocabulary (`1e12`). */
  const NotFound: int := 1000000000000

  /** The comprehension `{w: i for (i, w) in enumerate(words)}`: later positions overwrite earlier ones. */
  function Word2Id(words: seq<string>): map<string, nat> {
    if words == [] then map[]
    else Word2Id(words[..|words| - 1])[words[|words| - 1] := |words| - 1]
  }

  /** Every word of the list has an entry, and its entry is its last position. */
  lemma {:induction false} Word2IdIsLastPosition(words: seq<string>, w: string)
    ensures w in Word2Id(words) <==> w in words
    ensures w in Word2Id(words) ==>
              && Word2Id(words)[w] < |words| && words[Word2Id(words)[w]] == w
              && forall j :: Word2Id(words)[w] < j < |words| ==> words[j] != w
  {
    if words != [] {
      var init := words[..|words| - 1];
      Word2IdIsLastPosition(init, w);
      assert words == init + [words[|words| - 1]];
    }
  }

  /** The embedding table's vocabulary; the vectors themselves are not modelled. */
  class WordEmbeddings {
    var words: seq<string>
    var word2id: map<string, nat>

    constructor (words: seq<string>)
      ensures this.words == words && word2id == Word2Id(words)
    {
      this.words := words;
      var index: map<string, nat> := map[];
      for i := 0 to |words|
        invariant index == Word2Id(words[..i])
      {
        assert words[..i + 1][..i] == words[..i];
        index := index[words[i] := i];
      }
      assert words[..|words|] == words;
      word2id := index;
    }
  }

  predicate IsDigit(c: char) {
    '0' <= c <= '9'
  }

  /** The substitution of `[0-9]` by `#`. */
  function HashDigits(s: string): (r: string)
    ensures |r| == |s|
    ensures forall i :: 0 <= i < |s| ==> r[i] == (if IsDigit(s[i]) then '#' else s[i])
  {
    if s == [] then [] else [if IsDigit(s[0]) then '#' else s[0]] + HashDigits(s[1..])
  }

  predicate IsUpper(c: char) {
    'A' <= c <= 'Z'
  }

  predicate IsLower(c: char) {
    'a' <= c <= 'z'
  }

  function LowerChar(c: char): char {
    if IsUpper(c) then (c as int + 32) as char else c
  }

  function UpperChar(c: char): char {
    if IsLower(c) then (c as int - 32) as char else c
  }

  function Lower(s: string): string {
    if s == [] then [] else [LowerChar(s[0])] + Lower(s[1..])
  }

  function Upper(s: string): string {
    if s == [] then [] else [UpperChar(s[0])] + Upper(s[1..])
  }

  /** `str.title`: a letter after a letter is lowered, any other letter is raised. */
  function Title(s: string): string {
    TitleAfter(s, false)
  }

  function TitleAfter(s: string, afterLetter: bool): string {
    if s == [] then []
    else
      var c := s[0];
      [if afterLetter then LowerChar(c) else UpperChar(c)] + TitleAfter(s[1..], IsUpper(c) || IsLower(c))
  }

  /** Python's `<` on strings: by code point, a proper prefix first. */
  predicate StrLess(a: string, b: string) {
    if a == [] then b != []
    else b != [] && (a[0] < b[0] || (a[0] == b[0] && StrLess(a[1..], b[1..])))
  }

  /** Python's string order is a strict total order. */
  lemma StrLessIsStrictOrder(a: string, b: string, c: string)
    ensures !StrLess(a, a)
    ensures StrLess(a, b) ==> !StrLess(b, a)
    ensures a != b ==> StrLess(a, b) || StrLess(b, a)
    ensures StrLess(a, b) && StrLess(b, c) ==> StrLess(a, c)
  {
    StrLessIrreflexive(a);
    StrLessAsymmetric(a, b);
    if a != b {
      StrLessTotal(a, b);
    }
    if StrLess(a, b) && StrLess(b, c) {
      StrLessTransitive(a, b, c);
    }
  }

  lemma {:induction false} StrLessIrreflexive(a: string)
    ensures !StrLess(a, a)
  {
    if a != [] {
      StrLessIrreflexive(a[1..]);
    }
  }

  lemma {:induction false} StrLessAsymmetric(a: string, b: string)
    ensures StrLess(a, b) ==> !StrLess(b, a)
  {
    if a != [] && b != [] {
      StrLessAsymmetric(a[1..], b[1..]);
    }
  }

  lemma {:induction false} StrLessTotal(a: string, b: string)
    requires a != b
    ensures StrLess(a, b) || StrLess(b, a)
  {
    if a != [] && b != [] && a[0] == b[0] {
      assert a == [a[0]] + a[1..] && b == [b[0]] + b[1..];
      StrLessTotal(a[1..], b[1..]);
    }
  }

  lemma {:induction false} StrLessTransitive(a: string, b: string, c: string)
    requires StrLess(a, b) && StrLess(b, c)
    ensures StrLess(a, c)
  {
    if a != [] && a[0] == b[0] && b[0] == c[0] {
      StrLessTransitive(a[1..], b[1..], c[1..]);
    }
  }

  /** The index `_case_normalizer` pairs with a variant. */
  function Index(word2id: map<string, nat>, w: string): int {
    if w in word2id then word2id[w] else NotFound
  }

  /** Python's tuple order on (index, variant). */
  predicate Before(word2id: map<string, nat>, v: string, w: string) {
    Index(word2id, v) < Index(word2id, w) || (Index(word2id, v) == Index(word2id, w) && StrLess(v, w))
  }

  lemma BeforeIsStrictOrder(word2id: map<string, nat>, u: string, v: string, w: string)
    ensures !Before(word2id, u, u)
    ensures Before(word2id, u, v) ==> !Before(word2id, v, u)
    ensures u != v ==> Before(word2id, u, v) || Before(word2id, v, u)
    ensures Before(word2id, u, v) && Before(word2id, v, w) ==> Before(word2id, u, w)
  {
    StrLessIsStrictOrder(u, v, w);
  }

  /** The first of two variants in that order. */
  function First(word2id: map<string, nat>, v: string, w: string): (r: string)
    ensures r == v || r == w
    ensures !Before(word2id, v, r) && !Before(word2id, w, r)
  {
    BeforeIsStrictOrder(word2id, v, w, v);
    BeforeIsStrictOrder(word2id, w, w, w);
    if Before(word2id, w, v) then w else v
  }

  function Variants(word: string): seq<string> {
    [Lower(word), Upper(word), Title(word)]
  }

  /**
   * The lower, upper or title-case variant that sorts first by (index,
   * variant); the word itself when that variant is not in the vocabulary.
   */
  function CaseNormalizer(word2id: map<string, nat>, word: string): (r: string)
    ensures r == word || (r in Variants(word) && r in word2id)
  {
    var vs := Variants(word);
    var best := First(word2id, First(word2id, vs[0], vs[1]), vs[2]);
    if Index(word2id, best) != NotFound then best else word
  }

  /**
   * With indices below `1e12`, as a vocabulary's positions are: when some
   * variant is known the result is the known variant with the smallest
   * index, ties going to the smaller string; otherwise the word comes back.
   */
  lemma CaseNormalizerPicksMostFrequent(word2id: map<string, nat>, word: string)
    requires forall w :: w in word2id ==> word2id[w] < NotFound
    ensures var r := CaseNormalizer(word2id, word);
            (exists v :: v in Variants(word) && v in word2id) ==>
              && r in Variants(word) && r in word2id
              && forall v :: v in Variants(word) && v in word2id ==>
                   word2id[r] < word2id[v] || (word2id[r] == word2id[v] && !StrLess(v, r))
    ensures (forall v :: v in Variants(word) ==> v !in word2id) ==> CaseNormalizer(word2id, word) == word
  {
    var vs := Variants(word);
    var a := First(word2id, vs[0], vs[1]);
    var best := First(word2id, a, vs[2]);
    forall v | v in vs ensures !Before(word2id, v, best) {
      BeforeIsStrictOrder(word2id, v, a, best);
      BeforeIsStrictOrder(word2id, a, v, best);
      BeforeIsStrictOrder(word2id, v, best, a);
      BeforeIsStrictOrder(word2id, best, a, v);
    }
  }

  /**
   * `_normalize`: the word itself if known, else with its digits replaced by
   * `#` if that is known, else its case-normalised form if that is known,
   * else `<UNK>`.
   */
  function Normalize(word2id: map<string, nat>, word: string): (r: string)
    ensures word in word2id ==> r == word
    ensures r in word2id || r == Unknown
    ensures word !in word2id && HashDigits(word) in word2id ==> r == HashDigits(word)
    ensures word !in word2id && HashDigits(word) !in word2id ==>
              r == (var c := CaseNormalizer(word2id, HashDigits(word)); if c in word2id then c else Unknown)
  {
    var w1 := if word in word2id then word else HashDigits(word);
    var w2 := if w1 in word2id then w1 else CaseNormalizer(word2id, w1);
    if w2 in word2id then w2 else Unknown
  }

  /**
   * A word comes out as `<UNK>` when neither it, nor its `#`-form, nor any
   * case variant of that is in the vocabulary; with indices below `1e12`
   * those are the only words that do, apart from `<UNK>` itself.
   */
  lemma NormalizeUnknown(word2id: map<string, nat>, word: string)
    requires forall w :: w in word2id ==> word2id[w] < NotFound
    ensures var h := HashDigits(word);
            (word !in word2id && h !in word2id && forall v :: v in Variants(h) ==> v !in word2id) ==>
              Normalize(word2id, word) == Unknown
    ensures var h := HashDigits(word);
            Normalize(word2id, word) == Unknown && Unknown !in word2id ==>
              word !in word2id && h !in word2id && forall v :: v in Variants(h) ==> v !in word2id
  {
    CaseNormalizerPicksMostFrequent(word2id, HashDigits(word));
  }
}
