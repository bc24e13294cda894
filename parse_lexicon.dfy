/**
 * Turning a four-column translation table (`source target p(e|f) p(f|e)`)
 * into the two ranked lexicons, one per direction, that keep the most
 * probable translations of each word.
 */
module ParseLexicon {
  import opened Wrappers
  import opened PyStrings

  const Null := "<NULL>"
  const Eps := "-EPS-"
  const NotAvailable := "NA"
  /** The number of translations kept when the command line gives none. */
  const DefaultTopN := 5

  /** Per word, its translations with their probabilities, in file order. */
  type Table = map<string, seq<(string, real)>>

  datatype ParseError =
    | WrongFieldCount(line: nat, count: nat)
    | NotANumber(line: nat, text: string)

  /** A parsed line: the two words and the probability in each direction, absent for `NA`. */
  datatype Record = Record(chinese: string, english: string, eGivenF: Option<real>, fGivenE: Option<real>)

  /** The aligner's empty word becomes the grammar's. */
  function NullToEps(word: string): string {
    if word == Null then Eps else word
  }

  /** A probability column: `NA` is absent, anything else must parse as a float. */
  function Probability(field: string, toFloat: string -> Option<real>, k: nat): (r: Result<Option<real>, ParseError>)
    ensures r.Err? <==> field != NotAvailable && toFloat(field).None?
    ensures r.Err? ==> r.error == NotANumber(k, field)
    ensures r.Ok? ==> r.value == (if field == NotAvailable then None else toFloat(field))
  {
    if field == NotAvailable then Ok(None)
    else match toFloat(field)
      case None => Err(NotANumber(k, field))
      case Some(p) => Ok(Some(p))
  }

  /** Parses line number `k`; `toFloat` is Python's `float`, `None` where it raises. */
  function ParseLine(line: string, toFloat: string -> Option<real>, k: nat): (r: Result<Record, ParseError>)
    ensures |Words(line)| != 4 ==> r == Err(WrongFieldCount(k, |Words(line)|))
    ensures r.Ok? <==> && |Words(line)| == 4
                       && (Words(line)[2] == NotAvailable || toFloat(Words(line)[2]).Some?)
                       && (Words(line)[3] == NotAvailable || toFloat(Words(line)[3]).Some?)
    ensures r.Ok? ==> var w := Words(line);
                      && r.value.chinese == (if w[0] == Null then Eps else w[0])
                      && r.value.english == (if w[1] == Null then Eps else w[1])
                      && r.value.eGivenF == (if w[2] == NotAvailable then None else toFloat(w[2]))
                      && r.value.fGivenE == (if w[3] == NotAvailable then None else toFloat(w[3]))
    ensures r.Err? && |Words(line)| == 4 ==>
      r.error == NotANumber(k, if Words(line)[2] != NotAvailable && toFloat(Words(line)[2]).None?
                               then Words(line)[2] else Words(line)[3])
  {
    var fields := Words(line);
    if |fields| != 4 then Err(WrongFieldCount(k, |fields|))
    else
      match Probability(fields[2], toFloat, k)
      case Err(e) => Err(e)
      case Ok(eGivenF) =>
        match Probability(fields[3], toFloat, k)
        case Err(e) => Err(e)
        case Ok(fGivenE) => Ok(Record(NullToEps(fields[0]), NullToEps(fields[1]), eGivenF, fGivenE))
  }

  /** All lines parsed, or the error of the first line that fails. */
  function ParseAll(lines: seq<string>, toFloat: string -> Option<real>): (r: Result<seq<Record>, ParseError>)
    ensures r.Ok? ==> |r.value| == |lines|
  {
    if lines == [] then Ok([])
    else
      match ParseAll(lines[..|lines| - 1], toFloat)
      case Err(e) => Err(e)
      case Ok(records) =>
        match ParseLine(lines[|lines| - 1], toFloat, |lines| - 1)
        case Err(e) => Err(e)
        case Ok(record) => Ok(records + [record])
  }

  /** A `defaultdict(list)` read: a missing word has no translations. */
  function Lookup(table: Table, word: string): seq<(string, real)> {
    if word in table then table[word] else []
  }

  /** The p(e|f) table: per source word, its targets, for the lines that give that probability. */
  function EGivenF(records: seq<Record>): Table {
    if records == [] then map[]
    else
      var table := EGivenF(records[..|records| - 1]);
      var r := records[|records| - 1];
      if r.eGivenF.Some? then table[r.chinese := Lookup(table, r.chinese) + [(r.english, r.eGivenF.value)]]
      else table
  }

  /** The p(f|e) table: per target word, its sources, for the lines that give that probability. */
  function FGivenE(records: seq<Record>): Table {
    if records == [] then map[]
    else
      var table := FGivenE(records[..|records| - 1]);
      var r := records[|records| - 1];
      if r.fGivenE.Some? then table[r.english := Lookup(table, r.english) + [(r.chinese, r.fGivenE.value)]]
      else table
  }

  /**
   * Reads the table line by line into the two directions; a line without
   * four fields or with a malformed number raises, here the first error.
   */
  method ReadTables(lines: seq<string>, toFloat: string -> Option<real>) returns (res: Result<(Table, Table), ParseError>)
    ensures res.Ok? <==> ParseAll(lines, toFloat).Ok?
    ensures res.Ok? ==> res.value == (EGivenF(ParseAll(lines, toFloat).value), FGivenE(ParseAll(lines, toFloat).value))
    ensures res.Err? ==> res.error == ParseAll(lines, toFloat).error
  {
    var eGivenF: Table := map[];
    var fGivenE: Table := map[];
    ghost var records: seq<Record> := [];
    for i := 0 to |lines|
      invariant ParseAll(lines[..i], toFloat) == Ok(records)
      invariant eGivenF == EGivenF(records) && fGivenE == FGivenE(records)
    {
      ParseAllStep(lines, i, toFloat);
      var parsed := ReadLine(lines[i], toFloat, i);
      if parsed.Err? {
        FirstErrorStands(lines, i + 1, toFloat);
        return Err(parsed.error);
      }
      var record := parsed.value;
      var chinese, english, eProb, fProb := record.chinese, record.english, record.eGivenF, record.fGivenE;
      TablesStep(records, record);
      if eProb.Some? {
        eGivenF := eGivenF[chinese := Lookup(eGivenF, chinese) + [(english, eProb.value)]];
      }
      if fProb.Some? {
        fGivenE := fGivenE[english := Lookup(fGivenE, english) + [(chinese, fProb.value)]];
      }
      records := records + [record];
    }
    assert lines[..|lines|] == lines;
    return Ok((eGivenF, fGivenE));
  }

  /** The body of the reading loop for one line: the field split, the empty-word renaming and the float parses. */
  method ReadLine(line: string, toFloat: string -> Option<real>, i: nat) returns (res: Result<Record, ParseError>)
    ensures res == ParseLine(line, toFloat, i)
  {
    var fields := Words(line);
    if |fields| != 4 {
      return Err(WrongFieldCount(i, |fields|));
    }
    var chinese, english, pEGivenF, pFGivenE := fields[0], fields[1], fields[2], fields[3];
    if chinese == Null {
      chinese := Eps;
    }
    if english == Null {
      english := Eps;
    }
    var eProb: Option<real> := None;
    if pEGivenF != NotAvailable {
      eProb := toFloat(pEGivenF);
      if eProb.None? {
        return Err(NotANumber(i, pEGivenF));
      }
    }
    var fProb: Option<real> := None;
    if pFGivenE != NotAvailable {
      fProb := toFloat(pFGivenE);
      if fProb.None? {
        return Err(NotANumber(i, pFGivenE));
      }
    }
    return Ok(Record(chinese, english, eProb, fProb));
  }

  lemma ParseAllStep(lines: seq<string>, i: nat, toFloat: string -> Option<real>)
    requires i < |lines|
    ensures ParseAll(lines[..i + 1], toFloat) ==
              match ParseAll(lines[..i], toFloat)
              case Err(e) => Err(e)
              case Ok(records) =>
                match ParseLine(lines[i], toFloat, i)
                case Err(e) => Err(e)
                case Ok(record) => Ok(records + [record])
  {
    assert lines[..i + 1][..i] == lines[..i];
  }

  /** Once a line fails, the whole table fails with that line's error. */
  lemma {:induction false} FirstErrorStands(lines: seq<string>, i: nat, toFloat: string -> Option<real>)
    requires i <= |lines| && ParseAll(lines[..i], toFloat).Err?
    ensures ParseAll(lines, toFloat) == ParseAll(lines[..i], toFloat)
    decreases |lines| - i
  {
    if i < |lines| {
      ParseAllStep(lines, i, toFloat);
      FirstErrorStands(lines, i + 1, toFloat);
    } else {
      assert lines[..i] == lines;
    }
  }

  lemma TablesStep(records: seq<Record>, r: Record)
    ensures var e := EGivenF(records);
            EGivenF(records + [r]) == if r.eGivenF.Some? then e[r.chinese := Lookup(e, r.chinese) + [(r.english, r.eGivenF.value)]] else e
    ensures var f := FGivenE(records);
            FGivenE(records + [r]) == if r.fGivenE.Some? then f[r.english := Lookup(f, r.english) + [(r.chinese, r.fGivenE.value)]] else f
  {
    assert (records + [r])[..|records|] == records;
  }

  /**
   * A word has a p(e|f) list exactly when some line gives a probability
   * for it in that direction, and the list holds exactly those lines'
   * translations; an `NA` skips only its own direction.
   */
  lemma {:induction false} EGivenFMembers(records: seq<Record>, word: string, x: (string, real))
    ensures word in EGivenF(records) <==> exists k :: 0 <= k < |records| && records[k].chinese == word && records[k].eGivenF.Some?
    ensures x in Lookup(EGivenF(records), word) <==>
              exists k :: && 0 <= k < |records| && records[k].chinese == word
                          && records[k].eGivenF == Some(x.1) && records[k].english == x.0
  {
    if records != [] {
      var n := |records| - 1;
      var init := records[..n];
      EGivenFMembers(init, word, x);
      if exists k :: 0 <= k < |records| && records[k].chinese == word && records[k].eGivenF.Some? {
        var k :| 0 <= k < |records| && records[k].chinese == word && records[k].eGivenF.Some?;
        if k < n {
          assert init[k] == records[k];
        }
      }
      if exists k :: && 0 <= k < |records| && records[k].chinese == word
                     && records[k].eGivenF == Some(x.1) && records[k].english == x.0 {
        var k :| && 0 <= k < |records| && records[k].chinese == word
                 && records[k].eGivenF == Some(x.1) && records[k].english == x.0;
        if k < n {
          assert init[k] == records[k];
        }
      }
    }
  }

  /** The same for the p(f|e) direction, keyed by the target word. */
  lemma {:induction false} FGivenEMembers(records: seq<Record>, word: string, x: (string, real))
    ensures word in FGivenE(records) <==> exists k :: 0 <= k < |records| && records[k].english == word && records[k].fGivenE.Some?
    ensures x in Lookup(FGivenE(records), word) <==>
              exists k :: && 0 <= k < |records| && records[k].english == word
                          && records[k].fGivenE == Some(x.1) && records[k].chinese == x.0
  {
    if records != [] {
      var n := |records| - 1;
      var init := records[..n];
      FGivenEMembers(init, word, x);
      if exists k :: 0 <= k < |records| && records[k].english == word && records[k].fGivenE.Some? {
        var k :| 0 <= k < |records| && records[k].english == word && records[k].fGivenE.Some?;
        if k < n {
          assert init[k] == records[k];
        }
      }
      if exists k :: && 0 <= k < |records| && records[k].english == word
                     && records[k].fGivenE == Some(x.1) && records[k].chinese == x.0 {
        var k :| && 0 <= k < |records| && records[k].english == word
                 && records[k].fGivenE == Some(x.1) && records[k].chinese == x.0;
        if k < n {
          assert init[k] == records[k];
        }
      }
    }
  }

  /** Later lines only append: each word's list keeps file order. */
  lemma {:induction false} ListsKeepFileOrder(records: seq<Record>, more: seq<Record>, word: string)
    ensures Lookup(EGivenF(records), word) <= Lookup(EGivenF(records + more), word)
    ensures Lookup(FGivenE(records), word) <= Lookup(FGivenE(records + more), word)
    decreases |more|
  {
    if more == [] {
      assert records + more == records;
    } else {
      var init := more[..|more| - 1];
      ListsKeepFileOrder(records, init, word);
      assert (records + more)[..|records + more| - 1] == records + init;
    }
  }

  // ---------------------------------------------------------------------
  // write_top_n

  /** Python's stable `sorted(key=probability, reverse=True)`, as insertion of each pair in turn. */
  function SortByProbability(ps: seq<(string, real)>): seq<(string, real)> {
    if ps == [] then [] else Insert(ps[|ps| - 1], SortByProbability(ps[..|ps| - 1]))
  }

  /** Places `x` after every pair at least as probable, so equal pairs keep their order. */
  function Insert(x: (string, real), s: seq<(string, real)>): (r: seq<(string, real)>)
    ensures |r| == |s| + 1
  {
    if s == [] then [x]
    else if s[0].1 >= x.1 then [s[0]] + Insert(x, s[1..])
    else [x] + s
  }

  predicate NonIncreasing(s: seq<(string, real)>) {
    forall i, j :: 0 <= i < j < |s| ==> s[i].1 >= s[j].1
  }

  /** The pairs with probability `v`, in order. */
  function WithProbability(s: seq<(string, real)>, v: real): seq<(string, real)> {
    if s == [] then [] else (if s[0].1 == v then [s[0]] else []) + WithProbability(s[1..], v)
  }

  /** Inserting into a ranked list keeps it ranked. */
  lemma {:induction false} InsertSorted(x: (string, real), s: seq<(string, real)>)
    requires NonIncreasing(s)
    ensures NonIncreasing(Insert(x, s))
    ensures forall i :: 0 <= i < |Insert(x, s)| ==> Insert(x, s)[i] == x || Insert(x, s)[i] in s
  {
    if s != [] && s[0].1 >= x.1 {
      InsertSorted(x, s[1..]);
      var r := Insert(x, s[1..]);
      assert Insert(x, s) == [s[0]] + r;
      forall i, j | 0 <= i < j < |Insert(x, s)| ensures Insert(x, s)[i].1 >= Insert(x, s)[j].1 {
        if i == 0 {
          if r[j - 1] != x {
            var k :| 0 <= k < |s[1..]| && s[1..][k] == r[j - 1];
            assert s[k + 1] == r[j - 1];
          }
        } else {
          assert Insert(x, s)[i] == r[i - 1] && Insert(x, s)[j] == r[j - 1];
        }
      }
      forall i | 0 <= i < |Insert(x, s)| ensures Insert(x, s)[i] == x || Insert(x, s)[i] in s {
        if i > 0 {
          assert Insert(x, s)[i] == r[i - 1];
        }
      }
    }
  }

  /** Inserting adds exactly the one pair. */
  lemma {:induction false} InsertPermutes(x: (string, real), s: seq<(string, real)>)
    ensures multiset(Insert(x, s)) == multiset(s) + multiset{x}
  {
    if s != [] && s[0].1 >= x.1 {
      InsertPermutes(x, s[1..]);
      assert s == [s[0]] + s[1..];
    }
  }

  /** A pair inserted into a ranked list comes after every earlier pair of the same probability. */
  lemma {:induction false} InsertStable(x: (string, real), s: seq<(string, real)>, v: real)
    requires NonIncreasing(s)
    ensures WithProbability(Insert(x, s), v) == WithProbability(s, v) + WithProbability([x], v)
  {
    if s != [] && s[0].1 >= x.1 {
      InsertStable(x, s[1..], v);
      assert Insert(x, s)[1..] == Insert(x, s[1..]);
    } else if s != [] {
      assert Insert(x, s)[1..] == s;
      if x.1 == v {
        NoneMoreProbable(s, x.1);
      }
    }
  }

  /** In a non-increasing list that starts below `v`, nothing has probability `v`. */
  lemma {:induction false} NoneMoreProbable(s: seq<(string, real)>, v: real)
    requires NonIncreasing(s) && s != [] && s[0].1 < v
    ensures WithProbability(s, v) == []
    decreases |s|
  {
    if |s| > 1 {
      NoneMoreProbable(s[1..], v);
    }
  }

  lemma {:induction false} WithProbabilityAppend(a: seq<(string, real)>, b: seq<(string, real)>, v: real)
    ensures WithProbability(a + b, v) == WithProbability(a, v) + WithProbability(b, v)
  {
    if a != [] {
      WithProbabilityAppend(a[1..], b, v);
      assert (a + b)[1..] == a[1..] + b;
    } else {
      assert a + b == b;
    }
  }

  /**
   * The sort is a permutation into non-increasing probability, and it is
   * stable: the pairs of any one probability stay in their original order.
   */
  lemma {:induction false} SortIsStable(ps: seq<(string, real)>)
    ensures NonIncreasing(SortByProbability(ps))
    ensures multiset(SortByProbability(ps)) == multiset(ps)
    ensures forall v :: WithProbability(SortByProbability(ps), v) == WithProbability(ps, v)
  {
    if ps != [] {
      var init, last := ps[..|ps| - 1], ps[|ps| - 1];
      SortIsStable(init);
      InsertSorted(last, SortByProbability(init));
      InsertPermutes(last, SortByProbability(init));
      assert ps == init + [last];
      forall v ensures WithProbability(SortByProbability(ps), v) == WithProbability(ps, v) {
        InsertStable(last, SortByProbability(init), v);
        WithProbabilityAppend(init, [last], v);
      }
    }
  }

  /** The words `write_top_n` puts on a word's line: the first `topN` of the sorted list, by Python slicing. */
  function TopWords(ps: seq<(string, real)>, topN: int): seq<string> {
    var kept := PrefixSlice(SortByProbability(ps), topN);
    seq(|kept|, i requires 0 <= i < |kept| => kept[i].0)
  }

  /**
   * The kept words are the most probable ones: their pairs are a prefix of the
   * stable ranking, no dropped pair is more probable than a kept one, and a
   * non-negative `topN` keeps `min(topN, |ps|)` of them.
   */
  lemma TopWordsAreMostProbable(ps: seq<(string, real)>, topN: int)
    ensures var ranked := SortByProbability(ps);
            && |TopWords(ps, topN)| <= |ranked|
            && (forall i :: 0 <= i < |TopWords(ps, topN)| ==> TopWords(ps, topN)[i] == ranked[i].0)
            && (forall i, j :: 0 <= i < |TopWords(ps, topN)| <= j < |ranked| ==> ranked[i].1 >= ranked[j].1)
            && (topN >= 0 ==> |TopWords(ps, topN)| == if topN < |ps| then topN else |ps|)
  {
    SortIsStable(ps);
    assert |SortByProbability(ps)| == |ps| by {
      assert |multiset(SortByProbability(ps))| == |multiset(ps)|;
    }
  }

  /** Writes, per word, its top translations; only the words and their order are modelled, not the file. */
  method WriteTopN(probs: Table, topN: int) returns (out: map<string, seq<string>>)
    ensures out.Keys == probs.Keys
    ensures forall word :: word in probs ==> out[word] == TopWords(probs[word], topN)
  {
    out := map[];
    var todo := probs.Keys;
    while todo != {}
      invariant todo <= probs.Keys
      invariant out.Keys == probs.Keys - todo
      invariant forall word :: word in out ==> out[word] == TopWords(probs[word], topN)
      decreases todo
    {
      var word :| word in todo;
      var sortedProbs := SortByProbability(probs[word]);
      var kept := PrefixSlice(sortedProbs, topN);
      var topNWords := seq(|kept|, i requires 0 <= i < |kept| => kept[i].0);
      out := out[word := topNWords];
      todo := todo - {word};
    }
  }
}
