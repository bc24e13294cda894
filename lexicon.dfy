/**
 * Reading translation lexicons: the plain `source -> targets` format, the
 * set-valued variant with its epsilon flags, and the `source ||| target`
 * lines of the parallel corpus.  A file is the sequence of its lines, each
 * still carrying its end-of-line character as Python's iteration yields it.
 */
module Lexicon {
  import opened Wrappers
  import opened PyStrings

  // ---------------------------------------------------------------------
  // misc/utils.py: one list of targets per source word, last line wins

  const Arrow := "->"

  /** A line that unpacks into exactly two sides around `->`. */
  predicate WellFormed(line: string) {
    |Split(line, Arrow)| == 2
  }

  /** The dictionary entry a line writes: the stripped left side and the words of the right side. */
  function Entry(line: string): (string, seq<string>)
    requires WellFormed(line)
  {
    var parts := Split(line, Arrow);
    (Strip(parts[0]), Words(Strip(parts[1])))
  }

  predicate AllWellFormed(lines: seq<string>) {
    forall k :: 0 <= k < |lines| ==> WellFormed(lines[k])
  }

  /** The entries the lines write, in file order. */
  function Entries(lines: seq<string>): (es: seq<(string, seq<string>)>)
    requires AllWellFormed(lines)
    ensures |es| == |lines|
    ensures forall k :: 0 <= k < |lines| ==> es[k] == Entry(lines[k])
  {
    MapSeq(Entry, lines)
  }

  /** `f` applied to every element of `s`, in order. */
  function MapSeq<A, B>(f: A --> B, s: seq<A>): (r: seq<B>)
    requires forall k :: 0 <= k < |s| ==> f.requires(s[k])
    ensures |r| == |s|
    ensures forall k :: 0 <= k < |s| ==> r[k] == f(s[k])
  {
    seq(|s|, k requires 0 <= k < |s| => f(s[k]))
  }

  lemma MapSeqSnoc<A, B>(f: A --> B, s: seq<A>, i: nat)
    requires i < |s| && forall k :: 0 <= k <= i ==> f.requires(s[k])
    ensures MapSeq(f, s[..i + 1]) == MapSeq(f, s[..i]) + [f(s[i])]
  {
  }

  /** The dictionary after the entries have been assigned one after another. */
  function Overwritten(entries: seq<(string, seq<string>)>): map<string, seq<string>> {
    if entries == [] then map[]
    else
      var e := entries[|entries| - 1];
      Overwritten(entries[..|entries| - 1])[e.0 := e.1]
  }

  /**
   * Loads the plain lexicon; a line that does not split into two sides
   * raises, reported here as the index of the first such line.
   */
  method LoadLexicon(lines: seq<string>) returns (res: Result<map<string, seq<string>>, nat>)
    ensures res.Ok? <==> AllWellFormed(lines)
    ensures res.Ok? ==> AllWellFormed(lines) && res.value == Overwritten(Entries(lines))
    ensures res.Err? ==> && res.error < |lines| && !WellFormed(lines[res.error])
                         && AllWellFormed(lines[..res.error])
  {
    var lexicon: map<string, seq<string>> := map[];
    for i := 0 to |lines|
      invariant AllWellFormed(lines[..i])
      invariant lexicon == Overwritten(Entries(lines[..i]))
    {
      var parts := Split(lines[i], Arrow);
      if |parts| != 2 {
        return Err(i);
      }
      var chinese := Strip(parts[0]);
      EntriesStep(lines, i);
      lexicon := lexicon[chinese := Words(Strip(parts[1]))];
    }
    assert lines[..|lines|] == lines;
    return Ok(lexicon);
  }

  lemma EntriesStep(lines: seq<string>, i: nat)
    requires i < |lines| && AllWellFormed(lines[..i]) && WellFormed(lines[i])
    ensures AllWellFormed(lines[..i + 1])
    ensures Entries(lines[..i + 1]) == Entries(lines[..i]) + [Entry(lines[i])]
  {
    MapSeqSnoc(Entry, lines, i);
  }

  /**
   * A source word has an entry exactly when some line names it, and the
   * entry is the targets of the last line that does.
   */
  lemma {:induction false} LastLineWins(entries: seq<(string, seq<string>)>, key: string)
    ensures key in Overwritten(entries) <==> exists k :: 0 <= k < |entries| && entries[k].0 == key
    ensures key in Overwritten(entries) ==>
              exists k :: && 0 <= k < |entries| && entries[k] == (key, Overwritten(entries)[key])
                          && forall l :: k < l < |entries| ==> entries[l].0 != key
  {
    if entries != [] {
      var n := |entries| - 1;
      var init := entries[..n];
      LastLineWins(init, key);
      if entries[n].0 != key && key in Overwritten(entries) {
        var k :| && 0 <= k < |init| && init[k] == (key, Overwritten(init)[key])
                 && forall l :: k < l < |init| ==> init[l].0 != key;
        assert entries[k] == init[k];
        forall l | k < l < |entries| ensures entries[l].0 != key {
          if l < n {
            assert entries[l] == init[l];
          }
        }
      }
      if exists k :: 0 <= k < |entries| && entries[k].0 == key {
        var k :| 0 <= k < |entries| && entries[k].0 == key;
        if k < n {
          assert init[k] == entries[k];
        }
      }
    }
  }

  /** A line `a->b` enters the stripped word `a` with the words of `b`. */
  lemma EntryOfLine(a: string, b: string)
    requires '-' !in a && '-' !in b
    ensures WellFormed(a + Arrow + b)
    ensures Entry(a + Arrow + b) == (Strip(a), Words(b))
  {
    ArrowSplit(a, b);
    WordsOfStrip(b);
  }

  lemma ArrowSplit(a: string, b: string)
    requires '-' !in a && '-' !in b
    ensures Split(a + Arrow + b, Arrow) == [a, b]
  {
    var s := a + Arrow + b;
    forall j: nat | j < |a| ensures !At(s, Arrow, j) {
      assert s[j] == a[j];
    }
    SplitAtFirst(a, Arrow, b);
    NoDashNoArrow(b);
  }

  lemma NoDashNoArrow(b: string)
    requires '-' !in b
    ensures Split(b, Arrow) == [b]
  {
    forall j: nat ensures !At(b, Arrow, j) {
      if j + |Arrow| <= |b| {
        assert b[j..j + |Arrow|][0] == b[j];
      }
    }
  }

  // ---------------------------------------------------------------------
  // misc/helper.py: a set of targets per source word, united over lines

  const Eps := "-EPS-"
  const SpacedArrow := " -> "

  predicate Arrowed(line: string) {
    |Split(line, SpacedArrow)| == 2
  }

  predicate AllArrowed(lines: seq<string>) {
    forall k :: 0 <= k < |lines| ==> Arrowed(lines[k])
  }

  /** The source of a line: its left side as it stands, not stripped. */
  function Source(line: string): string
    requires Arrowed(line)
  {
    Split(line, SpacedArrow)[0]
  }

  /** The targets a line contributes: the words of its right side, and the empty word when asked for. */
  function Targets(line: string, anythingIntoEps: bool): (ts: set<string>)
    requires Arrowed(line)
    ensures anythingIntoEps ==> Eps in ts
  {
    var words := Words(Split(line, SpacedArrow)[1]);
    (set w | w in words) + (if anythingIntoEps then {Eps} else {})
  }

  /** A `defaultdict(set)` read: a missing key is the empty set. */
  function Get(m: map<string, set<string>>, key: string): set<string> {
    if key in m then m[key] else {}
  }

  /** What each line contributes: its source and its targets, in file order. */
  function Records(lines: seq<string>, anythingIntoEps: bool): (rs: seq<(string, set<string>)>)
    requires AllArrowed(lines)
    ensures |rs| == |lines|
    ensures forall k :: 0 <= k < |lines| ==> rs[k] == (Source(lines[k]), Targets(lines[k], anythingIntoEps))
  {
    if lines == [] then []
    else
      var line := lines[|lines| - 1];
      Records(lines[..|lines| - 1], anythingIntoEps) + [(Source(line), Targets(line, anythingIntoEps))]
  }

  /** The lexicon after the records have been added one after another. */
  function Gathered(records: seq<(string, set<string>)>): map<string, set<string>> {
    if records == [] then map[]
    else
      var m := Gathered(records[..|records| - 1]);
      var r := records[|records| - 1];
      m[r.0 := Get(m, r.0) + r.1]
  }

  /** Every target of every entry. */
  function AllTypes(m: map<string, set<string>>): set<string> {
    set k, t | k in m && t in m[k] :: t
  }

  /** The final step: with `epsIntoAnything`, the empty word may translate into every known target. */
  function WithEps(m: map<string, set<string>>, epsIntoAnything: bool): map<string, set<string>> {
    if epsIntoAnything then m[Eps := Get(m, Eps) + (AllTypes(m) - {Eps})] else m
  }

  /**
   * Loads the set-valued lexicon; a line that does not split into two sides
   * around ` -> ` fails its assertion, reported as the index of the first
   * such line.
   */
  method LoadLexiconSets(lines: seq<string>, anythingIntoEps: bool, epsIntoAnything: bool)
    returns (res: Result<map<string, set<string>>, nat>)
    ensures res.Ok? <==> AllArrowed(lines)
    ensures res.Ok? ==> AllArrowed(lines) && res.value == WithEps(Gathered(Records(lines, anythingIntoEps)), epsIntoAnything)
    ensures res.Err? ==> && res.error < |lines| && !Arrowed(lines[res.error])
                         && AllArrowed(lines[..res.error])
  {
    var lexicon: map<string, set<string>> := map[];
    for i := 0 to |lines|
      invariant AllArrowed(lines[..i])
      invariant lexicon == Gathered(Records(lines[..i], anythingIntoEps))
    {
      var lineSplit := Split(lines[i], SpacedArrow);
      if |lineSplit| != 2 {
        return Err(i);
      }
      var source := lineSplit[0];
      var targets := Words(lineSplit[1]);
      targets := if anythingIntoEps then targets + [Eps] else targets;
      TargetsAsSet(lines[i], anythingIntoEps, targets);
      RecordsStep(lines, i, anythingIntoEps);
      GatheredSnoc(Records(lines[..i], anythingIntoEps), (source, Targets(lines[i], anythingIntoEps)));
      lexicon := lexicon[source := Get(lexicon, source) + set w | w in targets];
    }
    assert lines[..|lines|] == lines;
    if epsIntoAnything {
      lexicon := EpsIntoAnything(lexicon);
    }
    return Ok(lexicon);
  }

  /** The `eps_into_anything` step: the empty word gains every target other than itself. */
  method EpsIntoAnything(lexicon: map<string, set<string>>) returns (res: map<string, set<string>>)
    ensures res == WithEps(lexicon, true)
  {
    var englishTypes := EnglishTypes(lexicon);
    if Eps in englishTypes {
      englishTypes := englishTypes - {Eps};
    } else {
      assert englishTypes == englishTypes - {Eps};
    }
    res := lexicon[Eps := Get(lexicon, Eps) + englishTypes];
  }

  lemma TargetsAsSet(line: string, anythingIntoEps: bool, targets: seq<string>)
    requires Arrowed(line)
    requires targets == Words(Split(line, SpacedArrow)[1]) + (if anythingIntoEps then [Eps] else [])
    ensures (set w | w in targets) == Targets(line, anythingIntoEps)
  {
  }

  lemma RecordsStep(lines: seq<string>, i: nat, anythingIntoEps: bool)
    requires i < |lines| && AllArrowed(lines[..i]) && Arrowed(lines[i])
    ensures AllArrowed(lines[..i + 1])
    ensures Records(lines[..i + 1], anythingIntoEps)
              == Records(lines[..i], anythingIntoEps) + [(Source(lines[i]), Targets(lines[i], anythingIntoEps))]
  {
    assert lines[..i + 1][..i] == lines[..i];
  }

  lemma GatheredSnoc(records: seq<(string, set<string>)>, r: (string, set<string>))
    ensures var m := Gathered(records); Gathered(records + [r]) == m[r.0 := Get(m, r.0) + r.1]
  {
    assert (records + [r])[..|records|] == records;
  }

  /** The union of all target sets, gathered entry by entry. */
  method EnglishTypes(lexicon: map<string, set<string>>) returns (types: set<string>)
    ensures types == AllTypes(lexicon)
  {
    types := {};
    var todo := lexicon.Keys;
    while todo != {}
      invariant todo <= lexicon.Keys
      invariant forall t :: t in types <==> exists k :: k in lexicon && k !in todo && t in lexicon[k]
      decreases todo
    {
      var k :| k in todo;
      types := types + lexicon[k];
      todo := todo - {k};
    }
  }

  /**
   * Repeated sources unite their targets: an entry exists exactly for the
   * sources of the records, and holds exactly the targets of the records naming it.
   */
  lemma {:induction false} GatheredIsUnion(records: seq<(string, set<string>)>, source: string, t: string)
    ensures source in Gathered(records) <==> exists k :: 0 <= k < |records| && records[k].0 == source
    ensures t in Get(Gathered(records), source) <==>
              exists k :: 0 <= k < |records| && records[k].0 == source && t in records[k].1
  {
    if records != [] {
      var n := |records| - 1;
      var init := records[..n];
      GatheredIsUnion(init, source, t);
      if exists k :: 0 <= k < |records| && records[k].0 == source {
        var k :| 0 <= k < |records| && records[k].0 == source;
        if k < n {
          assert init[k] == records[k];
        }
      }
      if exists k :: 0 <= k < |records| && records[k].0 == source && t in records[k].1 {
        var k :| 0 <= k < |records| && records[k].0 == source && t in records[k].1;
        if k < n {
          assert init[k] == records[k];
        }
      }
    }
  }

  /** With `anythingIntoEps`, every source read from a line may translate into the empty word. */
  lemma EveryLineMayDelete(lines: seq<string>, epsIntoAnything: bool, k: nat)
    requires AllArrowed(lines) && k < |lines|
    ensures Eps in Get(WithEps(Gathered(Records(lines, true)), epsIntoAnything), Source(lines[k]))
  {
    var records := Records(lines, true);
    assert records[k] == (Source(lines[k]), Targets(lines[k], true));
    GatheredIsUnion(records, Source(lines[k]), Eps);
  }

  /** With `epsIntoAnything`, the empty word translates into every other target of every entry. */
  lemma EpsTranslatesIntoAnything(m: map<string, set<string>>, key: string, t: string)
    requires key in WithEps(m, true) && t in WithEps(m, true)[key] && t != Eps
    ensures t in WithEps(m, true)[Eps]
  {
    if key != Eps {
      assert t in AllTypes(m);
    }
  }

  // ---------------------------------------------------------------------
  // misc/helper.py: the lines of the parallel corpus

  const Bar := " ||| "

  /**
   * Splits a corpus line into its source and target sides, dropping the
   * target's last character (the end of line); a line without ` ||| `
   * raises, here `None`.
   */
  function ScanLine(line: string): (r: Option<(string, string)>)
    ensures r.Some? <==> Occurs(line, Bar)
    ensures r.Some? ==> Find(line, Bar) == Some(|r.value.0|) && line[..|r.value.0|] == r.value.0
  {
    var splitLine := Split(line, Bar);
    if |splitLine| < 2 then None
    else Some((splitLine[0], DropLast(splitLine[1])))
  }

  /** A corpus line `c ||| e` followed by its end of line scans back into `(c, e)`. */
  lemma ScanLineOfRecord(c: string, e: string)
    requires '|' !in c && '|' !in e
    ensures ScanLine(c + Bar + e + "\n") == Some((c, e))
  {
    var rest := e + "\n";
    var s := c + Bar + rest;
    assert s == c + Bar + e + "\n";
    forall j: nat | j < |c| ensures !At(s, Bar, j) {
      if j + 1 < |c| {
        assert s[j + 1] == c[j + 1];
      } else {
        assert s[j + 1] == Bar[0];
      }
    }
    SplitAtFirst(c, Bar, rest);
    NoBarNoSplit(rest);
    assert DropLast(rest) == e;
  }

  lemma NoBarNoSplit(r: string)
    requires '|' !in r
    ensures Split(r, Bar) == [r]
  {
    forall j: nat ensures !At(r, Bar, j) {
      if j + |Bar| <= |r| {
        assert r[j..j + |Bar|][1] == r[j + 1];
      }
    }
  }
}
