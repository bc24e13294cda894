/**
 * Destructors for span-annotated symbols: the source and target (or length)
 * spans of a doubly annotated symbol, the word under a terminal, and the single
 * source word on an automaton path.
 */
module Spans {
  import opened Wrappers
  import opened Hypergraph

  /** A source automaton, given by the labels on the arcs between each pair of states. */
  datatype Fsa = Fsa(arcs: map<(int, int), seq<string>>)
  {
    function Labels(origin: int, destination: int): seq<string> {
      if (origin, destination) in arcs then arcs[(origin, destination)] else []
    }
  }

  datatype SpanError =
    | NotASpan(symbol: Symbol)
    | NotATerminal(symbol: Symbol)
    | AmbiguousPath(origin: int, destination: int, found: nat)

  /** The one label between two states; any other number of labels fails the assertion. */
  function GetSourceWord(fsa: Fsa, origin: int, destination: int): (r: Result<string, SpanError>)
    ensures r.Ok? <==> |fsa.Labels(origin, destination)| == 1
    ensures r.Ok? ==> fsa.Labels(origin, destination) == [r.value]
    ensures r.Err? ==> r.error == AmbiguousPath(origin, destination, |fsa.Labels(origin, destination)|)
  {
    var labels := fsa.Labels(origin, destination);
    if |labels| != 1 then Err(AmbiguousPath(origin, destination, |labels|)) else Ok(labels[0])
  }

  /** The word under a terminal, all span annotations removed; a nonterminal is refused. */
  function GetTargetWord(symbol: Symbol): (r: Result<string, SpanError>)
    ensures r.Ok? <==> symbol.IsTerminal()
    ensures r.Ok? ==> symbol.Root() == Terminal(r.value)
    ensures r.Err? ==> r.error == NotATerminal(symbol)
  {
    if !symbol.IsTerminal() then Err(NotATerminal(symbol)) else Ok(symbol.Root().word)
  }

  /**
   * The bispans of a doubly annotated symbol: the inner (source) span first,
   * then the outer (target or length) span.  A symbol that is not a span is
   * refused, and so is a span whose inner symbol carries no second annotation.
   */
  function GetBispans(symbol: Symbol): (r: Result<((int, int), (int, int)), SpanError>)
    ensures r.Ok? <==> symbol.Span? && symbol.sym.Span?
    ensures r.Ok? ==> symbol == Span(Span(symbol.sym.sym, r.value.0.0, r.value.0.1), r.value.1.0, r.value.1.1)
    ensures r.Err? ==> r.error == NotASpan(if symbol.Span? then symbol.sym else symbol)
  {
    if !symbol.Span? then Err(NotASpan(symbol))
    else
      match symbol.sym.Obj()
      case Annotated(_, start1, end1) => Ok(((start1, end1), (symbol.start, symbol.end)))
      case Text(_) => Err(NotASpan(symbol.sym))
  }

  /** Annotating a symbol twice and taking its bispans gives back the two spans. */
  lemma BispansOfAnnotation(s: Symbol, start1: int, end1: int, start2: int, end2: int)
    ensures GetBispans(Span(Span(s, start1, end1), start2, end2)) == Ok(((start1, end1), (start2, end2)))
  {}
}
