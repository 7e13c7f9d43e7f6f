/** The sort parser (src/search/sort/parser.rs) and the texts it reads back. */
module SortParser {
  import opened Wrappers
  import opened SearchQuery
  import opened FilterParser

  function KindWord(k: SorterKind): string {
    match k
    case ByDate => "date"
    case ByFrom => "from"
    case ByTo => "to"
    case BySubject => "subject"
  }

  function Order(s: string): (r: Parsed<SorterOrder>)
    ensures r.Match? ==> |r.rest| < |s|
  {
    match Word("asc", s)
    case Some(r) => Match(Ascending, r)
    case None =>
      match Word("desc", s)
      case Some(r) => Match(Descending, r)
      case None => NoMatch
  }

  /** A kind with an order, or else the kind alone, which sorts ascending. */
  function SorterOf(k: SorterKind, s: string): (r: Parsed<Sorter>)
    ensures r.Match? ==> |r.rest| < |s|
  {
    match Word(KindWord(k), s)
    case None => NoMatch
    case Some(r) =>
      var order := if r != [] && r[0] == ' ' then Order(SkipSpaces(r)) else NoMatch;
      match order
      case Match(o, rest) => Match(Sorter(k, o), rest)
      case NoMatch => Match(Sorter(k, Ascending), r)
  }

  function OneSorter(s: string): (r: Parsed<Sorter>)
    ensures r.Match? ==> |r.rest| < |s|
  {
    if SorterOf(ByDate, s).Match? then SorterOf(ByDate, s)
    else if SorterOf(ByFrom, s).Match? then SorterOf(ByFrom, s)
    else if SorterOf(ByTo, s).Match? then SorterOf(ByTo, s)
    else SorterOf(BySubject, s)
  }

  /** Separator and sorter, as often as both are there; a separator without sorter is given back. */
  function MoreSorters(s: string): (seq<Sorter>, string)
    decreases |s|
  {
    if s != [] && s[0] == ' ' && OneSorter(SkipSpaces(s)).Match? then
      var one := OneSorter(SkipSpaces(s));
      var (more, rest) := MoreSorters(one.rest);
      ([one.value] + more, rest)
    else ([], s)
  }

  function Sorters(s: string): (seq<Sorter>, string) {
    match OneSorter(s)
    case NoMatch => ([], s)
    case Match(x, r) => var (more, rest) := MoreSorters(r); ([x] + more, rest)
  }

  function ParseSorters(s: string): Option<seq<Sorter>> {
    var (sorters, rest) := Sorters(s);
    if rest == [] then Some(sorters) else None
  }

  // ----- texts

  /** A sorter and whether an ascending order is spelled out. */
  datatype Spelled = Spelled(sorter: Sorter, explicit: bool)

  function OrderText(x: Spelled): string {
    if x.sorter.order == Descending then " desc" else if x.explicit then " asc" else ""
  }

  function SorterText(x: Spelled): string {
    KindWord(x.sorter.kind) + OrderText(x)
  }

  function SortersText(xs: seq<Spelled>): string {
    if xs == [] then ""
    else if |xs| == 1 then SorterText(xs[0])
    else SorterText(xs[0]) + " " + SortersText(xs[1..])
  }

  function SortersOf(xs: seq<Spelled>): seq<Sorter> {
    seq(|xs|, i requires 0 <= i < |xs| => xs[i].sorter)
  }

  /** What follows a sorter: nothing, or a space and no order word. */
  ghost predicate Separated(rest: string) {
    rest == "" || (rest[0] == ' ' && Order(SkipSpaces(rest)).NoMatch?)
  }

  lemma {:induction false} WordReads(word: string, rest: string)
    ensures Word(word, word + rest) == Some(rest)
  {
  }

  lemma {:induction false} OrderReads(o: SorterOrder, rest: string)
    ensures var word := if o == Descending then "desc" else "asc"; Order(word + rest) == Match(o, rest)
  {
    if o == Descending {
      WordReads("desc", rest);
      var s := "desc" + rest;
      assert s[..3][0] == 'd';
    } else {
      WordReads("asc", rest);
    }
  }

  lemma {:induction false} KindRejects(k: SorterKind, j: SorterKind, rest: string)
    requires k != j
    ensures Word(KindWord(j), KindWord(k) + rest).None?
  {
    var s := KindWord(k) + rest;
    if |KindWord(j)| <= |s| {
      assert s[..|KindWord(j)|][0] == s[0] == KindWord(k)[0];
    }
  }

  lemma {:induction false} SorterTextSplits(x: Spelled, rest: string)
    ensures SorterText(x) + rest == KindWord(x.sorter.kind) + (OrderText(x) + rest)
  {
  }

  /** What follows the kind is an order word, or is left alone. */
  lemma {:induction false} OrderTextReads(x: Spelled, rest: string)
    requires Separated(rest) && OrderText(x) != ""
    ensures (OrderText(x) + rest)[0] == ' '
    ensures Order(SkipSpaces(OrderText(x) + rest)) == Match(x.sorter.order, rest)
  {
    var word := if x.sorter.order == Descending then "desc" else "asc";
    assert (OrderText(x) + rest)[1..] == word + rest;
    assert SkipSpaces(word + rest) == word + rest;
    OrderReads(x.sorter.order, rest);
  }

  lemma {:induction false} SorterOfReads(x: Spelled, rest: string)
    requires Separated(rest)
    ensures SorterOf(x.sorter.kind, SorterText(x) + rest) == Match(x.sorter, rest)
  {
    SorterTextSplits(x, rest);
    WordReads(KindWord(x.sorter.kind), OrderText(x) + rest);
    if OrderText(x) == "" {
      assert OrderText(x) + rest == rest;
    } else {
      OrderTextReads(x, rest);
    }
  }

  lemma {:induction false} SorterReads(x: Spelled, rest: string)
    requires Separated(rest)
    ensures OneSorter(SorterText(x) + rest) == Match(x.sorter, rest)
  {
    var k := x.sorter.kind;
    SorterOfReads(x, rest);
    SorterTextSplits(x, rest);
    if k != ByDate { KindRejects(k, ByDate, OrderText(x) + rest); }
    if k != ByFrom { KindRejects(k, ByFrom, OrderText(x) + rest); }
    if k != ByTo { KindRejects(k, ByTo, OrderText(x) + rest); }
  }

  lemma {:induction false} SortersTextStarts(xs: seq<Spelled>)
    requires xs != []
    ensures SortersText(xs) != "" && SortersText(xs)[0] in {'d', 'f', 't', 's'}
    ensures SortersText(xs)[0] == 'd' ==> |SortersText(xs)| > 1 && SortersText(xs)[1] == 'a'
  {
    assert SorterText(xs[0])[0] == KindWord(xs[0].sorter.kind)[0];
    assert SorterText(xs[0])[1] == KindWord(xs[0].sorter.kind)[1];
  }

  /** The text of a sorter never reads as an order. */
  lemma {:induction false} SortersAreNoOrder(xs: seq<Spelled>)
    requires xs != []
    ensures Separated(" " + SortersText(xs))
    ensures SkipSpaces(" " + SortersText(xs)) == SortersText(xs)
  {
    var t := SortersText(xs);
    SortersTextStarts(xs);
    assert (" " + t)[1..] == t;
    if |t| >= 3 {
      assert t[..3][0] == t[0];
    }
    if |t| >= 4 {
      assert t[..4][0] == t[0] && t[..4][1] == t[1];
    }
  }

  /** What follows the first sorter. */
  function Tail(xs: seq<Spelled>): string {
    if |xs| <= 1 then "" else " " + SortersText(xs[1..])
  }

  lemma {:induction false} SortersUnfold(xs: seq<Spelled>)
    requires xs != []
    ensures SortersText(xs) == SorterText(xs[0]) + Tail(xs)
    ensures SortersOf(xs) == [xs[0].sorter] + SortersOf(xs[1..])
    ensures OneSorter(SortersText(xs)) == Match(xs[0].sorter, Tail(xs))
  {
    if |xs| > 1 {
      SortersAreNoOrder(xs[1..]);
    }
    SorterReads(xs[0], Tail(xs));
  }

  lemma {:induction false} TailReads(xs: seq<Spelled>)
    requires xs != []
    ensures MoreSorters(Tail(xs)) == (SortersOf(xs[1..]), "")
  {
    if |xs| == 1 {
      assert SortersOf(xs[1..]) == [] && MoreSorters("") == ([], "");
    } else {
      SortersAreNoOrder(xs[1..]);
      SortersUnfold(xs[1..]);
      TailReads(xs[1..]);
    }
  }

  /** Sort round trip: every list of sorters, with ascending orders spelled out or not, reads back. */
  lemma {:induction false} SortRoundTrip(xs: seq<Spelled>)
    ensures ParseSorters(SortersText(xs)) == Some(SortersOf(xs))
  {
    if xs == [] {
      assert OneSorter("").NoMatch? && SortersOf(xs) == [];
    } else {
      SortersUnfold(xs);
      TailReads(xs);
    }
  }
}
