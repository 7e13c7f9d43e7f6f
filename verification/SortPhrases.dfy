/** Everything the sort parser accepts, with any spacing (src/search/sort/parser.rs). */
module SortPhrases {
  import opened Wrappers
  import opened SearchQuery
  import opened FilterParser
  import opened FilterRoundTrip
  import opened FilterPhrases
  import opened SortParser

  /** A sorter as written: `lead` spaces, its kind, and an order after `gap` spaces, or none. */
  datatype Worded = Worded(lead: nat, kind: SorterKind, gap: nat, order: Option<SorterOrder>)

  function OrderWord(o: SorterOrder): string {
    match o case Ascending => "asc" case Descending => "desc"
  }

  function KindText(k: SorterKind): string {
    match k case ByDate => "date" case ByFrom => "from" case ByTo => "to" case BySubject => "subject"
  }

  function Ending(w: Worded): string {
    match w.order case Some(o) => Spaces(w.gap) + OrderWord(o) case None => ""
  }

  /** Ascending is the default. */
  function Sorts(w: Worded): Sorter {
    Sorter(w.kind, match w.order case Some(o) => o case None => Ascending)
  }

  /** Sorters one after the other. */
  function Words(ws: seq<Worded>): string {
    if ws == [] then "" else Spaces(ws[0].lead) + (KindText(ws[0].kind) + (Ending(ws[0]) + Words(ws[1..])))
  }

  function SortersIn(ws: seq<Worded>): seq<Sorter> {
    if ws == [] then [] else [Sorts(ws[0])] + SortersIn(ws[1..])
  }

  /** Orders and further sorters are set apart by at least one space. */
  predicate Apart(ws: seq<Worded>) {
    forall w | w in ws :: w.lead > 0 && w.gap > 0
  }

  /** No order can be read here. */
  predicate NoOrder(s: string) {
    s == "" || s[0] != ' ' || Order(SkipSpaces(s)).NoMatch?
  }

  lemma {:induction false} WordsAreNoOrder(ws: seq<Worded>)
    requires Apart(ws)
    ensures NoOrder(Words(ws))
  {
    if ws != [] {
      var rest := KindText(ws[0].kind) + (Ending(ws[0]) + Words(ws[1..]));
      SkipOwn(ws[0].lead, rest);
      KindIsNoOrder(ws[0].kind, Ending(ws[0]) + Words(ws[1..]));
    }
  }

  lemma {:induction false} KindIsNoOrder(k: SorterKind, rest: string)
    ensures Order(KindText(k) + rest).NoMatch?
  {
    var s := KindText(k) + rest;
    if |s| >= 3 {
      assert s[..3][0] == s[0] == KindText(k)[0];
    }
    if |s| >= 4 {
      assert s[..4][0] == s[0] && s[..4][1] == s[1] == KindText(k)[1];
    }
  }

  lemma {:induction false} OneIsRead(w: Worded, rest: string)
    requires w.gap > 0 && NoOrder(rest)
    ensures OneSorter(KindText(w.kind) + (Ending(w) + rest)) == Match(Sorts(w), rest)
  {
    var s := KindText(w.kind) + (Ending(w) + rest);
    var k := w.kind;
    WordReads(KindWord(k), Ending(w) + rest);
    if w.order.Some? {
      var o := w.order.value;
      assert Ending(w) + rest == Spaces(w.gap) + (OrderWord(o) + rest);
      SkipOwn(w.gap, OrderWord(o) + rest);
      OrderReads(o, rest);
    } else {
      assert Ending(w) + rest == rest;
    }
    assert SorterOf(k, s) == Match(Sorts(w), rest);
    if k != ByDate { KindRejects(k, ByDate, Ending(w) + rest); }
    if k != ByFrom { KindRejects(k, ByFrom, Ending(w) + rest); }
    if k != ByTo { KindRejects(k, ByTo, Ending(w) + rest); }
  }

  lemma {:induction false} MoreAreRead(ws: seq<Worded>)
    requires Apart(ws)
    ensures MoreSorters(Words(ws)) == (SortersIn(ws), "")
    decreases |ws|
  {
    if ws != [] {
      var w, rest := ws[0], Words(ws[1..]);
      WordsAreNoOrder(ws[1..]);
      SkipOwn(w.lead, KindText(w.kind) + (Ending(w) + rest));
      OneIsRead(w, rest);
      MoreAreRead(ws[1..]);
    }
  }

  // ----- what is read was written

  lemma {:induction false} KindIsFirst(s: string) returns (r: string)
    requires OneSorter(s).Match?
    ensures var k := OneSorter(s).value.kind; s == KindText(k) + r && OneSorter(s) == AfterKind(k, r)
  {
    var k := OneSorter(s).value.kind;
    assert SorterOf(k, s) == OneSorter(s);
    r := Word(KindWord(k), s).value;
  }

  /** What follows the kind. */
  function AfterKind(k: SorterKind, r: string): Parsed<Sorter> {
    var order := if r != "" && r[0] == ' ' then Order(SkipSpaces(r)) else NoMatch;
    match order
    case Match(o, rest) => Match(Sorter(k, o), rest)
    case NoMatch => Match(Sorter(k, Ascending), r)
  }

  lemma {:induction false} OrderIs(s: string)
    requires Order(s).Match?
    ensures s == OrderWord(Order(s).value) + Order(s).rest
  {
  }

  lemma {:induction false} OneIs(s: string) returns (w: Worded)
    requires OneSorter(s).Match?
    ensures w.gap > 0 && w.lead == 1 && Sorts(w) == OneSorter(s).value
    ensures s == KindText(w.kind) + (Ending(w) + OneSorter(s).rest)
  {
    var one := OneSorter(s);
    var k := one.value.kind;
    var r := KindIsFirst(s);
    if r != "" && r[0] == ' ' && Order(SkipSpaces(r)).Match? {
      var gap := SkipIs(r);
      var o := Order(SkipSpaces(r)).value;
      w := Worded(1, k, gap, Some(o));
      OrderIs(SkipSpaces(r));
      assert r == Ending(w) + one.rest;
    } else {
      w := Worded(1, k, 1, None);
      assert Ending(w) + r == r;
    }
  }

  lemma {:induction false} MoreIs(s: string) returns (ws: seq<Worded>)
    ensures Apart(ws) && SortersIn(ws) == MoreSorters(s).0 && s == Words(ws) + MoreSorters(s).1
    decreases |s|
  {
    ws := [];
    if s != "" && s[0] == ' ' && OneSorter(SkipSpaces(s)).Match? {
      var lead := SkipIs(s);
      var one := OneSorter(SkipSpaces(s));
      var w := OneIs(SkipSpaces(s));
      var later := MoreIs(one.rest);
      var first := w.(lead := lead);
      ws := [first] + later;
      assert ws[1..] == later && ws[0] == first && Ending(first) == Ending(w) && Sorts(first) == Sorts(w);
      LaterWords(lead, KindText(w.kind), Ending(w), Words(later), MoreSorters(one.rest).1);
    }
  }

  lemma {:induction false} LaterWords(lead: nat, kind: string, ending: string, later: string, rest: string)
    ensures Spaces(lead) + (kind + (ending + (later + rest))) == Spaces(lead) + (kind + (ending + later)) + rest
  {
  }

  /** The text spells the sorters: nothing for none, or sorters set apart, the first without spaces before it. */
  ghost predicate SpellsSorters(s: string, xs: seq<Sorter>) {
    exists ws: seq<Worded> :: Apart(ws) && SortersIn(ws) == xs && WrittenFirst(ws, s)
  }

  predicate WrittenFirst(ws: seq<Worded>, s: string) {
    if ws == [] then s == "" else Spaces(ws[0].lead) + s == Words(ws)
  }

  /** The sort parser accepts exactly the spellings of a list of sorters, and gives back that list. */
  lemma {:induction false} SortParsesIff(s: string, xs: seq<Sorter>)
    ensures ParseSorters(s) == Some(xs) <==> SpellsSorters(s, xs)
  {
    if ParseSorters(s) == Some(xs) {
      SortersAreSpelled(s, xs);
    }
    if SpellsSorters(s, xs) {
      SpelledAreRead(s, xs);
    }
  }

  lemma {:induction false} SortersAreSpelled(s: string, xs: seq<Sorter>)
    requires ParseSorters(s) == Some(xs)
    ensures SpellsSorters(s, xs)
  {
    if OneSorter(s).Match? {
      var w := OneIs(s);
      var rest := OneSorter(s).rest;
      var later := MoreIs(rest);
      var ws := [w] + later;
      assert ws[1..] == later && ws[0] == w;
      assert Words(later) + "" == Words(later);
      assert WrittenFirst(ws, s);
      assert SortersIn(ws) == xs && Apart(ws);
    } else {
      assert Apart([]) && SortersIn([]) == xs && WrittenFirst([], s);
    }
  }

  lemma {:induction false} SpelledAreRead(s: string, xs: seq<Sorter>)
    requires SpellsSorters(s, xs)
    ensures ParseSorters(s) == Some(xs)
  {
    var ws: seq<Worded> :| Apart(ws) && SortersIn(ws) == xs && WrittenFirst(ws, s);
    if ws == [] {
      assert OneSorter("").NoMatch?;
    } else {
      var w, rest := ws[0], Words(ws[1..]);
      SamePrefix(Spaces(w.lead), s, KindText(w.kind) + (Ending(w) + rest));
      WordsAreNoOrder(ws[1..]);
      OneIsRead(w, rest);
      MoreAreRead(ws[1..]);
    }
  }

  lemma {:induction false} SamePrefix(a: string, b: string, c: string)
    requires a + b == a + c
    ensures b == c
  {
    assert (a + b)[|a|..] == b && (a + c)[|a|..] == c;
  }
}
