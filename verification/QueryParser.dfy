/** The whole query: an optional filter, then an optional `order by` (src/search/parser.rs). */
module QueryParser {
  import opened Wrappers
  import opened SearchQuery
  import opened FilterParser
  import opened FilterPrinter
  import opened FilterRoundTrip
  import opened FilterTrimming
  import opened SortParser

  const SEPARATOR := "order by"

  function TrimStart(s: string): (r: string)
    ensures |r| <= |s|
  {
    if s != "" && IsWhitespace(s[0]) then TrimStart(s[1..]) else s
  }

  function TrimEnd(s: string): (r: string)
    ensures |r| <= |s|
  {
    if s != "" && IsWhitespace(s[|s| - 1]) then TrimEnd(s[..|s| - 1]) else s
  }

  function Trim(s: string): string {
    TrimEnd(TrimStart(s))
  }

  predicate Occurs(s: string, i: nat) {
    i + 8 <= |s| && s[i..i + 8] == SEPARATOR
  }

  ghost predicate HoldsSeparator(s: string) {
    exists i: nat :: Occurs(s, i)
  }

  /** The last occurrence at or before `n`. */
  function LastOccurrence(s: string, n: nat): (r: Option<nat>)
    ensures r.Some? ==> Occurs(s, r.value) && r.value <= n
    ensures forall i: nat | (if r.Some? then r.value < i else true) && i <= n :: !Occurs(s, i)
  {
    if Occurs(s, n) then Some(n)
    else if n == 0 then None
    else LastOccurrence(s, n - 1)
  }

  function RsplitOnce(s: string): Option<(string, string)> {
    match LastOccurrence(s, |s|)
    case Some(i) => Some((s[..i], s[i + 8..]))
    case None => None
  }

  function ParseFilter(cal: Calendar, s: string): Option<Filter> {
    Parse(cal, Trim(s))
  }

  function ParseSort(s: string): Option<seq<Sorter>> {
    ParseSorters(Trim(s))
  }

  function ParseQuery(cal: Calendar, input: string): Option<Query> {
    var s := Trim(input);
    match RsplitOnce(s)
    case Some((filters, sorters)) =>
      if Trim(filters) == "" then
        match ParseSort(sorters)
        case Some(sort) => Some(Query(None, Some(sort)))
        case None => None
      else
        (match (ParseFilter(cal, filters), ParseSort(sorters))
         case (Some(filter), Some(sort)) => Some(Query(Some(filter), Some(sort)))
         case _ => None)
    case None =>
      match ParseFilter(cal, s)
      case Some(filter) => Some(Query(Some(filter), None))
      case None => None
  }

  // ----- trimming

  predicate Tight(s: string) {
    s != "" && !IsWhitespace(s[0]) && !IsWhitespace(s[|s| - 1])
  }

  lemma {:induction false} TrimTight(s: string)
    requires Tight(s)
    ensures Trim(s) == s
    ensures Trim(s + " ") == s
    ensures Trim(" " + s) == s
  {
    assert (s + " ")[..|s + " "| - 1] == s;
    assert (" " + s)[1..] == s;
  }

  // ----- where the separator can be

  /** In two texts joined by a space, the separator lies in one of them unless the joint spells it. */
  lemma {:induction false} SeparatorAtSpace(a: string, b: string)
    requires HoldsSeparator(a + " " + b)
    requires |b| < 2 || b[0] != 'b' || b[1] != 'y' || |a| < 5 || a[|a| - 5..] != "order"
    ensures HoldsSeparator(a) || HoldsSeparator(b)
  {
    var s := a + " " + b;
    var i: nat :| Occurs(s, i);
    var w := s[i..i + 8];
    if i + 8 <= |a| {
      assert a[i..i + 8] == w;
      assert Occurs(a, i);
    } else if |a| < i {
      var k := i - |a| - 1;
      assert b[k..k + 8] == w;
      assert Occurs(b, k);
    } else {
      JointSpells(a, b, i);
    }
  }

  lemma {:induction false} JointSpells(a: string, b: string, i: nat)
    requires Occurs(a + " " + b, i) && i <= |a| < i + 8
    ensures |a| >= 5 && a[|a| - 5..] == "order" && |b| >= 2 && b[0] == 'b' && b[1] == 'y'
  {
    var s := a + " " + b;
    forall k | 0 <= k < 8 ensures s[i + k] == SEPARATOR[k] {
      assert s[i + k] == s[i..i + 8][k];
    }
    assert s[i + (|a| - i)] == ' ';
    assert |a| == i + 5;
    assert s[i + 6] == b[0] && s[i + 7] == b[1];
    assert a[i..] == s[i..i + 8][..5];
  }

  lemma {:induction false} SeparatorInParentheses(x: string)
    requires HoldsSeparator("(" + x + ")")
    ensures HoldsSeparator(x)
  {
    var s := "(" + x + ")";
    var i: nat :| Occurs(s, i);
    var w := s[i..i + 8];
    assert s[i] == w[0] && s[i + 7] == w[7];
    assert x[i - 1..i + 7] == w;
    assert Occurs(x, i - 1);
  }

  lemma {:induction false} EscapedSpaces(text: string, i: nat)
    requires i < |Escape(text)| && Escape(text)[i] == ' '
    ensures i > 0 && Escape(text)[i - 1] == '\\'
  {
    if Escapable(text[0]) {
      if i >= 2 {
        EscapedSpaces(text[1..], i - 2);
      }
    } else if i >= 1 {
      EscapedSpaces(text[1..], i - 1);
    }
  }

  lemma {:induction false} EscapedHoldsNoSeparator(text: string)
    ensures !HoldsSeparator(Escape(text))
  {
    if i: nat :| Occurs(Escape(text), i) {
      var w := Escape(text)[i..i + 8];
      assert w[5] == ' ' && w[4] == 'r';
      EscapedSpaces(text, i + 5);
    }
  }

  lemma {:induction false} PlainHoldsNoSeparator(s: string)
    requires Plain(s)
    ensures !HoldsSeparator(s)
  {
    forall i: nat | i + 8 <= |s| ensures !Occurs(s, i) {
      assert s[i..i + 8][5] == s[i + 5] != ' ';
    }
  }

  /** No quoted pattern of the filter holds the separator. */
  ghost predicate QuotedPatternsClean(q: Filter) {
    forall leaf | leaf in Leaves(q) && IsText(leaf) && IsQuotedLiteral(leaf.pattern) ::
      !HoldsSeparator(leaf.pattern)
  }

  lemma {:induction false} LeafClean(cal: Calendar, q: Filter)
    requires LawfulCalendar(cal) && IsLeaf(q) && DaysValid(cal, q) && QuotedPatternsClean(q)
    ensures !HoldsSeparator(ShowLeaf(cal, q))
  {
    assert q in Leaves(q);
    var body := LeafBody(cal, q);
    ShowLeafSplits(cal, q, "");
    assert ShowLeaf(cal, q) == LeafWord(q) + " " + body;
    match q {
      case Date(d) => PlainHoldsNoSeparator(cal.show(d));
      case AfterDate(d) => PlainHoldsNoSeparator(cal.show(d));
      case From(t) => EscapedHoldsNoSeparator(t);
      case To(t) => EscapedHoldsNoSeparator(t);
      case Subject(t) => EscapedHoldsNoSeparator(t);
      case Body(t) => EscapedHoldsNoSeparator(t);
      case HasFlag(f) => EscapedHoldsNoSeparator(f.raw);
    }
    if HoldsSeparator(ShowLeaf(cal, q)) {
      SeparatorAtSpace(LeafWord(q), body);
    }
  }

  /** Printed filters do not spell the separator on their own: only a quoted pattern can hold it. */
  lemma {:induction false} ShowClean(cal: Calendar, q: Filter, level: Level)
    requires LawfulCalendar(cal) && DaysValid(cal, q) && QuotedPatternsClean(q)
    ensures !HoldsSeparator(Show(cal, q, level))
    decreases q, 1
  {
    ShowBareClean(cal, q);
    if Parenthesised(q, level) && HoldsSeparator(Show(cal, q, level)) {
      SeparatorInParentheses(ShowBare(cal, q));
    }
  }

  lemma {:induction false} ShowBareClean(cal: Calendar, q: Filter)
    requires LawfulCalendar(cal) && DaysValid(cal, q) && QuotedPatternsClean(q)
    ensures !HoldsSeparator(ShowBare(cal, q))
    decreases q, 0
  {
    if q.And? || q.Or? {
      LeavesClean(cal, q);
      ShowClean(cal, q.left, LeftLevel(q));
      ShowClean(cal, q.right, RightLevel(q));
      OperandsClean(cal, Show(cal, q.left, LeftLevel(q)), OperatorWord(q), q.right, RightLevel(q));
      BareUnfolds(cal, q);
    } else if q.Not? {
      assert Leaves(q.inner) == Leaves(q);
      ShowClean(cal, q.inner, NotOperand);
      JoinClean(cal, "not", q.inner, NotOperand);
      NotUnfolds(cal, q.inner, NotOperand, "");
      assert ShowBare(cal, q) == "not" + " " + Show(cal, q.inner, NotOperand);
    } else {
      LeafClean(cal, q);
    }
  }

  lemma {:induction false} BareUnfolds(cal: Calendar, q: Filter)
    requires q.And? || q.Or?
    ensures ShowBare(cal, q) ==
      Show(cal, q.left, LeftLevel(q)) + " " + (OperatorWord(q) + " " + Show(cal, q.right, RightLevel(q)))
  {
    var left, right := Show(cal, q.left, LeftLevel(q)), Show(cal, q.right, RightLevel(q));
    assert ShowBare(cal, q) == left + (" " + OperatorWord(q) + " ") + right;
  }

  lemma {:induction false} LeavesClean(cal: Calendar, q: Filter)
    requires (q.And? || q.Or?) && DaysValid(cal, q) && QuotedPatternsClean(q)
    ensures DaysValid(cal, q.left) && QuotedPatternsClean(q.left)
    ensures DaysValid(cal, q.right) && QuotedPatternsClean(q.right)
  {
    assert forall leaf | leaf in Leaves(q.left) || leaf in Leaves(q.right) :: leaf in Leaves(q);
  }

  lemma {:induction false} JoinClean(cal: Calendar, word: string, q: Filter, level: Level)
    requires IsOperator(word) && !HoldsSeparator(Show(cal, q, level))
    ensures !HoldsSeparator(word + " " + Show(cal, q, level))
  {
    if HoldsSeparator(word + " " + Show(cal, q, level)) {
      SeparatorAtSpace(word, Show(cal, q, level));
    }
  }

  lemma {:induction false} OperandsClean(cal: Calendar, left: string, word: string, q: Filter, level: Level)
    requires IsOperator(word) && !HoldsSeparator(left) && !HoldsSeparator(Show(cal, q, level))
    ensures !HoldsSeparator(left + " " + (word + " " + Show(cal, q, level)))
  {
    JoinClean(cal, word, q, level);
    if HoldsSeparator(left + " " + (word + " " + Show(cal, q, level))) {
      SeparatorAtSpace(left, word + " " + Show(cal, q, level));
    }
  }

  // ----- round trips

  /** Trimming leaves the printed filter alone. */
  predicate TrimSafe(cal: Calendar, q: Filter) {
    var s := Show(cal, q, OrOperand);
    s != "" && !IsWhitespace(s[|s| - 1])
  }

  lemma {:induction false} TrimEndCuts(s: string)
    requires s != "" && !IsWhitespace(s[0])
    ensures TrimEnd(s) != "" && TrimEnd(s) <= s && Tight(TrimEnd(s))
    ensures IsWhitespace(s[|s| - 1]) ==> Cut(s, TrimEnd(s))
    decreases |s|
  {
    if IsWhitespace(s[|s| - 1]) {
      var shorter := s[..|s| - 1];
      TrimEndCuts(shorter);
      forall i | |TrimEnd(s)| <= i < |s| ensures IsWhitespace(s[i]) {
        if i < |s| - 1 {
          assert shorter[i] == s[i];
        }
      }
    }
  }

  /** The text left of a printed filter after trimming, once or twice, with or without a space behind it. */
  lemma {:induction false} TrimShow(cal: Calendar, q: Filter)
    ensures var s := Show(cal, q, OrOperand);
      && Tight(Trim(s)) && Trim(Trim(s)) == Trim(s) == Trim(s + " ")
      && (if TrimSafe(cal, q) then Trim(s) == s else Cut(s, Trim(s)))
  {
    var s := Show(cal, q, OrOperand);
    ShowStarts(cal, q, OrOperand);
    TrimEndCuts(s);
    TrimTight(TrimEnd(s));
    assert (s + " ")[..|s + " "| - 1] == s;
    if TrimSafe(cal, q) {
      TrimTight(s);
    }
  }

  /** A printed filter parses back, after trimming, exactly when it is printable and trimming leaves it alone. */
  lemma {:induction false} TrimmedRoundTripIff(cal: Calendar, q: Filter)
    requires LawfulCalendar(cal) && DaysValid(cal, q)
    ensures ParseFilter(cal, Show(cal, q, OrOperand)) == Some(q)
       <==> Printable(cal, q, OrOperand, "") && TrimSafe(cal, q)
  {
    var t := Trim(Show(cal, q, OrOperand));
    TrimShow(cal, q);
    RoundTripIff(cal, q);
    if !TrimSafe(cal, q) && Parse(cal, t) == Some(q) {
      ScanOr(cal, t);
      assert Leaves(q) <= Scan(cal, t);
      ScanCut(cal, q, OrOperand, t);
    }
  }

  lemma {:induction false} SortersTextLetters(xs: seq<Spelled>, i: nat)
    requires i < |SortersText(xs)|
    ensures SortersText(xs)[i] != 'y'
    ensures i == |SortersText(xs)| - 1 ==> !IsWhitespace(SortersText(xs)[i])
  {
    SorterTextLetters(xs[0]);
    if |xs| > 1 {
      var a := SorterText(xs[0]);
      assert SortersText(xs) == a + " " + SortersText(xs[1..]);
      SortersTextStarts(xs[1..]);
      if i > |a| {
        SortersTextLetters(xs[1..], i - |a| - 1);
      }
    }
  }

  lemma {:induction false} SorterTextLetters(x: Spelled)
    ensures forall i | 0 <= i < |SorterText(x)| :: SorterText(x)[i] != 'y'
    ensures SorterText(x) != "" && !IsWhitespace(SorterText(x)[|SorterText(x)| - 1])
  {
    var word, tail := KindWord(x.sorter.kind), OrderText(x);
    assert SorterText(x) == word + tail;
    assert forall i | 0 <= i < |word| :: word[i] != 'y';
    assert forall i | 0 <= i < |tail| :: tail[i] != 'y';
  }

  /** A separator followed by text without `y` is the last one. */
  lemma {:induction false} LastSeparator(before: string, after: string)
    requires forall i | 0 <= i < |after| :: after[i] != 'y'
    ensures RsplitOnce(before + SEPARATOR + after) == Some((before, after))
  {
    var s := before + SEPARATOR + after;
    assert s[|before|..|before| + 8] == SEPARATOR;
    assert Occurs(s, |before|);
    forall i: nat | |before| < i ensures !Occurs(s, i) {
      if i + 8 <= |s| {
        assert s[i..i + 8][7] == s[i + 7] == after[i - 1 - |before|];
      }
    }
    var last := LastOccurrence(s, |s|);
    assert last == Some(|before|);
    assert s[..|before|] == before && s[|before| + 8..] == after;
  }

  function QueryText(cal: Calendar, q: Filter, xs: seq<Spelled>): string {
    Show(cal, q, OrOperand) + " order by " + SortersText(xs)
  }

  /** What is left of the query text after trimming, cut around the separator. */
  lemma {:induction false} TrimQueryText(head: string, xs: seq<Spelled>)
    requires head != "" ==> !IsWhitespace(head[0])
    ensures var tail := if xs == [] then "" else " " + SortersText(xs);
      && Trim(head + "order by " + SortersText(xs)) == head + SEPARATOR + tail
      && (forall i | 0 <= i < |tail| :: tail[i] != 'y')
      && Trim(tail) == SortersText(xs)
  {
    if xs == [] {
      assert head + "order by " + SortersText(xs) == (head + SEPARATOR) + " ";
      TrimTight(head + SEPARATOR);
      assert head + SEPARATOR == head + SEPARATOR + "";
    } else {
      TrimSorters(head, xs);
    }
  }

  lemma {:induction false} TrimSorters(head: string, xs: seq<Spelled>)
    requires xs != [] && (head != "" ==> !IsWhitespace(head[0]))
    ensures var t := SortersText(xs);
      && Trim(head + "order by " + t) == head + SEPARATOR + (" " + t)
      && (forall i | 0 <= i < |" " + t| :: (" " + t)[i] != 'y')
      && Trim(" " + t) == t
  {
    var t := SortersText(xs);
    SortersTextStarts(xs);
    SortersTextLetters(xs, |t| - 1);
    assert head + "order by " + t == head + SEPARATOR + (" " + t);
    TrimTight(head + "order by " + t);
    TrimTight(t);
    SortersTextHasNoY(xs);
  }

  lemma {:induction false} SortersTextHasNoY(xs: seq<Spelled>)
    ensures var t := " " + SortersText(xs); forall i | 0 <= i < |t| :: t[i] != 'y'
  {
    var t := " " + SortersText(xs);
    forall i | 0 <= i < |t| ensures t[i] != 'y' {
      if i > 0 {
        SortersTextLetters(xs, i - 1);
      }
    }
  }

  /** The text after the separator, which parses to the sorters. */
  lemma {:induction false} SortTail(head: string, xs: seq<Spelled>) returns (tail: string)
    requires head != "" ==> !IsWhitespace(head[0])
    ensures Trim(head + "order by " + SortersText(xs)) == head + SEPARATOR + tail
    ensures forall i | 0 <= i < |tail| :: tail[i] != 'y'
    ensures ParseSort(tail) == Some(SortersOf(xs))
  {
    tail := if xs == [] then "" else " " + SortersText(xs);
    TrimQueryText(head, xs);
    SortRoundTrip(xs);
  }

  lemma {:induction false} ParseAtSeparator(cal: Calendar, input: string, before: string, after: string)
    requires Trim(input) == before + SEPARATOR + after
    requires forall i | 0 <= i < |after| :: after[i] != 'y'
    ensures ParseSort(after).Some? && before == "" ==>
      ParseQuery(cal, input) == Some(Query(None, ParseSort(after)))
    ensures ParseSort(after).Some? && Trim(before) != "" ==>
      ParseQuery(cal, input) ==
        match ParseFilter(cal, before)
        case Some(filter) => Some(Query(Some(filter), ParseSort(after)))
        case None => None
  {
    LastSeparator(before, after);
    assert Trim("") == "";
  }

  /**
   Whole-query round trip: filter, `order by` and sorters parse back to exactly that pair whenever the
   filter alone does, even when a quoted pattern of the filter holds `order by`, because the last
   occurrence is always the separator.
   */
  lemma {:induction false} QueryRoundTripIff(cal: Calendar, q: Filter, xs: seq<Spelled>)
    requires LawfulCalendar(cal) && DaysValid(cal, q)
    ensures ParseQuery(cal, QueryText(cal, q, xs)) == Some(Query(Some(q), Some(SortersOf(xs))))
       <==> Printable(cal, q, OrOperand, "") && TrimSafe(cal, q)
  {
    var f := Show(cal, q, OrOperand);
    ShowStarts(cal, q, OrOperand);
    TrimShow(cal, q);
    QueryTextSplits(cal, q, xs);
    var tail := SortTail(f + " ", xs);
    TrimmedRoundTripIff(cal, q);
    assert ParseFilter(cal, f + " ") == ParseFilter(cal, f);
    ParseAtSeparator(cal, QueryText(cal, q, xs), f + " ", tail);
  }

  lemma {:induction false} QueryTextSplits(cal: Calendar, q: Filter, xs: seq<Spelled>)
    ensures QueryText(cal, q, xs) == (Show(cal, q, OrOperand) + " ") + "order by " + SortersText(xs)
  {
  }

  lemma {:induction false} ParseSortOnly(cal: Calendar, input: string, after: string)
    requires Trim(input) == "" + SEPARATOR + after && ParseSort(after).Some?
    requires forall i | 0 <= i < |after| :: after[i] != 'y'
    ensures ParseQuery(cal, input) == Some(Query(None, ParseSort(after)))
  {
    ParseAtSeparator(cal, input, "", after);
  }

  /** A sort-only query parses back to its sorters. */
  lemma {:induction false} SortOnlyRoundTrip(cal: Calendar, xs: seq<Spelled>)
    ensures ParseQuery(cal, "order by " + SortersText(xs)) == Some(Query(None, Some(SortersOf(xs))))
  {
    var tail := SortTail("", xs);
    assert "" + "order by " + SortersText(xs) == "order by " + SortersText(xs);
    ParseSortOnly(cal, "order by " + SortersText(xs), tail);
  }

  /**
   A filter-only query parses back to its filter exactly when the filter alone does and its text does
   not hold `order by`.
   */
  lemma {:induction false} FilterOnlyRoundTripIff(cal: Calendar, q: Filter)
    requires LawfulCalendar(cal) && DaysValid(cal, q)
    ensures ParseQuery(cal, Show(cal, q, OrOperand)) == Some(Query(Some(q), None))
       <==> Printable(cal, q, OrOperand, "") && TrimSafe(cal, q) && !HoldsSeparator(Show(cal, q, OrOperand))
  {
    var t := Trim(Show(cal, q, OrOperand));
    TrimShow(cal, q);
    TrimmedRoundTripIff(cal, q);
    if HoldsSeparator(t) {
      var i: nat :| Occurs(t, i);
      assert LastOccurrence(t, |t|).Some?;
    }
  }

  /** So filter-only text round-trips whenever no quoted pattern holds `order by`. */
  lemma {:induction false} FilterOnlyRoundTrip(cal: Calendar, q: Filter)
    requires LawfulCalendar(cal) && DaysValid(cal, q) && Printable(cal, q, OrOperand, "") && TrimSafe(cal, q)
    requires QuotedPatternsClean(q)
    ensures ParseQuery(cal, Show(cal, q, OrOperand)) == Some(Query(Some(q), None))
  {
    ShowClean(cal, q, OrOperand);
    FilterOnlyRoundTripIff(cal, q);
  }

  /** A text that ends in a tab is printable, but trimming cuts the tab off. */
  lemma {:induction false} TrailingTabIsCut(cal: Calendar)
    requires LawfulCalendar(cal)
    ensures var q := From("a\t");
      && Printable(cal, q, OrOperand, "") && !TrimSafe(cal, q)
      && ParseQuery(cal, Show(cal, q, OrOperand)) != Some(Query(Some(q), None))
  {
    var q := From("a\t");
    EscapePlain("a\t");
    LeafUnfolds(cal, q, OrOperand, "");
    var s := Show(cal, q, OrOperand);
    assert s == "from " + "a\t" && s[|s| - 1] == '\t';
    assert "a\t" + "" == "a\t" && Quoted("a\t").NoMatch?;
    assert Leaves(q) == [q];
    FilterOnlyRoundTripIff(cal, q);
  }

  // ----- every input

  predicate AllWhitespace(s: string) {
    forall i | 0 <= i < |s| :: IsWhitespace(s[i])
  }

  /** Trimming takes the whitespace off both ends, and nothing else. */
  lemma {:induction false} TrimIs(s: string) returns (before: string, after: string)
    ensures s == before + Trim(s) + after && AllWhitespace(before) && AllWhitespace(after)
    ensures Trim(s) == "" || Tight(Trim(s))
  {
    before := TrimStartIs(s);
    var t := TrimStart(s);
    after := "";
    if t != "" {
      TrimEndCuts(t);
      after := t[|TrimEnd(t)|..];
      TrimEndRest(t);
      assert t == TrimEnd(t) + after;
    }
  }

  lemma {:induction false} TrimStartIs(s: string) returns (before: string)
    ensures s == before + TrimStart(s) && AllWhitespace(before)
    ensures TrimStart(s) == "" || !IsWhitespace(TrimStart(s)[0])
  {
    before := "";
    if s != "" && IsWhitespace(s[0]) {
      var more := TrimStartIs(s[1..]);
      before := [s[0]] + more;
      assert s == [s[0]] + s[1..];
    }
  }

  lemma {:induction false} TrimEndRest(s: string)
    requires s != "" && !IsWhitespace(s[0])
    ensures TrimEnd(s) <= s && AllWhitespace(s[|TrimEnd(s)|..])
  {
    TrimEndCuts(s);
    if IsWhitespace(s[|s| - 1]) {
      forall i | 0 <= i < |s| - |TrimEnd(s)| ensures IsWhitespace(s[|TrimEnd(s)|..][i]) {
        assert s[|TrimEnd(s)|..][i] == s[|TrimEnd(s)| + i];
      }
    }
  }

  predicate OrderByAt(s: string, i: nat) {
    i + 8 <= |s| && s[i..i + 8] == "order by"
  }

  /** The text is split at its last `order by`. */
  ghost predicate SplitsAt(s: string, before: string, after: string) {
    && s == before + "order by" + after
    && forall i: nat | |before| < i :: !OrderByAt(s, i)
  }

  /**
   What decides a query, for every input, after trimming. With an `order by` somewhere, the last one splits
   it: the sorters after it must parse, and so must the filter before it unless that is blank. Without
   one, the whole is a filter.
   */
  lemma {:induction false} ParseQueryIs(cal: Calendar, input: string)
    ensures var s := Trim(input);
      && (!HoldsSeparator(s) ==>
            ParseQuery(cal, input) ==
              match ParseFilter(cal, s) case Some(q) => Some(Query(Some(q), None)) case None => None)
      && (forall before, after | SplitsAt(s, before, after) ::
            ParseQuery(cal, input) ==
              if ParseSort(after).None? then None
              else if Trim(before) == "" then Some(Query(None, ParseSort(after)))
              else
                match ParseFilter(cal, before)
                case Some(q) => Some(Query(Some(q), ParseSort(after)))
                case None => None)
      && (HoldsSeparator(s) ==> exists before, after :: SplitsAt(s, before, after))
  {
    var s := Trim(input);
    assert forall i: nat :: OrderByAt(s, i) <==> Occurs(s, i);
    forall before, after | SplitsAt(s, before, after) ensures RsplitOnce(s) == Some((before, after)) {
      assert s[|before|..|before| + 8] == SEPARATOR;
      assert Occurs(s, |before|);
      var last := LastOccurrence(s, |s|);
      assert last == Some(|before|);
      assert s[..|before|] == before && s[|before| + 8..] == after;
    }
    if i: nat :| Occurs(s, i) {
      var last := LastOccurrence(s, |s|);
      var before, after := s[..last.value], s[last.value + 8..];
      assert s == before + s[last.value..last.value + 8] + after;
      assert SplitsAt(s, before, after);
    }
  }
}
