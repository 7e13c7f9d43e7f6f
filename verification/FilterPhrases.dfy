/**
 Everything the filter parser accepts: texts with any spacing, any parentheses and any spelling of a leaf
 (src/search/filter/parser.rs).
 */
module FilterPhrases {
  import opened Wrappers
  import opened Flags
  import opened SearchQuery
  import opened FilterParser
  import opened FilterPrinter
  import opened FilterRoundTrip

  /** A filter as written: gaps are numbers of spaces. */
  datatype Phrase =
    | LeafText(leaf: Filter, gap: nat, text: string)
    | NotText(gap: nat, inner: Phrase)
    | AndText(left: Phrase, before: nat, gap: nat, right: Phrase)
    | OrText(left: Phrase, before: nat, gap: nat, right: Phrase)
    | Parens(inner: Phrase, pad: nat)

  function Spaces(n: nat): string {
    if n == 0 then "" else " " + Spaces(n - 1)
  }

  function Write(p: Phrase): string {
    match p
    case LeafText(leaf, gap, text) => (if IsLeaf(leaf) then LeafWord(leaf) else "") + Spaces(gap) + text
    case NotText(gap, x) => "not" + Spaces(gap) + Write(x)
    case AndText(l, before, gap, r) => Write(l) + (Spaces(before) + ("and" + Spaces(gap) + Write(r)))
    case OrText(l, before, gap, r) => Write(l) + (Spaces(before) + ("or" + Spaces(gap) + Write(r)))
    case Parens(x, pad) => "(" + Write(x) + Spaces(pad) + ")"
  }

  function Means(p: Phrase): Filter {
    match p
    case LeafText(leaf, _, _) => leaf
    case NotText(_, x) => Not(Means(x))
    case AndText(l, _, _, r) => And(Means(l), Means(r))
    case OrText(l, _, _, r) => Or(Means(l), Means(r))
    case Parens(x, _) => Means(x)
  }

  /** `not` binds tighter than `and`, `and` tighter than `or`, and both associate to the left. */
  predicate Fits(p: Phrase, level: Level) {
    match p
    case LeafText(_, _, _) => true
    case NotText(_, x) => Fits(x, NotOperand)
    case AndText(l, _, _, r) => level != NotOperand && Fits(l, AndOperand) && Fits(r, NotOperand)
    case OrText(l, _, _, r) => level == OrOperand && Fits(l, OrOperand) && Fits(r, AndOperand)
    case Parens(x, _) => Fits(x, OrOperand)
  }

  /** Words are followed by at least one space, and each leaf's text, where it stands, is read as that leaf. */
  ghost predicate Reads(cal: Calendar, p: Phrase, rest: string) {
    match p
    case LeafText(leaf, gap, text) =>
      && IsLeaf(leaf) && gap > 0 && text != "" && text[0] != ' '
      && ReadBody(cal, leaf, text + rest) == Match(leaf, rest)
    case NotText(gap, x) => gap > 0 && Reads(cal, x, rest)
    case AndText(l, before, gap, r) =>
      && gap > 0 && Reads(cal, r, rest)
      && Reads(cal, l, Spaces(before) + ("and" + Spaces(gap) + Write(r)) + rest)
    case OrText(l, before, gap, r) =>
      && gap > 0 && Reads(cal, r, rest)
      && Reads(cal, l, Spaces(before) + ("or" + Spaces(gap) + Write(r)) + rest)
    case Parens(x, pad) => Reads(cal, x, Spaces(pad) + (")" + rest))
  }

  // ----- spaces and words

  predicate NoSpace(s: string) {
    s == "" || s[0] != ' '
  }

  lemma {:induction false} SkipOwn(n: nat, s: string)
    requires NoSpace(s)
    ensures SkipSpaces(Spaces(n) + s) == s
    decreases n
  {
    if n > 0 {
      assert (Spaces(n) + s)[1..] == Spaces(n - 1) + s;
      SkipOwn(n - 1, s);
    } else {
      assert Spaces(0) + s == s;
    }
  }

  lemma {:induction false} SkipIs(s: string) returns (n: nat)
    ensures s == Spaces(n) + SkipSpaces(s) && NoSpace(SkipSpaces(s))
    ensures s != "" && s[0] == ' ' ==> n > 0
    decreases |s|
  {
    n := 0;
    if s != "" && s[0] == ' ' {
      var k := SkipIs(s[1..]);
      n := k + 1;
      assert Spaces(n) == " " + Spaces(k);
      assert s == " " + s[1..];
    }
  }

  lemma {:induction false} LeadOwn(word: string, gap: nat, s: string)
    requires gap > 0 && NoSpace(s)
    ensures Lead(word, word + Spaces(gap) + s) == Some(s)
  {
    assert word + Spaces(gap) + s == word + " " + (Spaces(gap - 1) + s);
    OwnWordLeads(word, Spaces(gap - 1) + s);
    SkipOwn(gap - 1, s);
  }

  lemma {:induction false} LeadIs(word: string, s: string) returns (gap: nat)
    requires Lead(word, s).Some?
    ensures gap > 0 && s == word + Spaces(gap) + Lead(word, s).value && NoSpace(Lead(word, s).value)
  {
    var r := s[|word|..];
    assert s == word + r;
    gap := SkipIs(r);
  }

  predicate Starts(s: string) {
    s != "" && s[0] in {'(', 'n', 'd', 'a', 'f', 't', 's', 'b'}
  }

  lemma {:induction false} WriteStarts(cal: Calendar, p: Phrase, rest: string)
    requires Reads(cal, p, rest)
    ensures Starts(Write(p))
    decreases p
  {
    match p {
      case LeafText(leaf, _, _) =>
      case NotText(_, _) =>
      case AndText(l, before, gap, r) => WriteStarts(cal, l, Spaces(before) + ("and" + Spaces(gap) + Write(r)) + rest);
      case OrText(l, before, gap, r) => WriteStarts(cal, l, Spaces(before) + ("or" + Spaces(gap) + Write(r)) + rest);
      case Parens(_, _) =>
    }
  }

  // ----- what is written is read

  /** A leaf, a negation or parentheses. */
  lemma {:induction false} UnitRead(cal: Calendar, p: Phrase, rest: string)
    requires Fits(p, NotOperand) && Reads(cal, p, rest)
    ensures NotLevel(cal, Write(p) + rest) == Match(Means(p), SkipSpaces(rest))
    decreases p, 1
  {
    match p {
      case LeafText(leaf, gap, text) =>
        LeafRead(cal, leaf, gap, text, rest);
      case NotText(gap, x) =>
        WriteStarts(cal, x, rest);
        UnitRead(cal, x, rest);
        var s := Write(x) + rest;
        assert Write(p) + rest == "not" + Spaces(gap) + s;
        LeadOwn("not", gap, s);
      case Parens(x, pad) =>
        ParensRead(cal, x, pad, rest);
    }
  }

  lemma {:induction false} LeafRead(cal: Calendar, leaf: Filter, gap: nat, text: string, rest: string)
    requires Reads(cal, LeafText(leaf, gap, text), rest)
    ensures NotLevel(cal, Write(LeafText(leaf, gap, text)) + rest) == Match(leaf, SkipSpaces(rest))
  {
    var body := Spaces(gap - 1) + (text + rest);
    LeafWritten(leaf, gap, text, rest);
    ConditionReads(cal, leaf, body);
    SkipOwn(gap - 1, text + rest);
    LeafIsUnit(cal, leaf, body, rest);
  }

  lemma {:induction false} LeafWritten(leaf: Filter, gap: nat, text: string, rest: string)
    requires IsLeaf(leaf) && gap > 0
    ensures Write(LeafText(leaf, gap, text)) + rest == LeafWord(leaf) + " " + (Spaces(gap - 1) + (text + rest))
  {
    assert Spaces(gap) == " " + Spaces(gap - 1);
  }

  lemma {:induction false} LeafIsUnit(cal: Calendar, leaf: Filter, body: string, rest: string)
    requires IsLeaf(leaf) && Condition(cal, LeafWord(leaf) + " " + body) == Match(leaf, rest)
    ensures NotLevel(cal, LeafWord(leaf) + " " + body) == Match(leaf, SkipSpaces(rest))
  {
    var s := LeafWord(leaf) + " " + body;
    assert s[0] == LeafWord(leaf)[0];
    NotRejects(s);
  }

  lemma {:induction false} ParensRead(cal: Calendar, x: Phrase, pad: nat, rest: string)
    requires Fits(x, OrOperand) && Reads(cal, x, Spaces(pad) + (")" + rest))
    ensures NotLevel(cal, Write(Parens(x, pad)) + rest) == Match(Means(x), SkipSpaces(rest))
    decreases x, 5
  {
    var close := Spaces(pad) + (")" + rest);
    SkipOwn(pad, ")" + rest);
    LeadRejects("and", ")" + rest);
    LeadRejects("or", ")" + rest);
    OrRead(cal, x, close);
    CloseEnds(cal, Means(x), rest);
    ParensWritten(x, pad, rest);
    ParenthesesRead(cal, Means(x), Write(x) + close, rest);
  }

  lemma {:induction false} CloseEnds(cal: Calendar, q: Filter, rest: string)
    ensures OrRest(cal, q, ")" + rest) == Match(q, ")" + rest)
  {
    LeadRejects("or", ")" + rest);
  }

  lemma {:induction false} ParensWritten(x: Phrase, pad: nat, rest: string)
    ensures Write(Parens(x, pad)) + rest == "(" + (Write(x) + (Spaces(pad) + (")" + rest)))
  {
    assert Write(Parens(x, pad)) == "(" + Write(x) + Spaces(pad) + ")";
  }

  lemma {:induction false} AndRead(cal: Calendar, p: Phrase, rest: string)
    requires Fits(p, AndOperand) && Reads(cal, p, rest)
    ensures AndLevel(cal, Write(p) + rest) == AndRest(cal, Means(p), SkipSpaces(rest))
    decreases p, 2
  {
    if p.AndText? {
      var s := Write(p.right) + rest;
      var tail := Spaces(p.before) + ("and" + Spaces(p.gap) + Write(p.right)) + rest;
      AndWritten(p, rest);
      AndRead(cal, p.left, tail);
      OperatorRead(cal, "and", p.before, p.gap, p.right, rest);
      UnitRead(cal, p.right, rest);
      AndTurn(cal, Means(p.left), Means(p.right), SkipSpaces(tail), s, SkipSpaces(rest));
    } else {
      UnitRead(cal, p, rest);
    }
  }

  lemma {:induction false} OperatorRead(
    cal: Calendar, word: string, before: nat, gap: nat, right: Phrase, rest: string)
    requires (word == "and" || word == "or") && gap > 0 && Reads(cal, right, rest)
    ensures var tail := Spaces(before) + (word + Spaces(gap) + Write(right)) + rest;
      && SkipSpaces(tail) == word + Spaces(gap) + (Write(right) + rest)
      && Lead(word, SkipSpaces(tail)) == Some(Write(right) + rest)
  {
    var s := Write(right) + rest;
    WriteStarts(cal, right, rest);
    LeadOwn(word, gap, s);
    SkipOwn(before, word + Spaces(gap) + s);
    Regrouped(Spaces(before), word + Spaces(gap), Write(right), rest);
  }

  lemma {:induction false} Regrouped(a: string, b: string, c: string, d: string)
    ensures a + (b + c) + d == a + (b + (c + d))
  {
  }

  lemma {:induction false} OrRead(cal: Calendar, p: Phrase, rest: string)
    requires Fits(p, OrOperand) && Reads(cal, p, rest) && NoAnd(rest)
    ensures OrLevel(cal, Write(p) + rest) == OrRest(cal, Means(p), SkipSpaces(rest))
    decreases p, 4
  {
    if p.OrText? {
      var s := Write(p.right) + rest;
      var tail := Spaces(p.before) + ("or" + Spaces(p.gap) + Write(p.right)) + rest;
      OrWritten(p, rest);
      OperatorRead(cal, "or", p.before, p.gap, p.right, rest);
      LeadRejects("and", SkipSpaces(tail));
      OrRead(cal, p.left, tail);
      AndRead(cal, p.right, rest);
      OrTurn(cal, Means(p.left), Means(p.right), SkipSpaces(tail), s, SkipSpaces(rest));
    } else {
      AndRead(cal, p, rest);
      assert AndRest(cal, Means(p), SkipSpaces(rest)) == Match(Means(p), SkipSpaces(rest));
    }
  }

  lemma {:induction false} AndWritten(p: Phrase, rest: string)
    requires p.AndText?
    ensures Write(p) + rest
         == Write(p.left) + (Spaces(p.before) + ("and" + Spaces(p.gap) + Write(p.right)) + rest)
  {
  }

  lemma {:induction false} OrWritten(p: Phrase, rest: string)
    requires p.OrText?
    ensures Write(p) + rest
         == Write(p.left) + (Spaces(p.before) + ("or" + Spaces(p.gap) + Write(p.right)) + rest)
  {
  }

  /** Every phrase is read as what it means, with trailing spaces or without. */
  lemma {:induction false} PhraseIsRead(cal: Calendar, p: Phrase, n: nat)
    requires Fits(p, OrOperand) && Reads(cal, p, Spaces(n))
    ensures Parse(cal, Write(p) + Spaces(n)) == Some(Means(p))
  {
    SkipOwn(n, "");
    assert Spaces(n) + "" == Spaces(n);
    OrRead(cal, p, Spaces(n));
  }

  // ----- what is read was written

  lemma {:induction false} UnquotedSuffix(s: string)
    ensures var rest := UnquotedChars(s).1; |rest| <= |s| && s == s[..|s| - |rest|] + rest
  {
    if s != "" {
      if s[0] == '\\' {
        if |s| > 1 && Escapable(s[1]) {
          UnquotedSuffix(s[2..]);
          SuffixOf(s, 2, UnquotedChars(s[2..]).1);
        }
      } else if !Escapable(s[0]) {
        UnquotedSuffix(s[1..]);
        SuffixOf(s, 1, UnquotedChars(s[1..]).1);
      }
    }
  }

  lemma {:induction false} SuffixOf(s: string, k: nat, rest: string)
    requires k <= |s| && |rest| <= |s| - k && s[k..] == s[k..][..|s| - k - |rest|] + rest
    ensures s == s[..|s| - |rest|] + rest
  {
    assert s == s[..k] + s[k..];
    assert s[..|s| - |rest|] == s[..k] + s[k..][..|s| - k - |rest|];
  }

  lemma {:induction false} PatternSuffix(s: string)
    requires Pattern(s).Match?
    ensures var rest := Pattern(s).rest; |rest| < |s| && s == s[..|s| - |rest|] + rest
  {
    UnquotedSuffix(s);
    if Quoted(s).Match? {
      assert s[..|s| - |Quoted(s).rest|] == Quoted(s).value;
    }
  }

  /** A leaf is a keyword, spaces, and a text that is read as that leaf. */
  lemma {:induction false} BodySuffix(cal: Calendar, leaf: Filter, s: string)
    requires IsLeaf(leaf) && ReadBody(cal, leaf, s).Match?
    ensures var rest := ReadBody(cal, leaf, s).rest; |rest| < |s| && s == s[..|s| - |rest|] + rest
  {
    if leaf.HasFlag? {
      UnquotedSuffix(s);
    } else {
      PatternSuffix(s);
    }
  }

  /** The leaf kind that the `i`th alternative reads. */
  predicate OfKind(leaf: Filter, i: nat) {
    IsLeaf(leaf) && LeafIndex(leaf) == i
  }

  lemma {:induction false} AlternativeIs(cal: Calendar, i: nat, s: string)
    requires i < 7 && Alternative(cal, i, s).Match?
    ensures var leaf := Alternative(cal, i, s).value;
      && OfKind(leaf, i) && Lead(AlternativeWord(i), s).Some? && AlternativeWord(i) == LeafWord(leaf)
      && ReadBody(cal, leaf, Lead(AlternativeWord(i), s).value) == Alternative(cal, i, s)
  {
  }

  lemma {:induction false} FirstOfIs(cal: Calendar, i: nat, s: string) returns (k: nat)
    requires i <= 7 && FirstOf(cal, i, s).Match?
    ensures k < 7 && FirstOf(cal, i, s) == Alternative(cal, k, s)
    decreases 7 - i
  {
    if Alternative(cal, i, s).Match? {
      k := i;
    } else {
      k := FirstOfIs(cal, i + 1, s);
    }
  }

  lemma {:induction false} LeafPhrase(cal: Calendar, s: string) returns (p: Phrase)
    requires Condition(cal, s).Match?
    ensures var c := Condition(cal, s);
      p.LeafText? && Means(p) == c.value && s == Write(p) + c.rest && Reads(cal, p, c.rest)
  {
    var c := Condition(cal, s);
    var k := FirstOfIs(cal, 0, s);
    AlternativeIs(cal, k, s);
    var word := AlternativeWord(k);
    var gap := LeadIs(word, s);
    var body := Lead(word, s).value;
    BodySuffix(cal, c.value, body);
    var text := body[..|body| - |c.rest|];
    p := LeafText(c.value, gap, text);
    assert text[0] == body[0];
    assert s == word + Spaces(gap) + text + c.rest;
  }

  lemma {:induction false} AtomPhrase(cal: Calendar, s: string) returns (p: Phrase)
    requires Atom(cal, s).Match?
    ensures var a := Atom(cal, s);
      Fits(p, NotOperand) && Means(p) == a.value && s == Write(p) + a.rest && Reads(cal, p, a.rest)
    decreases |s|, 0
  {
    if Condition(cal, s).Match? {
      p := LeafPhrase(cal, s);
    } else {
      var r := OrLevel(cal, s[1..]).rest;
      var x, pad := OrPhrase(cal, s[1..]);
      p := Parens(x, pad);
      assert r == ")" + r[1..] && s == "(" + s[1..];
      ParensWritten(x, pad, r[1..]);
      assert s[1..] == Write(x) + (Spaces(pad) + (")" + r[1..]));
    }
  }

  lemma {:induction false} UnitPhrase(cal: Calendar, s: string) returns (p: Phrase, n: nat)
    requires NotLevel(cal, s).Match?
    ensures var a := NotLevel(cal, s);
      && Fits(p, NotOperand) && Means(p) == a.value && NoSpace(a.rest)
      && s == Write(p) + (Spaces(n) + a.rest) && Reads(cal, p, Spaces(n) + a.rest)
    decreases |s|, 1
  {
    match Lead("not", s) {
      case Some(r) =>
        var gap := LeadIs("not", s);
        var x;
        x, n := UnitPhrase(cal, r);
        p := NotText(gap, x);
        assert s == "not" + Spaces(gap) + Write(x) + (Spaces(n) + NotLevel(cal, s).rest);
      case None =>
        p := AtomPhrase(cal, s);
        n := SkipIs(Atom(cal, s).rest);
    }
  }

  lemma {:induction false} AndPhrase(cal: Calendar, s: string) returns (p: Phrase, n: nat)
    requires AndLevel(cal, s).Match?
    ensures var a := AndLevel(cal, s);
      && Fits(p, AndOperand) && Means(p) == a.value && NoSpace(a.rest)
      && s == Write(p) + (Spaces(n) + a.rest) && Reads(cal, p, Spaces(n) + a.rest)
    decreases |s|, 2
  {
    p, n := UnitPhrase(cal, s);
    p, n := AndRestPhrase(cal, s, p, n, NotLevel(cal, s).rest);
  }

  /** Two operands and what is between them, put back together. */
  lemma {:induction false} Joined(left: string, n: nat, word: string, gap: nat, right: string, m: nat, rest: string)
    ensures var tail := Spaces(n) + (word + Spaces(gap) + (right + (Spaces(m) + rest)));
      && left + tail == left + (Spaces(n) + (word + Spaces(gap) + right)) + (Spaces(m) + rest)
      && tail == Spaces(n) + (word + Spaces(gap) + right) + (Spaces(m) + rest)
  {
  }

  lemma {:induction false} AndRestPhrase(cal: Calendar, s: string, left: Phrase, n: nat, r: string)
    returns (p: Phrase, m: nat)
    requires Fits(left, AndOperand) && NoSpace(r) && |r| <= |s|
    requires s == Write(left) + (Spaces(n) + r) && Reads(cal, left, Spaces(n) + r)
    requires Write(left) != ""
    ensures var a := AndRest(cal, Means(left), r);
      && Fits(p, AndOperand) && Means(p) == a.value && NoSpace(a.rest) && Write(p) != ""
      && s == Write(p) + (Spaces(m) + a.rest) && Reads(cal, p, Spaces(m) + a.rest)
    decreases |r|, 2
  {
    p, m := left, n;
    if Lead("and", r).Some? && NotLevel(cal, Lead("and", r).value).Match? {
      var body := Lead("and", r).value;
      var gap := LeadIs("and", r);
      var right, k := UnitPhrase(cal, body);
      var rest := NotLevel(cal, body).rest;
      Joined(Write(left), n, "and", gap, Write(right), k, rest);
      p, m := AndRestPhrase(cal, s, AndText(left, n, gap, right), k, rest);
    }
  }

  lemma {:induction false} OrPhrase(cal: Calendar, s: string) returns (p: Phrase, n: nat)
    requires OrLevel(cal, s).Match?
    ensures var a := OrLevel(cal, s);
      && Fits(p, OrOperand) && Means(p) == a.value && NoSpace(a.rest)
      && s == Write(p) + (Spaces(n) + a.rest) && Reads(cal, p, Spaces(n) + a.rest)
    decreases |s|, 3
  {
    p, n := AndPhrase(cal, s);
    p, n := OrRestPhrase(cal, s, p, n, AndLevel(cal, s).rest);
  }

  lemma {:induction false} OrRestPhrase(cal: Calendar, s: string, left: Phrase, n: nat, r: string)
    returns (p: Phrase, m: nat)
    requires Fits(left, OrOperand) && NoSpace(r) && |r| <= |s|
    requires s == Write(left) + (Spaces(n) + r) && Reads(cal, left, Spaces(n) + r)
    requires Write(left) != ""
    ensures var a := OrRest(cal, Means(left), r);
      && Fits(p, OrOperand) && Means(p) == a.value && NoSpace(a.rest) && Write(p) != ""
      && s == Write(p) + (Spaces(m) + a.rest) && Reads(cal, p, Spaces(m) + a.rest)
    decreases |r|, 3
  {
    p, m := left, n;
    if Lead("or", r).Some? && AndLevel(cal, Lead("or", r).value).Match? {
      var body := Lead("or", r).value;
      var gap := LeadIs("or", r);
      var right, k := AndPhrase(cal, body);
      var rest := AndLevel(cal, body).rest;
      Joined(Write(left), n, "or", gap, Write(right), k, rest);
      p, m := OrRestPhrase(cal, s, OrText(left, n, gap, right), k, rest);
    }
  }

  /** The text spells the filter: some phrase with that meaning is written so, with spaces behind it or not. */
  ghost predicate Spells(cal: Calendar, s: string, q: Filter) {
    exists p: Phrase, n: nat ::
      s == Write(p) + Spaces(n) && Means(p) == q && Fits(p, OrOperand) && Reads(cal, p, Spaces(n))
  }

  /** The parser accepts exactly the spellings of a filter, and gives back that filter. */
  lemma {:induction false} ParsesIff(cal: Calendar, s: string, q: Filter)
    ensures Parse(cal, s) == Some(q) <==> Spells(cal, s, q)
  {
    if Parse(cal, s) == Some(q) {
      var p, n := OrPhrase(cal, s);
      assert Spaces(n) + "" == Spaces(n);
      assert s == Write(p) + Spaces(n);
    }
    if Spells(cal, s, q) {
      var p: Phrase, n: nat :|
        s == Write(p) + Spaces(n) && Means(p) == q && Fits(p, OrOperand) && Reads(cal, p, Spaces(n));
      PhraseIsRead(cal, p, n);
    }
  }

  // ----- the texts of leaves

  /** Backslash and quote are escaped between quotes, backslash, space and parentheses outside of them. */
  lemma {:induction false} EscapedChars(c: char)
    ensures QuoteEscapable(c) <==> c in {'\\', '"'}
    ensures Escapable(c) <==> c in {'\\', ' ', '(', ')'}
  {
  }

  /** Outside of quotes, those four are written after a backslash and every other character as it is. */
  lemma {:induction false} EscapeIs(c: char, text: string)
    ensures Escape([c] + text) == (if c in {'\\', ' ', '(', ')'} then ['\\', c] else [c]) + Escape(text)
    ensures Escape("") == ""
  {
    EscapedChars(c);
    assert ([c] + text)[1..] == text;
  }

  /** The keywords, before a text without special characters. */
  lemma {:induction false} ConditionsAreRead(cal: Calendar, text: string, gap: nat, n: nat)
    requires Plain(text) && gap > 0
    ensures var tail := Spaces(gap) + text + Spaces(n);
      && Parse(cal, "from" + tail) == Some(From(text))
      && Parse(cal, "to" + tail) == Some(To(text))
      && Parse(cal, "subject" + tail) == Some(Subject(text))
      && Parse(cal, "body" + tail) == Some(Body(text))
      && Parse(cal, "flag" + tail) == Some(HasFlag(FromRaw(text)))
  {
    PlainLeafIsRead(cal, From(text), text, gap, n);
    PlainLeafIsRead(cal, To(text), text, gap, n);
    PlainLeafIsRead(cal, Subject(text), text, gap, n);
    PlainLeafIsRead(cal, Body(text), text, gap, n);
    PlainLeafIsRead(cal, HasFlag(FromRaw(text)), text, gap, n);
  }

  ghost predicate PlainLeaf(leaf: Filter, text: string) {
    Plain(text) && ((IsText(leaf) && leaf.pattern == text) || leaf == HasFlag(FromRaw(text)))
  }

  lemma {:induction false} PlainBody(cal: Calendar, leaf: Filter, text: string, rest: string)
    requires PlainLeaf(leaf, text) && Stops(rest)
    ensures ReadBody(cal, leaf, text + rest) == Match(leaf, rest)
  {
    EscapePlain(text);
    UnquotedReadsEscape(text, rest);
    assert Pattern(text + rest) == Match(text, rest);
  }

  lemma {:induction false} Grouped(a: string, b: string, c: string, d: string)
    ensures a + b + c + d == a + (b + c + d)
  {
  }

  lemma {:induction false} PlainLeafIsRead(cal: Calendar, leaf: Filter, text: string, gap: nat, n: nat)
    requires PlainLeaf(leaf, text) && gap > 0
    ensures Parse(cal, LeafWord(leaf) + (Spaces(gap) + text + Spaces(n))) == Some(leaf)
  {
    PlainBody(cal, leaf, text, Spaces(n));
    var p := LeafText(leaf, gap, text);
    assert text[0] != ' ';
    assert Reads(cal, p, Spaces(n));
    PhraseIsRead(cal, p, n);
    Grouped(LeafWord(leaf), Spaces(gap), text, Spaces(n));
  }

  /** Characters other than a backslash or a quote, or one of those after a backslash. */
  predicate QuotedUnits(s: string) {
    || s == ""
    || (s[0] !in {'\\', '"'} && QuotedUnits(s[1..]))
    || (|s| >= 2 && s[0] == '\\' && s[1] in {'\\', '"'} && QuotedUnits(s[2..]))
  }

  /** A complete quoted literal is two quotes around such characters. */
  lemma {:induction false} QuotedIs(text: string)
    ensures IsQuotedLiteral(text) <==>
      |text| >= 2 && text[0] == '"' && text[|text| - 1] == '"' && QuotedUnits(text[1..|text| - 1])
  {
    if text != "" && text[0] == '"' {
      var body := text[1..];
      CloseQuoteIs(body);
      if |text| >= 2 {
        assert body[..|body| - 1] == text[1..|text| - 1];
      }
      if CloseQuote(body) == Some(|body|) {
        assert text[..|body| + 1] == text && text[|body| + 1..] == "";
      }
    }
  }

  lemma {:induction false} CloseQuoteIs(s: string)
    ensures CloseQuote(s) == Some(|s|) <==> s != "" && s[|s| - 1] == '"' && QuotedUnits(s[..|s| - 1])
  {
    if s == "" || s[0] == '"' {
      if |s| > 1 {
        assert s[..|s| - 1][0] == '"';
      }
    } else if s[0] == '\\' {
      if |s| > 2 && QuoteEscapable(s[1]) {
        CloseQuoteIs(s[2..]);
        assert s[2..][..|s| - 3] == s[..|s| - 1][2..];
      } else if |s| == 2 {
        assert s[..1] == "\\";
      }
    } else {
      CloseQuoteIs(s[1..]);
      if |s| > 1 {
        assert s[1..][..|s| - 2] == s[..|s| - 1][1..];
      }
    }
  }

  /** A day may be written in any of four formats; the first that fits, in this order, counts. */
  lemma {:induction false} DayIs(cal: Calendar, text: string, rest: string)
    requires Plain(text) && Stops(rest)
    ensures Day(cal, text + rest) ==
      if cal.parse(text, YearMonthDayDash).Some? then Match(cal.parse(text, YearMonthDayDash).value, rest)
      else if cal.parse(text, YearMonthDaySlash).Some? then Match(cal.parse(text, YearMonthDaySlash).value, rest)
      else if cal.parse(text, DayMonthYearDash).Some? then Match(cal.parse(text, DayMonthYearDash).value, rest)
      else if cal.parse(text, DayMonthYearSlash).Some? then Match(cal.parse(text, DayMonthYearSlash).value, rest)
      else NoMatch
  {
    EscapePlain(text);
    UnquotedReadsEscape(text, rest);
  }

  /** So a day in any documented format, in any other, equal spelling of the same filter, is read the same. */
  lemma {:induction false} DateFormatsAreRead(
    cal: Calendar, text: string, day: int, format: DateFormat, gap: nat, n: nat)
    requires Plain(text) && gap > 0 && cal.parse(text, format) == Some(day)
    requires forall other | cal.parse(text, other).Some? :: other == format
    ensures Parse(cal, "date" + Spaces(gap) + text + Spaces(n)) == Some(Date(day))
    ensures Parse(cal, "after" + Spaces(gap) + text + Spaces(n)) == Some(AfterDate(day))
  {
    DayIs(cal, text, Spaces(n));
    EscapePlain(text);
    var p, q := LeafText(Date(day), gap, text), LeafText(AfterDate(day), gap, text);
    assert text[0] != ' ';
    assert Reads(cal, p, Spaces(n)) && Reads(cal, q, Spaces(n));
    PhraseIsRead(cal, p, n);
    PhraseIsRead(cal, q, n);
  }
}
