/** Writes a filter with only the parentheses its precedence needs, and proves the parser reads it back. */
module FilterPrinter {
  import opened Wrappers
  import opened Flags
  import opened SearchQuery
  import opened FilterParser

  // ----- the printer

  function Escape(text: string): string {
    if text == "" then ""
    else if Escapable(text[0]) then ['\\', text[0]] + Escape(text[1..])
    else [text[0]] + Escape(text[1..])
  }

  predicate IsQuotedLiteral(text: string) {
    Quoted(text) == Match(text, "")
  }

  /** A complete quoted literal is written as it is, any other text with its special characters escaped. */
  function ShowText(text: string): string {
    if IsQuotedLiteral(text) then text else Escape(text)
  }

  function ShowLeaf(cal: Calendar, q: Filter): string
    requires IsLeaf(q)
  {
    match q
    case Date(d) => "date " + cal.show(d)
    case AfterDate(d) => "after " + cal.show(d)
    case From(t) => "from " + ShowText(t)
    case To(t) => "to " + ShowText(t)
    case Subject(t) => "subject " + ShowText(t)
    case Body(t) => "body " + ShowText(t)
    case HasFlag(f) => "flag " + Escape(f.raw)
  }

  datatype Level = OrOperand | AndOperand | NotOperand

  /** Whether `q` needs parentheses where an operand of that level is expected. */
  predicate Parenthesised(q: Filter, level: Level) {
    (q.Or? && level != OrOperand) || (q.And? && level == NotOperand)
  }

  function Show(cal: Calendar, q: Filter, level: Level): string
    decreases q, 1
  {
    if Parenthesised(q, level) then "(" + ShowBare(cal, q) + ")" else ShowBare(cal, q)
  }

  function ShowBare(cal: Calendar, q: Filter): string
    decreases q, 0
  {
    match q
    case Or(l, r) => Show(cal, l, OrOperand) + " or " + Show(cal, r, AndOperand)
    case And(l, r) => Show(cal, l, AndOperand) + " and " + Show(cal, r, NotOperand)
    case Not(x) => "not " + Show(cal, x, NotOperand)
    case _ => ShowLeaf(cal, q)
  }

  // ----- what can be written

  /** Unicode `White_Space`. */
  predicate IsWhitespace(c: char) {
    var n := c as int;
    || 9 <= n <= 13 || n == 0x20 || n == 0x85 || n == 0xA0 || n == 0x1680
    || 0x2000 <= n <= 0x200A || n == 0x2028 || n == 0x2029 || n == 0x202F || n == 0x205F || n == 0x3000
  }

  ghost predicate Plain(s: string) {
    s != "" && s[0] != '"' && forall i | 0 <= i < |s| :: !Escapable(s[i]) && !IsWhitespace(s[i])
  }

  /** The library reads back what it writes, and writes no special character and no whitespace. */
  ghost predicate LawfulCalendar(cal: Calendar) {
    forall d | cal.valid(d) :: Plain(cal.show(d)) && cal.parse(cal.show(d), YearMonthDayDash) == Some(d)
  }

  ghost predicate DaysValid(cal: Calendar, q: Filter) {
    forall leaf | leaf in Leaves(q) ::
      (leaf.Date? ==> cal.valid(leaf.day)) && (leaf.AfterDate? ==> cal.valid(leaf.day))
  }

  /** A text reads back before `rest`: a quoted literal always, another one when no closing quote turns up. */
  predicate TextOk(text: string, rest: string) {
    IsQuotedLiteral(text) || (text != "" && Quoted(Escape(text) + rest).NoMatch?)
  }

  predicate LeafOk(q: Filter, rest: string)
    requires IsLeaf(q)
  {
    match q
    case Date(_) => true
    case AfterDate(_) => true
    case From(t) => TextOk(t, rest)
    case To(t) => TextOk(t, rest)
    case Subject(t) => TextOk(t, rest)
    case Body(t) => TextOk(t, rest)
    case HasFlag(f) => f.raw != "" && f == FromRaw(f.raw)
  }

  /** Every leaf of `q`, written where the printer puts it and followed by `rest`, reads back. */
  predicate Printable(cal: Calendar, q: Filter, level: Level, rest: string)
    decreases q, 1
  {
    if Parenthesised(q, level) then PrintableBare(cal, q, ")" + rest) else PrintableBare(cal, q, rest)
  }

  predicate PrintableBare(cal: Calendar, q: Filter, rest: string)
    decreases q, 0
  {
    match q
    case Or(l, r) =>
      && Printable(cal, l, OrOperand, " or " + Show(cal, r, AndOperand) + rest)
      && Printable(cal, r, AndOperand, rest)
    case And(l, r) =>
      && Printable(cal, l, AndOperand, " and " + Show(cal, r, NotOperand) + rest)
      && Printable(cal, r, NotOperand, rest)
    case Not(x) => Printable(cal, x, NotOperand, rest)
    case _ => LeafOk(q, rest)
  }

  // ----- texts

  /** An unquoted text ends here. */
  predicate Stops(rest: string) {
    rest == "" || rest[0] == ' ' || rest[0] == ')'
  }

  lemma {:induction false} UnquotedReadsEscape(text: string, rest: string)
    requires Stops(rest)
    ensures UnquotedChars(Escape(text) + rest) == (text, rest)
  {
    var s := Escape(text) + rest;
    if text == "" {
      assert s == rest;
    } else {
      UnquotedReadsEscape(text[1..], rest);
      if Escapable(text[0]) {
        assert s[0] == '\\' && s[1] == text[0] && s[2..] == Escape(text[1..]) + rest;
      } else {
        assert s[0] == text[0] && s[1..] == Escape(text[1..]) + rest;
      }
      assert [text[0]] + text[1..] == text;
    }
  }

  lemma {:induction false} CloseQuoteLocal(s: string, more: string)
    requires CloseQuote(s).Some?
    ensures CloseQuote(s + more) == CloseQuote(s)
  {
    if s[0] == '"' {
    } else if s[0] == '\\' {
      assert (s + more)[2..] == s[2..] + more;
      CloseQuoteLocal(s[2..], more);
    } else {
      assert (s + more)[1..] == s[1..] + more;
      CloseQuoteLocal(s[1..], more);
    }
  }

  lemma {:induction false} QuotedLocal(s: string, more: string)
    requires Quoted(s).Match?
    ensures Quoted(s + more) == Match(Quoted(s).value, Quoted(s).rest + more)
  {
    CloseQuoteLocal(s[1..], more);
    assert (s + more)[1..] == s[1..] + more;
    var n := CloseQuote(s[1..]).value;
    assert (s + more)[..n + 1] == s[..n + 1];
    assert (s + more)[n + 1..] == s[n + 1..] + more;
  }

  lemma {:induction false} CloseQuoteExact(s: string)
    requires CloseQuote(s).Some?
    ensures CloseQuote(s[..CloseQuote(s).value]) == CloseQuote(s)
  {
    var n := CloseQuote(s).value;
    if s[0] == '"' {
    } else if s[0] == '\\' {
      assert s[..n][2..] == s[2..][..n - 2];
      CloseQuoteExact(s[2..]);
    } else {
      assert s[..n][1..] == s[1..][..n - 1];
      CloseQuoteExact(s[1..]);
    }
  }

  /** What the quoted alternative returns is itself a complete quoted literal. */
  lemma {:induction false} QuotedGivesLiteral(s: string)
    requires Quoted(s).Match?
    ensures IsQuotedLiteral(Quoted(s).value)
  {
    var n := CloseQuote(s[1..]).value;
    CloseQuoteExact(s[1..]);
    var t := s[..n + 1];
    assert t[1..] == s[1..][..n];
    assert t[..n + 1] == t && t[n + 1..] == "";
  }

  /** `Pattern` reads a text back exactly when it is `TextOk`. */
  lemma {:induction false} PatternReadsIff(text: string, rest: string)
    requires Stops(rest)
    ensures TextOk(text, rest) ==> Pattern(ShowText(text) + rest) == Match(text, rest)
    ensures !TextOk(text, rest) && text != "" ==>
      Pattern(ShowText(text) + rest).Match? && Pattern(ShowText(text) + rest).value != text
  {
    if IsQuotedLiteral(text) {
      QuotedLocal(text, rest);
      assert "" + rest == rest;
    } else {
      UnquotedReadsEscape(text, rest);
      if Quoted(Escape(text) + rest).Match? {
        QuotedGivesLiteral(Escape(text) + rest);
      }
    }
  }

  lemma {:induction false} EscapePlain(s: string)
    requires forall i | 0 <= i < |s| :: !Escapable(s[i])
    ensures Escape(s) == s
  {
    if s != "" {
      EscapePlain(s[1..]);
      assert [s[0]] + s[1..] == s;
    }
  }

  lemma {:induction false} DayReads(cal: Calendar, d: int, rest: string)
    requires LawfulCalendar(cal) && cal.valid(d) && Stops(rest)
    ensures Day(cal, cal.show(d) + rest) == Match(d, rest)
  {
    var text := cal.show(d);
    EscapePlain(text);
    UnquotedReadsEscape(text, rest);
  }

  // ----- leaves

  lemma {:induction false} LeadRejects(word: string, s: string)
    requires word != "" && (s == "" || s[0] != word[0])
    ensures Lead(word, s).None? && Word(word, s).None?
  {
    if |word| <= |s| {
      assert s[..|word|][0] == s[0];
    }
  }

  /** `from` and `flag` share their first letter only. */
  lemma {:induction false} FromIsNotFlag(s: string)
    requires |s| >= 2
    ensures s[1] != 'l' ==> Lead("flag", s).None?
    ensures s[1] != 'r' ==> Lead("from", s).None?
  {
    if |s| >= 4 {
      assert s[..4][1] == s[1];
    }
  }

  /** The keyword that introduces a leaf. */
  function LeafWord(q: Filter): string
    requires IsLeaf(q)
  {
    match q
    case Date(_) => "date"
    case AfterDate(_) => "after"
    case From(_) => "from"
    case To(_) => "to"
    case Subject(_) => "subject"
    case Body(_) => "body"
    case HasFlag(_) => "flag"
  }

  function LeafBody(cal: Calendar, q: Filter): string
    requires IsLeaf(q)
  {
    match q
    case Date(d) => cal.show(d)
    case AfterDate(d) => cal.show(d)
    case From(t) => ShowText(t)
    case To(t) => ShowText(t)
    case Subject(t) => ShowText(t)
    case Body(t) => ShowText(t)
    case HasFlag(f) => Escape(f.raw)
  }

  lemma {:induction false} ShowLeafSplits(cal: Calendar, q: Filter, rest: string)
    requires IsLeaf(q)
    ensures ShowLeaf(cal, q) + rest == LeafWord(q) + " " + (LeafBody(cal, q) + rest)
  {
    assert ShowLeaf(cal, q) == LeafWord(q) + " " + LeafBody(cal, q);
  }

  /** What one kind of leaf is read as after its keyword. */
  function ReadBody(cal: Calendar, q: Filter, s: string): Parsed<Filter>
    requires IsLeaf(q)
  {
    match q
    case Date(_) => (match Day(cal, s) case Match(d, r) => Match(Date(d), r) case NoMatch => NoMatch)
    case AfterDate(_) => (match Day(cal, s) case Match(d, r) => Match(AfterDate(d), r) case NoMatch => NoMatch)
    case From(_) => (match Pattern(s) case Match(t, r) => Match(From(t), r) case NoMatch => NoMatch)
    case To(_) => (match Pattern(s) case Match(t, r) => Match(To(t), r) case NoMatch => NoMatch)
    case Subject(_) => (match Pattern(s) case Match(t, r) => Match(Subject(t), r) case NoMatch => NoMatch)
    case Body(_) => (match Pattern(s) case Match(t, r) => Match(Body(t), r) case NoMatch => NoMatch)
    case HasFlag(_) => (match Unquoted(s) case Match(t, r) => Match(HasFlag(FromRaw(t)), r) case NoMatch => NoMatch)
  }

  function AlternativeWord(i: nat): string
    requires i < 7
  {
    ["date", "after", "from", "to", "subject", "body", "flag"][i]
  }

  function LeafIndex(q: Filter): (i: nat)
    requires IsLeaf(q)
    ensures i < 7 && AlternativeWord(i) == LeafWord(q)
  {
    match q
    case Date(_) => 0
    case AfterDate(_) => 1
    case From(_) => 2
    case To(_) => 3
    case Subject(_) => 4
    case Body(_) => 5
    case HasFlag(_) => 6
  }

  lemma {:induction false} AlternativeNeedsWord(cal: Calendar, i: nat, s: string)
    requires i < 7 && Lead(AlternativeWord(i), s).None?
    ensures Alternative(cal, i, s).NoMatch?
  {
  }

  /** Alternatives whose keyword does not start the text are passed over. */
  lemma {:induction false} FirstOfSkips(cal: Calendar, i: nat, j: nat, s: string)
    requires i <= j <= 7 && forall k: nat | i <= k < j :: Lead(AlternativeWord(k), s).None?
    ensures FirstOf(cal, i, s) == FirstOf(cal, j, s)
    decreases j - i
  {
    if i < j {
      AlternativeNeedsWord(cal, i, s);
      FirstOfSkips(cal, i + 1, j, s);
    }
  }

  lemma {:induction false} NoWordNoCondition(cal: Calendar, s: string)
    requires forall k: nat | k < 7 :: Lead(AlternativeWord(k), s).None?
    ensures Condition(cal, s).NoMatch?
  {
    FirstOfSkips(cal, 0, 7, s);
  }

  /** No other keyword starts the text. */
  lemma {:induction false} OtherWordsReject(q: Filter, s: string, k: nat)
    requires IsLeaf(q) && k < 7 && k != LeafIndex(q)
    ensures Lead(AlternativeWord(k), LeafWord(q) + " " + s).None?
  {
    var whole := LeafWord(q) + " " + s;
    assert whole[0] == LeafWord(q)[0] && whole[1] == LeafWord(q)[1];
    if whole[0] != AlternativeWord(k)[0] {
      LeadRejects(AlternativeWord(k), whole);
    } else {
      FromIsNotFlag(whole);
    }
  }

  lemma {:induction false} OwnWordLeads(word: string, s: string)
    ensures Lead(word, word + " " + s) == Some(SkipSpaces(s))
  {
    var whole := word + " " + s;
    assert whole[..|word|] == word && whole[|word|..] == " " + s;
    assert (" " + s)[1..] == s;
  }

  /** Only the alternative of the leaf's own keyword can match its text. */
  lemma {:induction false} ConditionReads(cal: Calendar, q: Filter, s: string)
    requires IsLeaf(q)
    ensures Condition(cal, LeafWord(q) + " " + s) == ReadBody(cal, q, SkipSpaces(s))
  {
    var whole, i := LeafWord(q) + " " + s, LeafIndex(q);
    forall k: nat | k < 7 && k != i ensures Lead(AlternativeWord(k), whole).None? {
      OtherWordsReject(q, s, k);
    }
    FirstOfSkips(cal, 0, i, whole);
    FirstOfSkips(cal, i + 1, 7, whole);
    OwnWordLeads(LeafWord(q), s);
    assert Alternative(cal, i, whole) == ReadBody(cal, q, SkipSpaces(s));
  }

  /** A leaf's body never starts with a space. */
  lemma {:induction false} EscapeStart(text: string)
    ensures Escape(text) != "" ==> Escape(text)[0] != ' '
    ensures Escape(text) == "" <==> text == ""
  {
  }

  lemma {:induction false} LeafReads(cal: Calendar, q: Filter, rest: string)
    requires LawfulCalendar(cal) && IsLeaf(q) && DaysValid(cal, q) && Stops(rest) && LeafOk(q, rest)
    ensures Condition(cal, ShowLeaf(cal, q) + rest) == Match(q, rest)
  {
    var s := LeafBody(cal, q) + rest;
    ShowLeafSplits(cal, q, rest);
    ConditionReads(cal, q, s);
    assert q in Leaves(q);
    match q {
      case Date(d) => DayReads(cal, d, rest);
      case AfterDate(d) => DayReads(cal, d, rest);
      case From(t) => TextStart(t); PatternReadsIff(t, rest);
      case To(t) => TextStart(t); PatternReadsIff(t, rest);
      case Subject(t) => TextStart(t); PatternReadsIff(t, rest);
      case Body(t) => TextStart(t); PatternReadsIff(t, rest);
      case HasFlag(f) => EscapeStart(f.raw); UnquotedReadsEscape(f.raw, rest);
    }
  }

  lemma {:induction false} TextStart(text: string)
    ensures text != "" ==> ShowText(text) != "" && ShowText(text)[0] != ' '
    ensures text == "" ==> ShowText(text) == ""
  {
    EscapeStart(text);
  }

  /** A leaf that is not `LeafOk` is never read back. */
  lemma {:induction false} LeafReadsOnlyIf(cal: Calendar, q: Filter, rest: string)
    requires IsLeaf(q) && Stops(rest)
    requires Condition(cal, ShowLeaf(cal, q) + rest).Match? && Condition(cal, ShowLeaf(cal, q) + rest).value == q
    ensures LeafOk(q, rest)
  {
    ShowLeafSplits(cal, q, rest);
    ConditionReads(cal, q, LeafBody(cal, q) + rest);
    match q {
      case Date(_) =>
      case AfterDate(_) =>
      case From(t) => TextStart(t); PatternReadsIff(t, rest);
      case To(t) => TextStart(t); PatternReadsIff(t, rest);
      case Subject(t) => TextStart(t); PatternReadsIff(t, rest);
      case Body(t) => TextStart(t); PatternReadsIff(t, rest);
      case HasFlag(f) => EscapeStart(f.raw); UnquotedReadsEscape(f.raw, rest);
    }
  }
}
