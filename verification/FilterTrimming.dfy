/** Printed filters with trailing whitespace cut off, as trimming does before parsing: they never parse back. */
module FilterTrimming {
  import opened SearchQuery
  import opened FilterParser
  import opened FilterPrinter
  import opened FilterRoundTrip

  /** `t` is `s` without some of its trailing whitespace. */
  ghost predicate Cut(s: string, t: string) {
    t != "" && t < s && forall i | |t| <= i < |s| :: IsWhitespace(s[i])
  }

  /** What was cut was cut from the second part, if that starts with something visible. */
  lemma {:induction false} CutTail(a: string, b: string, t: string)
    requires Cut(a + b, t) && b != "" && !IsWhitespace(b[0])
    ensures |a| < |t| && t == a + t[|a|..] && Cut(b, t[|a|..])
  {
    assert (a + b)[|a|] == b[0];
    forall i | |t| - |a| <= i < |b| ensures IsWhitespace(b[i]) {
      assert (a + b)[|a| + i] == b[i];
    }
    assert (a + b)[|a|..] == b;
  }

  lemma {:induction false} LastIsWhitespace(s: string, t: string)
    requires Cut(s, t)
    ensures IsWhitespace(s[|s| - 1])
  {
  }

  // ----- one leaf

  /** Reading an unquoted text takes at least its escaped length. */
  lemma {:induction false} UnquotedSpends(s: string)
    ensures |Escape(UnquotedChars(s).0)| <= |s|
  {
    if s != "" {
      if s[0] == '\\' {
        if |s| > 1 && Escapable(s[1]) {
          UnquotedSpends(s[2..]);
          assert ([s[1]] + UnquotedChars(s[2..]).0)[1..] == UnquotedChars(s[2..]).0;
        }
      } else if !Escapable(s[0]) {
        UnquotedSpends(s[1..]);
        assert ([s[0]] + UnquotedChars(s[1..]).0)[1..] == UnquotedChars(s[1..]).0;
      }
    }
  }

  lemma {:induction false} CloseQuoteIsQuote(s: string)
    requires CloseQuote(s).Some?
    ensures s[CloseQuote(s).value - 1] == '"'
  {
    if s[0] == '"' {
    } else if s[0] == '\\' {
      CloseQuoteIsQuote(s[2..]);
    } else {
      CloseQuoteIsQuote(s[1..]);
    }
  }

  lemma {:induction false} LiteralEndsInQuote(text: string)
    requires IsQuotedLiteral(text)
    ensures text != "" && text[|text| - 1] == '"'
  {
    CloseQuoteIsQuote(text[1..]);
    var n := CloseQuote(text[1..]).value;
    assert text[..n + 1] == text;
  }

  /** A shorter text is not read as the whole one. */
  lemma {:induction false} ShorterReadsOtherwise(text: string, b: string)
    requires !IsQuotedLiteral(text) && |b| < |Escape(text)|
    ensures Pattern(b).Match? ==> Pattern(b).value != text
    ensures Unquoted(b).Match? ==> Unquoted(b).value != text
  {
    UnquotedSpends(b);
    if Quoted(b).Match? {
      QuotedGivesLiteral(b);
    }
  }

  lemma {:induction false} VisibleEnd(cal: Calendar, q: Filter)
    requires LawfulCalendar(cal) && IsLeaf(q) && DaysValid(cal, q)
    requires q.Date? || q.AfterDate? || (IsText(q) && IsQuotedLiteral(q.pattern))
    ensures !IsWhitespace(ShowLeaf(cal, q)[|ShowLeaf(cal, q)| - 1])
  {
    assert q in Leaves(q);
    if IsText(q) {
      LiteralEndsInQuote(q.pattern);
    }
  }

  /** Only whitespace of an escaped text can have been cut off a leaf. */
  lemma {:induction false} CutBody(cal: Calendar, q: Filter, b: string)
    requires IsLeaf(q) && (IsText(q) || q.HasFlag?) && (IsText(q) ==> !IsQuotedLiteral(q.pattern))
    requires |b| < |LeafBody(cal, q)|
    ensures ReadBody(cal, q, b).Match? ==> ReadBody(cal, q, b).value != q
  {
    match q {
      case From(p) => ShorterReadsOtherwise(p, b);
      case To(p) => ShorterReadsOtherwise(p, b);
      case Subject(p) => ShorterReadsOtherwise(p, b);
      case Body(p) => ShorterReadsOtherwise(p, b);
      case HasFlag(f) => UnquotedSpends(b);
    }
  }

  /** A keyword with nothing after it is no condition. */
  lemma {:induction false} BareWord(cal: Calendar, q: Filter)
    requires IsLeaf(q)
    ensures Condition(cal, LeafWord(q)).NoMatch?
  {
    var s := LeafWord(q);
    forall k: nat | k < 7 ensures Lead(AlternativeWord(k), s).None? {
      if s[0] != AlternativeWord(k)[0] {
        LeadRejects(AlternativeWord(k), s);
      }
    }
    NoWordNoCondition(cal, s);
  }

  /** Text that starts with a condition's keyword but holds no condition holds no leaf at all. */
  lemma {:induction false} NoConditionNoLeaf(cal: Calendar, q: Filter, s: string)
    requires IsLeaf(q) && LeafWord(q) <= s && Condition(cal, s).NoMatch?
    ensures Scan(cal, s) == []
  {
    assert s[0] == LeafWord(q)[0] && s[1] == LeafWord(q)[1];
    LeadRejects("not", s);
    LeadRejects("or", s);
    AfterIsNotAnd(s);
  }

  lemma {:induction false} ScanLeafCut(cal: Calendar, q: Filter, t: string)
    requires LawfulCalendar(cal) && IsLeaf(q) && DaysValid(cal, q) && Cut(ShowLeaf(cal, q), t)
    ensures !([q] <= Scan(cal, t))
  {
    var w, body := LeafWord(q), LeafBody(cal, q);
    LastIsWhitespace(ShowLeaf(cal, q), t);
    if q.Date? || q.AfterDate? || (IsText(q) && IsQuotedLiteral(q.pattern)) {
      VisibleEnd(cal, q);
    } else {
      ShowLeafSplits(cal, q, "");
      assert ShowLeaf(cal, q) == w + (" " + body);
      WordStays(q, " " + body, t);
      if t == w {
        BareWord(cal, q);
        NoConditionNoLeaf(cal, q, t);
      } else {
        var b := t[|w| + 1..];
        assert t == w + " " + b && |b| < |body|;
        ConditionReads(cal, q, b);
        CutBody(cal, q, SkipSpaces(b));
        if Condition(cal, t).NoMatch? {
          NoConditionNoLeaf(cal, q, t);
        } else {
          assert Scan(cal, t)[0] == Condition(cal, t).value;
        }
      }
    }
  }

  /** A keyword is never cut. */
  lemma {:induction false} WordStays(q: Filter, rest: string, t: string)
    requires IsLeaf(q) && Cut(LeafWord(q) + rest, t)
    ensures LeafWord(q) <= t
  {
    var w := LeafWord(q);
    assert (w + rest)[|w| - 1] == w[|w| - 1];
    assert !IsWhitespace(w[|w| - 1]);
  }

  // ----- whole filters

  lemma {:induction false} ClosedIsNotCut(cal: Calendar, q: Filter, level: Level, t: string)
    requires Cut(Show(cal, q, level), t)
    ensures !Parenthesised(q, level)
  {
    LastIsWhitespace(Show(cal, q, level), t);
  }

  /** However it is cut, the printed filter no longer holds its leaves. */
  lemma {:induction false} ScanCut(cal: Calendar, q: Filter, level: Level, t: string)
    requires LawfulCalendar(cal) && DaysValid(cal, q) && Cut(Show(cal, q, level), t)
    ensures !(Leaves(q) <= Scan(cal, t))
    decreases q
  {
    ClosedIsNotCut(cal, q, level, t);
    if q.And? || q.Or? {
      ScanPairCut(cal, q, level, t);
    } else if q.Not? {
      NotUnfolds(cal, q.inner, level, "");
      ShowStarts(cal, q.inner, NotOperand);
      CutTail("not ", Show(cal, q.inner, NotOperand), t);
      var rest := t[4..];
      OwnWordLeads("not", rest);
      assert t == "not" + " " + rest && SkipSpaces(rest) == rest;
      ScanLead(cal, "not", t);
      assert Leaves(q.inner) == Leaves(q);
      ScanCut(cal, q.inner, NotOperand, rest);
    } else {
      LeafUnfolds(cal, q, level, "");
      ScanLeafCut(cal, q, t);
    }
  }

  lemma {:induction false} ScanPairCut(cal: Calendar, q: Filter, level: Level, t: string)
    requires (q.And? || q.Or?) && !Parenthesised(q, level)
    requires LawfulCalendar(cal) && DaysValid(cal, q) && Cut(Show(cal, q, level), t)
    ensures !(Leaves(q) <= Scan(cal, t))
    decreases q, 0
  {
    var word, left, right := OperatorWord(q), Show(cal, q.left, LeftLevel(q)), Show(cal, q.right, RightLevel(q));
    LeavesOfOperands(cal, q);
    PairUnfolds(cal, q, level, "");
    ShowStarts(cal, q.right, RightLevel(q));
    assert Show(cal, q, level) + "" == Show(cal, q, level) && right + "" == right;
    assert left + (Infix(word) + right) == (left + Infix(word)) + right;
    CutTail(left + Infix(word), right, t);
    var rest := t[|left + Infix(word)|..];
    assert t == left + (Infix(word) + rest);
    ScanInfixText(cal, word, rest);
    if Leaves(q) <= Scan(cal, t) {
      assert Leaves(q) == Leaves(q.left) + Leaves(q.right);
      PrefixOfSum(Leaves(q.left), Leaves(q.right), Scan(cal, t));
      ScanShowOnlyIf(cal, q.left, LeftLevel(q), Infix(word) + rest);
      ScanShow(cal, q.left, LeftLevel(q), Infix(word) + rest);
      CancelPrefix(Leaves(q.left), Leaves(q.right), Scan(cal, rest));
      ScanCut(cal, q.right, RightLevel(q), rest);
    }
  }

  lemma {:induction false} ScanInfixText(cal: Calendar, word: string, rest: string)
    requires word == "and" || word == "or"
    requires rest != "" && rest[0] != ' '
    ensures Scan(cal, Infix(word) + rest) == Scan(cal, rest)
  {
    var s := Infix(word) + rest;
    assert s[1..] == word + " " + rest;
    ScanSkips(cal, s);
    OwnWordLeads(word, rest);
    ScanLead(cal, word, word + " " + rest);
  }
}
