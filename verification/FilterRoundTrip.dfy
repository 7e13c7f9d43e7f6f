/** Parsing what the printer wrote: exactly when it gives the filter back. */
module FilterRoundTrip {
  import opened Wrappers
  import opened Flags
  import opened SearchQuery
  import opened FilterParser
  import opened FilterPrinter

  // ----- how printed text starts

  ghost predicate StartsLikeAFilter(s: string) {
    s != "" && s[0] in {'(', 'n', 'd', 'a', 'f', 't', 's', 'b'}
  }

  lemma {:induction false} ShowStarts(cal: Calendar, q: Filter, level: Level)
    ensures StartsLikeAFilter(Show(cal, q, level)) && StartsLikeAFilter(ShowBare(cal, q))
    decreases q
  {
    match q {
      case Or(l, _) => ShowStarts(cal, l, OrOperand);
      case And(l, _) => ShowStarts(cal, l, AndOperand);
      case _ =>
    }
  }

  function Infix(word: string): string {
    " " + word + " "
  }

  lemma {:induction false} Infixes()
    ensures Infix("and") == " and " && Infix("or") == " or "
  {
  }

  /** An operator between two operands is found after the spaces, and the second operand right after it. */
  lemma {:induction false} OperatorReads(cal: Calendar, word: string, q: Filter, level: Level, rest: string)
    requires word != "" && word[0] != ' '
    ensures var operand := Show(cal, q, level) + rest;
      && SkipSpaces(Infix(word) + operand) == word + " " + operand
      && Lead(word, word + " " + operand) == Some(operand)
      && Lead(word, SkipSpaces(Infix(word) + operand)) == Some(operand)
  {
    var operand := Show(cal, q, level) + rest;
    ShowStarts(cal, q, level);
    OwnWordLeads(word, operand);
    var s := Infix(word) + operand;
    assert s[1..] == word + " " + operand;
  }

  lemma {:induction false} NotRejects(s: string)
    requires s == "" || s[0] != 'n'
    ensures Lead("not", s).None?
  {
    LeadRejects("not", s);
  }

  // ----- the parser reads what the printer wrote

  /** After the operand neither more spaces nor another `and` belongs to it. */
  predicate NoAnd(rest: string) {
    Lead("and", SkipSpaces(rest)).None?
  }

  // One unfolding of the printer, and of what it takes to be printable.

  lemma {:induction false} NotUnfolds(cal: Calendar, x: Filter, level: Level, rest: string)
    ensures Show(cal, Not(x), level) == "not " + Show(cal, x, NotOperand)
    ensures Printable(cal, Not(x), level, rest) <==> Printable(cal, x, NotOperand, rest)
  {
    assert ShowBare(cal, Not(x)) == "not " + Show(cal, x, NotOperand);
    assert PrintableBare(cal, Not(x), rest) <==> Printable(cal, x, NotOperand, rest);
  }

  lemma {:induction false} LeafUnfolds(cal: Calendar, q: Filter, level: Level, rest: string)
    requires IsLeaf(q)
    ensures Show(cal, q, level) == ShowLeaf(cal, q)
    ensures Printable(cal, q, level, rest) <==> LeafOk(q, rest)
  {
    assert ShowBare(cal, q) == ShowLeaf(cal, q);
    assert PrintableBare(cal, q, rest) <==> LeafOk(q, rest);
  }

  lemma {:induction false} Reassociated(a: string, b: string, c: string, d: string)
    ensures a + b + c + d == a + (b + (c + d))
    ensures b + (c + d) == b + c + d
  {
  }

  lemma {:induction false} AndUnfolds(cal: Calendar, l: Filter, r: Filter, level: Level, rest: string)
    requires level != NotOperand
    ensures var tail := (" and ") + (Show(cal, r, NotOperand) + rest);
      && Show(cal, And(l, r), level) + rest == Show(cal, l, AndOperand) + tail
      && (Printable(cal, And(l, r), level, rest) <==>
            Printable(cal, l, AndOperand, tail) && Printable(cal, r, NotOperand, rest))
  {
    var tail := (" and ") + (Show(cal, r, NotOperand) + rest);
    assert ShowBare(cal, And(l, r)) == Show(cal, l, AndOperand) + " and " + Show(cal, r, NotOperand);
    Reassociated(Show(cal, l, AndOperand), " and ", Show(cal, r, NotOperand), rest);
    assert PrintableBare(cal, And(l, r), rest) <==>
      Printable(cal, l, AndOperand, tail) && Printable(cal, r, NotOperand, rest);
  }

  lemma {:induction false} OrUnfolds(cal: Calendar, l: Filter, r: Filter, rest: string)
    ensures var tail := (" or ") + (Show(cal, r, AndOperand) + rest);
      && Show(cal, Or(l, r), OrOperand) + rest == Show(cal, l, OrOperand) + tail
      && (Printable(cal, Or(l, r), OrOperand, rest) <==>
            Printable(cal, l, OrOperand, tail) && Printable(cal, r, AndOperand, rest))
  {
    var tail := (" or ") + (Show(cal, r, AndOperand) + rest);
    assert ShowBare(cal, Or(l, r)) == Show(cal, l, OrOperand) + " or " + Show(cal, r, AndOperand);
    Reassociated(Show(cal, l, OrOperand), " or ", Show(cal, r, AndOperand), rest);
    assert PrintableBare(cal, Or(l, r), rest) <==>
      Printable(cal, l, OrOperand, tail) && Printable(cal, r, AndOperand, rest);
  }

  function OperatorWord(q: Filter): string
    requires q.And? || q.Or?
  {
    if q.And? then "and" else "or"
  }

  function LeftLevel(q: Filter): Level {
    if q.And? then AndOperand else OrOperand
  }

  function RightLevel(q: Filter): Level {
    if q.And? then NotOperand else AndOperand
  }

  /** What follows the left operand. */
  function AfterLeft(cal: Calendar, q: Filter, rest: string): string
    requires q.And? || q.Or?
  {
    Infix(OperatorWord(q)) + (Show(cal, q.right, RightLevel(q)) + rest)
  }

  lemma {:induction false} PairUnfolds(cal: Calendar, q: Filter, level: Level, rest: string)
    requires (q.And? || q.Or?) && !Parenthesised(q, level)
    ensures Show(cal, q, level) + rest == Show(cal, q.left, LeftLevel(q)) + AfterLeft(cal, q, rest)
    ensures Printable(cal, q, level, rest) <==>
      Printable(cal, q.left, LeftLevel(q), AfterLeft(cal, q, rest)) && Printable(cal, q.right, RightLevel(q), rest)
  {
    Infixes();
    if q.And? {
      AndUnfolds(cal, q.left, q.right, level, rest);
    } else {
      OrUnfolds(cal, q.left, q.right, rest);
    }
  }

  lemma {:induction false} ParenthesesUnfold(cal: Calendar, q: Filter, level: Level, rest: string)
    requires Parenthesised(q, level)
    ensures Show(cal, q, level) + rest == "(" + (Show(cal, q, OrOperand) + (")" + rest))
    ensures Printable(cal, q, level, rest) <==> Printable(cal, q, OrOperand, ")" + rest)
  {
    assert Show(cal, q, OrOperand) == ShowBare(cal, q);
    assert Show(cal, q, level) == "(" + ShowBare(cal, q) + ")";
  }

  /** A leaf, a negation or a parenthesised filter. */
  lemma {:induction false} UnitReads(cal: Calendar, q: Filter, rest: string)
    requires LawfulCalendar(cal) && DaysValid(cal, q) && Stops(rest) && Printable(cal, q, NotOperand, rest)
    ensures NotLevel(cal, Show(cal, q, NotOperand) + rest) == Match(q, SkipSpaces(rest))
    decreases q, 3
  {
    if q.And? || q.Or? {
      ParenthesesUnfold(cal, q, NotOperand, rest);
      LeadRejects("and", ")" + rest);
      LeadRejects("or", ")" + rest);
      OrReads(cal, q, ")" + rest);
      ParenthesesRead(cal, q, Show(cal, q, OrOperand) + (")" + rest), rest);
    } else {
      SimpleReads(cal, q, NotOperand, rest);
    }
  }

  /** A leaf or a negation, which never needs parentheses. */
  lemma {:induction false} SimpleReads(cal: Calendar, q: Filter, level: Level, rest: string)
    requires IsLeaf(q) || q.Not?
    requires LawfulCalendar(cal) && DaysValid(cal, q) && Stops(rest) && Printable(cal, q, level, rest)
    ensures NotLevel(cal, Show(cal, q, level) + rest) == Match(q, SkipSpaces(rest))
    decreases q, 0
  {
    if q.Not? {
      NegationReads(cal, q.inner, level, rest);
    } else {
      LeafUnfolds(cal, q, level, rest);
      LeafReads(cal, q, rest);
      ShowLeafSplits(cal, q, rest);
      NotRejects(Show(cal, q, level) + rest);
    }
  }

  lemma {:induction false} NegationReads(cal: Calendar, x: Filter, level: Level, rest: string)
    requires LawfulCalendar(cal) && DaysValid(cal, Not(x)) && Stops(rest) && Printable(cal, Not(x), level, rest)
    ensures NotLevel(cal, Show(cal, Not(x), level) + rest) == Match(Not(x), SkipSpaces(rest))
    decreases x, 4
  {
    var operand := Show(cal, x, NotOperand) + rest;
    NotUnfolds(cal, x, level, rest);
    ShowStarts(cal, x, NotOperand);
    OwnWordLeads("not", operand);
    assert Show(cal, Not(x), level) + rest == "not" + " " + operand;
    assert Leaves(x) == Leaves(Not(x));
    UnitReads(cal, x, rest);
  }

  lemma {:induction false} ParenthesesRead(cal: Calendar, q: Filter, inside: string, rest: string)
    requires OrLevel(cal, inside) == Match(q, ")" + rest)
    ensures NotLevel(cal, "(" + inside) == Match(q, SkipSpaces(rest))
  {
    var s := "(" + inside;
    assert s[1..] == inside && (")" + rest)[1..] == rest;
    NotRejects(s);
    ParenthesisIsNoCondition(cal, s);
  }

  lemma {:induction false} ParenthesisIsNoCondition(cal: Calendar, s: string)
    requires s != "" && s[0] in {'(', ')', ' '}
    ensures Condition(cal, s).NoMatch?
  {
    forall k: nat | k < 7 ensures Lead(AlternativeWord(k), s).None? {
      LeadRejects(AlternativeWord(k), s);
    }
    NoWordNoCondition(cal, s);
  }

  /** One turn of the `and` loop. */
  lemma {:induction false} AndTurn(cal: Calendar, l: Filter, r: Filter, s: string, operand: string, rest: string)
    requires Lead("and", s) == Some(operand) && NotLevel(cal, operand) == Match(r, rest)
    ensures AndRest(cal, l, s) == AndRest(cal, And(l, r), rest)
  {
  }

  /** One turn of the `or` loop. */
  lemma {:induction false} OrTurn(cal: Calendar, l: Filter, r: Filter, s: string, operand: string, rest: string)
    requires Lead("or", s) == Some(operand) && AndLevel(cal, operand) == Match(r, rest)
    ensures OrRest(cal, l, s) == OrRest(cal, Or(l, r), rest)
  {
  }

  lemma {:induction false} LeavesOfOperands(cal: Calendar, q: Filter)
    requires DaysValid(cal, q) && (q.And? || q.Or?)
    ensures DaysValid(cal, q.left) && DaysValid(cal, q.right)
  {
    forall leaf | leaf in Leaves(q.left) ensures leaf in Leaves(q) {}
    forall leaf | leaf in Leaves(q.right) ensures leaf in Leaves(q) {}
  }

  lemma {:induction false} AndReads(cal: Calendar, q: Filter, rest: string)
    requires LawfulCalendar(cal) && DaysValid(cal, q) && Stops(rest) && Printable(cal, q, AndOperand, rest)
    ensures AndLevel(cal, Show(cal, q, AndOperand) + rest) == AndRest(cal, q, SkipSpaces(rest))
    decreases q, 4
  {
    if q.And? {
      AndOfReads(cal, q.left, q.right, rest);
    } else {
      UnitReads(cal, q, rest);
    }
  }

  lemma {:induction false} AndOfReads(cal: Calendar, l: Filter, r: Filter, rest: string)
    requires LawfulCalendar(cal) && DaysValid(cal, And(l, r)) && Stops(rest)
    requires Printable(cal, And(l, r), AndOperand, rest)
    ensures AndLevel(cal, Show(cal, And(l, r), AndOperand) + rest) == AndRest(cal, And(l, r), SkipSpaces(rest))
    decreases And(l, r), 1
  {
    var operand := Show(cal, r, NotOperand) + rest;
    var tail := " and " + operand;
    AndUnfolds(cal, l, r, AndOperand, rest);
    LeavesOfOperands(cal, And(l, r));
    AndReads(cal, l, tail);
    Infixes();
    OperatorReads(cal, "and", r, NotOperand, rest);
    UnitReads(cal, r, rest);
    AndTurn(cal, l, r, SkipSpaces(tail), operand, SkipSpaces(rest));
  }

  lemma {:induction false} OrReads(cal: Calendar, q: Filter, rest: string)
    requires LawfulCalendar(cal) && DaysValid(cal, q) && Stops(rest) && NoAnd(rest)
    requires Printable(cal, q, OrOperand, rest)
    ensures OrLevel(cal, Show(cal, q, OrOperand) + rest) == OrRest(cal, q, SkipSpaces(rest))
    decreases q, 2
  {
    if q.Or? {
      var operand := Show(cal, q.right, AndOperand) + rest;
      var tail := " or " + operand;
      OrUnfolds(cal, q.left, q.right, rest);
      LeavesOfOperands(cal, q);
      Infixes();
      OperatorReads(cal, "or", q.right, AndOperand, rest);
      assert SkipSpaces(tail) == "or" + " " + operand;
      LeadRejects("and", SkipSpaces(tail));
      OrReads(cal, q.left, tail);
      AndReads(cal, q.right, rest);
      OrTurn(cal, q.left, q.right, SkipSpaces(tail), operand, SkipSpaces(rest));
    } else if q.And? {
      AndOfReads(cal, q.left, q.right, rest);
    } else {
      var s := Show(cal, q, OrOperand) + rest;
      SimpleReads(cal, q, OrOperand, rest);
      assert AndLevel(cal, s) == AndRest(cal, q, SkipSpaces(rest)) == Match(q, SkipSpaces(rest));
    }
  }

  /** The text printed for a printable filter parses back to that filter. */
  lemma {:induction false} RoundTrip(cal: Calendar, q: Filter)
    requires LawfulCalendar(cal) && DaysValid(cal, q) && Printable(cal, q, OrOperand, "")
    ensures Parse(cal, Show(cal, q, OrOperand)) == Some(q)
  {
    assert Show(cal, q, OrOperand) + "" == Show(cal, q, OrOperand);
    OrReads(cal, q, "");
  }

  // ----- the converse, by comparing leaves

  /** The conditions met when reading the text left to right, skipping operators, spaces and parentheses. */
  function Scan(cal: Calendar, s: string): seq<Filter>
    decreases |s|
  {
    var c := Condition(cal, s);
    if c.Match? then [c.value] + Scan(cal, c.rest)
    else if s == "" then []
    else if s[0] == ' ' || s[0] == '(' || s[0] == ')' then Scan(cal, s[1..])
    else if Word("not", s).Some? then Scan(cal, Word("not", s).value)
    else if Word("and", s).Some? then Scan(cal, Word("and", s).value)
    else if Word("or", s).Some? then Scan(cal, Word("or", s).value)
    else []
  }

  lemma {:induction false} ScanSkips(cal: Calendar, s: string)
    ensures Scan(cal, SkipSpaces(s)) == Scan(cal, s)
    decreases |s|
  {
    if s != "" && s[0] == ' ' {
      ParenthesisIsNoCondition(cal, s);
      ScanSkips(cal, s[1..]);
    }
  }

  predicate IsOperator(word: string) { word == "not" || word == "and" || word == "or" }

  lemma {:induction false} OperatorIsNoCondition(cal: Calendar, word: string, s: string)
    requires IsOperator(word) && Word(word, s).Some?
    ensures Condition(cal, s).NoMatch? && s[0] == word[0]
  {
    assert s[0] == s[..|word|][0] && s[1] == s[..|word|][1];
    forall k: nat | k < 7 ensures Lead(AlternativeWord(k), s).None? {
      if k == 1 {
        if |s| >= 5 {
          assert s[..5][1] == s[1];
        }
      } else {
        LeadRejects(AlternativeWord(k), s);
      }
    }
    NoWordNoCondition(cal, s);
  }

  lemma {:induction false} ScanWord(cal: Calendar, word: string, s: string)
    requires IsOperator(word) && Word(word, s).Some?
    ensures Scan(cal, s) == Scan(cal, Word(word, s).value)
  {
    OperatorIsNoCondition(cal, word, s);
    if word == "and" {
      LeadRejects("not", s);
    } else if word == "or" {
      LeadRejects("not", s);
      LeadRejects("and", s);
    }
  }

  /** An operator and its spaces hold no leaf. */
  lemma {:induction false} ScanLead(cal: Calendar, word: string, s: string)
    requires IsOperator(word) && Lead(word, s).Some?
    ensures Scan(cal, Lead(word, s).value) == Scan(cal, s)
  {
    ScanWord(cal, word, s);
    ScanSkips(cal, Word(word, s).value);
  }

  /** Whatever the parser reads, it reads the leaves in the order in which they are met. */
  lemma {:induction false} ScanAtom(cal: Calendar, s: string)
    requires Atom(cal, s).Match?
    ensures Scan(cal, s) == Leaves(Atom(cal, s).value) + Scan(cal, Atom(cal, s).rest)
    decreases |s|, 0
  {
    if Condition(cal, s).NoMatch? {
      ScanOr(cal, s[1..]);
      ParenthesisIsNoCondition(cal, OrLevel(cal, s[1..]).rest);
    }
  }

  lemma {:induction false} ScanNot(cal: Calendar, s: string)
    requires NotLevel(cal, s).Match?
    ensures Scan(cal, s) == Leaves(NotLevel(cal, s).value) + Scan(cal, NotLevel(cal, s).rest)
    decreases |s|, 1
  {
    match Lead("not", s) {
      case Some(r) =>
        ScanLead(cal, "not", s);
        ScanNot(cal, r);
      case None =>
        ScanAtom(cal, s);
        ScanSkips(cal, Atom(cal, s).rest);
    }
  }

  lemma {:induction false} ScanAnd(cal: Calendar, s: string)
    requires AndLevel(cal, s).Match?
    ensures Scan(cal, s) == Leaves(AndLevel(cal, s).value) + Scan(cal, AndLevel(cal, s).rest)
    decreases |s|, 2
  {
    ScanNot(cal, s);
    ScanAndRest(cal, NotLevel(cal, s).value, NotLevel(cal, s).rest);
  }

  lemma {:induction false} ScanAndRest(cal: Calendar, left: Filter, s: string)
    ensures Leaves(left) + Scan(cal, s)
         == Leaves(AndRest(cal, left, s).value) + Scan(cal, AndRest(cal, left, s).rest)
    decreases |s|, 2
  {
    if Lead("and", s).Some? {
      var r := Lead("and", s).value;
      ScanLead(cal, "and", s);
      if NotLevel(cal, r).Match? {
        var q := NotLevel(cal, r).value;
        ScanNot(cal, r);
        ScanAndRest(cal, And(left, q), NotLevel(cal, r).rest);
        Reassociate(Leaves(left), Leaves(q), Scan(cal, NotLevel(cal, r).rest));
        assert Leaves(And(left, q)) == Leaves(left) + Leaves(q);
      }
    }
  }

  lemma {:induction false} ScanOr(cal: Calendar, s: string)
    requires OrLevel(cal, s).Match?
    ensures Scan(cal, s) == Leaves(OrLevel(cal, s).value) + Scan(cal, OrLevel(cal, s).rest)
    decreases |s|, 3
  {
    ScanAnd(cal, s);
    ScanOrRest(cal, AndLevel(cal, s).value, AndLevel(cal, s).rest);
  }

  lemma {:induction false} ScanOrRest(cal: Calendar, left: Filter, s: string)
    ensures Leaves(left) + Scan(cal, s)
         == Leaves(OrRest(cal, left, s).value) + Scan(cal, OrRest(cal, left, s).rest)
    decreases |s|, 3
  {
    if Lead("or", s).Some? {
      var r := Lead("or", s).value;
      ScanLead(cal, "or", s);
      if AndLevel(cal, r).Match? {
        var q := AndLevel(cal, r).value;
        ScanAnd(cal, r);
        ScanOrRest(cal, Or(left, q), AndLevel(cal, r).rest);
        Reassociate(Leaves(left), Leaves(q), Scan(cal, AndLevel(cal, r).rest));
        assert Leaves(Or(left, q)) == Leaves(left) + Leaves(q);
      }
    }
  }

  /** The text printed for a printable filter holds its leaves. */
  lemma {:induction false} ScanShow(cal: Calendar, q: Filter, level: Level, rest: string)
    requires LawfulCalendar(cal) && DaysValid(cal, q) && Stops(rest) && Printable(cal, q, level, rest)
    ensures Scan(cal, Show(cal, q, level) + rest) == Leaves(q) + Scan(cal, rest)
    decreases q, 2
  {
    if Parenthesised(q, level) {
      ParenthesesUnfold(cal, q, level, rest);
      ScanParentheses(cal, Show(cal, q, OrOperand) + (")" + rest), rest);
      ScanBare(cal, q, OrOperand, ")" + rest);
    } else {
      ScanBare(cal, q, level, rest);
    }
  }

  lemma {:induction false} ScanBare(cal: Calendar, q: Filter, level: Level, rest: string)
    requires LawfulCalendar(cal) && DaysValid(cal, q) && Stops(rest) && Printable(cal, q, level, rest)
    requires !Parenthesised(q, level)
    ensures Scan(cal, Show(cal, q, level) + rest) == Leaves(q) + Scan(cal, rest)
    decreases q, 1
  {
    if q.And? || q.Or? {
      PairUnfolds(cal, q, level, rest);
      ScanPair(cal, q, rest);
    } else if q.Not? {
      NotUnfolds(cal, q.inner, level, rest);
      ScanNegation(cal, q.inner, level, rest);
      ScanShow(cal, q.inner, NotOperand, rest);
    } else {
      LeafUnfolds(cal, q, level, rest);
      LeafReads(cal, q, rest);
    }
  }

  lemma {:induction false} Reassociate<T>(a: seq<T>, b: seq<T>, c: seq<T>)
    ensures (a + b) + c == a + (b + c)
  {
  }

  /** Two operands around an infix operator. */
  lemma {:induction false} ScanPair(cal: Calendar, q: Filter, rest: string)
    requires q.And? || q.Or?
    requires LawfulCalendar(cal) && DaysValid(cal, q) && Stops(rest)
    requires Printable(cal, q.left, LeftLevel(q), AfterLeft(cal, q, rest))
    requires Printable(cal, q.right, RightLevel(q), rest)
    ensures Scan(cal, Show(cal, q.left, LeftLevel(q)) + AfterLeft(cal, q, rest)) == Leaves(q) + Scan(cal, rest)
    decreases q, 0
  {
    var tail := AfterLeft(cal, q, rest);
    LeavesOfOperands(cal, q);
    ScanInfix(cal, OperatorWord(q), q.right, RightLevel(q), rest, tail);
    ScanShow(cal, q.left, LeftLevel(q), tail);
    ScanShow(cal, q.right, RightLevel(q), rest);
    assert Leaves(q) == Leaves(q.left) + Leaves(q.right);
    Reassociate(Leaves(q.left), Leaves(q.right), Scan(cal, rest));
  }

  lemma {:induction false} ScanParentheses(cal: Calendar, inside: string, rest: string)
    ensures Scan(cal, "(" + inside) == Scan(cal, inside)
    ensures Scan(cal, ")" + rest) == Scan(cal, rest)
  {
    ParenthesisIsNoCondition(cal, "(" + inside);
    ParenthesisIsNoCondition(cal, ")" + rest);
    assert ("(" + inside)[1..] == inside && (")" + rest)[1..] == rest;
  }

  lemma {:induction false} ScanOperator(cal: Calendar, word: string, q: Filter, level: Level, rest: string, s: string)
    requires IsOperator(word)
    requires s == word + " " + (Show(cal, q, level) + rest)
    ensures Scan(cal, s) == Scan(cal, Show(cal, q, level) + rest)
  {
    OperatorReads(cal, word, q, level, rest);
    ScanLead(cal, word, s);
  }

  lemma {:induction false} ScanNegation(cal: Calendar, x: Filter, level: Level, rest: string)
    ensures Scan(cal, Show(cal, Not(x), level) + rest) == Scan(cal, Show(cal, x, NotOperand) + rest)
    ensures Leaves(Not(x)) == Leaves(x)
  {
    NotUnfolds(cal, x, level, rest);
    ScanOperator(cal, "not", x, NotOperand, rest, Show(cal, Not(x), level) + rest);
  }

  lemma {:induction false} ScanInfix(cal: Calendar, word: string, q: Filter, level: Level, rest: string, s: string)
    requires word == "and" || word == "or"
    requires s == Infix(word) + (Show(cal, q, level) + rest)
    ensures Scan(cal, s) == Scan(cal, Show(cal, q, level) + rest)
  {
    OperatorReads(cal, word, q, level, rest);
    ScanSkips(cal, s);
    ScanOperator(cal, word, q, level, rest, SkipSpaces(s));
  }

  /** If the printed text holds the leaves of the filter, the filter was printable. */
  lemma {:induction false} ScanShowOnlyIf(cal: Calendar, q: Filter, level: Level, rest: string)
    requires LawfulCalendar(cal) && DaysValid(cal, q) && Stops(rest)
    requires Leaves(q) <= Scan(cal, Show(cal, q, level) + rest)
    ensures Printable(cal, q, level, rest)
    decreases q, 2
  {
    if Parenthesised(q, level) {
      ParenthesesUnfold(cal, q, level, rest);
      ScanParentheses(cal, Show(cal, q, OrOperand) + (")" + rest), rest);
      ScanBareOnlyIf(cal, q, OrOperand, ")" + rest);
    } else {
      ScanBareOnlyIf(cal, q, level, rest);
    }
  }

  lemma {:induction false} ScanBareOnlyIf(cal: Calendar, q: Filter, level: Level, rest: string)
    requires LawfulCalendar(cal) && DaysValid(cal, q) && Stops(rest)
    requires !Parenthesised(q, level) && Leaves(q) <= Scan(cal, Show(cal, q, level) + rest)
    ensures Printable(cal, q, level, rest)
    decreases q, 1
  {
    if q.And? || q.Or? {
      PairUnfolds(cal, q, level, rest);
      ScanPairOnlyIf(cal, q, rest);
    } else if q.Not? {
      NotUnfolds(cal, q.inner, level, rest);
      ScanNegation(cal, q.inner, level, rest);
      ScanShowOnlyIf(cal, q.inner, NotOperand, rest);
    } else {
      LeafUnfolds(cal, q, level, rest);
      LeafScanOnlyIf(cal, q, rest);
    }
  }

  lemma {:induction false} ScanPairOnlyIf(cal: Calendar, q: Filter, rest: string)
    requires q.And? || q.Or?
    requires LawfulCalendar(cal) && DaysValid(cal, q) && Stops(rest)
    requires Leaves(q) <= Scan(cal, Show(cal, q.left, LeftLevel(q)) + AfterLeft(cal, q, rest))
    ensures Printable(cal, q.left, LeftLevel(q), AfterLeft(cal, q, rest))
    ensures Printable(cal, q.right, RightLevel(q), rest)
    decreases q, 0
  {
    var tail := AfterLeft(cal, q, rest);
    LeavesOfOperands(cal, q);
    ScanInfix(cal, OperatorWord(q), q.right, RightLevel(q), rest, tail);
    assert Leaves(q) == Leaves(q.left) + Leaves(q.right);
    PrefixOfSum(Leaves(q.left), Leaves(q.right), Scan(cal, Show(cal, q.left, LeftLevel(q)) + tail));
    ScanShowOnlyIf(cal, q.left, LeftLevel(q), tail);
    ScanShow(cal, q.left, LeftLevel(q), tail);
    CancelPrefix(Leaves(q.left), Leaves(q.right), Scan(cal, tail));
    ScanShowOnlyIf(cal, q.right, RightLevel(q), rest);
  }

  lemma {:induction false} PrefixOfSum<T>(a: seq<T>, b: seq<T>, s: seq<T>)
    requires a + b <= s
    ensures a <= s
  {
    assert (a + b)[..|a|] == a;
  }

  lemma {:induction false} CancelPrefix<T>(a: seq<T>, b: seq<T>, s: seq<T>)
    requires a + b <= a + s
    ensures b <= s
  {
    assert (a + b)[|a|..] == b && (a + s)[|a|..] == s;
    assert a + s == a + b + (a + s)[|a| + |b|..];
    assert s == b + (a + s)[|a| + |b|..];
  }

  lemma {:induction false} AfterIsNotAnd(s: string)
    requires |s| >= 2 && (s[0] != 'a' || s[1] != 'n')
    ensures Word("and", s).None?
  {
    if |s| >= 3 {
      assert s[..3][0] == s[0] && s[..3][1] == s[1];
    }
  }

  lemma {:induction false} LeafScanOnlyIf(cal: Calendar, q: Filter, rest: string)
    requires IsLeaf(q) && Stops(rest)
    requires [q] <= Scan(cal, ShowLeaf(cal, q) + rest)
    ensures LeafOk(q, rest)
  {
    var s := ShowLeaf(cal, q) + rest;
    ShowLeafSplits(cal, q, rest);
    assert s[0] == LeafWord(q)[0] && s[1] == LeafWord(q)[1];
    if Condition(cal, s).NoMatch? {
      LeadRejects("not", s);
      LeadRejects("or", s);
      AfterIsNotAnd(s);
    }
    assert Scan(cal, s)[0] == q;
    LeafReadsOnlyIf(cal, q, rest);
  }

  /**
   Filter round trip: with a lawful calendar and valid days, the parser gives back the printed filter
   exactly when every text, written in its place, is a complete quoted literal or is non-empty and the
   quoted alternative rejects its escaped form together with everything that follows.
   */
  lemma {:induction false} RoundTripIff(cal: Calendar, q: Filter)
    requires LawfulCalendar(cal) && DaysValid(cal, q)
    ensures Parse(cal, Show(cal, q, OrOperand)) == Some(q) <==> Printable(cal, q, OrOperand, "")
  {
    var s := Show(cal, q, OrOperand);
    assert s + "" == s;
    if Parse(cal, s) == Some(q) {
      ScanOr(cal, s);
      assert Leaves(q) <= Scan(cal, s + "");
      ScanShowOnlyIf(cal, q, OrOperand, "");
    }
    if Printable(cal, q, OrOperand, "") {
      RoundTrip(cal, q);
    }
  }

  /** Every leaf text is a complete quoted literal, or is non-empty and does not start with a quote. */
  ghost predicate SimpleTexts(q: Filter) {
    forall leaf | leaf in Leaves(q) :: SimpleLeaf(leaf)
  }

  predicate SimpleLeaf(leaf: Filter) {
    match leaf
    case From(t) => SimpleText(t)
    case To(t) => SimpleText(t)
    case Subject(t) => SimpleText(t)
    case Body(t) => SimpleText(t)
    case HasFlag(f) => f.raw != "" && f == FromRaw(f.raw)
    case _ => true
  }

  predicate SimpleText(t: string) {
    IsQuotedLiteral(t) || (t != "" && t[0] != '"')
  }

  lemma {:induction false} SimpleTextsArePrintable(cal: Calendar, q: Filter, level: Level, rest: string)
    requires SimpleTexts(q)
    ensures Printable(cal, q, level, rest)
    decreases q, if Parenthesised(q, level) then 1 else 0
  {
    if Parenthesised(q, level) {
      ParenthesesUnfold(cal, q, level, rest);
      SimpleTextsArePrintable(cal, q, OrOperand, ")" + rest);
    } else {
      match q {
        case Not(x) =>
          NotUnfolds(cal, x, level, rest);
          assert Leaves(x) == Leaves(q);
          SimpleTextsArePrintable(cal, x, NotOperand, rest);
        case And(l, r) =>
          AndUnfolds(cal, l, r, level, rest);
          assert forall leaf | leaf in Leaves(l) || leaf in Leaves(r) :: leaf in Leaves(q);
          SimpleTextsArePrintable(cal, l, AndOperand, " and " + (Show(cal, r, NotOperand) + rest));
          SimpleTextsArePrintable(cal, r, NotOperand, rest);
        case Or(l, r) =>
          OrUnfolds(cal, l, r, rest);
          assert forall leaf | leaf in Leaves(l) || leaf in Leaves(r) :: leaf in Leaves(q);
          SimpleTextsArePrintable(cal, l, OrOperand, " or " + (Show(cal, r, AndOperand) + rest));
          SimpleTextsArePrintable(cal, r, AndOperand, rest);
        case _ =>
          LeafUnfolds(cal, q, level, rest);
          assert q in Leaves(q);
      }
    }
  }

  /** In particular every filter whose texts are quoted literals or do not start with a quote round-trips. */
  lemma {:induction false} SimpleTextsRoundTrip(cal: Calendar, q: Filter)
    requires LawfulCalendar(cal) && DaysValid(cal, q) && SimpleTexts(q)
    ensures Parse(cal, Show(cal, q, OrOperand)) == Some(q)
  {
    SimpleTextsArePrintable(cal, q, OrOperand, "");
    RoundTrip(cal, q);
  }

  /**
   Two texts that are each rejected by the quoted alternative on their own, but not together: the quote
   that opens the first is closed by the second, and one pattern swallows the operator between them.
   */
  lemma {:induction false} StrayQuotesSwallowAnOperator(cal: Calendar)
    requires LawfulCalendar(cal)
    ensures Quoted(Escape("\"a")).NoMatch? && Quoted(Escape("b\"")).NoMatch?
    ensures var q := And(From("\"a"), From("b\"")); Parse(cal, Show(cal, q, OrOperand)) != Some(q)
  {
    var q := And(From("\"a"), From("b\""));
    StrayTexts();
    StraySecondOperand(cal);
    AndUnfolds(cal, q.left, q.right, OrOperand, "");
    var rest := " and " + (Show(cal, q.right, NotOperand) + "");
    assert rest == " and from b\"";
    LeafUnfolds(cal, q.left, AndOperand, rest);
    StrayFirstOperand();
    assert !LeafOk(q.left, rest);
    assert Leaves(q) == [q.left, q.right];
    RoundTripIff(cal, q);
  }

  lemma {:induction false} StrayTexts()
    ensures Escape("\"a") == "\"a" && Escape("b\"") == "b\""
    ensures Quoted(Escape("\"a")).NoMatch? && Quoted(Escape("b\"")).NoMatch?
  {
    EscapePlain("\"a");
    EscapePlain("b\"");
    assert "\"a"[1..] == "a" && "a"[1..] == "";
    assert CloseQuote("a").None?;
  }

  lemma {:induction false} StraySecondOperand(cal: Calendar)
    ensures Show(cal, From("b\""), NotOperand) == "from b\""
  {
    StrayTexts();
    LeafUnfolds(cal, From("b\""), NotOperand, "");
    assert !IsQuotedLiteral("b\"");
  }

  lemma {:induction false} StrayFirstOperand()
    ensures !TextOk("\"a", " and from b\"")
  {
    StrayTexts();
    var body := "a and from b\"";
    assert "\"a" + " and from b\"" == "\"" + body;
    OpenQuoteIsClosed("\"a", " and from b\"", body, 12);
  }

  lemma {:induction false} OpenQuoteIsClosed(text: string, rest: string, body: string, n: nat)
    requires Escape(text) == text && Quoted(text).NoMatch? && text + rest == "\"" + body
    requires n < |body| && body[n] == '"' && forall i | 0 <= i < n :: !QuoteEscapable(body[i])
    ensures !TextOk(text, rest)
  {
    assert ("\"" + body)[1..] == body;
    StrayQuoteCloses(body, n);
  }

  lemma {:induction false} StrayQuoteCloses(s: string, n: nat)
    requires n < |s| && s[n] == '"' && forall i | 0 <= i < n :: !QuoteEscapable(s[i])
    ensures CloseQuote(s) == Some(n + 1)
    decreases n
  {
    if n > 0 {
      StrayQuoteCloses(s[1..], n - 1);
    }
  }
}
