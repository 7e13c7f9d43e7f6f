/**
 The filter parser (src/search/filter/parser.rs). Each function takes the remaining input and either
 fails, leaving it untouched, or returns a value and what is left. Choices are ordered, repetitions
 greedy, and an iteration that fails midway gives back everything it read.
 */
module FilterParser {
  import opened Wrappers
  import opened Flags
  import opened SearchQuery

  datatype Parsed<+T> = NoMatch | Match(value: T, rest: string)

  datatype DateFormat = YearMonthDayDash | YearMonthDaySlash | DayMonthYearDash | DayMonthYearSlash

  /** The date library: which days exist, how one is written, what a text means in a format. */
  datatype Calendar = Calendar(
    valid: int -> bool, show: int -> string, parse: (string, DateFormat) -> Option<int>)

  // ----- words and spaces

  function Word(word: string, s: string): (r: Option<string>)
    ensures r.Some? ==> |r.value| + |word| == |s|
  {
    if |word| <= |s| && s[..|word|] == word then Some(s[|word|..]) else None
  }

  function SkipSpaces(s: string): (r: string)
    ensures |r| <= |s|
  {
    if s != [] && s[0] == ' ' then SkipSpaces(s[1..]) else s
  }

  /** A word followed by at least one space. */
  function Lead(word: string, s: string): (r: Option<string>)
    ensures r.Some? ==> |r.value| + |word| < |s|
  {
    match Word(word, s)
    case Some(r) => if r != [] && r[0] == ' ' then Some(SkipSpaces(r)) else None
    case None => None
  }

  // ----- patterns

  predicate QuoteEscapable(c: char) { c == '\\' || c == '"' }

  predicate Escapable(c: char) { c == '\\' || c == ' ' || c == '(' || c == ')' }

  /** Length of a quoted body up to and including its closing quote. */
  function CloseQuote(s: string): (n: Option<nat>)
    ensures n.Some? ==> 0 < n.value <= |s|
  {
    if s == [] then None
    else if s[0] == '"' then Some(1)
    else if s[0] == '\\' then
      if |s| > 1 && QuoteEscapable(s[1]) then
        match CloseQuote(s[2..]) case Some(n) => Some(n + 2) case None => None
      else None
    else match CloseQuote(s[1..]) case Some(n) => Some(n + 1) case None => None
  }

  /** A quoted literal is kept verbatim, quotes and escapes included. */
  function Quoted(s: string): (r: Parsed<string>)
    ensures r.Match? ==> r.value != [] && r.value + r.rest == s
  {
    if s != [] && s[0] == '"' then
      match CloseQuote(s[1..])
      case Some(n) => Match(s[..n + 1], s[n + 1..])
      case None => NoMatch
    else NoMatch
  }

  function UnquotedChars(s: string): (r: (string, string))
    ensures |r.0| + |r.1| <= |s|
  {
    if s == [] then ("", s)
    else if s[0] == '\\' then
      if |s| > 1 && Escapable(s[1]) then
        var (t, rest) := UnquotedChars(s[2..]);
        ([s[1]] + t, rest)
      else ("", s)
    else if Escapable(s[0]) then ("", s)
    else
      var (t, rest) := UnquotedChars(s[1..]);
      ([s[0]] + t, rest)
  }

  function Unquoted(s: string): (r: Parsed<string>)
    ensures r.Match? ==> r.value != [] && |r.rest| < |s|
  {
    var (t, rest) := UnquotedChars(s);
    if t == "" then NoMatch else Match(t, rest)
  }

  function Pattern(s: string): (r: Parsed<string>)
    ensures r.Match? ==> r.value != [] && |r.rest| < |s|
  {
    var q := Quoted(s);
    if q.Match? then (assert |q.value + q.rest| == |s|; q) else Unquoted(s)
  }

  function ParseDay(cal: Calendar, text: string): Option<int> {
    if cal.parse(text, YearMonthDayDash).Some? then cal.parse(text, YearMonthDayDash)
    else if cal.parse(text, YearMonthDaySlash).Some? then cal.parse(text, YearMonthDaySlash)
    else if cal.parse(text, DayMonthYearDash).Some? then cal.parse(text, DayMonthYearDash)
    else cal.parse(text, DayMonthYearSlash)
  }

  function Day(cal: Calendar, s: string): (r: Parsed<int>)
    ensures r.Match? ==> |r.rest| < |s|
  {
    match Pattern(s)
    case NoMatch => NoMatch
    case Match(text, rest) =>
      match ParseDay(cal, text)
      case Some(d) => Match(d, rest)
      case None => NoMatch
  }

  // ----- conditions

  function DayAfter(cal: Calendar, word: string, s: string): (r: Parsed<int>)
    ensures r.Match? ==> |r.rest| < |s|
  {
    match Lead(word, s) case Some(r) => Day(cal, r) case None => NoMatch
  }

  function PatternAfter(word: string, s: string): (r: Parsed<string>)
    ensures r.Match? ==> |r.rest| < |s|
  {
    match Lead(word, s) case Some(r) => Pattern(r) case None => NoMatch
  }

  function UnquotedAfter(word: string, s: string): (r: Parsed<string>)
    ensures r.Match? ==> |r.rest| < |s|
  {
    match Lead(word, s) case Some(r) => Unquoted(r) case None => NoMatch
  }

  /** The alternatives of the choice, in order. */
  function Alternative(cal: Calendar, i: nat, s: string): (r: Parsed<Filter>)
    requires i < 7
    ensures r.Match? ==> |r.rest| < |s| && IsLeaf(r.value)
  {
    if i == 0 then
      match DayAfter(cal, "date", s) case Match(d, r) => Match(Date(d), r) case NoMatch => NoMatch
    else if i == 1 then
      match DayAfter(cal, "after", s) case Match(d, r) => Match(AfterDate(d), r) case NoMatch => NoMatch
    else if i == 2 then
      match PatternAfter("from", s) case Match(t, r) => Match(From(t), r) case NoMatch => NoMatch
    else if i == 3 then
      match PatternAfter("to", s) case Match(t, r) => Match(To(t), r) case NoMatch => NoMatch
    else if i == 4 then
      match PatternAfter("subject", s) case Match(t, r) => Match(Subject(t), r) case NoMatch => NoMatch
    else if i == 5 then
      match PatternAfter("body", s) case Match(t, r) => Match(Body(t), r) case NoMatch => NoMatch
    else
      match UnquotedAfter("flag", s) case Match(t, r) => Match(HasFlag(FromRaw(t)), r) case NoMatch => NoMatch
  }

  /** The first alternative from `i` on that matches. */
  function FirstOf(cal: Calendar, i: nat, s: string): (r: Parsed<Filter>)
    requires i <= 7
    ensures r.Match? ==> |r.rest| < |s| && IsLeaf(r.value)
    decreases 7 - i
  {
    if i == 7 then NoMatch
    else
      var r := Alternative(cal, i, s);
      if r.Match? then r else FirstOf(cal, i + 1, s)
  }

  function Condition(cal: Calendar, s: string): (r: Parsed<Filter>)
    ensures r.Match? ==> |r.rest| < |s| && IsLeaf(r.value)
  {
    FirstOf(cal, 0, s)
  }

  // ----- operators: `not` binds tighter than `and`, `and` tighter than `or`

  function Atom(cal: Calendar, s: string): (r: Parsed<Filter>)
    ensures r.Match? ==> |r.rest| < |s|
    decreases |s|, 0
  {
    var c := Condition(cal, s);
    if c.Match? then c
    else if s != [] && s[0] == '(' then
      match OrLevel(cal, s[1..])
      case Match(q, r) => if r != [] && r[0] == ')' then Match(q, r[1..]) else NoMatch
      case NoMatch => NoMatch
    else NoMatch
  }

  function NotLevel(cal: Calendar, s: string): (r: Parsed<Filter>)
    ensures r.Match? ==> |r.rest| < |s|
    decreases |s|, 1
  {
    match Lead("not", s)
    case Some(r) =>
      (match NotLevel(cal, r)
       case Match(q, rest) => Match(Not(q), rest)
       case NoMatch => NoMatch)
    case None =>
      match Atom(cal, s)
      case Match(q, rest) => Match(q, SkipSpaces(rest))
      case NoMatch => NoMatch
  }

  function AndLevel(cal: Calendar, s: string): (r: Parsed<Filter>)
    ensures r.Match? ==> |r.rest| < |s|
    decreases |s|, 2
  {
    match NotLevel(cal, s)
    case Match(q, rest) => AndRest(cal, q, rest)
    case NoMatch => NoMatch
  }

  function AndRest(cal: Calendar, left: Filter, s: string): (r: Parsed<Filter>)
    ensures r.Match? && |r.rest| <= |s|
    decreases |s|, 2
  {
    match Lead("and", s)
    case None => Match(left, s)
    case Some(r) =>
      match NotLevel(cal, r)
      case Match(q, rest) => AndRest(cal, And(left, q), rest)
      case NoMatch => Match(left, s)
  }

  function OrLevel(cal: Calendar, s: string): (r: Parsed<Filter>)
    ensures r.Match? ==> |r.rest| < |s|
    decreases |s|, 3
  {
    match AndLevel(cal, s)
    case Match(q, rest) => OrRest(cal, q, rest)
    case NoMatch => NoMatch
  }

  function OrRest(cal: Calendar, left: Filter, s: string): (r: Parsed<Filter>)
    ensures r.Match? && |r.rest| <= |s|
    decreases |s|, 3
  {
    match Lead("or", s)
    case None => Match(left, s)
    case Some(r) =>
      match AndLevel(cal, r)
      case Match(q, rest) => OrRest(cal, Or(left, q), rest)
      case NoMatch => Match(left, s)
  }

  /** The whole input must be consumed. */
  function Parse(cal: Calendar, s: string): Option<Filter> {
    match OrLevel(cal, s)
    case Match(q, rest) => if rest == [] then Some(q) else None
    case NoMatch => None
  }
}
