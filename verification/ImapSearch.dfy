/** Compiling a filter to an IMAP `SearchKey` (src/envelope/imap/search.rs). */
module ImapSearch {
  import opened Wrappers
  import opened Flags
  import opened Envelopes
  import opened SearchQuery
  import opened Evaluator
  import opened Pagination

  datatype SearchKey =
    | KeyAll
    | KeyAnd(keys: seq<SearchKey>)
    | KeyOr(left: SearchKey, right: SearchKey)
    | KeyNot(key: SearchKey)
    | SentOn(day: int)
    | SentSince(day: int)
    | KeyFrom(text: string)
    | KeyTo(text: string)
    | KeySubject(text: string)
    | KeyBody(text: string)
    | SystemFlag(iana: IanaFlag)
    | Keyword(atom: string)

  datatype SearchError = InvalidPattern(pattern: string) | InvalidKeyword(raw: string) | InvalidDate(day: int)

  /** What the wire types accept, and the last day the date library knows. */
  datatype WireRules = WireRules(astring: string -> bool, atom: string -> bool, day: int -> bool, maxDay: int)

  /** The four classic system flags and `\Deleted` have search keys of their own. */
  predicate HasSystemKey(f: Flag) {
    f.iana in {Some(Seen), Some(Answered), Some(Flagged), Some(Draft), Some(Deleted)}
  }

  function ConvertText(rules: WireRules, leaf: Filter): Result<SearchKey, SearchError>
    requires IsText(leaf)
  {
    if !rules.astring(leaf.pattern) then Err(InvalidPattern(leaf.pattern))
    else
      match leaf
      case From(p) => Ok(KeyFrom(p))
      case To(p) => Ok(KeyTo(p))
      case Subject(p) => Ok(KeySubject(p))
      case Body(p) => Ok(KeyBody(p))
  }

  function ConvertFilter(rules: WireRules, q: Filter): Result<SearchKey, SearchError> {
    match q
    case And(l, r) =>
      (match ConvertFilter(rules, l)
       case Err(e) => Err(e)
       case Ok(a) =>
         match ConvertFilter(rules, r)
         case Err(e) => Err(e)
         case Ok(b) => Ok(KeyAnd([a, b])))
    case Or(l, r) =>
      (match ConvertFilter(rules, l)
       case Err(e) => Err(e)
       case Ok(a) =>
         match ConvertFilter(rules, r)
         case Err(e) => Err(e)
         case Ok(b) => Ok(KeyOr(a, b)))
    case Not(x) =>
      (match ConvertFilter(rules, x)
       case Err(e) => Err(e)
       case Ok(a) => Ok(KeyNot(a)))
    case Date(d) => if rules.day(d) then Ok(SentOn(d)) else Err(InvalidDate(d))
    case AfterDate(d) =>
      var bumped := Bump(rules.maxDay, d);
      if rules.day(bumped) then Ok(SentSince(bumped)) else Err(InvalidDate(bumped))
    case HasFlag(f) =>
      if HasSystemKey(f) then Ok(SystemFlag(f.iana.value))
      else if rules.atom(f.raw) then Ok(Keyword(f.raw))
      else Err(InvalidKeyword(f.raw))
    case _ => ConvertText(rules, q)
  }

  // ----- the server's side (section 6.4.4 of RFC 3501)

  /** A message on the server: the envelope's flags are those of the wire spellings. */
  datatype ServerMail = ServerMail(mail: Mail, wire: set<string>, holds: TextSearch)

  ghost predicate Consistent(m: ServerMail) {
    m.mail.envelope.flags == KeysOf(m.wire)
  }

  /** Some wire flag is spelled so, up to ASCII case. */
  ghost predicate Spelled(m: ServerMail, raw: string) {
    exists w :: w in m.wire && LowerAscii(w) == LowerAscii(raw)
  }

  ghost predicate Selects(k: SearchKey, m: ServerMail) {
    match k
    case KeyAll => true
    case KeyAnd(keys) => forall x | x in keys :: Selects(x, m)
    case KeyOr(l, r) => Selects(l, m) || Selects(r, m)
    case KeyNot(x) => !Selects(x, m)
    case SentOn(d) => DayOf(m.mail) == Some(d)
    case SentSince(d) => DayOf(m.mail).Some? && DayOf(m.mail).value >= d
    case KeyFrom(p) => m.holds(FromField, p)
    case KeyTo(p) => m.holds(ToField, p)
    case KeySubject(p) => m.holds(SubjectField, p)
    case KeyBody(p) => m.holds(BodyField, p)
    case SystemFlag(i) => Spelled(m, CanonicalRaw(i))
    case Keyword(a) => Spelled(m, a)
  }

  /** The spelling the key of a flag leaf tests. */
  function TestedSpelling(f: Flag): string {
    if HasSystemKey(f) then CanonicalRaw(f.iana.value) else f.raw
  }

  /** When the key of one leaf means what the evaluator means. */
  ghost predicate LeafAgrees(rules: WireRules, loc: Locale, m: ServerMail, leaf: Filter) {
    match leaf
    case AfterDate(d) => d < rules.maxDay || DayOf(m.mail) != Some(d)
    case HasFlag(f) => Key(f) in KeysOf(m.wire) ==> Spelled(m, TestedSpelling(f))
    case _ => TextAgrees(loc, m.mail, m.holds, leaf)
  }

  lemma {:induction false} TestedSpellingHasKey(f: Flag)
    requires Constructed(f)
    ensures KeyOf(TestedSpelling(f)) == Key(f)
  {
    ConstructedIsConsistent(f);
    if HasSystemKey(f) {
      ClassifyCanonical(f.iana.value);
    }
  }

  /** The tested spelling is always one of the flag's own. */
  lemma {:induction false} SpelledHasKey(m: ServerMail, f: Flag)
    requires Constructed(f) && Spelled(m, TestedSpelling(f))
    ensures Key(f) in KeysOf(m.wire)
  {
    var w :| w in m.wire && LowerAscii(w) == LowerAscii(TestedSpelling(f));
    CaseDoesNotMatter(w, TestedSpelling(f));
    TestedSpellingHasKey(f);
    assert KeyOf(w) in KeysOf(m.wire);
  }

  /** One leaf: key and evaluator agree exactly under `LeafAgrees`. */
  lemma {:induction false} LeafMeaningIff(rules: WireRules, loc: Locale, m: ServerMail, leaf: Filter)
    requires IsLeaf(leaf) && Consistent(m) && ConvertFilter(rules, leaf).Ok?
    requires leaf.HasFlag? ==> Constructed(leaf.flag)
    requires leaf.AfterDate? ==> leaf.day <= rules.maxDay
    ensures (Selects(ConvertFilter(rules, leaf).value, m) <==> Matches(loc, m.mail, leaf))
       <==> LeafAgrees(rules, loc, m, leaf)
  {
    if leaf.HasFlag? {
      FlagMeaningIff(rules, loc, m, leaf.flag);
    }
  }

  lemma {:induction false} FlagMeaningIff(rules: WireRules, loc: Locale, m: ServerMail, f: Flag)
    requires Consistent(m) && ConvertFilter(rules, HasFlag(f)).Ok? && Constructed(f)
    ensures (Selects(ConvertFilter(rules, HasFlag(f)).value, m) <==> Matches(loc, m.mail, HasFlag(f)))
       <==> LeafAgrees(rules, loc, m, HasFlag(f))
  {
    assert Selects(ConvertFilter(rules, HasFlag(f)).value, m) <==> Spelled(m, TestedSpelling(f)) by {
      assert HasSystemKey(f) || ConvertFilter(rules, HasFlag(f)) == Ok(Keyword(f.raw));
    }
    assert Matches(loc, m.mail, HasFlag(f)) <==> Key(f) in KeysOf(m.wire);
    if Spelled(m, TestedSpelling(f)) {
      SpelledHasKey(m, f);
    }
  }

  /**
   Compilation preserves meaning: when the conversion succeeds, the server selects exactly the messages
   the evaluator matches, for every query tree, provided each leaf agrees on the message.
   */
  lemma {:induction false} ConversionKeepsMeaning(rules: WireRules, loc: Locale, m: ServerMail, q: Filter)
    requires Consistent(m) && ConvertFilter(rules, q).Ok?
    requires forall leaf | leaf in Leaves(q) ::
      && (leaf.HasFlag? ==> Constructed(leaf.flag))
      && (leaf.AfterDate? ==> leaf.day <= rules.maxDay)
      && LeafAgrees(rules, loc, m, leaf)
    ensures Selects(ConvertFilter(rules, q).value, m) <==> Matches(loc, m.mail, q)
  {
    match q {
      case And(l, r) =>
        OperandLeaves(q);
        ConversionKeepsMeaning(rules, loc, m, l);
        ConversionKeepsMeaning(rules, loc, m, r);
        var a, b := ConvertFilter(rules, l).value, ConvertFilter(rules, r).value;
        assert a in [a, b] && b in [a, b];
      case Or(l, r) =>
        OperandLeaves(q);
        ConversionKeepsMeaning(rules, loc, m, l);
        ConversionKeepsMeaning(rules, loc, m, r);
      case Not(x) =>
        assert Leaves(x) == Leaves(q);
        ConversionKeepsMeaning(rules, loc, m, x);
      case _ =>
        assert q in Leaves(q);
        LeafMeaningIff(rules, loc, m, q);
    }
  }

  lemma {:induction false} OperandLeaves(q: Filter)
    requires q.And? || q.Or?
    ensures forall leaf | leaf in Leaves(q.left) || leaf in Leaves(q.right) :: leaf in Leaves(q)
  {
  }

  /** Conversion fails exactly when some leaf cannot be put on the wire. */
  lemma {:induction false} ConversionFailsIff(rules: WireRules, q: Filter)
    ensures ConvertFilter(rules, q).Err? <==> exists leaf :: leaf in Leaves(q) && ConvertFilter(rules, leaf).Err?
  {
    match q {
      case And(l, r) =>
        ConversionFailsIff(rules, l);
        ConversionFailsIff(rules, r);
        assert forall leaf :: leaf in Leaves(q) <==> leaf in Leaves(l) || leaf in Leaves(r);
      case Or(l, r) =>
        ConversionFailsIff(rules, l);
        ConversionFailsIff(rules, r);
        assert forall leaf :: leaf in Leaves(q) <==> leaf in Leaves(l) || leaf in Leaves(r);
      case Not(x) =>
        ConversionFailsIff(rules, x);
        assert Leaves(x) == Leaves(q);
      case _ =>
        assert Leaves(q) == [q];
    }
  }

  /** The key each leaf is sent as, or the error; the five system flags never fail, whatever their spelling. */
  lemma {:induction false} LeafKey(rules: WireRules, leaf: Filter)
    requires IsLeaf(leaf)
    ensures ConvertFilter(rules, leaf) ==
      match leaf
      case Date(d) => if rules.day(d) then Ok(SentOn(d)) else Err(InvalidDate(d))
      case AfterDate(d) =>
        var next := if d < rules.maxDay then d + 1 else d;
        if rules.day(next) then Ok(SentSince(next)) else Err(InvalidDate(next))
      case From(p) => if rules.astring(p) then Ok(KeyFrom(p)) else Err(InvalidPattern(p))
      case To(p) => if rules.astring(p) then Ok(KeyTo(p)) else Err(InvalidPattern(p))
      case Subject(p) => if rules.astring(p) then Ok(KeySubject(p)) else Err(InvalidPattern(p))
      case Body(p) => if rules.astring(p) then Ok(KeyBody(p)) else Err(InvalidPattern(p))
      case HasFlag(f) =>
        (match f.iana
         case Some(Seen) => Ok(SystemFlag(Seen))
         case Some(Answered) => Ok(SystemFlag(Answered))
         case Some(Flagged) => Ok(SystemFlag(Flagged))
         case Some(Draft) => Ok(SystemFlag(Draft))
         case Some(Deleted) => Ok(SystemFlag(Deleted))
         case _ => if rules.atom(f.raw) then Ok(Keyword(f.raw)) else Err(InvalidKeyword(f.raw)))
  {
  }

  /** The first leaf that fails, from the left, decides the error. */
  lemma {:induction false} FirstFailureIsReported(rules: WireRules, q: Filter) returns (i: nat)
    requires ConvertFilter(rules, q).Err?
    ensures i < |Leaves(q)| && ConvertFilter(rules, Leaves(q)[i]) == Err(ConvertFilter(rules, q).error)
    ensures forall j | 0 <= j < i :: ConvertFilter(rules, Leaves(q)[j]).Ok?
    decreases q, 1
  {
    match q {
      case And(l, r) => i := FirstFailureOfPair(rules, q);
      case Or(l, r) => i := FirstFailureOfPair(rules, q);
      case Not(x) =>
        i := FirstFailureIsReported(rules, x);
        assert Leaves(x) == Leaves(q);
      case _ =>
        i := 0;
        assert Leaves(q) == [q];
    }
  }

  lemma {:induction false} FirstFailureOfPair(rules: WireRules, q: Filter) returns (i: nat)
    requires (q.And? || q.Or?) && ConvertFilter(rules, q).Err?
    ensures i < |Leaves(q)| && ConvertFilter(rules, Leaves(q)[i]) == Err(ConvertFilter(rules, q).error)
    ensures forall j | 0 <= j < i :: ConvertFilter(rules, Leaves(q)[j]).Ok?
    decreases q, 0
  {
    var left := Leaves(q.left);
    assert Leaves(q) == left + Leaves(q.right);
    if ConvertFilter(rules, q.left).Err? {
      i := FirstFailureIsReported(rules, q.left);
    } else {
      ConversionFailsIff(rules, q.left);
      i := FirstFailureIsReported(rules, q.right);
      forall j | 0 <= j < |left| + i ensures ConvertFilter(rules, Leaves(q)[j]).Ok? {
        if j < |left| {
          assert left[j] in left;
        }
      }
      i := |left| + i;
    }
  }

  /** The days the date library can represent. */
  predicate InCalendar(rules: WireRules, m: ServerMail) {
    DayOf(m.mail).Some? ==> DayOf(m.mail).value <= rules.maxDay
  }

  /** The key sent for `after D` selects exactly the messages the evaluator matches. */
  ghost predicate AfterMeansAfter(rules: WireRules, loc: Locale, d: int)
    requires ConvertFilter(rules, AfterDate(d)).Ok?
  {
    forall m: ServerMail | InCalendar(rules, m) ::
      Selects(ConvertFilter(rules, AfterDate(d)).value, m) <==> Matches(loc, m.mail, AfterDate(d))
  }

  /** `after D`, when it converts, means what the evaluator means exactly when D is not the last day. */
  lemma {:induction false} AfterDayIff(rules: WireRules, loc: Locale, d: int)
    requires d <= rules.maxDay && ConvertFilter(rules, AfterDate(d)).Ok?
    ensures AfterMeansAfter(rules, loc, d) <==> d < rules.maxDay
  {
    if d == rules.maxDay {
      var dated := EMPTY_HEADER.(date := Some(DateTime(0, d)));
      var m := ServerMail(Mail(Envelope("1", {}, dated), []), {}, (field: Field, p: string) => false);
      assert InCalendar(rules, m) && Selects(ConvertFilter(rules, AfterDate(d)).value, m);
      assert !Matches(loc, m.mail, AfterDate(d));
    }
  }

  /**
   `after` goes through the wire's date type, so the last day fails to convert when that type refuses
   it; every `after` that converts means what the evaluator means exactly in that case.
   */
  lemma {:induction false} EveryAfterMeansAfterIff(rules: WireRules, loc: Locale)
    ensures ConvertFilter(rules, AfterDate(rules.maxDay)) ==
      if rules.day(rules.maxDay) then Ok(SentSince(rules.maxDay)) else Err(InvalidDate(rules.maxDay))
    ensures (forall d | d <= rules.maxDay && ConvertFilter(rules, AfterDate(d)).Ok? :: AfterMeansAfter(rules, loc, d))
       <==> !rules.day(rules.maxDay)
  {
    forall d | d <= rules.maxDay && ConvertFilter(rules, AfterDate(d)).Ok?
      ensures AfterMeansAfter(rules, loc, d) <==> d < rules.maxDay
    {
      AfterDayIff(rules, loc, d);
    }
    if rules.day(rules.maxDay) {
      assert ConvertFilter(rules, AfterDate(rules.maxDay)).Ok?;
    }
  }

  // ----- the fetched page, in SORT order

  /** Puts the fetched envelopes in the requested order, leaving out UIDs the server skipped. */
  function Reorder(byUid: map<nat, Envelope>, order: seq<nat>): seq<Envelope> {
    if order == [] then []
    else if order[0] in byUid then [byUid[order[0]]] + Reorder(byUid, order[1..])
    else Reorder(byUid, order[1..])
  }

  /** When the server skips nothing, the answer lists the requested UIDs in the requested order. */
  lemma {:induction false} ReorderIsPointwise(byUid: map<nat, Envelope>, order: seq<nat>)
    requires forall u | u in order :: u in byUid
    ensures |Reorder(byUid, order)| == |order|
    ensures forall i | 0 <= i < |order| :: Reorder(byUid, order)[i] == byUid[order[i]]
  {
    if order != [] {
      ReorderIsPointwise(byUid, order[1..]);
    }
  }

  /** A fetched page is that page of the whole sorted result, when the server skips nothing. */
  lemma {:induction false} PageIsSliceOfResult(
    byUid: map<nat, Envelope>, uids: seq<nat>, page: Option<nat>, size: Option<nat>, usizeMax: nat)
    requires |uids| <= usizeMax && forall u | u in uids :: u in byUid
    ensures Reorder(byUid, PaginateUids(uids, page, size, usizeMax)) == Slice(Reorder(byUid, uids), page, size)
  {
    var here, all := Slice(uids, page, size), Reorder(byUid, uids);
    PaginateUidsIsSlice(uids, page, size, usizeMax);
    ReorderIsPointwise(byUid, uids);
    ReorderIsPointwise(byUid, here);
    assert |Slice(all, page, size)| == |here|;
  }
}
