/** The JMAP search: a server filter plus the date checks re-applied locally (src/envelope/jmap/search.rs). */
module JmapSearch {
  import opened Wrappers
  import opened Flags
  import opened Envelopes
  import opened SearchQuery
  import opened Evaluator
  import opened Pagination
  import opened Lists

  const DAY_SECONDS: int := 86_400

  datatype Condition =
    | InMailbox(id: string)
    | FromHas(text: string)
    | ToHas(text: string)
    | SubjectHas(text: string)
    | BodyHas(text: string)
    | HasKeyword(keyword: string)
    | ReceivedFrom(instant: int)

  datatype JmapFilter =
    | Leaf(condition: Condition)
    | AllOf(filters: seq<JmapFilter>)
    | AnyOf(filters: seq<JmapFilter>)
    | NoneOf(filters: seq<JmapFilter>)

  /** A date rule left to check on the answer. */
  datatype PostFilter = PostDate(day: int) | PostAfter(day: int)

  /** Midnight UTC of a day, as an instant. */
  function UtcMidnight(day: int): int { day * DAY_SECONDS }

  function Compile(maxDay: int, q: Filter): JmapFilter {
    match q
    case And(l, r) => AllOf([Compile(maxDay, l), Compile(maxDay, r)])
    case Or(l, r) => AnyOf([Compile(maxDay, l), Compile(maxDay, r)])
    case Not(x) => NoneOf([Compile(maxDay, x)])
    case From(p) => Leaf(FromHas(p))
    case To(p) => Leaf(ToHas(p))
    case Subject(p) => Leaf(SubjectHas(p))
    case Body(p) => Leaf(BodyHas(p))
    case HasFlag(f) => Leaf(HasKeyword(KeywordFrom(f)))
    case Date(d) => Leaf(ReceivedFrom(UtcMidnight(d)))
    case AfterDate(d) => Leaf(ReceivedFrom(UtcMidnight(Bump(maxDay, d))))
  }

  /** One rule per date leaf, left to right. */
  function PostFilters(q: Filter): seq<PostFilter> {
    match q
    case And(l, r) => PostFilters(l) + PostFilters(r)
    case Or(l, r) => PostFilters(l) + PostFilters(r)
    case Not(x) => PostFilters(x)
    case Date(d) => [PostDate(d)]
    case AfterDate(d) => [PostAfter(d)]
    case _ => []
  }

  /** Translates a filter, appending the date rules it meets to `post`. */
  method ConvertFilter(maxDay: int, node: Filter, post: seq<PostFilter>)
    returns (filter: JmapFilter, post': seq<PostFilter>)
    ensures filter == Compile(maxDay, node)
    ensures post' == post + PostFilters(node)
    decreases node
  {
    post' := post;
    match node {
      case And(l, r) =>
        var a, b;
        a, post' := ConvertFilter(maxDay, l, post');
        b, post' := ConvertFilter(maxDay, r, post');
        filter := AllOf([a, b]);
      case Or(l, r) =>
        var a, b;
        a, post' := ConvertFilter(maxDay, l, post');
        b, post' := ConvertFilter(maxDay, r, post');
        filter := AnyOf([a, b]);
      case Not(x) =>
        var a;
        a, post' := ConvertFilter(maxDay, x, post');
        filter := NoneOf([a]);
      case From(p) => filter := Leaf(FromHas(p));
      case To(p) => filter := Leaf(ToHas(p));
      case Subject(p) => filter := Leaf(SubjectHas(p));
      case Body(p) => filter := Leaf(BodyHas(p));
      case HasFlag(f) => filter := Leaf(HasKeyword(KeywordFrom(f)));
      case Date(d) =>
        post' := post' + [PostDate(d)];
        filter := Leaf(ReceivedFrom(UtcMidnight(d)));
      case AfterDate(d) =>
        post' := post' + [PostAfter(d)];
        filter := Leaf(ReceivedFrom(UtcMidnight(Bump(maxDay, d))));
    }
  }

  /** The user filter scoped to one mailbox. */
  function Scoped(mailboxId: string, maxDay: int, q: Option<Filter>): JmapFilter {
    match q
    case Some(f) => AllOf([Leaf(InMailbox(mailboxId)), Compile(maxDay, f)])
    case None => Leaf(InMailbox(mailboxId))
  }

  function PostFiltersOf(q: Option<Filter>): seq<PostFilter> {
    match q case Some(f) => PostFilters(f) case None => []
  }

  predicate RuleHolds(rule: PostFilter, mail: Mail) {
    match rule
    case PostDate(d) => DayOf(mail) == Some(d)
    case PostAfter(d) => DayOf(mail).Some? && DayOf(mail).value > d
  }

  /** `post_match`: every rule holds. */
  predicate PostMatch(mail: Mail, post: seq<PostFilter>) {
    forall rule | rule in post :: RuleHolds(rule, mail)
  }

  // ----- the server's side (section 4.4.1 of RFC 8621)

  datatype ServerMail = ServerMail(
    mail: Mail, keywords: set<string>, mailboxes: set<string>, receivedAt: int, holds: TextSearch)

  ghost predicate Consistent(m: ServerMail) {
    m.mail.envelope.flags == KeysOf(m.keywords)
  }

  predicate Selects(f: JmapFilter, m: ServerMail) {
    match f
    case Leaf(c) =>
      (match c
       case InMailbox(id) => id in m.mailboxes
       case FromHas(p) => m.holds(FromField, p)
       case ToHas(p) => m.holds(ToField, p)
       case SubjectHas(p) => m.holds(SubjectField, p)
       case BodyHas(p) => m.holds(BodyField, p)
       case HasKeyword(k) => k in m.keywords
       case ReceivedFrom(t) => m.receivedAt >= t)
    case AllOf(fs) => forall x | x in fs :: Selects(x, m)
    case AnyOf(fs) => exists x | x in fs :: Selects(x, m)
    case NoneOf(fs) => forall x | x in fs :: !Selects(x, m)
  }

  /** The server's answer to the query for one window of its results. */
  function ServerAnswer(
    account: seq<ServerMail>, f: JmapFilter, position: Option<nat>, limit: Option<nat>): seq<ServerMail>
  {
    Window(Keep(account, (m: ServerMail) => Selects(f, m)), position, limit)
  }

  // ----- the search

  /** Position and limit are left to the server only when there is nothing to re-check. */
  function RequestWindow(q: Option<Filter>, page: Option<nat>, size: Option<nat>): (Option<nat>, Option<nat>) {
    if PostFiltersOf(q) != [] then (None, None) else ComputePositionLimit(page, size)
  }

  function Finish(
    answer: seq<ServerMail>, q: Option<Filter>, page: Option<nat>, size: Option<nat>, usizeMax: nat): seq<ServerMail>
  {
    var post := PostFiltersOf(q);
    if post == [] then answer
    else PaginateUids(Keep(answer, (m: ServerMail) => PostMatch(m.mail, post)), page, size, usizeMax)
  }

  /** Completion of the query: `retain` the mails that pass every rule, then paginate. */
  method Complete(answer: seq<ServerMail>, post: seq<PostFilter>, page: Option<nat>, size: Option<nat>, usizeMax: nat)
    returns (hits: seq<ServerMail>)
    ensures hits ==
      if post == [] then answer
      else PaginateUids(Keep(answer, (m: ServerMail) => PostMatch(m.mail, post)), page, size, usizeMax)
  {
    hits := answer;
    if post != [] {
      var p := (m: ServerMail) => PostMatch(m.mail, post);
      var kept: seq<ServerMail> := [];
      for i := 0 to |hits|
        invariant kept == Keep(hits[..i], p)
      {
        KeepLast(hits[..i], hits[i], p);
        assert hits[..i + 1] == hits[..i] + [hits[i]];
        if PostMatch(hits[i].mail, post) {
          kept := kept + [hits[i]];
        }
      }
      assert hits[..|hits|] == hits;
      hits := PaginateUids(kept, page, size, usizeMax);
    }
  }

  function Search(
    account: seq<ServerMail>, mailboxId: string, maxDay: int, q: Option<Filter>,
    page: Option<nat>, size: Option<nat>, usizeMax: nat): seq<ServerMail>
  {
    var (position, limit) := RequestWindow(q, page, size);
    Finish(ServerAnswer(account, Scoped(mailboxId, maxDay, q), position, limit), q, page, size, usizeMax)
  }

  // ----- meaning

  /** What is kept: in the mailbox, selected by the server filter, and right on every date leaf. */
  predicate Kept(mailboxId: string, maxDay: int, q: Option<Filter>, m: ServerMail) {
    && mailboxId in m.mailboxes
    && (q.Some? ==> Selects(Compile(maxDay, q.value), m))
    && PostMatch(m.mail, PostFiltersOf(q))
  }

  lemma {:induction false} ScopedSelects(mailboxId: string, maxDay: int, q: Option<Filter>, m: ServerMail)
    ensures Selects(Scoped(mailboxId, maxDay, q), m) <==>
      mailboxId in m.mailboxes && (q.Some? ==> Selects(Compile(maxDay, q.value), m))
  {
    if q.Some? {
      var scope, user := Leaf(InMailbox(mailboxId)), Compile(maxDay, q.value);
      assert scope in [scope, user] && user in [scope, user];
      assert Selects(scope, m) <==> mailboxId in m.mailboxes;
    }
  }

  /**
   Search meaning: whether paginated by the server or locally, a page of the search is that page of
   the mails that are in the mailbox, selected by the server filter, and right on every date leaf.
   */
  lemma {:induction false} SearchIsSliceOfKept(
    account: seq<ServerMail>, mailboxId: string, maxDay: int, q: Option<Filter>,
    page: Option<nat>, size: Option<nat>, usizeMax: nat)
    requires IsU32(page) && IsU32(size) && |account| <= usizeMax
    ensures Search(account, mailboxId, maxDay, q, page, size, usizeMax)
         == Slice(Keep(account, (m: ServerMail) => Kept(mailboxId, maxDay, q, m)), page, size)
  {
    var f := Scoped(mailboxId, maxDay, q);
    var selected := (m: ServerMail) => Selects(f, m);
    var kept := (m: ServerMail) => Kept(mailboxId, maxDay, q, m);
    var post := PostFiltersOf(q);
    forall m | m in account ensures Selects(f, m) <==>
      mailboxId in m.mailboxes && (q.Some? ==> Selects(Compile(maxDay, q.value), m))
    {
      ScopedSelects(mailboxId, maxDay, q, m);
    }
    var whole := Keep(account, selected);
    KeepShorter(account, selected);
    if post == [] {
      KeepSame(account, selected, kept);
      PositionLimitIsSlice(whole, page, size);
    } else {
      var passes := (m: ServerMail) => PostMatch(m.mail, post);
      KeepTwice(account, selected, passes, kept);
      KeepShorter(whole, passes);
      assert whole[0..] == whole;
      assert Window(whole, None, None) == whole;
      PaginateUidsIsSlice(Keep(whole, passes), page, size, usizeMax);
    }
  }

  predicate IsDate(leaf: Filter) { leaf.Date? || leaf.AfterDate? }

  /** The date rules are those of the date leaves. */
  lemma {:induction false} PostFiltersAreDateLeaves(q: Filter, mail: Mail, loc: Locale)
    ensures PostMatch(mail, PostFilters(q)) <==>
      forall leaf | leaf in Leaves(q) && IsDate(leaf) :: Matches(loc, mail, leaf)
    decreases q, 1
  {
    match q {
      case And(l, r) => PostFiltersOfOperands(q, mail, loc);
      case Or(l, r) => PostFiltersOfOperands(q, mail, loc);
      case Not(x) =>
        assert Leaves(x) == Leaves(q);
        PostFiltersAreDateLeaves(x, mail, loc);
      case Date(d) => SingleRule(q, PostDate(d), mail, loc);
      case AfterDate(d) => SingleRule(q, PostAfter(d), mail, loc);
      case _ =>
        assert Leaves(q) == [q];
    }
  }

  lemma {:induction false} PostFiltersOfOperands(q: Filter, mail: Mail, loc: Locale)
    requires q.And? || q.Or?
    ensures PostMatch(mail, PostFilters(q)) <==>
      forall leaf | leaf in Leaves(q) && IsDate(leaf) :: Matches(loc, mail, leaf)
    decreases q, 0
  {
    PostFiltersAreDateLeaves(q.left, mail, loc);
    PostFiltersAreDateLeaves(q.right, mail, loc);
    assert forall rule :: rule in PostFilters(q) <==> rule in PostFilters(q.left) || rule in PostFilters(q.right);
    assert forall leaf :: leaf in Leaves(q) <==> leaf in Leaves(q.left) || leaf in Leaves(q.right);
  }

  // ----- against the evaluator

  /** Date leaves occur only under `and`. */
  predicate DatesOnlyUnderAnd(q: Filter) {
    match q
    case And(l, r) => DatesOnlyUnderAnd(l) && DatesOnlyUnderAnd(r)
    case Or(l, r) => PostFilters(q) == []
    case Not(x) => PostFilters(q) == []
    case _ => true
  }

  /** When the server means by a leaf other than a date what the evaluator means. */
  ghost predicate LeafAgrees(loc: Locale, m: ServerMail, leaf: Filter) {
    && TextAgrees(loc, m.mail, m.holds, leaf)
    && (leaf.HasFlag? ==>
          Constructed(leaf.flag) && (Key(leaf.flag) in KeysOf(m.keywords) ==> KeywordFrom(leaf.flag) in m.keywords))
  }

  /** The UTC day of an instant, days being 86400 seconds long. */
  function UtcDay(instant: int): int { instant / 86_400 }

  /** The instant sent for a day is the first one of that day in UTC. */
  lemma {:induction false} MidnightStartsDay(day: int, instant: int)
    ensures UtcMidnight(day) <= instant <==> day <= UtcDay(instant)
    ensures UtcDay(UtcMidnight(day)) == day && UtcDay(UtcMidnight(day) - 1) == day - 1
  {
  }

  /** The message arrived on the UTC day asked for or later; for `after D`, after D, or on D if it is the last day. */
  predicate ArrivedInTime(maxDay: int, m: ServerMail, leaf: Filter) {
    match leaf
    case Date(d) => UtcDay(m.receivedAt) >= d
    case AfterDate(d) => UtcDay(m.receivedAt) > d || (d >= maxDay && UtcDay(m.receivedAt) == d)
    case _ => true
  }

  lemma {:induction false} DateSelects(maxDay: int, m: ServerMail, leaf: Filter)
    requires IsDate(leaf)
    ensures Selects(Compile(maxDay, leaf), m) <==> ArrivedInTime(maxDay, m, leaf)
  {
    match leaf {
      case Date(d) => MidnightStartsDay(d, m.receivedAt);
      case AfterDate(d) => MidnightStartsDay(Bump(maxDay, d), m.receivedAt);
    }
  }

  lemma {:induction false} FlagLeaf(m: ServerMail, f: Flag)
    requires Consistent(m) && Constructed(f)
    requires Key(f) in KeysOf(m.keywords) ==> KeywordFrom(f) in m.keywords
    ensures KeywordFrom(f) in m.keywords <==> Key(f) in m.mail.envelope.flags
  {
    KeywordRoundTrip(f);
    if KeywordFrom(f) in m.keywords {
      assert KeyOf(KeywordFrom(f)) in KeysOf(m.keywords);
    }
  }

  /** Every date leaf holds of the mail itself. */
  predicate DatesHold(loc: Locale, mail: Mail, q: Filter) {
    forall leaf | leaf in Leaves(q) && IsDate(leaf) :: Matches(loc, mail, leaf)
  }

  /** The mail arrived in time for every date leaf. */
  predicate InTime(maxDay: int, m: ServerMail, q: Filter) {
    forall leaf | leaf in Leaves(q) :: ArrivedInTime(maxDay, m, leaf)
  }

  ghost predicate LeavesAgree(loc: Locale, m: ServerMail, q: Filter) {
    forall leaf | leaf in Leaves(q) :: LeafAgrees(loc, m, leaf)
  }

  /** The evaluator, but with each date leaf read as "arrived on that UTC day or later". */
  predicate MatchesOnArrival(maxDay: int, loc: Locale, m: ServerMail, q: Filter) {
    match q
    case And(l, r) => MatchesOnArrival(maxDay, loc, m, l) && MatchesOnArrival(maxDay, loc, m, r)
    case Or(l, r) => MatchesOnArrival(maxDay, loc, m, l) || MatchesOnArrival(maxDay, loc, m, r)
    case Not(x) => !MatchesOnArrival(maxDay, loc, m, x)
    case _ => if IsDate(q) then ArrivedInTime(maxDay, m, q) else Matches(loc, m.mail, q)
  }

  /** What the server filter means, for every tree and every mail. */
  lemma {:induction false} ServerFilterMeaning(maxDay: int, loc: Locale, m: ServerMail, q: Filter)
    requires Consistent(m) && LeavesAgree(loc, m, q)
    ensures Selects(Compile(maxDay, q), m) <==> MatchesOnArrival(maxDay, loc, m, q)
    decreases q, 1
  {
    match q {
      case And(l, r) => OperandMeaning(maxDay, loc, m, q);
      case Or(l, r) => OperandMeaning(maxDay, loc, m, q);
      case Not(x) =>
        assert Leaves(x) == Leaves(q);
        ServerFilterMeaning(maxDay, loc, m, x);
        assert Compile(maxDay, x) in [Compile(maxDay, x)];
      case HasFlag(f) =>
        assert q in Leaves(q);
        FlagLeaf(m, f);
      case _ =>
        assert q in Leaves(q);
        if IsDate(q) {
          DateSelects(maxDay, m, q);
        }
    }
  }

  lemma {:induction false} OperandMeaning(maxDay: int, loc: Locale, m: ServerMail, q: Filter)
    requires q.And? || q.Or?
    requires Consistent(m) && LeavesAgree(loc, m, q)
    ensures Selects(Compile(maxDay, q), m) <==> MatchesOnArrival(maxDay, loc, m, q)
    decreases q, 0
  {
    assert forall leaf | leaf in Leaves(q.left) || leaf in Leaves(q.right) :: leaf in Leaves(q);
    ServerFilterMeaning(maxDay, loc, m, q.left);
    ServerFilterMeaning(maxDay, loc, m, q.right);
    var a, b := Compile(maxDay, q.left), Compile(maxDay, q.right);
    assert a in [a, b] && b in [a, b];
  }

  /** On a mail that is right on every date leaf, and in time for it, arrival and date say the same. */
  lemma {:induction false} ArrivalIsDate(maxDay: int, loc: Locale, m: ServerMail, q: Filter)
    requires DatesHold(loc, m.mail, q) && InTime(maxDay, m, q)
    ensures MatchesOnArrival(maxDay, loc, m, q) <==> Matches(loc, m.mail, q)
  {
    match q {
      case Not(x) =>
        assert Leaves(x) == Leaves(q);
        ArrivalIsDate(maxDay, loc, m, x);
      case And(l, r) =>
        assert forall leaf | leaf in Leaves(l) || leaf in Leaves(r) :: leaf in Leaves(q);
        ArrivalIsDate(maxDay, loc, m, l);
        ArrivalIsDate(maxDay, loc, m, r);
      case Or(l, r) =>
        assert forall leaf | leaf in Leaves(l) || leaf in Leaves(r) :: leaf in Leaves(q);
        ArrivalIsDate(maxDay, loc, m, l);
        ArrivalIsDate(maxDay, loc, m, r);
      case _ =>
        assert q in Leaves(q);
    }
  }

  lemma {:induction false} SingleRule(q: Filter, rule: PostFilter, mail: Mail, loc: Locale)
    requires IsDate(q) && PostFilters(q) == [rule]
    ensures PostMatch(mail, PostFilters(q)) <==> Matches(loc, mail, q)
    ensures Leaves(q) == [q] && q in Leaves(q)
  {
    assert rule in PostFilters(q);
  }

  /**
   Any tree and any mail: it is kept exactly when it is in the mailbox, right on every date leaf wherever
   in the tree it is, and matches the filter with arrival in place of dates.
   */
  lemma {:induction false} KeptIff(mailboxId: string, maxDay: int, loc: Locale, m: ServerMail, q: Filter)
    requires Consistent(m) && LeavesAgree(loc, m, q)
    ensures Kept(mailboxId, maxDay, Some(q), m) <==>
      mailboxId in m.mailboxes && DatesHold(loc, m.mail, q) && MatchesOnArrival(maxDay, loc, m, q)
    ensures DatesHold(loc, m.mail, q) && InTime(maxDay, m, q) ==>
      (MatchesOnArrival(maxDay, loc, m, q) <==> Matches(loc, m.mail, q))
  {
    PostFiltersAreDateLeaves(q, m.mail, loc);
    ServerFilterMeaning(maxDay, loc, m, q);
    if DatesHold(loc, m.mail, q) && InTime(maxDay, m, q) {
      ArrivalIsDate(maxDay, loc, m, q);
    }
  }

  /** Search and evaluator keep the same mails of the mailbox. */
  ghost predicate Agree(account: seq<ServerMail>, mailboxId: string, maxDay: int, loc: Locale, q: Filter) {
    forall m | m in account && mailboxId in m.mailboxes ::
      Kept(mailboxId, maxDay, Some(q), m) <==> Matches(loc, m.mail, q)
  }

  /**
   Any tree and any account: search and evaluator agree exactly when every mail that matches is right on
   all date leaves, and a mail that is right on all of them matches by arrival just when it matches.
   */
  lemma {:induction false} SearchAgreesIff(
    account: seq<ServerMail>, mailboxId: string, maxDay: int, loc: Locale, q: Filter)
    requires forall m | m in account && mailboxId in m.mailboxes :: Consistent(m) && LeavesAgree(loc, m, q)
    ensures Agree(account, mailboxId, maxDay, loc, q) <==>
      forall m | m in account && mailboxId in m.mailboxes ::
        && (Matches(loc, m.mail, q) ==> DatesHold(loc, m.mail, q))
        && (DatesHold(loc, m.mail, q) ==> (MatchesOnArrival(maxDay, loc, m, q) <==> Matches(loc, m.mail, q)))
  {
    forall m | m in account && mailboxId in m.mailboxes
      ensures Kept(mailboxId, maxDay, Some(q), m) <==>
        DatesHold(loc, m.mail, q) && MatchesOnArrival(maxDay, loc, m, q)
    {
      KeptIff(mailboxId, maxDay, loc, m, q);
    }
  }

  /** When dated mails arrive in time: exactly when every mail that matches is right on all of its date leaves. */
  lemma {:induction false} TimelySearchAgreesIff(
    account: seq<ServerMail>, mailboxId: string, maxDay: int, loc: Locale, q: Filter)
    requires forall m | m in account && mailboxId in m.mailboxes ::
      && Consistent(m) && LeavesAgree(loc, m, q)
      && (DatesHold(loc, m.mail, q) ==> InTime(maxDay, m, q))
    ensures Agree(account, mailboxId, maxDay, loc, q) <==>
      forall m | m in account && mailboxId in m.mailboxes && Matches(loc, m.mail, q) :: DatesHold(loc, m.mail, q)
  {
    forall m | m in account && mailboxId in m.mailboxes
      ensures Kept(mailboxId, maxDay, Some(q), m) <==> DatesHold(loc, m.mail, q) && Matches(loc, m.mail, q)
    {
      KeptIff(mailboxId, maxDay, loc, m, q);
    }
  }

  // ----- date leaves under `and` only

  lemma {:induction false} DatelessLeaves(q: Filter)
    requires PostFilters(q) == []
    ensures forall leaf | leaf in Leaves(q) :: !IsDate(leaf)
  {
    match q {
      case And(l, r) => DatelessLeaves(l); DatelessLeaves(r);
      case Or(l, r) => DatelessLeaves(l); DatelessLeaves(r);
      case Not(x) => DatelessLeaves(x);
      case _ =>
    }
  }

  /** Then a match is right on every date leaf, and what matches by arrival arrived in time for them. */
  lemma {:induction false} UnderAnd(maxDay: int, loc: Locale, m: ServerMail, q: Filter)
    requires DatesOnlyUnderAnd(q)
    ensures Matches(loc, m.mail, q) ==> DatesHold(loc, m.mail, q)
    ensures MatchesOnArrival(maxDay, loc, m, q) ==> InTime(maxDay, m, q)
  {
    match q {
      case And(l, r) =>
        UnderAnd(maxDay, loc, m, l);
        UnderAnd(maxDay, loc, m, r);
        assert forall leaf :: leaf in Leaves(q) <==> leaf in Leaves(l) || leaf in Leaves(r);
      case Or(_, _) => DatelessLeaves(q);
      case Not(_) => DatelessLeaves(q);
      case _ => assert Leaves(q) == [q];
    }
  }

  /**
   With date leaves only under `and`: whatever the search keeps matches the filter, and a match is kept
   exactly when it arrived in time for its date leaves.
   */
  lemma {:induction false} AgreesWithEvaluator(mailboxId: string, maxDay: int, loc: Locale, m: ServerMail, q: Filter)
    requires Consistent(m) && LeavesAgree(loc, m, q) && DatesOnlyUnderAnd(q) && mailboxId in m.mailboxes
    ensures Kept(mailboxId, maxDay, Some(q), m) <==> Matches(loc, m.mail, q) && InTime(maxDay, m, q)
  {
    UnderAnd(maxDay, loc, m, q);
    KeptIff(mailboxId, maxDay, loc, m, q);
  }

  /**
   For a filter with date leaves only under `and`, search and evaluator keep the same mails of the
   mailbox exactly when every matching mail arrived in time.
   */
  lemma {:induction false} SearchMatchesEvaluatorIff(
    account: seq<ServerMail>, mailboxId: string, maxDay: int, loc: Locale, q: Filter)
    requires DatesOnlyUnderAnd(q)
    requires forall m | m in account && mailboxId in m.mailboxes :: Consistent(m) && LeavesAgree(loc, m, q)
    ensures Agree(account, mailboxId, maxDay, loc, q) <==>
      forall m | m in account && mailboxId in m.mailboxes && Matches(loc, m.mail, q) :: InTime(maxDay, m, q)
  {
    forall m | m in account && mailboxId in m.mailboxes
      ensures Kept(mailboxId, maxDay, Some(q), m) <==> Matches(loc, m.mail, q) && InTime(maxDay, m, q)
    {
      AgreesWithEvaluator(mailboxId, maxDay, loc, m, q);
    }
  }

  // ----- date leaves elsewhere

  /** Under an `or` the date rule is too strict: a mail that matches the other operand is dropped. */
  lemma {:induction false} DateUnderOrDropsMatches(loc: Locale, d: int, maxDay: int, f: Flag) returns (m: ServerMail)
    requires Constructed(f)
    ensures var q := Or(Date(d), HasFlag(f));
      && Consistent(m) && LeavesAgree(loc, m, q)
      && Matches(loc, m.mail, q) && Selects(Compile(maxDay, q), m)
      && "box" in m.mailboxes && !Kept("box", maxDay, Some(q), m)
  {
    var q := Or(Date(d), HasFlag(f));
    var keyword := KeywordFrom(f);
    KeywordRoundTrip(f);
    var nothing := (field: Field, p: string) => false;
    m := ServerMail(Mail(Envelope("1", KeysOf({keyword}), EMPTY_HEADER), []), {keyword}, {"box"}, 0, nothing);
    assert Leaves(q) == [Date(d), HasFlag(f)];
    assert KeyOf(keyword) in KeysOf({keyword});
    assert Matches(loc, m.mail, HasFlag(f));
    var a, b := Compile(maxDay, Date(d)), Compile(maxDay, HasFlag(f));
    assert Compile(maxDay, q) == AnyOf([a, b]) && b in [a, b] && Selects(b, m);
    assert PostFilters(q) == [PostDate(d)];
    assert PostDate(d) in PostFilters(q) && !RuleHolds(PostDate(d), m.mail);
  }

  /**
   Under a `not` the date rule turns the meaning around: the search drops every match, and keeps
   exactly the mails of that very day that arrived on an earlier day in UTC.
   */
  lemma {:induction false} NegatedDateIsBackwards(mailboxId: string, maxDay: int, loc: Locale, d: int, m: ServerMail)
    ensures Kept(mailboxId, maxDay, Some(Not(Date(d))), m) <==>
      mailboxId in m.mailboxes && DayOf(m.mail) == Some(d) && UtcDay(m.receivedAt) < d
    ensures Kept(mailboxId, maxDay, Some(Not(Date(d))), m) ==> !Matches(loc, m.mail, Not(Date(d)))
  {
    var q := Not(Date(d));
    var rule, inner := PostDate(d), Leaf(ReceivedFrom(UtcMidnight(d)));
    assert PostFilters(Date(d)) == [rule] && PostFiltersOf(Some(q)) == [rule];
    assert PostMatch(m.mail, [rule]) <==> RuleHolds(rule, m.mail) by { assert rule in [rule]; }
    assert Compile(maxDay, q) == NoneOf([inner]) && inner in [inner];
    DateSelects(maxDay, m, Date(d));
    assert Selects(Compile(maxDay, q), m) <==> UtcDay(m.receivedAt) < d;
  }

  /** Both happen: a match dropped, and a mail kept that does not match. */
  lemma {:induction false} NegatedDateMistakes(loc: Locale, d: int, maxDay: int)
    returns (dropped: ServerMail, kept: ServerMail)
    ensures var q := Not(Date(d));
      && Consistent(dropped) && LeavesAgree(loc, dropped, q) && "box" in dropped.mailboxes
      && Matches(loc, dropped.mail, q) && !Kept("box", maxDay, Some(q), dropped)
      && Consistent(kept) && LeavesAgree(loc, kept, q) && "box" in kept.mailboxes
      && !Matches(loc, kept.mail, q) && Kept("box", maxDay, Some(q), kept)
  {
    var nothing := (field: Field, p: string) => false;
    var dated := EMPTY_HEADER.(date := Some(DateTime(UtcMidnight(d) - 1, d)));
    dropped := ServerMail(Mail(Envelope("1", {}, EMPTY_HEADER), []), {}, {"box"}, UtcMidnight(d), nothing);
    kept := ServerMail(Mail(Envelope("2", {}, dated), []), {}, {"box"}, UtcMidnight(d) - 1, nothing);
    MidnightStartsDay(d, 0);
    NegatedDateIsBackwards("box", maxDay, loc, d, dropped);
    NegatedDateIsBackwards("box", maxDay, loc, d, kept);
    assert Leaves(Not(Date(d))) == [Date(d)];
  }
}
