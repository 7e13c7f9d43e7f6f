/** Listing one page of Gmail envelopes by walking page tokens (src/envelope/gmail/list.rs). */
module GmailList {
  import opened Wrappers
  import opened Envelopes

  datatype Request = ListPage(token: Option<string>) | GetMessage(id: string)

  datatype State =
    | Listing(skip: nat)
    | Getting(ids: seq<string>, index: nat, done: seq<Envelope>)
    | Done

  /** What one `resume` of the inner coroutine may come back with; `Failed` also covers a failing constructor. */
  datatype Inner = WantsIo | Page(ids: seq<string>, next: Option<string>) | Got(envelope: Envelope) | Failed

  datatype Output = YieldIo | CompleteOk(envelopes: seq<Envelope>) | CompleteErr

  /** `sent` lists the requests made so far. */
  datatype Machine = Machine(state: State, sent: seq<Request>)

  function Initial(page: Option<nat>): Machine {
    Machine(Listing(match page case Some(p) => (if p == 0 then 0 else p - 1) case None => 0), [ListPage(None)])
  }

  predicate Ready(m: Machine) {
    m.state.Getting? ==> m.state.index < |m.state.ids|
  }

  function Finished(m: Machine, out: Output): (Machine, Option<Output>) {
    (m.(state := Done), Some(out))
  }

  function Step(m: Machine, o: Inner): (Machine, Option<Output>)
    requires Ready(m)
  {
    match (m.state, o)
    case (Done, _) => (m, Some(CompleteErr))
    case (_, WantsIo) => (m, Some(YieldIo))
    case (Listing(skip), Page(ids, next)) =>
      if skip > 0 then
        (match next
         case None => Finished(m, CompleteOk([]))
         case Some(token) => (Machine(Listing(skip - 1), m.sent + [ListPage(Some(token))]), None))
      else if ids == [] then Finished(m, CompleteOk([]))
      else (Machine(Getting(ids, 0, []), m.sent + [GetMessage(ids[0])]), None)
    case (Getting(ids, index, done), Got(envelope)) =>
      if index + 1 >= |ids| then Finished(m, CompleteOk(done + [envelope]))
      else (Machine(Getting(ids, index + 1, done + [envelope]), m.sent + [GetMessage(ids[index + 1])]), None)
    case _ => Finished(m, CompleteErr)
  }

  lemma {:induction false} StepStaysReady(m: Machine, o: Inner)
    requires Ready(m)
    ensures Ready(Step(m, o).0)
  {
  }

  function Loop(m: Machine, inner: seq<Inner>): (Machine, seq<Inner>, Output)
    requires Ready(m)
    decreases |inner|
  {
    if m.state.Done? then (m, inner, CompleteErr)
    else if inner == [] then (m, [], YieldIo)
    else
      var (m', out) := Step(m, inner[0]);
      match out
      case Some(o) => (m', inner[1..], o)
      case None => StepStaysReady(m, inner[0]); Loop(m', inner[1..])
  }

  class GmailEnvelopeList {
    var state: State
    var sent: seq<Request>

    ghost function Model(): Machine
      reads this
    {
      Machine(state, sent)
    }

    constructor (page: Option<nat>)
      ensures Model() == Initial(page)
    {
      state := Listing(match page case Some(p) => (if p == 0 then 0 else p - 1) case None => 0);
      sent := [ListPage(None)];
    }

    method Resume(inner: seq<Inner>) returns (out: Output, rest: seq<Inner>)
      requires Ready(Model())
      modifies this
      ensures Ready(Model())
      ensures (Model(), rest, out) == Loop(old(Model()), inner)
    {
      rest := inner;
      while true
        invariant Ready(Model())
        invariant Loop(Model(), rest) == Loop(old(Model()), inner)
        decreases |rest|
      {
        if state.Done? {
          return CompleteErr, rest;
        }
        if rest == [] {
          return YieldIo, rest;
        }
        var answer := rest[0];
        rest := rest[1..];
        var stopped := Advance(answer);
        if stopped.Some? {
          return stopped.value, rest;
        }
      }
    }

    method Advance(answer: Inner) returns (out: Option<Output>)
      requires Ready(Model()) && !state.Done?
      modifies this
      ensures (Model(), out) == Step(old(Model()), answer) && Ready(Model())
    {
      if answer.WantsIo? {
        return Some(YieldIo);
      }
      if state.Listing? && answer.Page? {
        var skip := state.skip;
        if skip > 0 {
          if answer.next.None? {
            state := Done;
            return Some(CompleteOk([]));
          }
          sent := sent + [ListPage(answer.next)];
          state := Listing(skip - 1);
          return None;
        }
        if answer.ids == [] {
          state := Done;
          return Some(CompleteOk([]));
        }
        sent := sent + [GetMessage(answer.ids[0])];
        state := Getting(answer.ids, 0, []);
        return None;
      }
      if state.Getting? && answer.Got? {
        var ids, index, done := state.ids, state.index, state.done + [answer.envelope];
        index := index + 1;
        if index >= |ids| {
          state := Done;
          return Some(CompleteOk(done));
        }
        sent := sent + [GetMessage(ids[index])];
        state := Getting(ids, index, done);
        return None;
      }
      state := Done;
      return Some(CompleteErr);
    }
  }

  // ----- a server with a finite chain of pages

  /** `pages[k]` is reached with `tokens[k]`; page 0 needs none. `envelopes` looks a message up. */
  datatype Server = Server(pages: seq<seq<string>>, tokens: seq<string>, envelopes: string -> Envelope)

  ghost predicate Valid(s: Server) {
    && |s.pages| == |s.tokens| > 0
    && forall i, j | 0 <= i < j < |s.tokens| :: s.tokens[i] != s.tokens[j]
  }

  ghost predicate NamesPage(s: Server, token: Option<string>, k: nat)
    requires |s.pages| == |s.tokens|
  {
    k < |s.pages| && (if token.None? then k == 0 else k > 0 && s.tokens[k] == token.value)
  }

  function NextToken(s: Server, k: nat): Option<string> {
    if k + 1 < |s.tokens| then Some(s.tokens[k + 1]) else None
  }

  /** A lawful answer to the last request; it may always want more I/O or fail. */
  ghost predicate Answers(s: Server, m: Machine, o: Inner)
    requires |s.pages| == |s.tokens| && m.sent != []
  {
    match o
    case WantsIo => true
    case Failed => true
    case Page(ids, next) =>
      m.sent[|m.sent| - 1].ListPage?
      && exists k: nat :: NamesPage(s, m.sent[|m.sent| - 1].token, k) && ids == s.pages[k] && next == NextToken(s, k)
    case Got(envelope) =>
      m.sent[|m.sent| - 1].GetMessage? && envelope == s.envelopes(m.sent[|m.sent| - 1].id)
  }

  /** The requests that walk to page `k`. */
  function WalkTo(s: Server, k: nat): seq<Request>
    requires k < |s.tokens|
  {
    if k == 0 then [ListPage(None)] else WalkTo(s, k - 1) + [ListPage(Some(s.tokens[k]))]
  }

  function GetsOf(ids: seq<string>): seq<Request> {
    seq(|ids|, i requires 0 <= i < |ids| => GetMessage(ids[i]))
  }

  function EnvelopesOf(s: Server, ids: seq<string>): seq<Envelope> {
    seq(|ids|, i requires 0 <= i < |ids| => s.envelopes(ids[i]))
  }

  /** Walking to page `target` (counted from 0), or fetching its messages. */
  ghost predicate Inv(s: Server, target: nat, m: Machine) {
    && Valid(s)
    && match m.state
       case Listing(skip) =>
         skip <= target && target - skip < |s.pages| && m.sent == WalkTo(s, target - skip)
       case Getting(ids, index, done) =>
         && target < |s.pages| && ids == s.pages[target] && index < |ids|
         && done == EnvelopesOf(s, ids[..index])
         && m.sent == WalkTo(s, target) + GetsOf(ids[..index + 1])
       case Done => true
  }

  /** What the listing of page `target` should be. */
  function Expected(s: Server, target: nat): seq<Envelope> {
    if target < |s.pages| then EnvelopesOf(s, s.pages[target]) else []
  }

  /** Work left: pages to skip, then messages to get. */
  function Measure(s: Server, target: nat, m: Machine): nat {
    match m.state
    case Listing(skip) => skip + 1 + if target < |s.pages| then |s.pages[target]| else 0
    case Getting(ids, index, _) => if index <= |ids| then |ids| - index else 0
    case Done => 0
  }

  lemma {:induction false} WalkLength(s: Server, k: nat)
    requires k < |s.tokens|
    ensures |WalkTo(s, k)| == k + 1
    ensures WalkTo(s, k)[k] == ListPage(if k == 0 then None else Some(s.tokens[k]))
  {
    if k > 0 {
      WalkLength(s, k - 1);
    }
  }

  /** The requests of a whole listing: the walk to the page, as far as the chain goes, then its messages. */
  function Requests(s: Server, target: nat): seq<Request>
    requires |s.pages| == |s.tokens| > 0
  {
    if target < |s.pages| then WalkTo(s, target) + GetsOf(s.pages[target]) else WalkTo(s, |s.pages| - 1)
  }

  lemma {:induction false} WalkIsPrefix(s: Server, j: nat, k: nat)
    requires j <= k < |s.tokens|
    ensures WalkTo(s, j) <= WalkTo(s, k)
  {
    if j < k {
      WalkIsPrefix(s, j, k - 1);
    }
  }

  /** A listing sends only what belongs to it. */
  lemma {:induction false} InvSendsPrefix(s: Server, target: nat, m: Machine)
    requires Inv(s, target, m) && !m.state.Done?
    ensures m.sent <= Requests(s, target)
  {
    match m.state {
      case Listing(skip) =>
        WalkIsPrefix(s, target - skip, if target < |s.pages| then target else |s.pages| - 1);
      case Getting(ids, index, _) =>
        assert GetsOf(ids[..index + 1]) <= GetsOf(ids);
    }
  }

  lemma {:induction false} LastRequest(s: Server, target: nat, m: Machine)
    requires Inv(s, target, m) && !m.state.Done?
    ensures m.sent != []
    ensures m.state.Listing? <==> m.sent[|m.sent| - 1].ListPage?
  {
    match m.state {
      case Listing(skip) => WalkLength(s, target - skip);
      case Getting(ids, index, _) => assert m.sent[|m.sent| - 1] == GetMessage(ids[index]);
    }
  }

  lemma {:induction false} ListingStep(s: Server, target: nat, m: Machine, o: Inner)
    requires Inv(s, target, m) && m.state.Listing? && m.sent != [] && o.Page? && Answers(s, m, o)
    ensures var (m', out) := Step(m, o);
      && (out.None? ==> Inv(s, target, m') && Measure(s, target, m') < Measure(s, target, m))
      && (out.Some? ==> out.value == CompleteOk(Expected(s, target)) && m'.sent == Requests(s, target))
  {
    var k := target - m.state.skip;
    WalkLength(s, k);
    var j: nat :| NamesPage(s, m.sent[|m.sent| - 1].token, j) && o.ids == s.pages[j] && o.next == NextToken(s, j);
    assert j == k;
    if m.state.skip == 0 && o.ids != [] {
      assert o.ids[..0] == [] && GetsOf(o.ids[..1]) == [GetMessage(o.ids[0])];
    }
  }

  lemma {:induction false} GettingStep(s: Server, target: nat, m: Machine, o: Inner)
    requires Inv(s, target, m) && m.state.Getting? && m.sent != [] && o.Got? && Answers(s, m, o)
    ensures var (m', out) := Step(m, o);
      && (out.None? ==> Inv(s, target, m') && Measure(s, target, m') < Measure(s, target, m))
      && (out.Some? ==> out.value == CompleteOk(Expected(s, target)) && m'.sent == Requests(s, target))
  {
    var ids, index := m.state.ids, m.state.index;
    WalkLength(s, target);
    assert m.sent[|m.sent| - 1] == GetMessage(ids[index]);
    assert EnvelopesOf(s, ids[..index + 1]) == EnvelopesOf(s, ids[..index]) + [s.envelopes(ids[index])];
    if index + 1 < |ids| {
      assert GetsOf(ids[..index + 2]) == GetsOf(ids[..index + 1]) + [GetMessage(ids[index + 1])];
    } else {
      assert ids[..index + 1] == ids;
    }
  }

  /** The answers one after the other, across as many calls as it takes; yields just go on. */
  function Run(m: Machine, answers: seq<Inner>): (Machine, Option<Output>)
    requires Ready(m)
    decreases |answers|
  {
    if m.state.Done? || answers == [] then (m, None)
    else
      var (m', out) := Step(m, answers[0]);
      StepStaysReady(m, answers[0]);
      if out.Some? && out.value != YieldIo then (m', out) else Run(m', answers[1..])
  }

  ghost predicate LawfulRun(s: Server, m: Machine, answers: seq<Inner>)
    requires Ready(m) && |s.pages| == |s.tokens|
    decreases |answers|
  {
    if m.state.Done? || answers == [] then true
    else
      StepStaysReady(m, answers[0]);
      m.sent != [] && Answers(s, m, answers[0]) && LawfulRun(s, Step(m, answers[0]).0, answers[1..])
  }

  lemma {:induction false} RunListsPage(s: Server, target: nat, m: Machine, answers: seq<Inner>)
    requires Inv(s, target, m) && Ready(m) && LawfulRun(s, m, answers)
    requires m.sent <= Requests(s, target)
    ensures var (m', out) := Run(m, answers);
      && m'.sent <= Requests(s, target)
      && (out.Some? ==>
            || (out.value == CompleteOk(Expected(s, target)) && m'.sent == Requests(s, target))
            || (out.value == CompleteErr && Failed in answers))
    decreases |answers|
  {
    if !m.state.Done? && answers != [] {
      var o := answers[0];
      StepStaysReady(m, o);
      InvSendsPrefix(s, target, m);
      if m.state.Listing? && o.Page? {
        ListingStep(s, target, m, o);
      } else if m.state.Getting? && o.Got? {
        GettingStep(s, target, m, o);
      } else {
        LastRequest(s, target, m);
        assert o.WantsIo? || o.Failed?;
      }
      var (m', out) := Step(m, o);
      if out.None? || out == Some(YieldIo) {
        InvSendsPrefix(s, target, m');
        RunListsPage(s, target, m', answers[1..]);
      }
    }
  }

  /**
   Page walk: against any finite chain of pages, page `p` lists the messages of the `p`-th page in the
   server's order, or nothing when the chain is shorter. The requests sent are a prefix of the list
   requests that walk to that page and one get per message of it, all of them on success; there is no
   error unless a request failed. This holds whatever I/O is interleaved.
   */
  lemma {:induction false} PageWalk(s: Server, page: Option<nat>, answers: seq<Inner>)
    requires Valid(s) && LawfulRun(s, Initial(page), answers)
    ensures var target := (match page case Some(p) => (if p == 0 then 0 else p - 1) case None => 0);
      var (m, out) := Run(Initial(page), answers);
      && m.sent <= Requests(s, target)
      && (out.Some? ==>
            || (out.value == CompleteOk(Expected(s, target)) && m.sent == Requests(s, target))
            || (out.value == CompleteErr && Failed in answers))
  {
    var m := Initial(page);
    var target := m.state.skip;
    assert WalkTo(s, 0) == [ListPage(None)];
    InvSendsPrefix(s, target, m);
    RunListsPage(s, target, m, answers);
  }

  /** Every answer other than a yield brings the walk closer to its end. */
  lemma {:induction false} StepDecreases(s: Server, target: nat, m: Machine, o: Inner)
    requires Inv(s, target, m) && Ready(m) && m.sent != [] && Answers(s, m, o) && !m.state.Done?
    requires !o.WantsIo?
    ensures Measure(s, target, Step(m, o).0) < Measure(s, target, m)
  {
    if m.state.Listing? && o.Page? {
      ListingStep(s, target, m, o);
    } else if m.state.Getting? && o.Got? {
      GettingStep(s, target, m, o);
    }
  }

  /** How many of the answers are not yields. */
  function Busy(answers: seq<Inner>): nat {
    if answers == [] then 0 else (if answers[0].WantsIo? then 0 else 1) + Busy(answers[1..])
  }

  lemma {:induction false} RunGoesOn(s: Server, target: nat, m: Machine, answers: seq<Inner>)
    requires Inv(s, target, m) && Ready(m) && !m.state.Done? && LawfulRun(s, m, answers)
    requires Run(m, answers).1.None?
    ensures Failed !in answers && Busy(answers) < Measure(s, target, m)
    decreases |answers|
  {
    if answers != [] {
      var o := answers[0];
      StepStaysReady(m, o);
      LastRequest(s, target, m);
      if m.state.Listing? && o.Page? {
        ListingStep(s, target, m, o);
      } else if m.state.Getting? && o.Got? {
        GettingStep(s, target, m, o);
      }
      RunGoesOn(s, target, Step(m, o).0, answers[1..]);
    }
  }

  /**
   A listing goes on only as long as it has to: a failed request ends it, and unless one fails it succeeds with
   at most one answer per page up to the one asked for and one per message of that page.
   */
  lemma {:induction false} PageWalkEnds(s: Server, page: Option<nat>, answers: seq<Inner>)
    requires Valid(s) && LawfulRun(s, Initial(page), answers)
    ensures var p := if page.None? || page.value == 0 then 1 else page.value;
      var messages := if p <= |s.pages| then |s.pages[p - 1]| else 0;
      var out := Run(Initial(page), answers).1;
      && (Failed in answers ==> out.Some?)
      && (Busy(answers) >= p + messages ==> out.Some?)
      && (Failed !in answers && out.Some? ==> out.value.CompleteOk?)
  {
    var m := Initial(page);
    PageWalk(s, page, answers);
    assert WalkTo(s, 0) == [ListPage(None)];
    if Run(m, answers).1.None? {
      RunGoesOn(s, m.state.skip, m, answers);
    }
  }

  /** A listing completes once: after it has, with a result or an error, every call is an error and asks for nothing. */
  lemma {:induction false} CompletesOnce(m: Machine, inner: seq<Inner>, later: seq<Inner>)
    requires Ready(m) && Loop(m, inner).2 != YieldIo
    ensures var done := Loop(m, inner).0; Ready(done) && Loop(done, later) == (done, later, CompleteErr)
    decreases |inner|
  {
    if !m.state.Done? && inner != [] {
      StepStaysReady(m, inner[0]);
      if Step(m, inner[0]).1.None? {
        CompletesOnce(Step(m, inner[0]).0, inner[1..], later);
      }
    }
  }

  /** One `Resume` is a run over the answers it consumes. */
  lemma {:induction false} ResumeIsRun(m: Machine, inner: seq<Inner>)
    requires Ready(m) && !m.state.Done?
    ensures var (m', rest, out) := Loop(m, inner);
      && |rest| <= |inner| && rest == inner[|inner| - |rest|..]
      && Run(m, inner[..|inner| - |rest|]) == (m', if out == YieldIo then None else Some(out))
    decreases |inner|
  {
    if inner != [] {
      var (m', out) := Step(m, inner[0]);
      StepStaysReady(m, inner[0]);
      var rest := Loop(m, inner).1;
      if out.None? {
        ResumeIsRun(m', inner[1..]);
        var n := |inner| - |rest|;
        assert inner[..n][1..] == inner[1..][..n - 1] && inner[..n][0] == inner[0];
      } else {
        assert inner[..1][1..] == [] && inner[..1][0] == inner[0];
      }
    } else {
      assert inner[..0] == [];
    }
  }
}
