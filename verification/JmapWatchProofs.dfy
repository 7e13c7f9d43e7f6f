/** What every run of the JMAP watch machine keeps. */
module JmapWatchProofs {
  import opened Wrappers
  import opened Flags
  import opened Envelopes
  import opened Events
  import opened JmapServer
  import opened JmapWatch

  // ----- invariants of the machine alone, for any answers whatever

  /** Events are suppressed exactly until the first fetch completed, and wait in the queue only while emitting. */
  ghost predicate MachineInv(m: Machine) {
    && (m.suppress <==> m.emailState.None?)
    && (m.pending != [] ==> m.state.Emitting? || m.state.Done?)
    && (m.suppress ==> m.pending == [])
  }

  predicate Fetching(m: Machine) {
    m.state.Subscribing? || m.state.FetchingChanges? || m.state.FetchingEmails?
  }

  /** The events one answer queues. */
  function StepPushes(m: Machine, o: Inner): seq<WatchEvent> {
    if m.state.Subscribing? && o.Ended? && !NeedsDiff(Observed(m.state.latest, m.accountId), m.emailState) then
      CycleEndEvents(m, m.state.latest)
    else if m.state.FetchingEmails? && o.EmailsOk? && !m.suppress then
      DiffEvents(m.shadow, m.mailboxId, o.rows, m.state.destroyed)
    else []
  }

  /** The events one call queues, in order. */
  function Pushes(m: Machine, inner: seq<Inner>): seq<WatchEvent>
    decreases |inner|, if m.state.Emitting? then 1 else 0
  {
    match m.state
    case Emitting => if m.pending != [] then [] else Pushes(m.(state := Subscribing(None)), inner)
    case Done => []
    case _ =>
      if inner == [] then []
      else
        var (m', out) := Step(m, inner[0]);
        StepPushes(m, inner[0]) + if out.Some? then [] else Pushes(m', inner[1..])
  }

  function EmittedBy(out: Output): seq<WatchEvent> {
    match out case YieldEvent(e) => [e] case _ => []
  }

  lemma {:induction false} StepKeepsMachineInv(m: Machine, o: Inner)
    requires MachineInv(m) && Fetching(m)
    ensures MachineInv(Step(m, o).0)
    ensures Step(m, o).1.None? ==> Step(m, o).0.pending == m.pending + StepPushes(m, o)
    ensures Step(m, o).1.Some? ==> Step(m, o).0.pending == m.pending && StepPushes(m, o) == []
    ensures Step(m, o).1.Some? ==> !Step(m, o).1.value.YieldEvent? && !Step(m, o).1.value.CompleteOk?
    ensures Step(m, o).1 == Some(CompleteErr) ==> Step(m, o).0.state.Done?
  {
  }

  /**
   One call keeps the machine invariant; what it emits followed by what it leaves queued is what
   was queued followed by what it pushed; an event needs a completed fetch; completion is final.
   */
  lemma {:induction false} LoopKeepsMachineInv(m: Machine, inner: seq<Inner>)
    requires MachineInv(m)
    requires !m.state.Done?
    ensures var (m', rest, out) := Loop(m, inner);
      && MachineInv(m')
      && EmittedBy(out) + m'.pending == m.pending + Pushes(m, inner)
      && (out.YieldEvent? ==> m'.emailState.Some?)
      && (m'.state.Done? <==> out.CompleteErr?)
      && !out.CompleteOk?
    decreases |inner|, if m.state.Emitting? then 1 else 0
  {
    match m.state {
      case Emitting =>
        if m.pending == [] {
          LoopKeepsMachineInv(m.(state := Subscribing(None)), inner);
        }
      case Done =>
      case _ =>
        assert Fetching(m);
        if inner != [] {
          StepKeepsMachineInv(m, inner[0]);
          var (m', out) := Step(m, inner[0]);
          if out.None? {
            LoopKeepsMachineInv(m', inner[1..]);
            assert m'.pending + Pushes(m', inner[1..])
                == m.pending + (StepPushes(m, inner[0]) + Pushes(m', inner[1..]));
          }
        }
    }
  }

  /** The same for a whole call; a shutdown, or a machine that is done, completes at once and emits nothing. */
  lemma {:induction false} ResumeKeepsMachineInv(m: Machine, shutdown: bool, inner: seq<Inner>)
    requires MachineInv(m)
    ensures var (m', rest, out) := Resumed(m, shutdown, inner);
      && MachineInv(m')
      && (out.YieldEvent? ==> m'.emailState.Some?)
      && (m'.state.Done? <==> out.CompleteOk? || out.CompleteErr?)
      && (shutdown || m.state.Done? ==> out == CompleteOk && m' == m.(state := Done))
      && (!shutdown && !m.state.Done? ==> EmittedBy(out) + m'.pending == m.pending + Pushes(m, inner))
  {
    if !shutdown && !m.state.Done? {
      LoopKeepsMachineInv(m, inner);
    }
  }

  /** A call of the watch loop: the shutdown flag and the answers available to it. */
  datatype Call = Call(shutdown: bool, inner: seq<Inner>)

  function RunCalls(m: Machine, calls: seq<Call>): Machine {
    if calls == [] then m
    else
      var last := calls[|calls| - 1];
      Resumed(RunCalls(m, calls[..|calls| - 1]), last.shutdown, last.inner).0
  }

  function EmittedIn(m: Machine, calls: seq<Call>): seq<WatchEvent> {
    if calls == [] then []
    else
      var before, last := calls[..|calls| - 1], calls[|calls| - 1];
      EmittedIn(m, before) + EmittedBy(Resumed(RunCalls(m, before), last.shutdown, last.inner).2)
  }

  function PushedIn(m: Machine, calls: seq<Call>): seq<WatchEvent> {
    if calls == [] then []
    else
      var before, last := calls[..|calls| - 1], calls[|calls| - 1];
      PushedIn(m, before) + PushedBy(RunCalls(m, before), last)
  }

  /** Whether a call does anything but end the watch. */
  predicate Runs(m: Machine, c: Call) {
    !c.shutdown && !m.state.Done?
  }

  function PushedBy(m: Machine, c: Call): seq<WatchEvent> {
    if Runs(m, c) then Pushes(m, c.inner) else []
  }

  /** Over every run: events leave in the order they were pushed, none lost, none invented. */
  lemma {:induction false} RunIsQueue(m: Machine, calls: seq<Call>)
    requires MachineInv(m)
    ensures MachineInv(RunCalls(m, calls))
    ensures EmittedIn(m, calls) + RunCalls(m, calls).pending == m.pending + PushedIn(m, calls)
    ensures RunCalls(m, calls).emailState.None? ==> EmittedIn(m, calls) == []
    ensures m.emailState.Some? ==> RunCalls(m, calls).emailState.Some?
  {
    if calls != [] {
      var before, last := calls[..|calls| - 1], calls[|calls| - 1];
      RunIsQueue(m, before);
      var now := RunCalls(m, before);
      var (m', rest, out) := Resumed(now, last.shutdown, last.inner);
      CallIsQueue(now, last);
      assert RunCalls(m, calls) == m' && EmittedIn(m, calls) == EmittedIn(m, before) + EmittedBy(out);
      QueueStep(EmittedIn(m, before), now.pending, PushedBy(now, last), EmittedBy(out), m'.pending);
      PushedUnfolds(m, calls);
    }
  }

  lemma {:induction false} PushedUnfolds(m: Machine, calls: seq<Call>)
    requires calls != []
    ensures var before, last := calls[..|calls| - 1], calls[|calls| - 1];
      m.pending + PushedIn(m, calls) == (m.pending + PushedIn(m, before)) + PushedBy(RunCalls(m, before), last)
  {
  }

  lemma {:induction false} CallIsQueue(m: Machine, c: Call)
    requires MachineInv(m)
    ensures var (m', rest, out) := Resumed(m, c.shutdown, c.inner);
      && MachineInv(m')
      && EmittedBy(out) + m'.pending == m.pending + PushedBy(m, c)
      && (m'.emailState.None? ==> EmittedBy(out) == [])
      && (m.emailState.Some? ==> m'.emailState.Some?)
  {
    ResumeKeepsMachineInv(m, c.shutdown, c.inner);
    if !c.shutdown && !m.state.Done? && m.emailState.Some? {
      LoopKeepsEmailState(m, c.inner);
    }
  }

  /** The same from the start, with nothing emitted before the first completed fetch. */
  lemma {:induction false} RunIsFifo(mailboxId: string, accountId: string, calls: seq<Call>)
    ensures var m := Initial(mailboxId, accountId);
      && MachineInv(RunCalls(m, calls))
      && EmittedIn(m, calls) + RunCalls(m, calls).pending == PushedIn(m, calls)
      && (RunCalls(m, calls).emailState.None? ==> EmittedIn(m, calls) == [])
  {
    var m := Initial(mailboxId, accountId);
    RunIsQueue(m, calls);
    assert m.pending + PushedIn(m, calls) == PushedIn(m, calls);
  }

  lemma {:induction false} QueueStep(
    emitted: seq<WatchEvent>, pending: seq<WatchEvent>, pushed: seq<WatchEvent>,
    out: seq<WatchEvent>, pending': seq<WatchEvent>)
    requires out + pending' == pending + pushed
    ensures (emitted + out) + pending' == (emitted + pending) + pushed
  {
    assert (emitted + out) + pending' == emitted + (out + pending');
    assert (emitted + pending) + pushed == emitted + (pending + pushed);
  }

  /** The checkpoint, once there, stays. */
  lemma {:induction false} LoopKeepsEmailState(m: Machine, inner: seq<Inner>)
    requires m.emailState.Some?
    ensures Loop(m, inner).0.emailState.Some?
    decreases |inner|, if m.state.Emitting? then 1 else 0
  {
    match m.state {
      case Emitting =>
        if m.pending == [] {
          LoopKeepsEmailState(m.(state := Subscribing(None)), inner);
        }
      case Done =>
      case _ =>
        if inner != [] && Step(m, inner[0]).1.None? {
          LoopKeepsEmailState(Step(m, inner[0]).0, inner[1..]);
        }
    }
  }

  // ----- staleness

  ghost predicate Visible(e: Email, mailboxId: string) {
    mailboxId in e.mailboxIds && e.mailboxIds[mailboxId]
  }

  /** The shadow entry of `id` is what state `now` shows in the mailbox. */
  ghost predicate RightAbout(shadow: Shadow, mailboxId: string, h: History<Email>, now: nat, id: string)
    requires now < |h|
  {
    if id in h[now] && Visible(h[now][id], mailboxId)
    then id in shadow && shadow[id] == SetKeywords(h[now][id].keywords)
    else id !in shadow
  }

  ghost predicate ShadowMirrors(shadow: Shadow, mailboxId: string, h: History<Email>, now: nat)
    requires now < |h|
  {
    forall id :: RightAbout(shadow, mailboxId, h, now, id)
  }

  /** The shadow may be wrong only about ids touched since state `k`. */
  ghost predicate ShadowKnown(shadow: Shadow, mailboxId: string, h: History<Email>, k: nat, now: nat)
    requires k <= now < |h|
  {
    && (forall id | Stable(h, k, now, id) :: RightAbout(shadow, mailboxId, h, now, id))
    && (forall id | id in shadow :: id in h[k])
  }

  /** The server's history starts from an empty account, whose state the empty token names. */
  ghost predicate Lawful(h: History<Email>, tokens: seq<string>) {
    && |h| == |tokens| > 0
    && NoReuse(h) && Distinct(tokens)
    && h[0] == map[] && tokens[0] == ""
  }

  /** The shadow is known at the state `k` the machine will ask changes from; a batch in flight covers `k..j`. */
  ghost predicate Inv(h: History<Email>, tokens: seq<string>, m: Machine, k: nat, now: nat)
    requires |h| == |tokens|
  {
    && k <= now < |h|
    && tokens[k] == Since(m.emailState)
    && ShadowKnown(m.shadow, m.mailboxId, h, k, now)
    && (m.state.FetchingChanges? ==> m.state.since == Since(m.emailState))
    && (m.state.FetchingEmails? ==> exists j: nat :: InFlight(h, tokens, m.state, k, j, now))
  }

  ghost predicate InFlight(h: History<Email>, tokens: seq<string>, state: State, k: nat, j: nat, now: nat)
    requires |h| == |tokens| && state.FetchingEmails? && k <= now < |h|
  {
    && k <= j <= now && tokens[j] == state.newState
    && exists created, updated ::
         created + updated == state.ids && Covers(h, k, j, created, updated, state.destroyed)
  }

  /** What the server may answer at state `now`; everything else is unconstrained. */
  ghost predicate Answers(h: History<Email>, tokens: seq<string>, m: Machine, now: nat, o: Inner)
    requires now < |h| == |tokens|
  {
    match (m.state, o)
    case (FetchingChanges(since), ChangesOk(c)) => AnswersChanges(h, tokens, now, since, c)
    case (FetchingEmails(ids, _, _), EmailsOk(rows)) => AnswersGet(h, now, ids, true, rows)
    case _ => true
  }

  lemma {:induction false} ShadowKnownSurvives(
    shadow: Shadow, mailboxId: string, h: History<Email>, k: nat, now: nat, later: nat)
    requires k <= now <= later < |h| && ShadowKnown(shadow, mailboxId, h, k, now)
    ensures ShadowKnown(shadow, mailboxId, h, k, later)
  {
    forall id | Stable(h, k, later, id) ensures RightAbout(shadow, mailboxId, h, later, id) {
      StableChain(h, k, now, later, id);
      assert At(h, now, id) == At(h, later, id);
    }
  }

  lemma {:induction false} TimePasses(h: History<Email>, tokens: seq<string>, m: Machine, k: nat, now: nat, later: nat)
    requires |h| == |tokens| && Inv(h, tokens, m, k, now) && now <= later < |h|
    ensures Inv(h, tokens, m, k, later)
  {
    ShadowKnownSurvives(m.shadow, m.mailboxId, h, k, now, later);
    if m.state.FetchingEmails? {
      var j: nat :| InFlight(h, tokens, m.state, k, j, now);
      assert InFlight(h, tokens, m.state, k, j, later);
    }
  }

  ghost predicate Fetched(rows: seq<EmailRow>, id: string) {
    exists row :: row in rows && row.id == Some(id)
  }

  /** Rows that are current put every id they name right, and leave the others alone. */
  lemma {:induction false} ShadowRowsAt(shadow: Shadow, mailboxId: string, h: History<Email>, g: nat, ids: seq<string>,
                                        rows: seq<EmailRow>, id: string)
    requires g < |h| && forall row | row in rows :: RowIsCurrent(h, g, ids, true, row)
    ensures var after := ShadowRows(shadow, mailboxId, rows);
      if Fetched(rows, id) then RightAbout(after, mailboxId, h, g, id)
      else (id in after <==> id in shadow) && (id in shadow ==> after[id] == shadow[id])
  {
    if rows != [] {
      var before, last := rows[..|rows| - 1], rows[|rows| - 1];
      assert rows == before + [last];
      ShadowRowsAt(shadow, mailboxId, h, g, ids, before, id);
      assert RowIsCurrent(h, g, ids, true, last);
      assert Fetched(rows, id) <==> Fetched(before, id) || last.id == Some(id);
    }
  }

  lemma {:induction false} ShadowDestroyedAt(shadow: Shadow, ids: seq<string>, id: string)
    ensures id in ShadowDestroyed(shadow, ids) <==> id in shadow && id !in ids
    ensures id in ShadowDestroyed(shadow, ids) ==> ShadowDestroyed(shadow, ids)[id] == shadow[id]
  {
    if ids != [] {
      assert ids == ids[..|ids| - 1] + [ids[|ids| - 1]];
      ShadowDestroyedAt(shadow, ids[..|ids| - 1], id);
    }
  }

  /** Applying a fetched batch moves the shadow from state `k` to state `j`. */
  lemma {:induction false} BatchKeepsKnown(
    shadow: Shadow, mailboxId: string, h: History<Email>, k: nat, j: nat, g: nat,
    created: seq<string>, updated: seq<string>, destroyed: seq<string>, rows: seq<EmailRow>)
    requires k <= j <= g < |h| && NoReuse(h)
    requires ShadowKnown(shadow, mailboxId, h, k, g)
    requires Covers(h, k, j, created, updated, destroyed)
    requires AnswersGet(h, g, created + updated, true, rows)
    ensures ShadowKnown(ShadowAfter(shadow, mailboxId, rows, destroyed), mailboxId, h, j, g)
  {
    var after := ShadowAfter(shadow, mailboxId, rows, destroyed);
    forall id | id in after ensures id in h[j] {
      ShadowRowsAt(shadow, mailboxId, h, g, created + updated, rows, id);
      ShadowDestroyedAt(ShadowRows(shadow, mailboxId, rows), destroyed, id);
      if Fetched(rows, id) {
        var row :| row in rows && row.id == Some(id);
        assert RowIsCurrent(h, g, created + updated, true, row);
        var p: nat :| p <= j && id in h[p];
        NeverReborn(h, p, j, g, id);
      }
    }
    forall id | Stable(h, j, g, id) ensures RightAbout(after, mailboxId, h, g, id) {
      BatchRightAbout(shadow, mailboxId, h, k, j, g, created, updated, destroyed, rows, id);
    }
  }

  lemma {:induction false} BatchRightAbout(
    shadow: Shadow, mailboxId: string, h: History<Email>, k: nat, j: nat, g: nat,
    created: seq<string>, updated: seq<string>, destroyed: seq<string>, rows: seq<EmailRow>, id: string)
    requires k <= j <= g < |h| && NoReuse(h)
    requires ShadowKnown(shadow, mailboxId, h, k, g)
    requires Covers(h, k, j, created, updated, destroyed)
    requires AnswersGet(h, g, created + updated, true, rows)
    requires Stable(h, j, g, id)
    ensures RightAbout(ShadowAfter(shadow, mailboxId, rows, destroyed), mailboxId, h, g, id)
  {
    assert At(h, j, id) == At(h, g, id);
    ShadowRowsAt(shadow, mailboxId, h, g, created + updated, rows, id);
    ShadowDestroyedAt(ShadowRows(shadow, mailboxId, rows), destroyed, id);
    if id in h[g] {
      if !Fetched(rows, id) {
        assert id !in created + updated && id in h[k];
        StableChain(h, k, j, g, id);
      }
    }
  }

  /** The state a lawful answer leads to, when `since` names state `k`. */
  lemma {:induction false} ChangesPosition(
    h: History<Email>, tokens: seq<string>, k: nat, now: nat, since: string, c: Changes)
    returns (j: nat)
    requires |h| == |tokens| && k <= now < |h| && Distinct(tokens)
    requires tokens[k] == since && AnswersChanges(h, tokens, now, since, c)
    ensures k <= j <= now && tokens[j] == c.newState
    ensures Covers(h, k, j, c.created, c.updated, c.destroyed)
    ensures !c.hasMore ==> j == now
  {
    var i: nat;
    i, j :| i <= j <= now && tokens[i] == since && tokens[j] == c.newState
      && Covers(h, i, j, c.created, c.updated, c.destroyed) && (if c.hasMore then i < j else j == now);
    assert i == k;
  }

  /** Every lawful answer keeps the staleness invariant, at the same state or a later one. */
  lemma {:induction false} StepKeepsInv(
    h: History<Email>, tokens: seq<string>, m: Machine, k: nat, now: nat, o: Inner)
    returns (k': nat)
    requires Lawful(h, tokens) && Inv(h, tokens, m, k, now) && Fetching(m) && Answers(h, tokens, m, now, o)
    ensures k <= k' && (!Step(m, o).0.state.Done? ==> Inv(h, tokens, Step(m, o).0, k', now))
  {
    k' := k;
    if m.state.FetchingChanges? && o.ChangesOk? {
      var j := ChangesPosition(h, tokens, k, now, m.state.since, o.changes);
      assert InFlight(h, tokens, DispatchGet(o.changes), k, j, now);
    } else if m.state.FetchingEmails? && o.EmailsOk? {
      var j: nat :| InFlight(h, tokens, m.state, k, j, now);
      var created, updated :| created + updated == m.state.ids && Covers(h, k, j, created, updated, m.state.destroyed);
      BatchKeepsKnown(m.shadow, m.mailboxId, h, k, j, now, created, updated, m.state.destroyed, o.rows);
      k' := j;
    }
  }

  /** The answers consumed by one call are lawful, each at its own state of the server. */
  ghost predicate LawfulScript(
    h: History<Email>, tokens: seq<string>, m: Machine, now: nat, inner: seq<Inner>, times: seq<nat>)
    requires |h| == |tokens|
    decreases |inner|, if m.state.Emitting? then 1 else 0
  {
    match m.state
    case Emitting => m.pending != [] || LawfulScript(h, tokens, m.(state := Subscribing(None)), now, inner, times)
    case Done => true
    case _ =>
      if inner == [] then true
      else
        && times != [] && now <= times[0] < |h|
        && Answers(h, tokens, m, times[0], inner[0])
        && (Step(m, inner[0]).1.None? ==>
              LawfulScript(h, tokens, Step(m, inner[0]).0, times[0], inner[1..], times[1..]))
  }

  /** The state of the server at the last answer a call consumed. */
  ghost function EndTime(m: Machine, now: nat, inner: seq<Inner>, times: seq<nat>): nat
    decreases |inner|, if m.state.Emitting? then 1 else 0
  {
    match m.state
    case Emitting => if m.pending != [] then now else EndTime(m.(state := Subscribing(None)), now, inner, times)
    case Done => now
    case _ =>
      if inner == [] || times == [] then now
      else if Step(m, inner[0]).1.Some? then times[0]
      else EndTime(Step(m, inner[0]).0, times[0], inner[1..], times[1..])
  }

  /** Time passes, then one answer arrives. */
  lemma {:induction false} AnswerKeepsInv(
    h: History<Email>, tokens: seq<string>, m: Machine, k: nat, now: nat, next: nat, o: Inner) returns (k': nat)
    requires Lawful(h, tokens) && Inv(h, tokens, m, k, now) && Fetching(m)
    requires now <= next < |h| && Answers(h, tokens, m, next, o)
    ensures k <= k'
    ensures !Step(m, o).0.state.Done? ==> Inv(h, tokens, Step(m, o).0, k', next)
  {
    TimePasses(h, tokens, m, k, now, next);
    k' := StepKeepsInv(h, tokens, m, k, next, o);
  }

  /** One call keeps the staleness invariant unless it ends the watch. */
  lemma {:induction false} LoopKeepsInv(
    h: History<Email>, tokens: seq<string>, m: Machine, k: nat, now: nat, inner: seq<Inner>, times: seq<nat>)
    returns (k': nat)
    requires Lawful(h, tokens) && Inv(h, tokens, m, k, now)
    requires LawfulScript(h, tokens, m, now, inner, times)
    ensures now <= EndTime(m, now, inner, times) < |h|
    ensures !Loop(m, inner).0.state.Done? ==>
      k <= k' && Inv(h, tokens, Loop(m, inner).0, k', EndTime(m, now, inner, times))
    decreases |inner|, if m.state.Emitting? then 1 else 0
  {
    k' := k;
    match m.state {
      case Emitting =>
        if m.pending == [] {
          k' := LoopKeepsInv(h, tokens, m.(state := Subscribing(None)), k, now, inner, times);
        }
      case Done =>
      case _ =>
        if inner != [] {
          k' := AnswerKeepsInv(h, tokens, m, k, now, times[0], inner[0]);
          var (m', out) := Step(m, inner[0]);
          if out.None? {
            k' := LoopKeepsInv(h, tokens, m', k', times[0], inner[1..], times[1..]);
          }
        }
    }
  }

  /** A call made when the server is at state `start`, with the states at which its answers were given. */
  datatype TimedCall = TimedCall(start: nat, shutdown: bool, inner: seq<Inner>, times: seq<nat>)

  ghost function EndOf(m: Machine, c: TimedCall): nat {
    if c.shutdown then c.start else EndTime(m, c.start, c.inner, c.times)
  }

  ghost predicate LawfulRun(h: History<Email>, tokens: seq<string>, m: Machine, now: nat, calls: seq<TimedCall>)
    requires |h| == |tokens|
    decreases |calls|
  {
    if calls == [] then true
    else
      var c := calls[0];
      && now <= c.start < |h|
      && (c.shutdown || LawfulScript(h, tokens, m, c.start, c.inner, c.times))
      && LawfulRun(h, tokens, Resumed(m, c.shutdown, c.inner).0, EndOf(m, c), calls[1..])
  }

  ghost function RunEnd(m: Machine, now: nat, calls: seq<TimedCall>): (Machine, nat)
    decreases |calls|
  {
    if calls == [] then (m, now)
    else
      var c := calls[0];
      RunEnd(Resumed(m, c.shutdown, c.inner).0, EndOf(m, c), calls[1..])
  }

  lemma {:induction false} RunKeepsInv(
    h: History<Email>, tokens: seq<string>, m: Machine, k: nat, now: nat, calls: seq<TimedCall>) returns (k': nat)
    requires Lawful(h, tokens) && LawfulRun(h, tokens, m, now, calls)
    requires m.state.Done? || Inv(h, tokens, m, k, now)
    ensures var (m', now') := RunEnd(m, now, calls); m'.state.Done? || Inv(h, tokens, m', k', now')
    decreases |calls|
  {
    k' := k;
    if calls != [] {
      var c := calls[0];
      var m1 := Resumed(m, c.shutdown, c.inner).0;
      if !m1.state.Done? {
        TimePasses(h, tokens, m, k, now, c.start);
        k' := LoopKeepsInv(h, tokens, m, k, c.start, c.inner, c.times);
      }
      k' := RunKeepsInv(h, tokens, m1, k', EndOf(m, c), calls[1..]);
    }
  }

  /**
   Staleness: in every state the watch can reach and that is not done, the shadow is wrong only about
   ids touched since the state the next `Email/changes` will ask from (or covered by the batch in flight).
   */
  lemma {:induction false} WatchIsNeverStale(
    h: History<Email>, tokens: seq<string>, mailboxId: string, accountId: string, now: nat, calls: seq<TimedCall>)
    returns (k: nat)
    requires Lawful(h, tokens) && now < |h|
    requires LawfulRun(h, tokens, Initial(mailboxId, accountId), now, calls)
    ensures var (m, end) := RunEnd(Initial(mailboxId, accountId), now, calls);
      m.state.Done? || Inv(h, tokens, m, k, end)
  {
    var m := Initial(mailboxId, accountId);
    forall id | Stable(h, 0, now, id) ensures RightAbout(m.shadow, mailboxId, h, now, id) {
      assert At(h, 0, id) == At(h, now, id);
    }
    k := RunKeepsInv(h, tokens, m, 0, now, calls);
  }

  /** An untruncated cycle during which the account does not change leaves the shadow equal to the mailbox. */
  lemma {:induction false} QuietCycleMirrors(
    h: History<Email>, tokens: seq<string>, m: Machine, k: nat, now: nat, c: Changes, rows: seq<EmailRow>)
    requires Lawful(h, tokens) && Inv(h, tokens, m, k, now) && m.state.FetchingChanges?
    requires Answers(h, tokens, m, now, ChangesOk(c)) && !c.hasMore
    requires Answers(h, tokens, Step(m, ChangesOk(c)).0, now, EmailsOk(rows))
    ensures var m' := Step(Step(m, ChangesOk(c)).0, EmailsOk(rows)).0;
      && ShadowMirrors(m'.shadow, m.mailboxId, h, now)
      && m'.emailState == Some(tokens[now])
  {
    var m1 := Step(m, ChangesOk(c)).0;
    var m2 := Step(m1, EmailsOk(rows)).0;
    var j := ChangesPosition(h, tokens, k, now, m.state.since, c);
    BatchKeepsKnown(m.shadow, m.mailboxId, h, k, now, now, c.created, c.updated, c.destroyed, rows);
    assert m2.shadow == ShadowAfter(m.shadow, m.mailboxId, rows, c.destroyed);
    forall id ensures RightAbout(m2.shadow, m.mailboxId, h, now, id) {
      assert Stable(h, now, now, id);
    }
  }

  /** The notification says that the account's emails are in this state. */
  ghost predicate Names(change: StateChange, accountId: string, token: string) {
    && accountId in change.changed && "Email" in change.changed[accountId]
    && change.changed[accountId]["Email"] == token
  }

  /**
   When a subscription round ends on the server's present state, the machine either asks for exactly
   the changes it is missing, for instance after a truncated round, or is missing none.
   */
  lemma {:induction false} CycleEndAsksOrIsCurrent(
    h: History<Email>, tokens: seq<string>, m: Machine, k: nat, now: nat, change: StateChange)
    requires Lawful(h, tokens) && Inv(h, tokens, m, k, now) && m.state == Subscribing(Some(change))
    requires Names(change, m.accountId, tokens[now])
    ensures var m' := Step(m, Ended).0;
      || m'.state == FetchingChanges(tokens[k])
      || (m'.state.Emitting? && ShadowMirrors(m'.shadow, m.mailboxId, h, now))
  {
    var m' := Step(m, Ended).0;
    if m'.state.Emitting? {
      assert k == now;
      forall id ensures RightAbout(m'.shadow, m.mailboxId, h, now, id) {
        assert Stable(h, now, now, id);
      }
    }
  }

  /** Until the first fetch, every round ends by asking for everything, notified or not. */
  lemma {:induction false} BootstrapAsks(m: Machine)
    requires m.state.Subscribing? && m.emailState.None?
    ensures Step(m, Ended) == (m.(state := FetchingChanges("")), None)
  {
  }

  function FramesOf(changes: seq<StateChange>): seq<Inner> {
    seq(|changes|, i requires 0 <= i < |changes| => Frame(changes[i]))
  }

  /** Of several notifications in one round, the last one counts. */
  lemma {:induction false} LastFrameCounts(m: Machine, changes: seq<StateChange>, rest: seq<Inner>)
    requires m.state.Subscribing? && changes != []
    ensures Loop(m, FramesOf(changes) + rest) == Loop(m.(state := Subscribing(Some(changes[|changes| - 1]))), rest)
    decreases |changes|
  {
    var inner := FramesOf(changes) + rest;
    var m' := m.(state := Subscribing(Some(changes[0])));
    assert inner[0] == Frame(changes[0]) && inner[1..] == FramesOf(changes[1..]) + rest;
    assert Loop(m, inner) == Loop(m', inner[1..]);
    if |changes| > 1 {
      LastFrameCounts(m', changes[1..], rest);
    } else {
      assert FramesOf(changes[1..]) + rest == rest;
    }
  }

  /** An answer of the kind the state waits for. */
  predicate Fits(m: Machine, o: Inner) {
    || o.WantsRead? || o.WantsWrite?
    || (m.state.Subscribing? && (o.Frame? || o.Ended?))
    || (m.state.FetchingChanges? && o.ChangesOk?)
    || (m.state.FetchingEmails? && o.EmailsOk?)
  }

  /** The watch ends with an error exactly when a coroutine fails (or answers what was not asked). */
  lemma {:induction false} StepFailsIff(m: Machine, o: Inner)
    requires Fetching(m)
    ensures Step(m, o).1 == Some(CompleteErr) <==> !Fits(m, o)
    ensures Step(m, o).1 in {None, Some(YieldRead), Some(YieldWrite), Some(CompleteErr)}
    ensures Step(m, o).1.Some? && Step(m, o).1.value.YieldRead? <==> o.WantsRead?
    ensures Step(m, o).1.Some? && Step(m, o).1.value.YieldWrite? <==> o.WantsWrite?
  {
  }

  // ----- replay

  /** The shadow as a consumer sees it: keywords up to flag normalisation. */
  function Norm(shadow: Shadow): Picture {
    map id | id in shadow :: KeysOf(shadow[id])
  }

  /** No keyword that goes away normalises to the flag of a keyword that stays or comes. */
  ghost predicate NoClash(before: set<string>, after: set<string>) {
    KeysOf(before - after) !! KeysOf(after)
  }

  /** The keywords of `ks` normalise to distinct flags. */
  ghost predicate Separates(ks: set<string>) {
    forall a, b | a in ks && b in ks && KeyOf(a) == KeyOf(b) :: a == b
  }

  /** The two flag events of one update turn the old flags into the new ones exactly when nothing clashes. */
  lemma {:induction false} ToggleReplaysIff(before: set<string>, after: set<string>)
    ensures (KeysOf(before) + KeysOf(after - before)) - KeysOf(before - after) == KeysOf(after)
       <==> NoClash(before, after)
  {
    var gone := KeysOf(before - after);
    assert KeysOf(before) + KeysOf(after - before) == KeysOf(after) + gone by {
      assert forall k | k in before :: k in after || k in before - after;
      assert forall k | k in after :: k in before || k in after - before;
    }
  }

  /** The row does not update a known email whose keywords clash. */
  ghost predicate RowClashFree(shadow: Shadow, mailboxId: string, row: EmailRow) {
    row.id.Some? && InMailbox(row, mailboxId) && row.id.value in shadow
    ==> NoClash(shadow[row.id.value], RowKeywords(row))
  }

  lemma {:induction false} NormInsert(shadow: Shadow, id: string, keywords: set<string>)
    ensures Norm(shadow[id := keywords]) == Norm(shadow)[id := KeysOf(keywords)]
    ensures Norm(shadow - {id}) == Norm(shadow) - {id}
  {
  }

  /** The events of one row replay to the new shadow exactly when the row does not clash. */
  lemma {:induction false} RowReplaysIff(shadow: Shadow, mailboxId: string, row: EmailRow)
    ensures Replay(Norm(shadow), RowEvents(shadow, mailboxId, row)) == Norm(ShadowRow(shadow, mailboxId, row))
       <==> RowClashFree(shadow, mailboxId, row)
  {
    if row.id.Some? && InMailbox(row, mailboxId) && row.id.value in shadow {
      UpdateReplaysIff(shadow, mailboxId, row);
    } else if row.id.Some? {
      var id := row.id.value;
      var events := RowEvents(shadow, mailboxId, row);
      ReplayAtMostOne(Norm(shadow), events);
      NormInsert(shadow, id, RowKeywords(row));
      assert EnvelopeFrom(row).flags == KeysOf(RowKeywords(row));
      if id !in shadow {
        assert shadow - {id} == shadow;
      }
    }
  }

  lemma {:induction false} UpdateReplaysIff(shadow: Shadow, mailboxId: string, row: EmailRow)
    requires row.id.Some? && InMailbox(row, mailboxId) && row.id.value in shadow
    ensures Replay(Norm(shadow), RowEvents(shadow, mailboxId, row)) == Norm(ShadowRow(shadow, mailboxId, row))
       <==> NoClash(shadow[row.id.value], RowKeywords(row))
  {
    var id, p := row.id.value, Norm(shadow);
    var before, after := shadow[id], RowKeywords(row);
    var plus := if after - before == {} then [] else [FlagsAdded(mailboxId, id, KeysOf(after - before))];
    var minus := if before - after == {} then [] else [FlagsRemoved(mailboxId, id, KeysOf(before - after))];
    ReplayConcat(p, plus, minus);
    ReplayAtMostOne(p, plus);
    ReplayAtMostOne(Replay(p, plus), minus);
    var kept, grown := KeysOf(before), KeysOf(before) + KeysOf(after - before);
    assert p == p[id := kept];
    if after - before == {} {
      assert grown == kept;
    }
    if before - after == {} {
      assert grown - KeysOf(before - after) == grown;
    }
    assert Replay(p, plus) == p[id := grown];
    assert Replay(p, plus + minus) == p[id := grown - KeysOf(before - after)];
    ToggleReplaysIff(before, after);
    NormInsert(shadow, id, after);
    if Replay(p, plus + minus) == p[id := KeysOf(after)] {
      assert Replay(p, plus + minus)[id] == KeysOf(after);
    }
  }

  /** `seen` and `$seen` are the same flag: swapping the spellings emits an addition, then a removal, and loses it. */
  lemma {:induction false} SeenSpellingsLoseTheFlag()
    ensures var shadow: Shadow := map["m" := {"$seen"}];
      var row := EmailRow(Some("m"), Some(map["seen" := true]), Some(map["box" := true]), EMPTY_HEADER);
      Replay(Norm(shadow), RowEvents(shadow, "box", row)) != Norm(ShadowRow(shadow, "box", row))
  {
    var shadow: Shadow := map["m" := {"$seen"}];
    var row := EmailRow(Some("m"), Some(map["seen" := true]), Some(map["box" := true]), EMPTY_HEADER);
    assert RowKeywords(row) == {"seen"};
    assert LowerAscii(StripMarker("$seen")) == "seen" && LowerAscii(StripMarker("seen")) == "seen";
    assert KeyOf("$seen") == KeyOf("seen");
    assert "$seen" in {"$seen"} - RowKeywords(row);
    assert KeyOf("$seen") in KeysOf({"$seen"} - RowKeywords(row)) && KeyOf("seen") in KeysOf(RowKeywords(row));
    RowReplaysIff(shadow, "box", row);
  }

  // ----- replay over whole runs

  /** No row of the batch clashes when its turn comes. */
  ghost predicate RowsClashFree(shadow: Shadow, mailboxId: string, rows: seq<EmailRow>) {
    forall n: nat | n < |rows| :: RowClashFree(ShadowRows(shadow, mailboxId, rows[..n]), mailboxId, rows[n])
  }

  /** A consumer that holds `p` is in step with the shadow after every row of the batch. */
  ghost predicate RowsInStep(p: Picture, shadow: Shadow, mailboxId: string, rows: seq<EmailRow>) {
    forall n: nat | n <= |rows| :: InStepAfter(p, shadow, mailboxId, rows, n)
  }

  ghost predicate InStepAfter(p: Picture, shadow: Shadow, mailboxId: string, rows: seq<EmailRow>, n: nat)
    requires n <= |rows|
  {
    Replay(p, RowsEvents(shadow, mailboxId, rows[..n])) == Norm(ShadowRows(shadow, mailboxId, rows[..n]))
  }

  /** In step before a row, a consumer is in step after it exactly when the row does not clash. */
  lemma {:induction false} OneMoreRow(p: Picture, shadow: Shadow, mailboxId: string, rows: seq<EmailRow>, n: nat)
    requires n < |rows| && InStepAfter(p, shadow, mailboxId, rows, n)
    ensures InStepAfter(p, shadow, mailboxId, rows, n + 1)
       <==> RowClashFree(ShadowRows(shadow, mailboxId, rows[..n]), mailboxId, rows[n])
  {
    assert rows[..n + 1][..n] == rows[..n];
    var mid := ShadowRows(shadow, mailboxId, rows[..n]);
    RowReplaysIff(mid, mailboxId, rows[n]);
    ReplayConcat(p, RowsEvents(shadow, mailboxId, rows[..n]), RowEvents(mid, mailboxId, rows[n]));
  }

  lemma {:induction false} ClashFreeStaysInStep(
    p: Picture, shadow: Shadow, mailboxId: string, rows: seq<EmailRow>, n: nat)
    requires p == Norm(shadow) && RowsClashFree(shadow, mailboxId, rows) && n <= |rows|
    ensures InStepAfter(p, shadow, mailboxId, rows, n)
  {
    if n == 0 {
      assert rows[..0] == [];
    } else {
      ClashFreeStaysInStep(p, shadow, mailboxId, rows, n - 1);
      OneMoreRow(p, shadow, mailboxId, rows, n - 1);
    }
  }

  lemma {:induction false} RowsReplayIff(p: Picture, shadow: Shadow, mailboxId: string, rows: seq<EmailRow>)
    requires p == Norm(shadow)
    ensures RowsInStep(p, shadow, mailboxId, rows) <==> RowsClashFree(shadow, mailboxId, rows)
  {
    if RowsClashFree(shadow, mailboxId, rows) {
      forall n: nat | n <= |rows| ensures InStepAfter(p, shadow, mailboxId, rows, n) {
        ClashFreeStaysInStep(p, shadow, mailboxId, rows, n);
      }
    }
    if RowsInStep(p, shadow, mailboxId, rows) {
      forall n: nat | n < |rows| ensures RowClashFree(ShadowRows(shadow, mailboxId, rows[..n]), mailboxId, rows[n]) {
        assert InStepAfter(p, shadow, mailboxId, rows, n) && InStepAfter(p, shadow, mailboxId, rows, n + 1);
        OneMoreRow(p, shadow, mailboxId, rows, n);
      }
    }
  }

  lemma {:induction false} DestroyedReplay(shadow: Shadow, mailboxId: string, ids: seq<string>)
    ensures Replay(Norm(shadow), DestroyedEvents(shadow, mailboxId, ids)) == Norm(ShadowDestroyed(shadow, ids))
  {
    if ids != [] {
      var before, last := ids[..|ids| - 1], ids[|ids| - 1];
      DestroyedReplay(shadow, mailboxId, before);
      var mid := ShadowDestroyed(shadow, before);
      var more := if last in mid then [EnvelopeRemoved(mailboxId, last)] else [];
      ReplayConcat(Norm(shadow), DestroyedEvents(shadow, mailboxId, before), more);
      ReplayAtMostOne(Norm(mid), more);
      assert Norm(mid - {last}) == Norm(mid) - {last};
    }
  }

  /** The answer applies a batch. */
  predicate Applies(m: Machine, o: Inner) {
    m.state.FetchingEmails? && o.EmailsOk?
  }

  ghost predicate StepClashFree(m: Machine, o: Inner) {
    Applies(m, o) ==> RowsClashFree(m.shadow, m.mailboxId, o.rows)
  }

  ghost predicate StepInStep(p: Picture, m: Machine, o: Inner) {
    Applies(m, o) ==> RowsInStep(p, m.shadow, m.mailboxId, o.rows)
  }

  lemma {:induction false} StepReplaysIff(p: Picture, m: Machine, o: Inner)
    requires Fetching(m) && !m.suppress && p == Norm(m.shadow)
    ensures StepInStep(p, m, o) <==> StepClashFree(m, o)
    ensures StepClashFree(m, o) ==> Replay(p, StepPushes(m, o)) == Norm(Step(m, o).0.shadow)
    ensures !Step(m, o).0.suppress
  {
    if Applies(m, o) {
      RowsReplayIff(p, m.shadow, m.mailboxId, o.rows);
      var mid := ShadowRows(m.shadow, m.mailboxId, o.rows);
      DestroyedReplay(mid, m.mailboxId, m.state.destroyed);
      ReplayConcat(p, RowsEvents(m.shadow, m.mailboxId, o.rows), DestroyedEvents(mid, m.mailboxId, m.state.destroyed));
      assert o.rows[..|o.rows|] == o.rows;
      assert RowsInStep(p, m.shadow, m.mailboxId, o.rows) ==> InStepAfter(p, m.shadow, m.mailboxId, o.rows, |o.rows|);
    } else {
      ReplayAtMostOne(p, StepPushes(m, o));
    }
  }

  /** No row that one call applies clashes when its turn comes. */
  ghost predicate LoopClashFree(m: Machine, inner: seq<Inner>)
    decreases |inner|, if m.state.Emitting? then 1 else 0
  {
    match m.state
    case Emitting => m.pending != [] || LoopClashFree(m.(state := Subscribing(None)), inner)
    case Done => true
    case _ =>
      inner == []
      || (StepClashFree(m, inner[0]) && (Step(m, inner[0]).1.Some? || LoopClashFree(Step(m, inner[0]).0, inner[1..])))
  }

  /** A consumer that holds `p` and folds what one call pushes is in step with the shadow after every row. */
  ghost predicate LoopInStep(p: Picture, m: Machine, inner: seq<Inner>)
    decreases |inner|, if m.state.Emitting? then 1 else 0
  {
    match m.state
    case Emitting => m.pending != [] || LoopInStep(p, m.(state := Subscribing(None)), inner)
    case Done => true
    case _ =>
      inner == []
      || (StepInStep(p, m, inner[0])
          && (Step(m, inner[0]).1.Some?
              || LoopInStep(Replay(p, StepPushes(m, inner[0])), Step(m, inner[0]).0, inner[1..])))
  }

  lemma {:induction false} LoopReplaysIff(p: Picture, m: Machine, inner: seq<Inner>)
    requires !m.suppress && p == Norm(m.shadow)
    ensures LoopInStep(p, m, inner) <==> LoopClashFree(m, inner)
    ensures LoopClashFree(m, inner) ==> Replay(p, Pushes(m, inner)) == Norm(Loop(m, inner).0.shadow)
    decreases |inner|, if m.state.Emitting? then 1 else 0
  {
    match m.state {
      case Emitting =>
        if m.pending == [] {
          LoopReplaysIff(p, m.(state := Subscribing(None)), inner);
        }
      case Done =>
      case _ =>
        if inner != [] {
          StepReplaysIff(p, m, inner[0]);
          var (m', out) := Step(m, inner[0]);
          if out.None? && StepClashFree(m, inner[0]) {
            var q := Replay(p, StepPushes(m, inner[0]));
            LoopReplaysIff(q, m', inner[1..]);
            ReplayConcat(p, StepPushes(m, inner[0]), Pushes(m', inner[1..]));
          } else if out.Some? {
            assert StepPushes(m, inner[0]) + [] == StepPushes(m, inner[0]);
          }
        }
    }
  }

  ghost predicate RunClashFree(m: Machine, calls: seq<Call>) {
    if calls == [] then true
    else
      var before, last := calls[..|calls| - 1], calls[|calls| - 1];
      && RunClashFree(m, before)
      && (Runs(RunCalls(m, before), last) ==> LoopClashFree(RunCalls(m, before), last.inner))
  }

  ghost predicate RunInStep(p: Picture, m: Machine, calls: seq<Call>) {
    if calls == [] then true
    else
      var before, last := calls[..|calls| - 1], calls[|calls| - 1];
      && RunInStep(p, m, before)
      && var now := RunCalls(m, before);
      (Runs(now, last) ==> LoopInStep(Replay(p, PushedIn(m, before)), now, last.inner))
  }

  lemma {:induction false} PushedReplaysIff(m: Machine, calls: seq<Call>)
    requires MachineInv(m) && !m.suppress
    ensures RunInStep(Norm(m.shadow), m, calls) <==> RunClashFree(m, calls)
    ensures RunClashFree(m, calls) ==> Replay(Norm(m.shadow), PushedIn(m, calls)) == Norm(RunCalls(m, calls).shadow)
  {
    var p := Norm(m.shadow);
    if calls != [] {
      var before, last := calls[..|calls| - 1], calls[|calls| - 1];
      PushedReplaysIff(m, before);
      RunIsQueue(m, before);
      var now := RunCalls(m, before);
      if RunClashFree(m, before) && Runs(now, last) {
        LoopReplaysIff(Replay(p, PushedIn(m, before)), now, last.inner);
        ReplayConcat(p, PushedIn(m, before), Pushes(now, last.inner));
      } else {
        assert PushedIn(m, before) + [] == PushedIn(m, before);
      }
    }
  }

  /**
   Event replay: from any bootstrapped state with an empty queue, over any further calls, a consumer that
   folds the events over the shadow of that state is in step with the shadow after every row applied,
   up to flag normalisation, exactly when no row clashes; then everything emitted followed by the queue
   folds to the present shadow.
   */
  lemma {:induction false} RunReplaysIff(m: Machine, calls: seq<Call>)
    requires MachineInv(m) && !m.suppress && m.pending == []
    ensures RunInStep(Norm(m.shadow), m, calls) <==> RunClashFree(m, calls)
    ensures RunClashFree(m, calls) ==>
      Replay(Norm(m.shadow), EmittedIn(m, calls) + RunCalls(m, calls).pending) == Norm(RunCalls(m, calls).shadow)
  {
    PushedReplaysIff(m, calls);
    RunIsQueue(m, calls);
    assert m.pending + PushedIn(m, calls) == PushedIn(m, calls);
  }

  // ----- keywords that are distinct flags never clash

  ghost predicate Within(shadow: Shadow, ks: set<string>) {
    forall id | id in shadow :: shadow[id] <= ks
  }

  ghost predicate RowsWithin(rows: seq<EmailRow>, ks: set<string>) {
    forall row | row in rows :: RowKeywords(row) <= ks
  }

  ghost predicate AnswersWithin(inner: seq<Inner>, ks: set<string>) {
    forall o | o in inner && o.EmailsOk? :: RowsWithin(o.rows, ks)
  }

  lemma {:induction false} SeparateNeverClash(before: set<string>, after: set<string>, ks: set<string>)
    requires Separates(ks) && before <= ks && after <= ks
    ensures NoClash(before, after)
  {
    forall key | key in KeysOf(before - after) ensures key !in KeysOf(after) {
      var a :| a in before - after && KeyOf(a) == key;
      assert forall b | b in after :: KeyOf(b) != key;
    }
  }

  lemma {:induction false} RowsStayWithin(shadow: Shadow, mailboxId: string, rows: seq<EmailRow>, ks: set<string>)
    requires Within(shadow, ks) && RowsWithin(rows, ks)
    ensures Within(ShadowRows(shadow, mailboxId, rows), ks)
  {
    if rows != [] {
      RowsStayWithin(shadow, mailboxId, rows[..|rows| - 1], ks);
    }
  }

  lemma {:induction false} StepStaysWithin(m: Machine, o: Inner, ks: set<string>)
    requires Fetching(m) && Separates(ks) && Within(m.shadow, ks) && (o.EmailsOk? ==> RowsWithin(o.rows, ks))
    ensures StepClashFree(m, o) && Within(Step(m, o).0.shadow, ks)
  {
    if Applies(m, o) {
      forall n: nat | n < |o.rows|
        ensures RowClashFree(ShadowRows(m.shadow, m.mailboxId, o.rows[..n]), m.mailboxId, o.rows[n])
      {
        var mid, row := ShadowRows(m.shadow, m.mailboxId, o.rows[..n]), o.rows[n];
        RowsStayWithin(m.shadow, m.mailboxId, o.rows[..n], ks);
        if row.id.Some? && row.id.value in mid {
          SeparateNeverClash(mid[row.id.value], RowKeywords(row), ks);
        }
      }
      var after := ShadowRows(m.shadow, m.mailboxId, o.rows);
      RowsStayWithin(m.shadow, m.mailboxId, o.rows, ks);
      var end := ShadowDestroyed(after, m.state.destroyed);
      forall id | id in end ensures end[id] <= ks {
        ShadowDestroyedAt(after, m.state.destroyed, id);
      }
    }
  }

  lemma {:induction false} LoopStaysWithin(m: Machine, inner: seq<Inner>, ks: set<string>)
    requires Separates(ks) && Within(m.shadow, ks) && AnswersWithin(inner, ks)
    ensures LoopClashFree(m, inner) && Within(Loop(m, inner).0.shadow, ks)
    decreases |inner|, if m.state.Emitting? then 1 else 0
  {
    match m.state {
      case Emitting =>
        if m.pending == [] {
          LoopStaysWithin(m.(state := Subscribing(None)), inner, ks);
        }
      case Done =>
      case _ =>
        if inner != [] {
          StepStaysWithin(m, inner[0], ks);
          if Step(m, inner[0]).1.None? {
            LoopStaysWithin(Step(m, inner[0]).0, inner[1..], ks);
          }
        }
    }
  }

  /** So a run whose keywords normalise to distinct flags replays. */
  lemma {:induction false} DistinctFlagsNeverClash(m: Machine, calls: seq<Call>, ks: set<string>)
    requires Separates(ks) && Within(m.shadow, ks)
    requires forall c | c in calls :: AnswersWithin(c.inner, ks)
    ensures RunClashFree(m, calls) && Within(RunCalls(m, calls).shadow, ks)
  {
    if calls != [] {
      var before, last := calls[..|calls| - 1], calls[|calls| - 1];
      DistinctFlagsNeverClash(m, before, ks);
      if Runs(RunCalls(m, before), last) {
        LoopStaysWithin(RunCalls(m, before), last.inner, ks);
      }
    }
  }
}
