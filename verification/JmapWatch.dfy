/** The JMAP watch-mailbox state machine (src/envelope/jmap/watch.rs). */
module JmapWatch {
  import opened Wrappers
  import opened Flags
  import opened Events
  import opened JmapServer

  const EMAIL_TYPE := "Email"

  /** Per account, the latest state of each data type. */
  datatype StateChange = StateChange(changed: map<string, map<string, string>>)

  datatype State =
    | Subscribing(latest: Option<StateChange>)
    | FetchingChanges(since: string)
    | FetchingEmails(ids: seq<string>, destroyed: seq<string>, newState: string)
    | Emitting
    | Done

  /** What one `resume` of the inner coroutine may come back with; `Failed` also covers a failing constructor. */
  datatype Inner =
    | WantsRead
    | WantsWrite
    | Frame(change: StateChange)
    | Ended
    | ChangesOk(changes: Changes)
    | EmailsOk(rows: seq<EmailRow>)
    | Failed

  datatype Output = YieldRead | YieldWrite | YieldEvent(event: WatchEvent) | CompleteOk | CompleteErr

  type Shadow = map<string, set<string>>

  datatype Machine = Machine(
    mailboxId: string, accountId: string, state: State, shadow: Shadow,
    emailState: Option<string>, pending: seq<WatchEvent>, suppress: bool)

  // ----- the transitions, as functions

  function Observed(change: Option<StateChange>, accountId: string): Option<string> {
    if change.Some? && accountId in change.value.changed && EMAIL_TYPE in change.value.changed[accountId]
    then Some(change.value.changed[accountId][EMAIL_TYPE])
    else None
  }

  function NeedsDiff(observed: Option<string>, known: Option<string>): bool {
    match (observed, known)
    case (Some(o), Some(k)) => o != k
    case (_, None) => true
    case (None, Some(_)) => false
  }

  function Since(emailState: Option<string>): string {
    match emailState case Some(s) => s case None => ""
  }

  function CycleEnd(m: Machine, change: Option<StateChange>): Machine {
    if NeedsDiff(Observed(change, m.accountId), m.emailState) then
      m.(state := FetchingChanges(Since(m.emailState)))
    else m.(state := Emitting, pending := m.pending + CycleEndEvents(m, change))
  }

  function CycleEndEvents(m: Machine, change: Option<StateChange>): seq<WatchEvent> {
    if !m.suppress && change.Some? then [KeepAlive] else []
  }

  function DispatchGet(c: Changes): State {
    FetchingEmails(c.created + c.updated, c.destroyed, c.newState)
  }

  predicate InMailbox(row: EmailRow, mailboxId: string) {
    row.mailboxIds.Some? && mailboxId in row.mailboxIds.value && row.mailboxIds.value[mailboxId]
  }

  function RowKeywords(row: EmailRow): set<string> {
    match row.keywords case Some(ks) => SetKeywords(ks) case None => {}
  }

  function ShadowRow(shadow: Shadow, mailboxId: string, row: EmailRow): Shadow {
    if row.id.None? then shadow
    else if InMailbox(row, mailboxId) then shadow[row.id.value := RowKeywords(row)]
    else shadow - {row.id.value}
  }

  function RowEvents(shadow: Shadow, mailboxId: string, row: EmailRow): seq<WatchEvent> {
    if row.id.None? then []
    else
      var id := row.id.value;
      if InMailbox(row, mailboxId) then
        if id in shadow then
          var added, removed := RowKeywords(row) - shadow[id], shadow[id] - RowKeywords(row);
          (if added == {} then [] else [FlagsAdded(mailboxId, id, KeysOf(added))])
          + (if removed == {} then [] else [FlagsRemoved(mailboxId, id, KeysOf(removed))])
        else [EnvelopeAdded(mailboxId, EnvelopeFrom(row))]
      else if id in shadow then [EnvelopeRemoved(mailboxId, id)]
      else []
  }

  function ShadowRows(shadow: Shadow, mailboxId: string, rows: seq<EmailRow>): Shadow {
    if rows == [] then shadow
    else ShadowRow(ShadowRows(shadow, mailboxId, rows[..|rows| - 1]), mailboxId, rows[|rows| - 1])
  }

  function RowsEvents(shadow: Shadow, mailboxId: string, rows: seq<EmailRow>): seq<WatchEvent> {
    if rows == [] then []
    else
      RowsEvents(shadow, mailboxId, rows[..|rows| - 1])
      + RowEvents(ShadowRows(shadow, mailboxId, rows[..|rows| - 1]), mailboxId, rows[|rows| - 1])
  }

  function ShadowDestroyed(shadow: Shadow, ids: seq<string>): Shadow {
    if ids == [] then shadow else ShadowDestroyed(shadow, ids[..|ids| - 1]) - {ids[|ids| - 1]}
  }

  function DestroyedEvents(shadow: Shadow, mailboxId: string, ids: seq<string>): seq<WatchEvent> {
    if ids == [] then []
    else
      var before := ids[..|ids| - 1];
      DestroyedEvents(shadow, mailboxId, before)
      + if ids[|ids| - 1] in ShadowDestroyed(shadow, before) then [EnvelopeRemoved(mailboxId, ids[|ids| - 1])] else []
  }

  function ShadowAfter(shadow: Shadow, mailboxId: string, rows: seq<EmailRow>, destroyed: seq<string>): Shadow {
    ShadowDestroyed(ShadowRows(shadow, mailboxId, rows), destroyed)
  }

  function DiffEvents(shadow: Shadow, mailboxId: string, rows: seq<EmailRow>, destroyed: seq<string>): seq<WatchEvent> {
    RowsEvents(shadow, mailboxId, rows) + DestroyedEvents(ShadowRows(shadow, mailboxId, rows), mailboxId, destroyed)
  }

  /** The shadow and the queue after `apply_diff`. */
  function Applied(m: Machine, rows: seq<EmailRow>, destroyed: seq<string>): Machine {
    m.(shadow := ShadowAfter(m.shadow, m.mailboxId, rows, destroyed),
       pending := m.pending + if m.suppress then [] else DiffEvents(m.shadow, m.mailboxId, rows, destroyed))
  }

  /** One round of the loop in a state that owns an inner coroutine. */
  function Step(m: Machine, o: Inner): (Machine, Option<Output>)
    requires m.state.Subscribing? || m.state.FetchingChanges? || m.state.FetchingEmails?
  {
    if o.WantsRead? then (m, Some(YieldRead))
    else if o.WantsWrite? then (m, Some(YieldWrite))
    else if m.state.Subscribing? && o.Frame? then (m.(state := Subscribing(Some(o.change))), None)
    else if m.state.Subscribing? && o.Ended? then (CycleEnd(m, m.state.latest), None)
    else if m.state.FetchingChanges? && o.ChangesOk? then (m.(state := DispatchGet(o.changes)), None)
    else if m.state.FetchingEmails? && o.EmailsOk? then
      (Applied(m, o.rows, m.state.destroyed).(
         emailState := Some(m.state.newState), suppress := false, state := Emitting), None)
    else (m.(state := Done), Some(CompleteErr))
  }

  /** The loop: `inner` lists what the inner coroutines answer, in order; afterwards they want to read. */
  function Loop(m: Machine, inner: seq<Inner>): (Machine, seq<Inner>, Output)
    decreases |inner|, if m.state.Emitting? then 1 else 0
  {
    match m.state
    case Emitting =>
      if m.pending != [] then (m.(pending := m.pending[1..]), inner, YieldEvent(m.pending[0]))
      else Loop(m.(state := Subscribing(None)), inner)
    case Done => (m, inner, CompleteOk)
    case _ =>
      if inner == [] then (m, [], YieldRead)
      else
        var (m', out) := Step(m, inner[0]);
        match out
        case Some(o) => (m', inner[1..], o)
        case None => Loop(m', inner[1..])
  }

  function Resumed(m: Machine, shutdown: bool, inner: seq<Inner>): (Machine, seq<Inner>, Output) {
    if shutdown then (m.(state := Done), inner, CompleteOk) else Loop(m, inner)
  }

  function Initial(mailboxId: string, accountId: string): Machine {
    Machine(mailboxId, accountId, Subscribing(None), map[], None, [], true)
  }

  // ----- the code

  class JmapWatchMailbox {
    const mailboxId: string
    const accountId: string
    var state: State
    var shadow: Shadow
    var emailState: Option<string>
    var pending: seq<WatchEvent>
    var suppressEvents: bool

    ghost function Model(): Machine
      reads this
    {
      Machine(mailboxId, accountId, state, shadow, emailState, pending, suppressEvents)
    }

    constructor (mailboxId: string, accountId: string)
      ensures Model() == Initial(mailboxId, accountId)
    {
      this.mailboxId := mailboxId;
      this.accountId := accountId;
      state := Subscribing(None);
      shadow := map[];
      emailState := None;
      pending := [];
      suppressEvents := true;
    }

    method HandleCycleEnd(change: Option<StateChange>) returns (next: State)
      modifies this`pending
      ensures CycleEnd(old(Model()), change) == old(Model()).(state := next, pending := pending)
    {
      var needsDiff := NeedsDiff(Observed(change, accountId), emailState);
      if needsDiff {
        return FetchingChanges(Since(emailState));
      }
      if !suppressEvents && change.Some? {
        pending := pending + [KeepAlive];
      }
      return Emitting;
    }

    method ApplyDiff(rows: seq<EmailRow>, destroyed: seq<string>)
      modifies this`shadow, this`pending
      ensures Model() == Applied(old(Model()), rows, destroyed)
    {
      ApplyRows(rows);
      ApplyDestroyed(destroyed);
    }

    method ApplyDestroyed(destroyed: seq<string>)
      modifies this`shadow, this`pending
      ensures shadow == ShadowDestroyed(old(shadow), destroyed)
      ensures pending == old(pending)
        + if suppressEvents then [] else DestroyedEvents(old(shadow), mailboxId, destroyed)
    {
      for i := 0 to |destroyed|
        invariant shadow == ShadowDestroyed(old(shadow), destroyed[..i])
        invariant pending == old(pending)
          + if suppressEvents then [] else DestroyedEvents(old(shadow), mailboxId, destroyed[..i])
      {
        assert destroyed[..i + 1][..i] == destroyed[..i];
        var id := destroyed[i];
        var known := id in shadow;
        shadow := shadow - {id};
        if known && !suppressEvents {
          pending := pending + [EnvelopeRemoved(mailboxId, id)];
        }
      }
      assert destroyed[..|destroyed|] == destroyed;
    }

    method ApplyRows(rows: seq<EmailRow>)
      modifies this`shadow, this`pending
      ensures shadow == ShadowRows(old(shadow), mailboxId, rows)
      ensures pending == old(pending) + if suppressEvents then [] else RowsEvents(old(shadow), mailboxId, rows)
    {
      for i := 0 to |rows|
        invariant shadow == ShadowRows(old(shadow), mailboxId, rows[..i])
        invariant pending == old(pending)
          + if suppressEvents then [] else RowsEvents(old(shadow), mailboxId, rows[..i])
      {
        assert rows[..i + 1][..i] == rows[..i];
        assert RowsEvents(old(shadow), mailboxId, rows[..i + 1])
            == RowsEvents(old(shadow), mailboxId, rows[..i]) + RowEvents(shadow, mailboxId, rows[i]);
        ApplyRow(rows[i]);
      }
      assert rows[..|rows|] == rows;
    }

    method ApplyRow(row: EmailRow)
      modifies this`shadow, this`pending
      ensures shadow == ShadowRow(old(shadow), mailboxId, row)
      ensures pending == old(pending) + if suppressEvents then [] else RowEvents(old(shadow), mailboxId, row)
    {
      if row.id.None? {
        return;
      }
      var id := row.id.value;
      var newKeywords := RowKeywords(row);
      var wasInShadow := id in shadow;
      if InMailbox(row, mailboxId) {
        if wasInShadow {
          var known := shadow[id];
          var added := newKeywords - known;
          var removed := known - newKeywords;
          if added != {} && !suppressEvents {
            pending := pending + [FlagsAdded(mailboxId, id, KeysOf(added))];
          }
          if removed != {} && !suppressEvents {
            pending := pending + [FlagsRemoved(mailboxId, id, KeysOf(removed))];
          }
          shadow := shadow[id := newKeywords];
        } else {
          var envelope := EnvelopeFrom(row);
          if !suppressEvents {
            pending := pending + [EnvelopeAdded(mailboxId, envelope)];
          }
          shadow := shadow[envelope.id := newKeywords];
        }
      } else if wasInShadow {
        if !suppressEvents {
          pending := pending + [EnvelopeRemoved(mailboxId, id)];
        }
        shadow := shadow - {id};
      }
    }

    method Resume(shutdown: bool, inner: seq<Inner>) returns (out: Output, rest: seq<Inner>)
      modifies this
      ensures (Model(), rest, out) == Resumed(old(Model()), shutdown, inner)
    {
      rest := inner;
      if shutdown {
        state := Done;
        return CompleteOk, rest;
      }
      while true
        invariant Loop(Model(), rest) == Loop(old(Model()), inner)
        decreases |rest|, if state.Emitting? then 1 else 0
      {
        match state {
          case Emitting =>
            if pending != [] {
              out := YieldEvent(pending[0]);
              pending := pending[1..];
              return;
            }
            state := Subscribing(None);
          case Done =>
            return CompleteOk, rest;
          case _ =>
            if rest == [] {
              return YieldRead, rest;
            }
            var answer := rest[0];
            rest := rest[1..];
            var stopped := Advance(answer);
            if stopped.Some? {
              return stopped.value, rest;
            }
        }
      }
    }

    /** Feeds one answer of the inner coroutine to the current state. */
    method Advance(answer: Inner) returns (out: Option<Output>)
      requires state.Subscribing? || state.FetchingChanges? || state.FetchingEmails?
      modifies this
      ensures (Model(), out) == Step(old(Model()), answer)
    {
      out := None;
      if answer.WantsRead? {
        out := Some(YieldRead);
      } else if answer.WantsWrite? {
        out := Some(YieldWrite);
      } else if state.Subscribing? && answer.Frame? {
        state := Subscribing(Some(answer.change));
      } else if state.Subscribing? && answer.Ended? {
        state := HandleCycleEnd(state.latest);
      } else if state.FetchingChanges? && answer.ChangesOk? {
        state := DispatchGet(answer.changes);
      } else if state.FetchingEmails? && answer.EmailsOk? {
        ApplyDiff(answer.rows, state.destroyed);
        emailState := Some(state.newState);
        suppressEvents := false;
        state := Emitting;
      } else {
        state := Done;
        out := Some(CompleteErr);
      }
    }
  }
}
