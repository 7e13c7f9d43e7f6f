/** The `Email/changes`-driven envelope diff and the mailbox diff (src/jmap/client.rs). */
module JmapClient {
  import opened Wrappers
  import opened Envelopes
  import opened JmapServer

  datatype JmapError = Protocol

  type JmapDiff = EnvelopeDiff<string>

  datatype Command =
    | EmailChanges(since: string)
    | EmailGet(ids: seq<string>)
    | MailboxChanges(since: string)
    | MailboxGet(ids: seq<string>)

  datatype Reply =
    | Changed(changes: Changes)
    | CannotCalculateChanges
    | Emails(rows: seq<EmailRow>, state: string)
    | Mailboxes(state: string)
    | Failed

  function ReplyAt(replies: seq<Reply>, i: nat): Reply {
    if i < |replies| then replies[i] else Failed
  }

  function Rest(replies: seq<Reply>): seq<Reply> {
    if replies == [] then [] else replies[1..]
  }

  datatype Outcome = Outcome(sent: seq<Command>, result: Result<JmapDiff, JmapError>)

  /** How the `Email/changes` rounds ended, and the three accumulated lists. */
  datatype Ending = Complete | Invalidated | Broken

  datatype Walk = Walk(
    sent: seq<Command>, rest: seq<Reply>, ending: Ending,
    created: seq<string>, updated: seq<string>, destroyed: seq<string>, cursor: string)

  function WalkFrom(cursor: string, replies: seq<Reply>): Walk
    decreases |replies|
  {
    var sent := [EmailChanges(cursor)];
    match ReplyAt(replies, 0)
    case Changed(c) =>
      if c.hasMore then
        var w := WalkFrom(c.newState, replies[1..]);
        Walk(sent + w.sent, w.rest, w.ending,
             c.created + w.created, c.updated + w.updated, c.destroyed + w.destroyed, w.cursor)
      else Walk(sent, replies[1..], Complete, c.created, c.updated, c.destroyed, c.newState)
    case CannotCalculateChanges => Walk(sent, replies[1..], Invalidated, [], [], [], cursor)
    case _ => Walk(sent, Rest(replies), Broken, [], [], [], cursor)
  }

  /** A walk that has some rounds behind it. */
  function After(
    sent: seq<Command>, created: seq<string>, updated: seq<string>, destroyed: seq<string>, w: Walk): Walk
  {
    Walk(sent + w.sent, w.rest, w.ending, created + w.created, updated + w.updated, destroyed + w.destroyed, w.cursor)
  }

  /** One more round behind it. */
  lemma {:induction false} RoundBehind(
    sent: seq<Command>, created: seq<string>, updated: seq<string>, destroyed: seq<string>, cursor: string,
    replies: seq<Reply>)
    requires ReplyAt(replies, 0).Changed? && ReplyAt(replies, 0).changes.hasMore
    ensures var c := ReplyAt(replies, 0).changes;
      After(sent, created, updated, destroyed, WalkFrom(cursor, replies))
      == After(sent + [EmailChanges(cursor)], created + c.created, updated + c.updated, destroyed + c.destroyed,
               WalkFrom(c.newState, replies[1..]))
  {
    var w := WalkFrom(ReplyAt(replies, 0).changes.newState, replies[1..]);
    assert sent + ([EmailChanges(cursor)] + w.sent) == sent + [EmailChanges(cursor)] + w.sent;
  }

  /** `email_get(ids)`, skipped when there is nothing to ask for; `None` on failure. */
  function Get(ids: seq<string>, replies: seq<Reply>): (seq<Command>, seq<Reply>, Option<seq<EmailRow>>) {
    if ids == [] then ([], replies, Some([]))
    else
      match ReplyAt(replies, 0)
      case Emails(rows, _) => ([EmailGet(ids)], Rest(replies), Some(rows))
      case _ => ([EmailGet(ids)], Rest(replies), None)
  }

  function Baseline(replies: seq<Reply>): Outcome {
    match ReplyAt(replies, 0)
    case Emails(_, state) => Outcome([EmailGet([])], Ok(FullListRequired(Some(state))))
    case _ => Outcome([EmailGet([])], Err(Protocol))
  }

  function EnvelopesOf(rows: seq<EmailRow>): seq<Envelope> {
    seq(|rows|, i requires 0 <= i < |rows| => EnvelopeFrom(rows[i]))
  }

  function FlagUpdatesOf(rows: seq<EmailRow>): seq<FlagUpdate> {
    seq(|rows|, i requires 0 <= i < |rows| => FlagUpdate(EnvelopeFrom(rows[i]).id, EnvelopeFrom(rows[i]).flags))
  }

  function Fetch(w: Walk): Outcome {
    var (sent1, rest, created) := Get(w.created, w.rest);
    if created.None? then Outcome(w.sent + sent1, Err(Protocol))
    else
      var (sent2, _, updated) := Get(w.updated, rest);
      if updated.None? then Outcome(w.sent + sent1 + sent2, Err(Protocol))
      else
        Outcome(w.sent + sent1 + sent2, Ok(Incremental(
          w.cursor, FlagUpdatesOf(updated.value), EnvelopesOf(created.value), w.destroyed)))
  }

  function Diff(state: Option<string>, replies: seq<Reply>): Outcome {
    if state.None? then Baseline(replies)
    else
      var w := WalkFrom(state.value, replies);
      match w.ending
      case Complete => Fetch(w)
      case Invalidated => var b := Baseline(w.rest); b.(sent := w.sent + b.sent)
      case Broken => Outcome(w.sent, Err(Protocol))
  }

  datatype MailboxDiff = MailboxesUnchanged(checkpoint: string) | MailboxesChanged(newState: Option<string>)

  datatype MailboxOutcome = MailboxOutcome(sent: seq<Command>, result: Result<MailboxDiff, JmapError>)

  predicate Idle(c: Changes) {
    !c.hasMore && c.created == [] && c.updated == [] && c.destroyed == []
  }

  function MailboxSetDiff(state: Option<string>, replies: seq<Reply>): MailboxOutcome {
    match state
    case None =>
      MailboxOutcome([MailboxGet([])],
        match ReplyAt(replies, 0)
        case Mailboxes(state) => Ok(MailboxesChanged(Some(state)))
        case _ => Err(Protocol))
    case Some(since) =>
      MailboxOutcome([MailboxChanges(since)],
        match ReplyAt(replies, 0)
        case Changed(c) => Ok(if Idle(c) then MailboxesUnchanged(c.newState) else MailboxesChanged(Some(c.newState)))
        case CannotCalculateChanges => Ok(MailboxesChanged(None))
        case _ => Err(Protocol))
  }

  class Client {
    /** What the server will answer, in order; nothing left means a broken connection. */
    var replies: seq<Reply>
    /** Every request sent so far. */
    var sent: seq<Command>

    constructor (replies: seq<Reply>)
      ensures this.replies == replies && sent == []
    {
      this.replies := replies;
      this.sent := [];
    }

    method Send(c: Command) returns (r: Reply)
      modifies this
      ensures sent == old(sent) + [c]
      ensures r == ReplyAt(old(replies), 0)
      ensures replies == Rest(old(replies))
    {
      sent := sent + [c];
      if replies == [] {
        r := Failed;
      } else {
        r := replies[0];
        replies := replies[1..];
      }
    }

    method EmailGetRows(ids: seq<string>) returns (rows: Option<seq<EmailRow>>)
      modifies this
      ensures sent == old(sent) + Get(ids, old(replies)).0
      ensures replies == Get(ids, old(replies)).1
      ensures rows == Get(ids, old(replies)).2
    {
      if ids == [] {
        return Some([]);
      }
      var reply := Send(EmailGet(ids));
      match reply {
        case Emails(found, _) => rows := Some(found);
        case _ => rows := None;
      }
    }

    /** Walks `Email/changes` rounds until `hasMoreChanges` clears. */
    method WalkChanges(since: string)
      returns (ending: Ending, created: seq<string>, updated: seq<string>, destroyed: seq<string>, cursor: string)
      modifies this
      ensures ending == WalkFrom(since, old(replies)).ending
      ensures sent == old(sent) + WalkFrom(since, old(replies)).sent
      ensures replies == WalkFrom(since, old(replies)).rest
      ensures ending == Complete ==>
        var w := WalkFrom(since, old(replies));
        created == w.created && updated == w.updated && destroyed == w.destroyed && cursor == w.cursor
    {
      ghost var whole, before, log := WalkFrom(since, replies), sent, [];
      created, updated, destroyed, cursor := [], [], [], since;
      assert After([], [], [], [], whole) == whole;
      while true
        invariant sent == before + log
        invariant whole == After(log, created, updated, destroyed, WalkFrom(cursor, replies))
        decreases |replies|
      {
        if ReplyAt(replies, 0).Changed? && ReplyAt(replies, 0).changes.hasMore {
          RoundBehind(log, created, updated, destroyed, cursor, replies);
        }
        var reply := Send(EmailChanges(cursor));
        log := log + [EmailChanges(cursor)];
        match reply {
          case Changed(changes) =>
            created := created + changes.created;
            updated := updated + changes.updated;
            destroyed := destroyed + changes.destroyed;
            cursor := changes.newState;
            if !changes.hasMore {
              ending := Complete;
              return;
            }
          case CannotCalculateChanges =>
            ending := Invalidated;
            return;
          case _ =>
            ending := Broken;
            return;
        }
      }
    }

    /** `state` is the stored token, already decoded; `None` when there is none or it is not UTF-8. */
    method DiffEnvelopes(state: Option<string>) returns (result: Result<JmapDiff, JmapError>)
      modifies this
      ensures result == Diff(state, old(replies)).result
      ensures sent == old(sent) + Diff(state, old(replies)).sent
    {
      if state.None? {
        result := DiffBaseline();
        return;
      }
      var ending, created, updated, destroyed, cursor := WalkChanges(state.value);
      match ending {
        case Invalidated =>
          result := DiffBaseline();
        case Broken =>
          result := Err(Protocol);
        case Complete =>
          var found := EmailGetRows(created);
          if found.None? {
            return Err(Protocol);
          }
          var changed := EmailGetRows(updated);
          if changed.None? {
            return Err(Protocol);
          }
          result := Ok(Incremental(cursor, FlagUpdatesOf(changed.value), EnvelopesOf(found.value), destroyed));
      }
    }

    /** The mailbox-set diff, over a single round. */
    method DiffMailboxes(state: Option<string>) returns (result: Result<MailboxDiff, JmapError>)
      modifies this
      ensures result == MailboxSetDiff(state, old(replies)).result
      ensures sent == old(sent) + MailboxSetDiff(state, old(replies)).sent
    {
      if state.None? {
        var reply := Send(MailboxGet([]));
        match reply {
          case Mailboxes(newState) => return Ok(MailboxesChanged(Some(newState)));
          case _ => return Err(Protocol);
        }
      }
      var reply := Send(MailboxChanges(state.value));
      match reply {
        case Changed(changes) =>
          if !changes.hasMore && changes.created == [] && changes.updated == [] && changes.destroyed == [] {
            result := Ok(MailboxesUnchanged(changes.newState));
          } else {
            result := Ok(MailboxesChanged(Some(changes.newState)));
          }
        case CannotCalculateChanges => result := Ok(MailboxesChanged(None));
        case _ => result := Err(Protocol);
      }
    }

    method DiffBaseline() returns (result: Result<JmapDiff, JmapError>)
      modifies this
      ensures result == Baseline(old(replies)).result
      ensures sent == old(sent) + Baseline(old(replies)).sent
    {
      var reply := Send(EmailGet([]));
      match reply {
        case Emails(_, state) => result := Ok(FullListRequired(Some(state)));
        case _ => result := Err(Protocol);
      }
    }
  }
}
