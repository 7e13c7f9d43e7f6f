/** When an IMAP synchronisation succeeds, with what kind of result, and with which checkpoint. */
module ImapOutcomes {
  import opened Wrappers
  import opened Envelopes
  import opened Decimal
  import opened ImapState
  import opened ImapServer
  import opened ImapClient
  import opened ImapSync

  /** The stored bytes are a checkpoint with a UIDVALIDITY. */
  predicate Usable(state: Option<seq<Byte>>) {
    state.Some? && Decode(state.value).Some? && Decode(state.value).value.uidValidity > 0
  }

  /** The mailbox could not be selected with QRESYNC, or is not the one the checkpoint is about. */
  predicate Refused(c: Checkpoint, select: Reply) {
    !select.Selected? || (select.uidValidity.Some? && select.uidValidity.value != c.uidValidity)
  }

  /** From index `i` on: a SELECT, and the FETCH of the last message if there is one to checkpoint. */
  predicate BaselineAnswered(replies: seq<Reply>, i: nat) {
    && i < |replies| && replies[i].Selected?
    && (replies[i].uidValidity.None? || replies[i].messageCount in {None, Some(0)}
        || (i + 1 < |replies| && replies[i + 1].Fetched?))
  }

  /**
   What decides the result of a call. A bad mailbox name is an error and a server without QRESYNC needs
   a full list, both without a command. Without a usable checkpoint, or when the server refuses it, the
   call takes a baseline and succeeds when that is answered; otherwise it is incremental and
   succeeds when the FETCH of the new messages is answered, or none is possible.
   */
  lemma {:induction false} DiffSucceedsIff(
    mailboxOk: bool, qresync: bool, state: Option<seq<Byte>>, replies: seq<Reply>)
    ensures var out := Diff(mailboxOk, qresync, state, replies);
      && (!mailboxOk ==> out.result == Err(InvalidMailbox) && out.sent == [])
      && (mailboxOk && !qresync ==> out.result == Ok(FullListRequired(None)) && out.sent == [])
      && (mailboxOk && qresync && !Usable(state) ==>
            && (out.result.Ok? <==> BaselineAnswered(replies, 0))
            && (out.result.Ok? ==> out.result.value.FullListRequired?))
      && (mailboxOk && qresync && Usable(state) ==>
            var c, select := Decode(state.value).value, ReplyAt(replies, 0);
            && out.sent != [] && out.sent[0] == SelectQresync(c.uidValidity, c.highestModSeq)
            && (Refused(c, select) ==>
                  && (out.result.Ok? <==> BaselineAnswered(replies, 1))
                  && (out.result.Ok? ==> out.result.value.FullListRequired?))
            && (!Refused(c, select) ==>
                  && (out.result.Ok? <==> c.highestUid >= 0xFFFF_FFFF || (1 < |replies| && replies[1].Fetched?))
                  && (out.result.Ok? ==> out.result.value.Incremental?)))
  {
    if mailboxOk && qresync && Usable(state) && Refused(Decode(state.value).value, ReplyAt(replies, 0)) {
      var rest := if replies == [] then [] else replies[1..];
      BaselineSucceedsIff(rest);
      assert BaselineAnswered(rest, 0) <==> BaselineAnswered(replies, 1);
    } else {
      BaselineSucceedsIff(replies);
    }
  }

  lemma {:induction false} BaselineSucceedsIff(replies: seq<Reply>)
    ensures Baseline(replies).result.Ok? <==> BaselineAnswered(replies, 0)
    ensures Baseline(replies).result.Ok? ==> Baseline(replies).result.value.FullListRequired?
  {
  }

  /**
   Recovery: whatever the stored bytes, when the server answers every command (it may still refuse the
   QRESYNC one), the call succeeds, and needs a full list exactly without QRESYNC, without a usable
   checkpoint, or after a refusal.
   */
  lemma {:induction false} AnsweredCallSucceeds(
    start: Server, qresync: bool, state: Option<seq<Byte>>, replies: seq<Reply>, servers: seq<Server>)
    requires var sent := Diff(true, qresync, state, replies).sent;
      && Conversation(start, sent, replies, servers)
      && forall i | 0 <= i < |sent| :: ReplyAt(replies, i).Failed? ==> sent[i].SelectQresync?
    ensures var result := Diff(true, qresync, state, replies).result;
      && result.Ok?
      && (result.value.FullListRequired? <==>
            !qresync || !Usable(state) || Refused(Decode(state.value).value, ReplyAt(replies, 0)))
  {
    var out := Diff(true, qresync, state, replies);
    DiffSucceedsIff(true, qresync, state, replies);
    if qresync && !Usable(state) {
      BaselineCommands(start, out.sent, replies, servers, 0);
    } else if qresync && Refused(Decode(state.value).value, ReplyAt(replies, 0)) {
      assert out.sent[1..] == Baseline(Rest(replies, 1)).sent;
      BaselineCommands(start, out.sent, replies, servers, 1);
    } else if qresync {
      IncrementCommands(start, Decode(state.value).value, replies, servers);
    }
  }

  lemma {:induction false} BaselineCommands(
    start: Server, sent: seq<Command>, replies: seq<Reply>, servers: seq<Server>, from: nat)
    requires from <= |sent| && from <= 1 && sent[from..] == Baseline(Rest(replies, from)).sent
    requires Conversation(start, sent, replies, servers)
    requires forall i | from <= i < |sent| :: !ReplyAt(replies, i).Failed?
    ensures BaselineAnswered(replies, from)
  {
    var rest := Rest(replies, from);
    var out := Baseline(rest);
    assert sent[from] == sent[from..][0] == SelectPlain;
    assert Answers(servers[from], sent[from], ReplyAt(replies, from));
    assert ReplyAt(rest, 0) == ReplyAt(replies, from);
    if |out.sent| == 2 {
      assert sent[from + 1] == sent[from..][1] == FetchLast;
      assert Answers(servers[from + 1], sent[from + 1], ReplyAt(replies, from + 1));
    }
  }

  lemma {:induction false} IncrementCommands(start: Server, c: Checkpoint, replies: seq<Reply>, servers: seq<Server>)
    requires Conversation(start, Resync(c, replies).sent, replies, servers)
    requires !Refused(c, ReplyAt(replies, 0))
    requires forall i | 0 < i < |Resync(c, replies).sent| :: !ReplyAt(replies, i).Failed?
    ensures Resync(c, replies).result.Ok?
  {
    var sent := Resync(c, replies).sent;
    if |sent| == 2 {
      assert sent[1] == UidFetchFrom(c.highestUid + 1);
      assert Answers(servers[1], sent[1], ReplyAt(replies, 1));
    }
  }

  // ----- checkpoints

  /** `high` is the largest UID the rows name, or 0 without any. */
  ghost predicate LargestUid(rows: seq<Row>, high: nat) {
    && (forall row: Row, u: nat | row in rows && UidItem(u) in row :: u <= high)
    && (high == 0 || exists row :: row in rows && UidItem(high) in row)
  }

  lemma {:induction false} HighestUidInIs(row: Row)
    ensures forall u: nat | UidItem(u) in row :: u <= HighestUidIn(row)
    ensures HighestUidIn(row) == 0 || UidItem(HighestUidIn(row)) in row
  {
    if row != [] {
      var before := row[..|row| - 1];
      assert row == before + [row[|row| - 1]];
      HighestUidInIs(before);
    }
  }

  lemma {:induction false} HighestUidItemIs(rows: seq<Row>)
    ensures LargestUid(rows, HighestUidItem(rows))
  {
    if rows != [] {
      var before, last := rows[..|rows| - 1], rows[|rows| - 1];
      assert rows == before + [last];
      HighestUidItemIs(before);
      HighestUidInIs(last);
      if HighestUidItem(rows) != 0 {
        if HighestUidItem(rows) == HighestUidItem(before) {
          var row :| row in before && UidItem(HighestUidItem(before)) in row;
          assert row in rows;
        } else {
          assert last in rows;
        }
      }
    }
  }

  /**
   The checkpoint of a baseline: SELECT's UIDVALIDITY, without which there is none, its HIGHESTMODSEQ or
   0, and the largest UID fetched, 0 in an empty mailbox.
   */
  lemma {:induction false} BaselineCheckpointIs(replies: seq<Reply>) returns (point: Checkpoint)
    requires BaselineAnswered(replies, 0)
    ensures replies[0].uidValidity.None? ==> Baseline(replies).result == Ok(FullListRequired(None))
    ensures replies[0].uidValidity.Some? ==> Baseline(replies).result == Ok(FullListRequired(Some(Encode(point))))
    ensures replies[0].uidValidity.Some? ==> IsBaselinePoint(replies, point)
  {
    var select := replies[0];
    point := Checkpoint(0, 0, 0);
    if select.uidValidity.Some? {
      var empty := GetOr(select.messageCount, 0) == 0;
      point := Checkpoint(select.uidValidity.value, GetOr(select.highestModSeq, 0),
                          if empty then 0 else HighestUidItem(replies[1].rows));
      if !empty {
        HighestUidItemIs(replies[1].rows);
      }
    }
  }

  ghost predicate IsBaselinePoint(replies: seq<Reply>, point: Checkpoint)
    requires BaselineAnswered(replies, 0)
  {
    var select := replies[0];
    && select.uidValidity == Some(point.uidValidity)
    && (select.highestModSeq == Some(point.highestModSeq)
        || (select.highestModSeq.None? && point.highestModSeq == 0))
    && (if select.messageCount in {None, Some(0)} then point.highestUid == 0
        else 1 < |replies| && replies[1].Fetched? && LargestUid(replies[1].rows, point.highestUid))
  }

  /** `high` is the mailbox's largest UID. */
  ghost predicate IsLargest(s: Server, high: nat) {
    high in s.messages && forall u | u in s.messages :: u <= high
  }

  /**
   The checkpoint of an incremental call: it keeps the UIDVALIDITY; its mod-sequence is SELECT's
   HIGHESTMODSEQ, when given, and never falls; and its mark is the largest UID the mailbox has when the new
   messages are fetched, lower than before if the last message is gone, unchanged if the mailbox is
   empty or no UID is left to fetch.
   */
  lemma {:induction false} IncrementCheckpointIs(
    c: Checkpoint, s: Server, t: Server, replies: seq<Reply>) returns (next: Checkpoint)
    requires Resync(c, replies).result.Ok? && Resync(c, replies).result.value.Incremental?
    requires Valid(t) && c.highestModSeq <= s.highestModSeq
    requires Answers(s, SelectQresync(c.uidValidity, c.highestModSeq), ReplyAt(replies, 0))
    requires c.highestUid < 0xFFFF_FFFF ==> Answers(t, UidFetchFrom(c.highestUid + 1), ReplyAt(replies, 1))
    ensures Resync(c, replies).result.value.checkpoint == Encode(next)
    ensures next.uidValidity == c.uidValidity && c.highestModSeq <= next.highestModSeq
    ensures next.highestModSeq ==
      if ReplyAt(replies, 0).highestModSeq.Some? then s.highestModSeq else c.highestModSeq
    ensures if c.highestUid >= 0xFFFF_FFFF || t.messages == map[] then next.highestUid == c.highestUid
            else IsLargest(t, next.highestUid)
  {
    ResyncParts(c, replies);
    var sent := Resync(c, replies).sent;
    var rows := FetchedRows(sent, replies);
    var select := ReplyAt(replies, 0);
    next := Checkpoint(c.uidValidity, GetOr(select.highestModSeq, c.highestModSeq),
                       GetOr(HighestId(EnvelopesOf(rows)), c.highestUid));
    if |sent| == 2 {
      FetchedMark(t, c.highestUid + 1, rows);
    }
  }

  /** The largest id of a lawful `start:*` answer is the mailbox's largest UID. */
  lemma {:induction false} FetchedMark(t: Server, start: nat, rows: seq<Row>)
    requires Valid(t) && ReportsRange(t, start, rows)
    ensures if t.messages == map[] then HighestId(EnvelopesOf(rows)) == None
            else HighestId(EnvelopesOf(rows)).Some? && IsLargest(t, HighestId(EnvelopesOf(rows)).value)
  {
    var envelopes := EnvelopesOf(rows);
    forall e | e in envelopes ensures NamesMessage(e, t) {
      var i :| 0 <= i < |rows| && e == EnvelopeOf(0, rows[i]);
      RowReports(t, start, rows, rows[i]);
      var u: nat :| ReportsFlags(rows[i], t, u) && (ReportsEnvelope(rows[i], t, u) || LacksEnvelope(rows[i]));
      RowReads(rows[i], t, u);
      assert u in t.messages && e.id == Show(u);
    }
    HighestIdIs(envelopes, t);
    if t.messages != map[] {
      var last := LargestOf(t.messages.Keys);
      assert InRangeToLast(t, start, last);
      var row :| row in rows && ReportsEnvelope(row, t, last);
      var i :| 0 <= i < |rows| && rows[i] == row;
      RowReads(row, t, last);
      assert envelopes[i] in envelopes && envelopes[i].id == Show(last);
    }
  }

  ghost predicate NamesMessage(e: Envelope, t: Server) {
    exists u: nat :: u in t.messages && e.id == Show(u)
  }

  lemma {:induction false} LargestOf(s: set<nat>) returns (m: nat)
    requires s != {}
    ensures m in s && forall u | u in s :: u <= m
    decreases s
  {
    var x :| x in s;
    m := x;
    if s - {x} == {} {
      forall u | u in s ensures u <= m {
        assert u !in s - {x};
      }
    } else {
      var n := LargestOf(s - {x});
      m := if x < n then n else x;
      forall u | u in s ensures u <= m {
        assert u == x || u in s - {x};
      }
    }
  }

  lemma {:induction false} HighestIdIs(envelopes: seq<Envelope>, t: Server)
    requires Valid(t) && forall e | e in envelopes :: NamesMessage(e, t)
    ensures envelopes != [] <==> HighestId(envelopes).Some?
    ensures HighestId(envelopes).Some? ==> HighestId(envelopes).value in t.messages
    ensures forall u: nat, e | e in envelopes && e.id == Show(u) :: u <= HighestId(envelopes).value
  {
    if envelopes != [] {
      var before, last := envelopes[..|envelopes| - 1], envelopes[|envelopes| - 1];
      assert envelopes == before + [last];
      HighestIdIs(before, t);
      assert last in envelopes;
      var v: nat :| v in t.messages && last.id == Show(v);
      ParseShow(v);
      forall u: nat, e | e in envelopes && e.id == Show(u) ensures u <= HighestId(envelopes).value {
        if e == last {
          ShowInjective(u, v);
        } else {
          assert e in before;
        }
      }
    }
  }
}
