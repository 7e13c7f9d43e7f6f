/** A replica fed by `DiffEnvelopes` over whole runs of the mailbox. */
module ImapSync {
  import opened Wrappers
  import opened Widths
  import opened Flags
  import opened Envelopes
  import opened Decimal
  import opened ImapState
  import opened ImapServer
  import opened ImapClient

  /** Mailbox, replica and stored checkpoint; `bare`: the messages fetched without envelope since the last listing. */
  datatype World = World(server: Server, replica: Replica, state: Option<seq<Byte>>, bare: set<nat>)

  /**
   What the pair (replica, checkpoint) knows about the mailbox: wherever the replica is out of
   date, the server will report the message as changed since `modSeq`, fetch it as newer than
   `highestUid`, or report it as vanished since `modSeq`.
   */
  ghost predicate KnownAt(r: Replica, modSeq: nat, highestUid: nat, s: Server, bare: set<nat>) {
    && modSeq <= s.highestModSeq
    && highestUid < s.uidNext
    && (forall id | id in r :: exists u :: 0 < u < s.uidNext && id == Show(u))
    && (forall u | u in s.messages :: Current(r, modSeq, highestUid, s, u, bare))
    && (forall u: nat | Show(u) in r && u !in s.messages :: u in s.expunged && modSeq < s.expunged[u])
  }

  ghost predicate Current(r: Replica, modSeq: nat, highestUid: nat, s: Server, u: nat, bare: set<nat>)
    requires u in s.messages
  {
    var m := s.messages[u];
    if Show(u) in r then
      HeaderRight(r[Show(u)], m, u, bare) && (m.modSeq <= modSeq ==> r[Show(u)].flags == KeysOf(m.flags))
    else highestUid < u && modSeq < m.modSeq
  }

  /** The stored checkpoint, when it belongs to the present UIDVALIDITY, is one the replica is `KnownAt`. */
  ghost predicate Inv(w: World) {
    && Valid(w.server)
    && match w.state
       case None => true
       case Some(bytes) =>
         && Decode(bytes).Some?
         && var c := Decode(bytes).value;
         && c.uidValidity <= w.server.uidValidity
         && (c.uidValidity == w.server.uidValidity ==>
               KnownAt(w.replica, c.highestModSeq, c.highestUid, w.server, w.bare))
  }

  lemma {:induction false} KnownSurvives(r: Replica, modSeq: nat, highestUid: nat, s: Server, t: Server, bare: set<nat>)
    requires Valid(s) && Valid(t) && Later(s, t) && KnownAt(r, modSeq, highestUid, s, bare)
    ensures KnownAt(r, modSeq, highestUid, t, bare)
  {
    forall id | id in r ensures exists u :: 0 < u < t.uidNext && id == Show(u) {
      var u :| 0 < u < s.uidNext && id == Show(u);
      assert 0 < u < t.uidNext;
    }
    forall u | u in t.messages ensures Current(r, modSeq, highestUid, t, u, bare) {
      if u in s.messages {
        assert Current(r, modSeq, highestUid, s, u, bare);
      }
    }
  }

  lemma {:induction false} KnownEarlier(r: Replica, modSeq: nat, older: nat, highestUid: nat, s: Server, bare: set<nat>)
    requires KnownAt(r, modSeq, highestUid, s, bare) && older <= modSeq
    ensures KnownAt(r, older, highestUid, s, bare)
  {
    forall u | u in s.messages ensures Current(r, older, highestUid, s, u, bare) {
      assert Current(r, modSeq, highestUid, s, u, bare);
    }
  }

  lemma {:induction false} KnownWithMoreBare(
    r: Replica, modSeq: nat, highestUid: nat, s: Server, bare: set<nat>, more: set<nat>)
    requires KnownAt(r, modSeq, highestUid, s, bare) && bare <= more
    ensures KnownAt(r, modSeq, highestUid, s, more)
  {
    forall u | u in s.messages ensures Current(r, modSeq, highestUid, s, u, more) {
      assert Current(r, modSeq, highestUid, s, u, bare);
    }
  }

  // ----- what the pieces of a lawful answer say

  lemma {:induction false} FlagUpdatesMember(rows: seq<Row>, u: FlagUpdate)
    ensures u in FlagUpdatesOf(rows) <==> exists row :: row in rows && FlagUpdateOf(row) == Some(u)
  {
    if rows != [] {
      var before, last := rows[..|rows| - 1], rows[|rows| - 1];
      assert rows == before + [last];
      FlagUpdatesMember(before, u);
    }
  }

  ghost predicate NamesUidBelow(id: string, limit: nat) {
    exists u: nat :: u < limit && u <= U32_MAX && id == Show(u)
  }

  lemma {:induction false} HighestIdBounds(envelopes: seq<Envelope>, limit: nat)
    requires forall e | e in envelopes :: NamesUidBelow(e.id, limit)
    ensures HighestId(envelopes).Some? ==> HighestId(envelopes).value < limit
  {
    if envelopes != [] {
      var before, last := envelopes[..|envelopes| - 1], envelopes[|envelopes| - 1];
      assert envelopes == before + [last];
      HighestIdBounds(before, limit);
      var u: nat :| u < limit && u <= U32_MAX && last.id == Show(u);
      ParseShow(u);
    }
  }

  lemma {:induction false} HighestUidInBounds(row: Row, limit: nat)
    requires 0 < limit && forall i | 0 <= i < |row| && row[i].UidItem? :: row[i].uid < limit
    ensures HighestUidIn(row) < limit
  {
    if row != [] {
      HighestUidInBounds(row[..|row| - 1], limit);
    }
  }

  lemma {:induction false} HighestUidItemBounds(rows: seq<Row>, limit: nat)
    requires 0 < limit
    requires forall row: Row, i | row in rows && 0 <= i < |row| && row[i].UidItem? :: row[i].uid < limit
    ensures HighestUidItem(rows) < limit
  {
    if rows != [] {
      var before, last := rows[..|rows| - 1], rows[|rows| - 1];
      assert rows == before + [last];
      HighestUidItemBounds(before, limit);
      HighestUidInBounds(last, limit);
    }
  }

  /** The flag updates of a lawful QRESYNC answer carry current flags and cover every change. */
  lemma {:induction false} FlagUpdatesReport(s: Server, modSeq: nat, changed: seq<Row>, vanished: seq<nat>, u: nat)
    requires ReportsChanges(s, modSeq, changed, vanished) && u in s.messages
    ensures UpdatesAgree(FlagUpdatesOf(changed), Show(u), KeysOf(s.messages[u].flags))
    ensures modSeq < s.messages[u].modSeq ==> Updated(FlagUpdatesOf(changed), Show(u))
  {
    var updates := FlagUpdatesOf(changed);
    forall f | f in updates && f.id == Show(u) ensures f.flags == KeysOf(s.messages[u].flags) {
      FlagUpdatesMember(changed, f);
      var row :| row in changed && FlagUpdateOf(row) == Some(f);
      var v := UpdateReports(s, modSeq, changed, vanished, row);
      ShowInjective(v, u);
    }
    if modSeq < s.messages[u].modSeq {
      var row :| row in changed && ReportsFlags(row, s, u);
      RowReads(row, s, u);
      var f := FlagUpdate(Show(u), KeysOf(s.messages[u].flags));
      FlagUpdatesMember(changed, f);
      assert f in updates && f.id == Show(u);
    }
  }

  /** The fetched envelopes are current, but for the headers of bare messages, and name all messages above `lo`. */
  ghost predicate Envelops(envelopes: seq<Envelope>, t: Server, lo: nat, bare: set<nat>) {
    && (forall e | e in envelopes :: exists u: nat :: IsEnvelopeOf(e, t, u, bare))
    && (forall u | u in t.messages && lo < u :: Announced(envelopes, Show(u)))
  }

  ghost predicate IsEnvelopeOf(e: Envelope, t: Server, u: nat, bare: set<nat>) {
    u in t.messages && e.id == Show(u) && Right(Stored(e.flags, e.header), t.messages[u], u, bare)
  }

  lemma {:induction false} EnvelopesReport(t: Server, lo: nat, rows: seq<Row>, bare: set<nat>)
    requires ReportsRange(t, lo + 1, rows) && BareUids(rows) <= bare
    ensures Envelops(EnvelopesOf(rows), t, lo, bare)
  {
    var envelopes := EnvelopesOf(rows);
    forall e | e in envelopes ensures exists u: nat :: IsEnvelopeOf(e, t, u, bare) {
      var i :| 0 <= i < |rows| && e == EnvelopeOf(0, rows[i]);
      assert rows[i] in rows;
      RowReports(t, lo + 1, rows, rows[i]);
      var u: nat :| ReportsFlags(rows[i], t, u) && (ReportsEnvelope(rows[i], t, u) || LacksEnvelope(rows[i]));
      RowReads(rows[i], t, u);
      if LacksEnvelope(rows[i]) {
        BareUid(rows, rows[i], u);
      }
      assert IsEnvelopeOf(e, t, u, bare);
    }
    forall u | u in t.messages && lo < u ensures Announced(envelopes, Show(u)) {
      assert InRangeToLast(t, lo + 1, u);
      var row :| row in rows && ReportsEnvelope(row, t, u);
      var i :| 0 <= i < |rows| && rows[i] == row;
      RowReads(row, t, u);
      assert envelopes[i] == EnvelopeOf(0, row) && envelopes[i] in envelopes;
    }
  }

  /** Current flags of a message, with its envelope or without one. */
  ghost predicate ReportsSomeMessage(row: Row, t: Server) {
    exists u: nat :: ReportsFlags(row, t, u) && (ReportsEnvelope(row, t, u) || LacksEnvelope(row))
  }

  lemma {:induction false} RowReports(t: Server, start: nat, rows: seq<Row>, row: Row)
    requires ReportsRange(t, start, rows) && row in rows
    ensures ReportsSomeMessage(row, t)
  {
    var u: nat :| || (InRangeToLast(t, start, u) && ReportsEnvelope(row, t, u))
                  || (ReportsFlags(row, t, u) && LacksEnvelope(row));
  }

  lemma {:induction false} BareUid(rows: seq<Row>, row: Row, u: nat)
    requires row in rows && CarriesUid(row, u) && LacksEnvelope(row)
    ensures u in BareUids(rows)
  {
    var i :| 0 <= i < |row| && row[i] == UidItem(u) && forall j | i < j < |row| :: !row[j].UidItem?;
    assert row[i].uid == u;
  }

  /** Every entry for a message is right about it. */
  ghost predicate EntriesRight(envelopes: seq<Envelope>, t: Server, u: nat, bare: set<nat>)
    requires u in t.messages
  {
    forall e | e in envelopes && e.id == Show(u) :: Right(Stored(e.flags, e.header), t.messages[u], u, bare)
  }

  lemma {:induction false} EnvelopsRight(envelopes: seq<Envelope>, t: Server, lo: nat, u: nat, bare: set<nat>)
    requires Envelops(envelopes, t, lo, bare) && u in t.messages
    ensures EntriesRight(envelopes, t, u, bare)
  {
    forall e | e in envelopes && e.id == Show(u) ensures Right(Stored(e.flags, e.header), t.messages[u], u, bare) {
      var v: nat :| IsEnvelopeOf(e, t, v, bare);
      ShowInjective(u, v);
    }
  }

  // ----- one incremental synchronisation

  ghost predicate LawfulIncrement(
    r: Replica, modSeq: nat, highestUid: nat, s: Server, t: Server,
    select: Reply, envelopes: seq<Envelope>, bare: set<nat>)
  {
    && Valid(s) && Valid(t) && Later(s, t)
    && KnownAt(r, modSeq, highestUid, s, bare)
    && select.Selected?
    && ReportsChanges(s, modSeq, select.changed, select.vanished)
    && Envelops(envelopes, t, highestUid, bare)
  }

  /** The replica after the call, when the answers came from `s` (SELECT) and later from `t` (FETCH). */
  ghost function AfterIncrement(r: Replica, c: Checkpoint, select: Reply, envelopes: seq<Envelope>): Replica
    requires select.Selected?
  {
    ApplyDiff(r, Finish(c, select, envelopes))
  }

  lemma {:induction false} VanishedMember(vanished: seq<nat>, u: nat)
    ensures Show(u) in seq(|vanished|, i requires 0 <= i < |vanished| => Show(vanished[i])) <==> u in vanished
  {
    var ids := seq(|vanished|, i requires 0 <= i < |vanished| => Show(vanished[i]));
    if Show(u) in ids {
      var i :| 0 <= i < |ids| && ids[i] == Show(u);
      ShowInjective(vanished[i], u);
    }
    if u in vanished {
      var i :| 0 <= i < |vanished| && vanished[i] == u;
      assert ids[i] == Show(u);
    }
  }

  /** A message still in the mailbox: present in the new replica, and current unless touched after SELECT. */
  lemma {:induction false} PresentMessage(
    r: Replica, c: Checkpoint, s: Server, t: Server, select: Reply, envelopes: seq<Envelope>, u: nat, bare: set<nat>)
    requires LawfulIncrement(r, c.highestModSeq, c.highestUid, s, t, select, envelopes, bare)
    requires u in t.messages
    ensures var r' := AfterIncrement(r, c, select, envelopes);
      && Show(u) in r'
      && HeaderRight(r'[Show(u)], t.messages[u], u, bare)
      && (t.messages[u].modSeq <= s.highestModSeq ==> Right(r'[Show(u)], t.messages[u], u, bare))
  {
    EnvelopsRight(envelopes, t, c.highestUid, u, bare);
    VanishedMember(select.vanished, u);
    assert Show(u) !in Finish(c, select, envelopes).vanishedIds;
    if u in s.messages {
      OldMessage(r, c, s, t, select, envelopes, u, bare);
    } else {
      YoungMessage(r, c, s, t, select, envelopes, u, bare);
    }
  }

  /** A message that was there at SELECT. */
  lemma {:induction false} OldMessage(
    r: Replica, c: Checkpoint, s: Server, t: Server, select: Reply, envelopes: seq<Envelope>, u: nat, bare: set<nat>)
    requires LawfulIncrement(r, c.highestModSeq, c.highestUid, s, t, select, envelopes, bare)
    requires u in s.messages && u in t.messages
    requires EntriesRight(envelopes, t, u, bare)
    requires Show(u) !in Finish(c, select, envelopes).vanishedIds
    ensures var r' := AfterIncrement(r, c, select, envelopes);
      && Show(u) in r'
      && HeaderRight(r'[Show(u)], t.messages[u], u, bare)
      && (t.messages[u].modSeq <= s.highestModSeq ==> Right(r'[Show(u)], t.messages[u], u, bare))
  {
    assert Current(r, c.highestModSeq, c.highestUid, s, u, bare);
    FlagUpdatesReport(s, c.highestModSeq, select.changed, select.vanished, u);
    ApplyDiffEntry(r, Finish(c, select, envelopes), Show(u), KeysOf(s.messages[u].flags));
  }

  lemma {:induction false} NoUpdateFor(s: Server, modSeq: nat, changed: seq<Row>, vanished: seq<nat>, u: nat)
    requires ReportsChanges(s, modSeq, changed, vanished) && u !in s.messages
    ensures forall f | f in FlagUpdatesOf(changed) :: f.id != Show(u)
  {
    forall f | f in FlagUpdatesOf(changed) ensures f.id != Show(u) {
      FlagUpdatesMember(changed, f);
      var row :| row in changed && FlagUpdateOf(row) == Some(f);
      var v := UpdateReports(s, modSeq, changed, vanished, row);
      if f.id == Show(u) {
        ShowInjective(v, u);
      }
    }
  }

  /** A message that arrived after SELECT. */
  lemma {:induction false} YoungMessage(
    r: Replica, c: Checkpoint, s: Server, t: Server, select: Reply, envelopes: seq<Envelope>, u: nat, bare: set<nat>)
    requires LawfulIncrement(r, c.highestModSeq, c.highestUid, s, t, select, envelopes, bare)
    requires u !in s.messages && u in t.messages
    requires EntriesRight(envelopes, t, u, bare)
    requires Show(u) !in Finish(c, select, envelopes).vanishedIds
    ensures var r' := AfterIncrement(r, c, select, envelopes);
      Show(u) in r' && Right(r'[Show(u)], t.messages[u], u, bare)
  {
    var diff := Finish(c, select, envelopes);
    NoUpdateFor(s, c.highestModSeq, select.changed, select.vanished, u);
    ApplyDiffEntry(r, diff, Show(u), {});
  }

  /** An id of the new replica whose message is gone was expunged after SELECT. */
  lemma {:induction false} AbsentMessage(
    r: Replica, c: Checkpoint, s: Server, t: Server, select: Reply, envelopes: seq<Envelope>, u: nat, bare: set<nat>)
    requires LawfulIncrement(r, c.highestModSeq, c.highestUid, s, t, select, envelopes, bare)
    requires u !in t.messages && Show(u) in AfterIncrement(r, c, select, envelopes)
    ensures u in t.expunged && s.highestModSeq < t.expunged[u]
  {
    var diff := Finish(c, select, envelopes);
    var r1 := ApplyUpdates(r, diff.flagUpdates);
    ApplyUpdatesKeys(r, diff.flagUpdates);
    forall e | e in envelopes && e.id == Show(u) ensures false {
      var v: nat :| IsEnvelopeOf(e, t, v, bare);
      ShowInjective(u, v);
    }
    ApplyNewAt(r1, envelopes, Show(u), Stored({}, EMPTY_HEADER));
    VanishedMember(select.vanished, u);
  }

  /** Every id of the new replica is the UID of some past or present message. */
  lemma {:induction false} IdsAreUids(
    r: Replica, c: Checkpoint, s: Server, t: Server, select: Reply, envelopes: seq<Envelope>, id: string,
    bare: set<nat>)
    requires LawfulIncrement(r, c.highestModSeq, c.highestUid, s, t, select, envelopes, bare)
    requires id in AfterIncrement(r, c, select, envelopes)
    ensures exists u :: 0 < u < t.uidNext && id == Show(u)
  {
    var diff := Finish(c, select, envelopes);
    ApplyUpdatesKeys(r, diff.flagUpdates);
    if e :| e in envelopes && e.id == id {
      var v: nat :| IsEnvelopeOf(e, t, v, bare);
      assert 0 < v < t.uidNext;
    } else {
      ApplyNewAt(ApplyUpdates(r, diff.flagUpdates), envelopes, id, Stored({}, EMPTY_HEADER));
      var u :| 0 < u < s.uidNext && id == Show(u);
      assert 0 < u < t.uidNext;
    }
  }

  /**
   The buckets are not disjoint: a message that is new by UID and by mod-sequence is in two of them.
   Entries for one message agree when nobody acts between SELECT and FETCH, and a message that is
   present is never reported as vanished.
   */
  lemma {:induction false} BucketsOverlapAndAgree(
    r: Replica, c: Checkpoint, s: Server, t: Server, select: Reply, envelopes: seq<Envelope>, u: nat, bare: set<nat>)
    requires LawfulIncrement(r, c.highestModSeq, c.highestUid, s, t, select, envelopes, bare)
    requires u in s.messages && u in t.messages
    ensures var diff := Finish(c, select, envelopes);
      && (c.highestModSeq < s.messages[u].modSeq && c.highestUid < u ==>
            Updated(diff.flagUpdates, Show(u)) && Announced(diff.newEnvelopes, Show(u)))
      && (s == t ==>
            && UpdatesAgree(diff.flagUpdates, Show(u), Shown(t.messages[u]).flags)
            && EntriesRight(diff.newEnvelopes, t, u, bare)
            && (u !in bare ==> EnvelopesAgree(diff.newEnvelopes, Show(u), Shown(t.messages[u]))))
      && Show(u) !in diff.vanishedIds
  {
    EnvelopsRight(envelopes, t, c.highestUid, u, bare);
    FlagUpdatesReport(s, c.highestModSeq, select.changed, select.vanished, u);
    VanishedMember(select.vanished, u);
  }

  /**
   One incremental call keeps the invariant whatever other clients do between SELECT and FETCH,
   even when `high+1:*` answers with an old message and the new high-water mark is lower.
   */
  lemma {:induction false} IncrementKeepsKnown(
    r: Replica, c: Checkpoint, s: Server, t: Server, select: Reply, envelopes: seq<Envelope>, high: nat,
    bare: set<nat>)
    requires LawfulIncrement(r, c.highestModSeq, c.highestUid, s, t, select, envelopes, bare)
    requires high < t.uidNext
    ensures KnownAt(AfterIncrement(r, c, select, envelopes), s.highestModSeq, high, t, bare)
  {
    var r' := AfterIncrement(r, c, select, envelopes);
    forall u | u in t.messages ensures Current(r', s.highestModSeq, high, t, u, bare) {
      PresentMessage(r, c, s, t, select, envelopes, u, bare);
    }
    forall u: nat | Show(u) in r' && u !in t.messages ensures u in t.expunged && s.highestModSeq < t.expunged[u] {
      AbsentMessage(r, c, s, t, select, envelopes, u, bare);
    }
    forall id | id in r' ensures exists u :: 0 < u < t.uidNext && id == Show(u) {
      IdsAreUids(r, c, s, t, select, envelopes, id, bare);
    }
  }

  /** A replica known at the server's own latest mod-sequence, with no message missing, is the mailbox. */
  lemma {:induction false} KnownAtLatestIsMirror(r: Replica, high: nat, s: Server, bare: set<nat>)
    requires Valid(s) && KnownAt(r, s.highestModSeq, high, s, bare)
    ensures MirrorsExcept(r, s, bare)
  {
    forall u | u in s.messages ensures Show(u) in r && Right(r[Show(u)], s.messages[u], u, bare) {
      assert Current(r, s.highestModSeq, high, s, u, bare);
    }
    forall id | id in r ensures exists u :: u in s.messages && id == Show(u) {
      var u :| 0 < u < s.uidNext && id == Show(u);
      assert u in s.messages;
    }
  }

  // ----- whole runs

  predicate IsFetch(c: Command) { c.UidFetchFrom? || c.FetchLast? }

  /**
   Server `servers[i]` answers command `i`; other clients act in between, but a selected mailbox keeps
   its UIDVALIDITY.
   */
  ghost predicate Conversation(start: Server, sent: seq<Command>, replies: seq<Reply>, servers: seq<Server>) {
    && |servers| == |sent|
    && (forall i | 0 <= i < |sent| :: Answers(servers[i], sent[i], ReplyAt(replies, i)))
    && (forall i | 0 <= i < |sent| :: Reaches(if i == 0 then start else servers[i - 1], servers[i]))
    && (forall i | 0 < i < |sent| && IsFetch(sent[i]) :: servers[i].uidValidity == servers[i - 1].uidValidity)
  }

  ghost function Last(start: Server, servers: seq<Server>): Server {
    if servers == [] then start else servers[|servers| - 1]
  }

  /**
   One call and what the caller does with it: an incremental diff is applied to the replica, a
   full-list answer makes the caller list the mailbox afterwards, an error changes nothing.
   */
  ghost predicate Synced(
    w: World, qresync: bool, replies: seq<Reply>, servers: seq<Server>, listed: Server, w': World)
  {
    var out := Diff(true, qresync, w.state, replies);
    && Conversation(w.server, out.sent, replies, servers)
    && Reaches(Last(w.server, servers), listed)
    && Reaches(listed, w'.server)
    && match out.result
       case Err(_) => w' == w.(server := w'.server)
       case Ok(FullListRequired(newState)) => Mirrors(w'.replica, listed) && w'.state == newState && w'.bare == {}
       case Ok(Incremental(checkpoint, _, _, _)) =>
         && w'.replica == ApplyDiff(w.replica, out.result.value) && w'.state == Some(checkpoint)
         && w'.bare == w.bare + BareUids(FetchedRows(out.sent, replies))
  }

  /** The rows that became new envelopes, if any were asked for. */
  function FetchedRows(sent: seq<Command>, replies: seq<Reply>): seq<Row> {
    if |sent| < 2 then []
    else match ReplyAt(replies, 1) case Fetched(rows) => rows case _ => []
  }

  ghost predicate WorldStep(w: World, w': World) {
    || (Reaches(w.server, w'.server) && w' == w.(server := w'.server))
    || exists qresync, replies, servers, listed :: Synced(w, qresync, replies, servers, listed, w')
  }

  lemma {:induction false} ServerMoves(w: World, t: Server)
    requires Inv(w) && Follows(w.server, t)
    ensures Inv(w.(server := t))
  {
    if w.state.Some? {
      var c := Decode(w.state.value).value;
      if c.uidValidity == t.uidValidity {
        KnownSurvives(w.replica, c.highestModSeq, c.highestUid, w.server, t, w.bare);
      }
    }
  }

  /** A listing of `t` makes every checkpoint taken earlier a sound one. */
  lemma {:induction false} MirrorIsKnown(r: Replica, modSeq: nat, highestUid: nat, t: Server)
    requires Valid(t) && Mirrors(r, t) && modSeq <= t.highestModSeq && highestUid < t.uidNext
    ensures KnownAt(r, modSeq, highestUid, t, {})
  {
    forall id | id in r ensures exists u :: 0 < u < t.uidNext && id == Show(u) {
      var u :| u in t.messages && id == Show(u);
      assert 0 < u < t.uidNext;
    }
    forall u: nat | Show(u) in r && u !in t.messages ensures false {
      var v :| v in t.messages && Show(u) == Show(v);
      ShowInjective(u, v);
    }
  }

  /** The server after command `i` follows the server before the call. */
  lemma {:induction false} ConversationFollows(
    start: Server, sent: seq<Command>, replies: seq<Reply>, servers: seq<Server>, i: nat)
    requires Valid(start) && Conversation(start, sent, replies, servers) && i < |servers|
    ensures Follows(start, servers[i])
  {
    if i == 0 {
      ReachesFollows(start, servers[0]);
    } else {
      ConversationFollows(start, sent, replies, servers, i - 1);
      ReachesFollows(servers[i - 1], servers[i]);
      FollowsTransitive(start, servers[i - 1], servers[i]);
    }
  }

  lemma {:induction false} LastFollows(start: Server, sent: seq<Command>, replies: seq<Reply>, servers: seq<Server>)
    requires Valid(start) && Conversation(start, sent, replies, servers)
    ensures Follows(start, Last(start, servers))
  {
    if servers != [] {
      ConversationFollows(start, sent, replies, servers, |servers| - 1);
    }
  }

  /** The commands of `Baseline` start at index `from` of the whole conversation. */
  lemma {:induction false} BaselineCheckpoint(
    start: Server, sent: seq<Command>, replies: seq<Reply>, servers: seq<Server>, from: nat, listed: Server, r: Replica)
    requires Valid(start) && Conversation(start, sent, replies, servers)
    requires from <= |sent| && from <= 1
    requires sent[from..] == Baseline(Rest(replies, from)).sent
    requires Follows(Last(start, servers), listed) && Mirrors(r, listed)
    requires Baseline(Rest(replies, from)).result.Ok?
    ensures Inv(World(listed, r, Baseline(Rest(replies, from)).result.value.newState, {}))
  {
    var rest := Rest(replies, from);
    var out := Baseline(rest);
    var select := ReplyAt(rest, 0);
    assert out.sent[0] == SelectPlain == sent[from..][0] == sent[from];
    assert select == ReplyAt(replies, from);
    assert Answers(servers[from], sent[from], ReplyAt(replies, from));
    ConversationFollows(start, sent, replies, servers, from);
    var s := servers[from];
    if select.uidValidity.Some? {
      var modSeq := GetOr(select.highestModSeq, 0);
      if GetOr(select.messageCount, 0) == 0 {
        assert |out.sent| == 1 && |sent| == from + 1;
        CheckpointDecodes(Checkpoint(s.uidValidity, modSeq, 0), s);
        if listed.uidValidity == s.uidValidity {
          MirrorIsKnown(r, modSeq, 0, listed);
        }
      } else {
        assert out.sent[1] == FetchLast == sent[from..][1] == sent[from + 1];
        assert |sent| == from + 2;
        var fetch := ReplyAt(rest, 1);
        assert fetch == ReplyAt(replies, from + 1);
        var t := servers[from + 1];
        assert Answers(t, FetchLast, fetch);
        ReachesFollows(s, t);
        ConversationFollows(start, sent, replies, servers, from + 1);
        HighestUidItemBounds(fetch.rows, t.uidNext);
        CheckpointDecodes(Checkpoint(s.uidValidity, modSeq, HighestUidItem(fetch.rows)), t);
        if listed.uidValidity == s.uidValidity {
          MirrorIsKnown(r, modSeq, HighestUidItem(fetch.rows), listed);
        }
      }
    }
  }

  function Rest(replies: seq<Reply>, from: nat): seq<Reply> {
    if from <= |replies| then replies[from..] else []
  }

  lemma {:induction false} CheckpointDecodes(c: Checkpoint, s: Server)
    requires Valid(s) && c.uidValidity == s.uidValidity
    requires c.highestModSeq <= s.highestModSeq && c.highestUid < s.uidNext
    ensures Decode(Encode(c)) == Some(c)
  {
    DecodeEncode(c);
  }

  /** The high-water mark after an incremental call is still below UIDNEXT. */
  lemma {:induction false} NewHighBelowUidNext(envelopes: seq<Envelope>, t: Server, high: nat, bare: set<nat>)
    requires Valid(t) && Envelops(envelopes, t, high, bare) && high < t.uidNext
    ensures GetOr(HighestId(envelopes), high) < t.uidNext
  {
    forall e | e in envelopes ensures NamesUidBelow(e.id, t.uidNext) {
      var u: nat :| IsEnvelopeOf(e, t, u, bare);
      assert u < t.uidNext && u <= U32_MAX && e.id == Show(u);
    }
    HighestIdBounds(envelopes, t.uidNext);
  }

  /** What the SELECT answer of an incremental call is known to be. */
  lemma {:induction false} SelectAnswer(
    r: Replica, c: Checkpoint, start: Server, replies: seq<Reply>, servers: seq<Server>, bare: set<nat>)
    requires Valid(start) && c.uidValidity == start.uidValidity
    requires KnownAt(r, c.highestModSeq, c.highestUid, start, bare)
    requires Conversation(start, Resync(c, replies).sent, replies, servers)
    requires Resync(c, replies).result.Ok? && Resync(c, replies).result.value.Incremental?
    ensures servers != [] && Valid(servers[0]) && servers[0].uidValidity == c.uidValidity
    ensures KnownAt(r, c.highestModSeq, c.highestUid, servers[0], bare)
    ensures ReplyAt(replies, 0).Selected?
    ensures ReportsChanges(servers[0], c.highestModSeq, ReplyAt(replies, 0).changed, ReplyAt(replies, 0).vanished)
    ensures ReplyAt(replies, 0).highestModSeq.Some? ==>
      ReplyAt(replies, 0).highestModSeq.value == servers[0].highestModSeq
  {
    var sent := Resync(c, replies).sent;
    var select := ReplyAt(replies, 0);
    assert sent[0] == SelectQresync(c.uidValidity, c.highestModSeq);
    assert Answers(servers[0], sent[0], select);
    ConversationFollows(start, sent, replies, servers, 0);
    KnownSurvives(r, c.highestModSeq, c.highestUid, start, servers[0], bare);
  }

  lemma {:induction false} SecondAnswer(
    start: Server, sent: seq<Command>, replies: seq<Reply>, servers: seq<Server>)
    requires Conversation(start, sent, replies, servers) && |sent| == 2 && IsFetch(sent[1])
    requires Valid(servers[0])
    ensures Answers(servers[1], sent[1], ReplyAt(replies, 1))
    ensures servers[1] == Last(start, servers) && Valid(servers[1]) && Later(servers[0], servers[1])
    ensures servers[1].uidValidity == servers[0].uidValidity
  {
    assert Reaches(servers[0], servers[1]);
    ReachesFollows(servers[0], servers[1]);
  }

  /** The server and the envelopes behind the second command, if there is one. */
  lemma {:induction false} FetchAnswer(c: Checkpoint, start: Server, replies: seq<Reply>, servers: seq<Server>)
    returns (envelopes: seq<Envelope>)
    requires servers != [] && Valid(servers[0])
    requires forall u | u in servers[0].messages :: u <= U32_MAX
    requires Conversation(start, Resync(c, replies).sent, replies, servers)
    requires Resync(c, replies).result.Ok? && Resync(c, replies).result.value.Incremental?
    ensures Resync(c, replies).result.value == Finish(c, ReplyAt(replies, 0), envelopes)
    ensures Valid(Last(start, servers)) && Later(servers[0], Last(start, servers))
    ensures Last(start, servers).uidValidity == servers[0].uidValidity
    ensures var bare := BareUids(FetchedRows(Resync(c, replies).sent, replies));
      Envelops(envelopes, Last(start, servers), c.highestUid, bare)
  {
    ResyncParts(c, replies);
    var sent := Resync(c, replies).sent;
    envelopes := EnvelopesOf(FetchedRows(sent, replies));
    if |sent| == 2 {
      FetchedEnvelopes(c.highestUid, start, sent, replies, servers);
    }
  }

  lemma {:induction false} FetchedEnvelopes(
    high: nat, start: Server, sent: seq<Command>, replies: seq<Reply>, servers: seq<Server>)
    requires Conversation(start, sent, replies, servers) && |sent| == 2 && sent[1] == UidFetchFrom(high + 1)
    requires ReplyAt(replies, 1).Fetched? && Valid(servers[0])
    ensures Valid(Last(start, servers)) && Later(servers[0], Last(start, servers))
    ensures Last(start, servers).uidValidity == servers[0].uidValidity
    ensures var rows := FetchedRows(sent, replies);
      Envelops(EnvelopesOf(rows), Last(start, servers), high, BareUids(rows))
  {
    var rows := FetchedRows(sent, replies);
    SecondAnswer(start, sent, replies, servers);
    EnvelopesReport(servers[1], high, rows, BareUids(rows));
  }

  /** The commands and the result of an incremental call. */
  lemma {:induction false} ResyncParts(c: Checkpoint, replies: seq<Reply>)
    requires Resync(c, replies).result.Ok? && Resync(c, replies).result.value.Incremental?
    ensures var (sent, result) := (Resync(c, replies).sent, Resync(c, replies).result.value);
      && result == Finish(c, ReplyAt(replies, 0), EnvelopesOf(FetchedRows(sent, replies)))
      && 1 <= |sent| <= 2 && (|sent| == 1 <==> U32_MAX <= c.highestUid)
      && (|sent| == 2 ==> sent[1] == UidFetchFrom(c.highestUid + 1) && ReplyAt(replies, 1).Fetched?)
  {
    assert EnvelopesOf([]) == [];
  }

  /** The two servers and the envelopes behind an incremental result. */
  lemma {:induction false} IncrementOf(w: World, qresync: bool, replies: seq<Reply>, servers: seq<Server>)
    returns (c: Checkpoint, s: Server, t: Server, envelopes: seq<Envelope>)
    requires Inv(w)
    requires Conversation(w.server, Diff(true, qresync, w.state, replies).sent, replies, servers)
    requires var out := Diff(true, qresync, w.state, replies); out.result.Ok? && out.result.value.Incremental?
    ensures Diff(true, qresync, w.state, replies).result.value == Finish(c, ReplyAt(replies, 0), envelopes)
    ensures var bare := w.bare + BareUids(FetchedRows(Diff(true, qresync, w.state, replies).sent, replies));
      LawfulIncrement(w.replica, c.highestModSeq, c.highestUid, s, t, ReplyAt(replies, 0), envelopes, bare)
    ensures c.uidValidity == s.uidValidity == t.uidValidity
    ensures ReplyAt(replies, 0).highestModSeq.Some? ==> ReplyAt(replies, 0).highestModSeq.value == s.highestModSeq
    ensures servers != [] && s == servers[0] && t == Last(w.server, servers)
  {
    c := Decode(w.state.value).value;
    var out := Resync(c, replies);
    assert Diff(true, qresync, w.state, replies) == out;
    SameValidity(w, c, replies, servers);
    SelectAnswer(w.replica, c, w.server, replies, servers, w.bare);
    s, t := servers[0], Last(w.server, servers);
    envelopes := FetchAnswer(c, w.server, replies, servers);
    var bare := BareUids(FetchedRows(out.sent, replies));
    KnownWithMoreBare(w.replica, c.highestModSeq, c.highestUid, s, w.bare, w.bare + bare);
    forall e | e in envelopes ensures exists u: nat :: IsEnvelopeOf(e, t, u, w.bare + bare) {
      var u: nat :| IsEnvelopeOf(e, t, u, bare);
      assert IsEnvelopeOf(e, t, u, w.bare + bare);
    }
  }

  /** An incremental result means the mailbox still had the cached UIDVALIDITY before the call. */
  lemma {:induction false} SameValidity(w: World, c: Checkpoint, replies: seq<Reply>, servers: seq<Server>)
    requires Valid(w.server) && c.uidValidity <= w.server.uidValidity
    requires Conversation(w.server, Resync(c, replies).sent, replies, servers)
    requires Resync(c, replies).result.Ok? && Resync(c, replies).result.value.Incremental?
    ensures c.uidValidity == w.server.uidValidity
  {
    var sent := Resync(c, replies).sent;
    assert sent[0] == SelectQresync(c.uidValidity, c.highestModSeq);
    assert Answers(servers[0], sent[0], ReplyAt(replies, 0));
    ConversationFollows(w.server, sent, replies, servers, 0);
  }

  /** One call, with whatever other clients do before, during and after it, keeps the invariant. */
  lemma {:induction false} SyncKeepsInv(
    w: World, qresync: bool, replies: seq<Reply>, servers: seq<Server>, listed: Server, w': World)
    requires Inv(w) && Synced(w, qresync, replies, servers, listed, w')
    ensures Inv(w')
  {
    var out := Diff(true, qresync, w.state, replies);
    LastFollows(w.server, out.sent, replies, servers);
    var last := Last(w.server, servers);
    ReachesFollows(last, listed);
    ReachesFollows(listed, w'.server);
    FollowsTransitive(w.server, last, listed);
    FollowsTransitive(w.server, listed, w'.server);
    match out.result {
      case Err(_) =>
        ServerMoves(w, w'.server);
      case Ok(FullListRequired(_)) =>
        FullListKeepsInv(w, qresync, replies, servers, listed, w');
      case Ok(Incremental(_, _, _, _)) =>
        var c, s, t, envelopes := IncrementOf(w, qresync, replies, servers);
        var select := ReplyAt(replies, 0);
        NewHighBelowUidNext(envelopes, t, c.highestUid, w'.bare);
        var high := GetOr(HighestId(envelopes), c.highestUid);
        var modSeq := GetOr(select.highestModSeq, c.highestModSeq);
        IncrementKeepsKnown(w.replica, c, s, t, select, envelopes, high, w'.bare);
        KnownEarlier(w'.replica, s.highestModSeq, modSeq, high, t, w'.bare);
        CheckpointDecodes(Checkpoint(c.uidValidity, modSeq, high), t);
        FollowsTransitive(t, listed, w'.server);
        ServerMoves(w'.(server := t), w'.server);
    }
  }

  lemma {:induction false} FullListKeepsInv(
    w: World, qresync: bool, replies: seq<Reply>, servers: seq<Server>, listed: Server, w': World)
    requires Inv(w) && Synced(w, qresync, replies, servers, listed, w')
    requires Follows(Last(w.server, servers), listed) && Follows(listed, w'.server)
    requires var out := Diff(true, qresync, w.state, replies); out.result.Ok? && out.result.value.FullListRequired?
    ensures Inv(w')
  {
    var out := Diff(true, qresync, w.state, replies);
    var before := World(listed, w'.replica, w'.state, {});
    if qresync {
      var from := if out.sent == Baseline(replies).sent && out == Baseline(replies) then 0 else 1;
      if from == 0 {
        assert Rest(replies, 0) == replies && out.sent[0..] == out.sent;
      } else {
        assert out == After(out.sent[0], Baseline(Rest(replies, 1)));
        assert out.sent[1..] == Baseline(Rest(replies, 1)).sent;
      }
      BaselineCheckpoint(w.server, out.sent, replies, servers, from, listed, w'.replica);
    }
    assert Inv(before);
    ServerMoves(before, w'.server);
  }

  ghost predicate IsRun(worlds: seq<World>)
    requires worlds != []
    decreases |worlds|
  {
    var n := |worlds| - 1;
    n == 0 || (IsRun(worlds[..n]) && WorldStep(worlds[n - 1], worlds[n]))
  }

  /** The invariant holds along every run of the mailbox, the other clients and this one. */
  lemma {:induction false} RunKeepsInv(worlds: seq<World>)
    requires worlds != [] && IsRun(worlds) && Inv(worlds[0])
    ensures Inv(worlds[|worlds| - 1])
    decreases |worlds|
  {
    var n := |worlds| - 1;
    if n > 0 {
      RunKeepsInv(worlds[..n]);
      StepKeepsInv(worlds[n - 1], worlds[n]);
    }
  }

  lemma {:induction false} StepKeepsInv(w: World, w': World)
    requires Inv(w) && WorldStep(w, w')
    ensures Inv(w')
  {
    if Reaches(w.server, w'.server) && w' == w.(server := w'.server) {
      ReachesFollows(w.server, w'.server);
      ServerMoves(w, w'.server);
    } else {
      var qresync, replies, servers, listed :| Synced(w, qresync, replies, servers, listed, w');
      SyncKeepsInv(w, qresync, replies, servers, listed, w');
    }
  }

  /** A successful call while nobody else touches the mailbox. */
  ghost predicate QuietCall(w: World, qresync: bool, replies: seq<Reply>, servers: seq<Server>, w': World) {
    && Synced(w, qresync, replies, servers, w.server, w')
    && w'.server == w.server
    && (forall k | 0 <= k < |servers| :: servers[k] == w.server)
    && Diff(true, qresync, w.state, replies).result.Ok?
  }

  lemma {:induction false} QuietCallMirrors(
    w: World, qresync: bool, replies: seq<Reply>, servers: seq<Server>, w': World)
    requires Inv(w) && QuietCall(w, qresync, replies, servers, w')
    ensures MirrorsExcept(w'.replica, w'.server, w'.bare)
  {
    if Diff(true, qresync, w.state, replies).result.value.Incremental? {
      var c, s, t, envelopes := IncrementOf(w, qresync, replies, servers);
      NewHighBelowUidNext(envelopes, t, c.highestUid, w'.bare);
      var high := GetOr(HighestId(envelopes), c.highestUid);
      IncrementKeepsKnown(w.replica, c, s, t, ReplyAt(replies, 0), envelopes, high, w'.bare);
      KnownAtLatestIsMirror(w'.replica, high, t, w'.bare);
    }
  }

  /**
   Replica correctness: after any run that starts without a checkpoint, a quiet call leaves the replica
   with exactly the mailbox's messages and flags, and with their headers too, but for messages that some
   row since the last listing reported without envelope; without such rows it is the mailbox.
   */
  lemma {:induction false} QuietSyncMirrors(
    worlds: seq<World>, qresync: bool, replies: seq<Reply>, servers: seq<Server>, w': World)
    requires |worlds| > 0 && Valid(worlds[0].server) && worlds[0].state.None?
    requires IsRun(worlds) && QuietCall(worlds[|worlds| - 1], qresync, replies, servers, w')
    ensures MirrorsExcept(w'.replica, w'.server, w'.bare)
    ensures w'.bare == {} ==> Mirrors(w'.replica, w'.server)
  {
    RunKeepsInv(worlds);
    QuietCallMirrors(worlds[|worlds| - 1], qresync, replies, servers, w');
  }

  // ----- rows without envelope

  /** The last row that names a message. */
  ghost function LastRowOf(rows: seq<Row>, u: nat): Option<Row> {
    if rows == [] then None
    else if CarriesUid(rows[|rows| - 1], u) then Some(rows[|rows| - 1])
    else LastRowOf(rows[..|rows| - 1], u)
  }

  /**
   A lawful answer leaves the header of a message right exactly when the last row that names it, if there
   is one, carries an envelope (or the header is the empty one anyway).
   */
  lemma {:induction false} HeaderSurvivesIff(r: Replica, t: Server, start: nat, rows: seq<Row>, u: nat)
    requires ReportsRange(t, start, rows) && u in t.messages
    requires Show(u) in r && r[Show(u)].header == t.messages[u].header
    ensures Show(u) in ApplyNew(r, EnvelopesOf(rows))
    ensures ApplyNew(r, EnvelopesOf(rows))[Show(u)].header == t.messages[u].header <==>
      (LastRowOf(rows, u).Some? ==> !LacksEnvelope(LastRowOf(rows, u).value) || t.messages[u].header == EMPTY_HEADER)
  {
    forall row | row in rows ensures ReportsSomeMessage(row, t) {
      RowReports(t, start, rows, row);
    }
    LastRowDecides(r, t, rows, u);
  }

  lemma {:induction false} LastRowDecides(r: Replica, t: Server, rows: seq<Row>, u: nat)
    requires u in t.messages && Show(u) in r && r[Show(u)].header == t.messages[u].header
    requires forall row | row in rows :: ReportsSomeMessage(row, t)
    ensures Show(u) in ApplyNew(r, EnvelopesOf(rows))
    ensures ApplyNew(r, EnvelopesOf(rows))[Show(u)].header ==
      if LastRowOf(rows, u).Some? && LacksEnvelope(LastRowOf(rows, u).value) then EMPTY_HEADER
      else t.messages[u].header
  {
    if rows != [] {
      var before, last := rows[..|rows| - 1], rows[|rows| - 1];
      assert rows == before + [last];
      assert last in rows && forall row | row in before :: row in rows;
      LastRowDecides(r, t, before, u);
      assert EnvelopesOf(rows) == EnvelopesOf(before) + [EnvelopeOf(0, last)];
      ApplyNewOneMore(r, EnvelopesOf(before), EnvelopeOf(0, last));
      var v: nat :| ReportsFlags(last, t, v) && (ReportsEnvelope(last, t, v) || LacksEnvelope(last));
      RowReads(last, t, v);
      if Show(v) == Show(u) {
        ShowInjective(u, v);
      }
      EnvelopeOrNot(last, t, v);
    }
  }

  lemma {:induction false} EnvelopeOrNot(row: Row, t: Server, u: nat)
    ensures ReportsEnvelope(row, t, u) ==> !LacksEnvelope(row)
  {
  }

  /** When nothing is newer than the high-water mark, `high+1:*` addresses exactly the last message. */
  lemma {:induction false} StarAddressesLast(s: Server, high: nat, u: nat)
    requires forall v | v in s.messages :: v <= high
    ensures InRangeToLast(s, high + 1, u) <==> u in s.messages && forall v | v in s.messages :: v <= u
  {
  }
}
