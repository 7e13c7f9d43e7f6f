/** The QRESYNC-driven envelope diff (src/imap/client.rs, src/envelope/imap/diff.rs). */
module ImapClient {
  import opened Wrappers
  import opened Widths
  import opened Flags
  import opened Envelopes
  import opened Decimal
  import opened ImapState
  import opened ImapServer

  datatype ImapError = InvalidMailbox | Protocol

  type ImapDiff = EnvelopeDiff<seq<Byte>>

  // ----- what each piece computes

  function WireFlags(fs: seq<FlagFetch>): set<string> {
    set f | f in fs && f.Wire? :: f.raw
  }

  /** The last UID item of a row. */
  function RowUid(row: Row): Option<nat> {
    if row == [] then None
    else match row[|row| - 1]
      case UidItem(u) => Some(u)
      case _ => RowUid(row[..|row| - 1])
  }

  /** The keys of the last FLAGS item of a row. */
  function RowFlags(row: Row): Option<set<FlagKey>> {
    if row == [] then None
    else match row[|row| - 1]
      case FlagsItem(fs) => Some(KeysOf(WireFlags(fs)))
      case _ => RowFlags(row[..|row| - 1])
  }

  function RowHeader(row: Row): Option<Header> {
    if row == [] then None
    else match row[|row| - 1]
      case EnvelopeItem(h) => Some(h)
      case _ => RowHeader(row[..|row| - 1])
  }

  // What a row says, item by item.

  lemma {:induction false} RowUidAt(row: Row) returns (i: nat)
    ensures RowUid(row).None? ==> LacksUid(row)
    ensures RowUid(row).Some? ==>
      i < |row| && row[i] == UidItem(RowUid(row).value) && forall j | i < j < |row| :: !row[j].UidItem?
  {
    i := 0;
    if row != [] {
      i := RowUidAt(row[..|row| - 1]);
      if row[|row| - 1].UidItem? {
        i := |row| - 1;
      }
    }
  }

  lemma {:induction false} RowFlagsAt(row: Row) returns (i: nat)
    ensures RowFlags(row).None? ==> LacksFlags(row)
    ensures RowFlags(row).Some? ==>
      && i < |row| && row[i].FlagsItem? && RowFlags(row).value == KeysOf(WireFlags(row[i].flags))
      && forall j | i < j < |row| :: !row[j].FlagsItem?
  {
    i := 0;
    if row != [] {
      i := RowFlagsAt(row[..|row| - 1]);
      if row[|row| - 1].FlagsItem? {
        i := |row| - 1;
      }
    }
  }

  lemma {:induction false} RowHeaderAt(row: Row) returns (i: nat)
    ensures RowHeader(row).None? ==> LacksEnvelope(row)
    ensures RowHeader(row).Some? ==>
      i < |row| && row[i] == EnvelopeItem(RowHeader(row).value) && forall j | i < j < |row| :: !row[j].EnvelopeItem?
  {
    i := 0;
    if row != [] {
      i := RowHeaderAt(row[..|row| - 1]);
      if row[|row| - 1].EnvelopeItem? {
        i := |row| - 1;
      }
    }
  }

  lemma {:induction false} RowUidIs(row: Row, u: nat)
    ensures RowUid(row) == Some(u) <==> CarriesUid(row, u)
    ensures RowUid(row).None? <==> LacksUid(row)
  {
    var i := RowUidAt(row);
  }

  lemma {:induction false} RowHeaderIs(row: Row, h: Header)
    ensures RowHeader(row) == Some(h) <==> CarriesEnvelope(row, h)
    ensures RowHeader(row).None? <==> LacksEnvelope(row)
  {
    var i := RowHeaderAt(row);
  }

  lemma {:induction false} RowFlagsAre(row: Row, flags: set<string>)
    requires CarriesFlags(row, flags)
    ensures RowFlags(row) == Some(KeysOf(flags))
  {
    var i := RowFlagsAt(row);
    var k :| 0 <= k < |row| && row[k].FlagsItem? && Spell(row[k].flags, flags)
      && forall j | k < j < |row| :: !row[j].FlagsItem?;
    assert i == k;
    assert WireFlags(row[i].flags) == flags;
  }

  lemma {:induction false} RowFlagsMissing(row: Row)
    ensures RowFlags(row).None? <==> LacksFlags(row)
  {
    var i := RowFlagsAt(row);
  }

  /**
   One row as a flag update: there is one exactly when the row carries a UID and flags; it names the last UID,
   and a flag is in it exactly when the last FLAGS item spells it, `\Recent` spelling none.
   */
  lemma {:induction false} FlagUpdateIff(row: Row, u: nat, fs: seq<FlagFetch>, i: nat)
    requires i < |row| && row[i] == FlagsItem(fs) && forall j | i < j < |row| :: !row[j].FlagsItem?
    ensures FlagUpdateOf(row).Some? <==> !LacksUid(row)
    ensures CarriesUid(row, u) ==> FlagUpdateOf(row).Some? && FlagUpdateOf(row).value.id == Show(u)
    ensures FlagUpdateOf(row).Some? ==> forall key ::
      key in FlagUpdateOf(row).value.flags <==> exists raw :: Wire(raw) in fs && KeyOf(raw) == key
  {
    RowUidIs(row, u);
    var k := RowFlagsAt(row);
    assert k == i;
    WireKeys(fs);
  }

  lemma {:induction false} NoFlagUpdateIff(row: Row)
    ensures FlagUpdateOf(row).None? <==> LacksUid(row) || LacksFlags(row)
  {
    RowUidIs(row, 0);
    RowFlagsMissing(row);
  }

  lemma {:induction false} WireKeys(fs: seq<FlagFetch>)
    ensures forall key :: key in KeysOf(WireFlags(fs)) <==> exists raw :: Wire(raw) in fs && KeyOf(raw) == key
  {
    forall key ensures key in KeysOf(WireFlags(fs)) <==> exists raw :: Wire(raw) in fs && KeyOf(raw) == key {
      if key in KeysOf(WireFlags(fs)) {
        var raw :| raw in WireFlags(fs) && KeyOf(raw) == key;
        assert Wire(raw) in fs;
      }
      if raw :| Wire(raw) in fs && KeyOf(raw) == key {
        assert Wire(raw).raw in WireFlags(fs);
      }
    }
  }

  /** One row as an envelope: last UID, flags and envelope, or the sequence number, no flags and the empty header. */
  lemma {:induction false} EnvelopeIs(seqno: nat, row: Row)
    ensures var e := EnvelopeOf(seqno, row);
      && (forall u: nat | CarriesUid(row, u) :: e.id == Show(u)) && (LacksUid(row) ==> e.id == Show(seqno))
      && (forall h | CarriesEnvelope(row, h) :: e.header == h)
      && (LacksEnvelope(row) ==> e.header == Header(None, None, "", [], [], None, 0, None))
      && (forall flags | CarriesFlags(row, flags) :: FlagsSpell(e.flags, flags)) && (LacksFlags(row) ==> e.flags == {})
  {
    forall u: nat | CarriesUid(row, u) ensures RowUid(row) == Some(u) {
      RowUidIs(row, u);
    }
    forall h | CarriesEnvelope(row, h) ensures RowHeader(row) == Some(h) {
      RowHeaderIs(row, h);
    }
    forall flags | CarriesFlags(row, flags) ensures FlagsSpell(EnvelopeOf(seqno, row).flags, flags) {
      RowFlagsAre(row, flags);
    }
    RowUidIs(row, 0);
    RowHeaderIs(row, EMPTY_HEADER);
    RowFlagsMissing(row);
  }

  /** A row with the current flags of message `u`, as an update and as an envelope. */
  lemma {:induction false} RowReads(row: Row, s: Server, u: nat)
    requires ReportsFlags(row, s, u)
    ensures FlagUpdateOf(row) == Some(FlagUpdate(Show(u), KeysOf(s.messages[u].flags)))
    ensures EnvelopeOf(0, row).id == Show(u) && EnvelopeOf(0, row).flags == KeysOf(s.messages[u].flags)
    ensures ReportsEnvelope(row, s, u) ==> EnvelopeOf(0, row).header == s.messages[u].header
    ensures LacksEnvelope(row) ==> EnvelopeOf(0, row).header == EMPTY_HEADER
    ensures forall v: nat | CarriesUid(row, v) :: v == u
  {
    RowUidIs(row, u);
    RowFlagsAre(row, s.messages[u].flags);
    RowHeaderIs(row, s.messages[u].header);
    forall v: nat | CarriesUid(row, v) ensures v == u {
      RowUidIs(row, v);
    }
  }

  /** A changed row that gives an update reports a message. */
  lemma {:induction false} UpdateReports(
    s: Server, modSeq: nat, changed: seq<Row>, vanished: seq<nat>, row: Row) returns (u: nat)
    requires ReportsChanges(s, modSeq, changed, vanished) && row in changed && FlagUpdateOf(row).Some?
    ensures ReportsFlags(row, s, u) && FlagUpdateOf(row).value == FlagUpdate(Show(u), KeysOf(s.messages[u].flags))
  {
    u := RowUid(row).value;
    RowUidIs(row, u);
    RowFlagsMissing(row);
    RowReads(row, s, u);
  }

  /** `None` unless the row carries both a UID and flags. */
  function FlagUpdateOf(row: Row): Option<FlagUpdate> {
    match (RowUid(row), RowFlags(row))
    case (Some(u), Some(fs)) => Some(FlagUpdate(Show(u), fs))
    case _ => None
  }

  function FlagUpdatesOf(rows: seq<Row>): seq<FlagUpdate> {
    if rows == [] then []
    else
      var before := FlagUpdatesOf(rows[..|rows| - 1]);
      match FlagUpdateOf(rows[|rows| - 1])
      case Some(u) => before + [u]
      case None => before
  }

  /** A row without UID takes the sequence number as its id, one without flags or envelope the defaults. */
  function EnvelopeOf(seqno: nat, row: Row): Envelope {
    Envelope(
      match RowUid(row) case Some(u) => Show(u) case None => Show(seqno),
      match RowFlags(row) case Some(fs) => fs case None => {},
      match RowHeader(row) case Some(h) => h case None => EMPTY_HEADER)
  }

  function EnvelopesOf(rows: seq<Row>): seq<Envelope> {
    seq(|rows|, i requires 0 <= i < |rows| => EnvelopeOf(0, rows[i]))
  }

  function NewMessageWindow(high: nat): Option<nat> {
    if high < U32_MAX then Some(high + 1) else None
  }

  function Max(a: nat, b: nat): nat { if a < b then b else a }

  /** Largest id that parses as a `u32`, if any. */
  function HighestId(envelopes: seq<Envelope>): Option<nat> {
    if envelopes == [] then None
    else
      match (HighestId(envelopes[..|envelopes| - 1]), ParseU32(envelopes[|envelopes| - 1].id))
      case (Some(a), Some(b)) => Some(Max(a, b))
      case (Some(a), None) => Some(a)
      case (None, b) => b
  }

  /** Largest UID item over all rows, 0 when there is none. */
  function HighestUidItem(rows: seq<Row>): nat {
    if rows == [] then 0 else Max(HighestUidItem(rows[..|rows| - 1]), HighestUidIn(rows[|rows| - 1]))
  }

  function HighestUidIn(row: Row): nat {
    if row == [] then 0
    else
      var before := HighestUidIn(row[..|row| - 1]);
      match row[|row| - 1]
      case UidItem(u) => Max(before, u)
      case _ => before
  }

  function GetOr<T>(o: Option<T>, default: T): T {
    match o case Some(v) => v case None => default
  }

  function ReplyAt(replies: seq<Reply>, i: nat): Reply {
    if i < |replies| then replies[i] else Failed
  }

  /** Commands sent and result of one call, given the server's answers in order. */
  datatype Outcome = Outcome(sent: seq<Command>, result: Result<ImapDiff, ImapError>)

  function Baseline(replies: seq<Reply>): Outcome {
    var select := ReplyAt(replies, 0);
    if !select.Selected? then Outcome([SelectPlain], Err(Protocol))
    else if select.uidValidity.None? then Outcome([SelectPlain], Ok(FullListRequired(None)))
    else if GetOr(select.messageCount, 0) == 0 then
      Outcome([SelectPlain], Ok(FullListRequired(Some(Encode(
        Checkpoint(select.uidValidity.value, GetOr(select.highestModSeq, 0), 0))))))
    else
      var fetch := ReplyAt(replies, 1);
      if !fetch.Fetched? then Outcome([SelectPlain, FetchLast], Err(Protocol))
      else
        Outcome([SelectPlain, FetchLast], Ok(FullListRequired(Some(Encode(
          Checkpoint(select.uidValidity.value, GetOr(select.highestModSeq, 0), HighestUidItem(fetch.rows)))))))
  }

  function After(c: Command, o: Outcome): Outcome {
    o.(sent := [c] + o.sent)
  }

  function Finish(cached: Checkpoint, select: Reply, envelopes: seq<Envelope>): ImapDiff
    requires select.Selected?
  {
    Incremental(
      Encode(Checkpoint(
        cached.uidValidity,
        GetOr(select.highestModSeq, cached.highestModSeq),
        GetOr(HighestId(envelopes), cached.highestUid))),
      FlagUpdatesOf(select.changed),
      envelopes,
      seq(|select.vanished|, i requires 0 <= i < |select.vanished| => Show(select.vanished[i])))
  }

  function Resync(cached: Checkpoint, replies: seq<Reply>): Outcome {
    var command := SelectQresync(cached.uidValidity, cached.highestModSeq);
    var select := ReplyAt(replies, 0);
    var rest := if replies == [] then [] else replies[1..];
    if !select.Selected? then After(command, Baseline(rest))
    else if GetOr(select.uidValidity, cached.uidValidity) != cached.uidValidity then
      After(command, Baseline(rest))
    else
      match NewMessageWindow(cached.highestUid)
      case None => Outcome([command], Ok(Finish(cached, select, [])))
      case Some(start) =>
        var sent := [command, UidFetchFrom(start)];
        var fetch := ReplyAt(replies, 1);
        if !fetch.Fetched? then Outcome(sent, Err(Protocol))
        else Outcome(sent, Ok(Finish(cached, select, EnvelopesOf(fetch.rows))))
  }

  function Diff(mailboxOk: bool, qresync: bool, state: Option<seq<Byte>>, replies: seq<Reply>): Outcome {
    if !mailboxOk then Outcome([], Err(InvalidMailbox))
    else if !qresync then Outcome([], Ok(FullListRequired(None)))
    else
      var cached := if state.Some? then Decode(state.value) else None;
      if cached.None? || cached.value.uidValidity == 0 then Baseline(replies)
      else Resync(cached.value, replies)
  }

  // ----- the code

  /** Folds one row; the last item of each kind wins. */
  method FlagUpdateFromItems(items: Row) returns (update: Option<FlagUpdate>)
    ensures update == FlagUpdateOf(items)
  {
    var uid: Option<nat> := None;
    var flags: Option<set<FlagKey>> := None;
    for i := 0 to |items|
      invariant uid == RowUid(items[..i]) && flags == RowFlags(items[..i])
    {
      assert items[..i + 1][..i] == items[..i];
      match items[i] {
        case UidItem(u) => uid := Some(u);
        case FlagsItem(fs) => flags := Some(KeysOf(WireFlags(fs)));
        case _ =>
      }
    }
    assert items[..|items|] == items;
    if uid.Some? && flags.Some? {
      return Some(FlagUpdate(Show(uid.value), flags.value));
    }
    return None;
  }

  method EnvelopeFromItems(seqno: nat, items: Row) returns (envelope: Envelope)
    ensures envelope == EnvelopeOf(seqno, items)
  {
    var id := "";
    var flags: set<FlagKey> := {};
    var header := EMPTY_HEADER;
    for i := 0 to |items|
      invariant id == match RowUid(items[..i]) case Some(u) => Show(u) case None => ""
      invariant flags == match RowFlags(items[..i]) case Some(fs) => fs case None => {}
      invariant header == match RowHeader(items[..i]) case Some(h) => h case None => EMPTY_HEADER
    {
      assert items[..i + 1][..i] == items[..i];
      match items[i] {
        case UidItem(u) => id := Show(u);
        case FlagsItem(fs) => flags := KeysOf(WireFlags(fs));
        case EnvelopeItem(h) => header := h;
        case OtherItem =>
      }
    }
    assert items[..|items|] == items;
    if id == "" {
      id := Show(seqno);
    }
    return Envelope(id, flags, header);
  }

  method CollectFlagUpdates(rows: seq<Row>) returns (updates: seq<FlagUpdate>)
    ensures updates == FlagUpdatesOf(rows)
  {
    updates := [];
    for i := 0 to |rows|
      invariant updates == FlagUpdatesOf(rows[..i])
    {
      assert rows[..i + 1][..i] == rows[..i];
      var update := FlagUpdateFromItems(rows[i]);
      if update.Some? {
        updates := updates + [update.value];
      }
    }
    assert rows[..|rows|] == rows;
  }

  method CollectEnvelopes(rows: seq<Row>) returns (envelopes: seq<Envelope>)
    ensures envelopes == EnvelopesOf(rows)
  {
    envelopes := [];
    for i := 0 to |rows|
      invariant envelopes == EnvelopesOf(rows[..i])
    {
      var envelope := EnvelopeFromItems(0, rows[i]);
      envelopes := envelopes + [envelope];
    }
    assert rows[..|rows|] == rows;
  }

  method HighestIdOf(envelopes: seq<Envelope>) returns (highest: Option<nat>)
    ensures highest == HighestId(envelopes)
  {
    highest := None;
    for i := 0 to |envelopes|
      invariant highest == HighestId(envelopes[..i])
    {
      assert envelopes[..i + 1][..i] == envelopes[..i];
      var parsed := ParseU32(envelopes[i].id);
      if parsed.Some? {
        highest := Some(if highest.Some? then Max(highest.value, parsed.value) else parsed.value);
      }
    }
    assert envelopes[..|envelopes|] == envelopes;
  }

  class Client {
    const qresync: bool
    /** What the server will answer, in order; nothing left means a broken connection. */
    var replies: seq<Reply>
    /** Every command sent so far. */
    var sent: seq<Command>

    constructor (qresync: bool, replies: seq<Reply>)
      ensures this.qresync == qresync && this.replies == replies && sent == []
    {
      this.qresync := qresync;
      this.replies := replies;
      this.sent := [];
    }

    method Send(c: Command) returns (r: Reply)
      modifies this
      ensures sent == old(sent) + [c]
      ensures r == ReplyAt(old(replies), 0)
      ensures replies == if old(replies) == [] then [] else old(replies)[1..]
    {
      sent := sent + [c];
      if replies == [] {
        r := Failed;
      } else {
        r := replies[0];
        replies := replies[1..];
      }
    }

    method DiffEnvelopes(mailboxOk: bool, state: Option<seq<Byte>>)
      returns (result: Result<ImapDiff, ImapError>)
      modifies this
      ensures result == Diff(mailboxOk, qresync, state, old(replies)).result
      ensures sent == old(sent) + Diff(mailboxOk, qresync, state, old(replies)).sent
    {
      if !mailboxOk {
        return Err(InvalidMailbox);
      }
      if !qresync {
        return Ok(FullListRequired(None));
      }
      var cached: Option<Checkpoint> := None;
      if state.Some? {
        cached := Decode(state.value);
      }
      if cached.None? || cached.value.uidValidity == 0 {
        result := DiffBaseline();
        return;
      }
      var checkpoint := cached.value;
      ghost var before := sent;
      var command := SelectQresync(checkpoint.uidValidity, checkpoint.highestModSeq);
      var select := Send(command);
      if !select.Selected? || GetOr(select.uidValidity, checkpoint.uidValidity) != checkpoint.uidValidity {
        result := DiffBaseline();
        return;
      }

      var flagUpdates := CollectFlagUpdates(select.changed);
      var vanished := seq(|select.vanished|, i requires 0 <= i < |select.vanished| => Show(select.vanished[i]));

      var newEnvelopes: seq<Envelope> := [];
      var window := NewMessageWindow(checkpoint.highestUid);
      if window.Some? {
        var fetch := Send(UidFetchFrom(window.value));
        assert sent == before + [command] + [UidFetchFrom(window.value)]
                    == before + [command, UidFetchFrom(window.value)];
        if !fetch.Fetched? {
          return Err(Protocol);
        }
        newEnvelopes := CollectEnvelopes(fetch.rows);
      }
      var highest := HighestIdOf(newEnvelopes);
      var next := Checkpoint(
        checkpoint.uidValidity,
        GetOr(select.highestModSeq, checkpoint.highestModSeq),
        GetOr(highest, checkpoint.highestUid));
      return Ok(Incremental(Encode(next), flagUpdates, newEnvelopes, vanished));
    }

    method DiffBaseline() returns (result: Result<ImapDiff, ImapError>)
      modifies this
      ensures result == Baseline(old(replies)).result
      ensures sent == old(sent) + Baseline(old(replies)).sent
    {
      var select := Send(SelectPlain);
      if !select.Selected? {
        return Err(Protocol);
      }
      if select.uidValidity.None? {
        return Ok(FullListRequired(None));
      }
      var highestUid: nat := 0;
      if GetOr(select.messageCount, 0) > 0 {
        var fetch := Send(FetchLast);
        if !fetch.Fetched? {
          return Err(Protocol);
        }
        for i := 0 to |fetch.rows|
          invariant highestUid == HighestUidItem(fetch.rows[..i])
        {
          assert fetch.rows[..i + 1][..i] == fetch.rows[..i];
          var row := fetch.rows[i];
          var inRow: nat := 0;
          for j := 0 to |row|
            invariant inRow == HighestUidIn(row[..j])
          {
            assert row[..j + 1][..j] == row[..j];
            match row[j] {
              case UidItem(u) => inRow := Max(inRow, u);
              case _ =>
            }
          }
          assert row[..|row|] == row;
          highestUid := Max(highestUid, inRow);
        }
        assert fetch.rows[..|fetch.rows|] == fetch.rows;
      }
      var next := Checkpoint(select.uidValidity.value, GetOr(select.highestModSeq, 0), highestUid);
      return Ok(FullListRequired(Some(Encode(next))));
    }
  }
}
