/**
 One mailbox of an IMAP server and what the server promises about its answers:
 UIDs only grow, every change takes a fresh mod-sequence and expunges are remembered
 (section 2.3.1.1 of RFC 3501, sections 3.2.5 and 3.2.6 of RFC 7162).
 */
module ImapServer {
  import opened Wrappers
  import opened Widths
  import opened Flags
  import opened Envelopes
  import opened Decimal

  datatype ServerMessage = ServerMessage(flags: set<string>, modSeq: nat, header: Header)

  /** `expunged` maps each expunged UID to the mod-sequence of its expunge. */
  datatype Server = Server(
    uidValidity: nat, uidNext: nat, highestModSeq: nat,
    messages: map<nat, ServerMessage>, expunged: map<nat, nat>)

  datatype Step =
    | Append(uid: nat, flags: set<string>, header: Header, modSeq: nat)
    | Store(uid: nat, flags: set<string>, modSeq: nat)
    | Expunge(uid: nat, modSeq: nat)
    | Recreate(uidValidity: nat, modSeq: nat)

  ghost predicate Valid(s: Server) {
    && 0 < s.uidValidity < U32_LIMIT
    && 0 < s.uidNext <= U32_LIMIT
    && s.highestModSeq < U64_LIMIT
    && (forall u | u in s.messages :: 0 < u < s.uidNext && s.messages[u].modSeq <= s.highestModSeq)
    && (forall u | u in s.expunged :: 0 < u < s.uidNext && u !in s.messages && s.expunged[u] <= s.highestModSeq)
  }

  predicate Enabled(s: Server, step: Step) {
    match step
    case Append(uid, _, _, m) => s.uidNext <= uid < U32_LIMIT && s.highestModSeq < m < U64_LIMIT
    case Store(uid, _, m) => uid in s.messages && s.highestModSeq < m < U64_LIMIT
    case Expunge(uid, m) => uid in s.messages && s.highestModSeq < m < U64_LIMIT
    case Recreate(v, m) => s.uidValidity < v < U32_LIMIT && m < U64_LIMIT
  }

  function Next(s: Server, step: Step): Server
    requires Enabled(s, step)
  {
    match step
    case Append(uid, flags, header, m) =>
      s.(uidNext := uid + 1, highestModSeq := m,
         messages := s.messages[uid := ServerMessage(flags, m, header)])
    case Store(uid, flags, m) =>
      s.(highestModSeq := m,
         messages := s.messages[uid := s.messages[uid].(flags := flags, modSeq := m)])
    case Expunge(uid, m) =>
      s.(highestModSeq := m, messages := s.messages - {uid}, expunged := s.expunged[uid := m])
    case Recreate(v, m) => Server(v, 1, m, map[], map[])
  }

  /** `t` is what `s` becomes after the steps. */
  ghost predicate Runs(s: Server, steps: seq<Step>, t: Server)
    decreases |steps|
  {
    if steps == [] then s == t
    else Enabled(s, steps[0]) && Runs(Next(s, steps[0]), steps[1..], t)
  }

  ghost predicate Reaches(s: Server, t: Server) {
    exists steps :: Runs(s, steps, t)
  }

  /** The consequences of a run that the synchronisation relies on. */
  ghost predicate Follows(s: Server, t: Server) {
    && Valid(t)
    && s.uidValidity <= t.uidValidity
    && (s.uidValidity == t.uidValidity ==> Later(s, t))
  }

  ghost predicate Later(s: Server, t: Server) {
    && s.uidNext <= t.uidNext
    && s.highestModSeq <= t.highestModSeq
    && (forall u | u in t.messages ::
          if u in s.messages then
            && t.messages[u].header == s.messages[u].header
            && (t.messages[u].modSeq <= s.highestModSeq ==> t.messages[u] == s.messages[u])
          else s.uidNext <= u && s.highestModSeq < t.messages[u].modSeq)
    && (forall u | u in s.messages && u !in t.messages ::
          u in t.expunged && s.highestModSeq < t.expunged[u])
    && (forall u | u in s.expunged :: u in t.expunged && t.expunged[u] == s.expunged[u])
  }

  lemma {:induction false} StepFollows(s: Server, step: Step)
    requires Valid(s) && Enabled(s, step)
    ensures Follows(s, Next(s, step))
  {
  }

  lemma {:induction false} FollowsTransitive(s: Server, t: Server, v: Server)
    requires Valid(s) && Follows(s, t) && Follows(t, v)
    ensures Follows(s, v)
  {
  }

  lemma {:induction false} RunFollows(s: Server, steps: seq<Step>, t: Server)
    requires Valid(s) && Runs(s, steps, t)
    ensures Follows(s, t)
    decreases |steps|
  {
    if steps != [] {
      StepFollows(s, steps[0]);
      RunFollows(Next(s, steps[0]), steps[1..], t);
      FollowsTransitive(s, Next(s, steps[0]), t);
    }
  }

  /** Whatever happens to the mailbox, UIDs and mod-sequences only move forward within a UIDVALIDITY. */
  lemma {:induction false} ReachesFollows(s: Server, t: Server)
    requires Valid(s) && Reaches(s, t)
    ensures Follows(s, t)
  {
    var steps :| Runs(s, steps, t);
    RunFollows(s, steps, t);
  }

  function Shown(m: ServerMessage): Stored {
    Stored(KeysOf(m.flags), m.header)
  }

  /** The replica `r` holds exactly the messages of `s`, keyed by decimal UID. */
  ghost predicate Mirrors(r: Replica, s: Server) {
    && (forall u | u in s.messages :: Show(u) in r && r[Show(u)] == Shown(s.messages[u]))
    && (forall id | id in r :: exists u :: u in s.messages && id == Show(u))
  }

  /** The flags are current, and so is the header, unless it is missing for one of the `bare` messages. */
  ghost predicate Right(stored: Stored, m: ServerMessage, u: nat, bare: set<nat>) {
    stored.flags == KeysOf(m.flags) && HeaderRight(stored, m, u, bare)
  }

  ghost predicate HeaderRight(stored: Stored, m: ServerMessage, u: nat, bare: set<nat>) {
    stored.header == m.header || (u in bare && stored.header == EMPTY_HEADER)
  }

  /** The same, but for missing headers of the `bare` messages. */
  ghost predicate MirrorsExcept(r: Replica, s: Server, bare: set<nat>) {
    && (forall u | u in s.messages :: Show(u) in r && Right(r[Show(u)], s.messages[u], u, bare))
    && (forall id | id in r :: exists u :: u in s.messages && id == Show(u))
  }

  // ----- FETCH rows

  datatype FlagFetch = Wire(raw: string) | Recent

  datatype FetchItem =
    | UidItem(uid: nat)
    | FlagsItem(flags: seq<FlagFetch>)
    | EnvelopeItem(header: Header)
    | OtherItem

  type Row = seq<FetchItem>

  /** Of several items of one kind, the last one counts. */
  ghost predicate CarriesUid(row: Row, u: nat) {
    exists i | 0 <= i < |row| :: row[i] == UidItem(u) && forall j | i < j < |row| :: !row[j].UidItem?
  }

  ghost predicate CarriesFlags(row: Row, flags: set<string>) {
    exists i | 0 <= i < |row| ::
      row[i].FlagsItem? && Spell(row[i].flags, flags) && forall j | i < j < |row| :: !row[j].FlagsItem?
  }

  ghost predicate CarriesEnvelope(row: Row, header: Header) {
    exists i | 0 <= i < |row| :: row[i] == EnvelopeItem(header) && forall j | i < j < |row| :: !row[j].EnvelopeItem?
  }

  /** The fetched flags are exactly these spellings, with or without `\Recent`. */
  ghost predicate Spell(fs: seq<FlagFetch>, flags: set<string>) {
    forall raw :: raw in flags <==> Wire(raw) in fs
  }

  ghost predicate LacksUid(row: Row) { forall i | 0 <= i < |row| :: !row[i].UidItem? }

  ghost predicate LacksFlags(row: Row) { forall i | 0 <= i < |row| :: !row[i].FlagsItem? }

  ghost predicate LacksEnvelope(row: Row) { forall i | 0 <= i < |row| :: !row[i].EnvelopeItem? }

  /** The row reports message `u` of `s` with its current flags. */
  ghost predicate ReportsFlags(row: Row, s: Server, u: nat) {
    u in s.messages && CarriesUid(row, u) && CarriesFlags(row, s.messages[u].flags)
  }

  ghost predicate ReportsEnvelope(row: Row, s: Server, u: nat) {
    ReportsFlags(row, s, u) && CarriesEnvelope(row, s.messages[u].header)
  }

  // ----- commands and answers

  datatype Command =
    | SelectQresync(uidValidity: nat, modSeq: nat)
    | SelectPlain
    | UidFetchFrom(start: nat)
    | FetchLast

  datatype Reply =
    | Selected(uidValidity: Option<nat>, messageCount: Option<nat>, highestModSeq: Option<nat>,
               changed: seq<Row>, vanished: seq<nat>)
    | Fetched(rows: seq<Row>)
    | Failed

  /** `u` is addressed by the UID set `start:*`: the bounds swap when `start` is past the last UID. */
  ghost predicate InRangeToLast(s: Server, start: nat, u: nat) {
    && u in s.messages
    && (start <= u || (forall v | v in s.messages :: v <= u))
  }

  /** The reply is one the server may give to `c` in state `s`; it may always fail. */
  ghost predicate Answers(s: Server, c: Command, r: Reply) {
    r.Failed? ||
    match c
    case SelectQresync(validity, modSeq) =>
      && r.Selected?
      && (r.uidValidity.Some? ==> r.uidValidity.value == s.uidValidity)
      && (r.uidValidity.None? ==> validity == s.uidValidity)
      && (r.highestModSeq.Some? ==> r.highestModSeq.value == s.highestModSeq)
      && (validity == s.uidValidity ==> ReportsChanges(s, modSeq, r.changed, r.vanished))
    case SelectPlain =>
      && r.Selected?
      && (r.uidValidity.Some? ==> r.uidValidity.value == s.uidValidity)
      && (r.highestModSeq.Some? ==> r.highestModSeq.value == s.highestModSeq)
    case UidFetchFrom(start) =>
      && r.Fetched?
      && ReportsRange(s, start, r.rows)
    case FetchLast =>
      && r.Fetched?
      && (forall row: Row, i | row in r.rows && 0 <= i < |row| && row[i].UidItem? :: row[i].uid in s.messages)
  }

  /**
   All messages addressed by `start:*`, each with UID, flags and envelope. Rows with the flags of other
   messages may be interleaved, or repeat the flags of one of these, when other clients change them.
   */
  ghost predicate ReportsRange(s: Server, start: nat, rows: seq<Row>) {
    && (forall u | InRangeToLast(s, start, u) :: exists row :: row in rows && ReportsEnvelope(row, s, u))
    && (forall row | row in rows :: exists u: nat ::
          || (InRangeToLast(s, start, u) && ReportsEnvelope(row, s, u))
          || (ReportsFlags(row, s, u) && LacksEnvelope(row)))
  }

  /** The messages that some row reports without its envelope. */
  ghost function BareUids(rows: seq<Row>): set<nat> {
    set row: Row, i: nat | row in rows && i < |row| && row[i].UidItem?
                           && CarriesUid(row, row[i].uid) && LacksEnvelope(row) :: row[i].uid
  }

  /**
   QRESYNC since `modSeq`: every message changed since then, possibly others, and every UID
   expunged since then, possibly older ones. Rows without UID or FLAGS may be interleaved.
   */
  ghost predicate ReportsChanges(s: Server, modSeq: nat, changed: seq<Row>, vanished: seq<nat>) {
    && (forall u | u in s.messages && modSeq < s.messages[u].modSeq ::
          exists row :: row in changed && ReportsFlags(row, s, u))
    && (forall row, u | row in changed && CarriesUid(row, u) && !LacksFlags(row) :: ReportsFlags(row, s, u))
    && (forall u | u in s.expunged && modSeq < s.expunged[u] :: u in vanished)
    && (forall u | u in vanished :: u < s.uidNext && u !in s.messages)
  }
}
