/** Gmail history diffs as watch events (src/envelope/gmail/watch.rs). */
module GmailHistory {
  import opened Wrappers
  import opened Flags
  import opened Envelopes
  import opened Events
  import opened GmailLabels

  datatype GmailMessage = GmailMessage(id: string, labelIds: seq<string>, header: Header)

  /** Labels added to or removed from one message. */
  datatype LabelRecord = LabelRecord(id: string, labelIds: seq<string>)

  datatype HistoryDiff = HistoryDiff(
    added: seq<GmailMessage>, removed: seq<string>, labelsAdded: seq<LabelRecord>, labelsRemoved: seq<LabelRecord>)

  function LabelSet(labelIds: seq<string>): set<string> {
    set l | l in labelIds
  }

  function EnvelopeFrom(m: GmailMessage): Envelope {
    Envelope(m.id, FlagsOf(LabelSet(m.labelIds)), m.header)
  }

  // ----- what the events are

  /** The flags that a record turns on (`on`) or off, when its labels are added or removed. */
  function RecordFlags(labelIds: seq<string>, labelsAdded: bool, on: bool): set<FlagKey> {
    set l | l in labelIds && FlagOfLabel(l).Some? && (labelsAdded != FlagOfLabel(l).value.1) == on
      :: Known(FlagOfLabel(l).value.0)
  }

  function RecordEvents(mailbox: string, r: LabelRecord, labelsAdded: bool): seq<WatchEvent> {
    var on, off := RecordFlags(r.labelIds, labelsAdded, true), RecordFlags(r.labelIds, labelsAdded, false);
    (if on == {} then [] else [FlagsAdded(mailbox, r.id, on)])
    + (if off == {} then [] else [FlagsRemoved(mailbox, r.id, off)])
  }

  function AddedIds(added: seq<GmailMessage>): set<string> {
    set m | m in added :: m.id
  }

  function AddedEvents(mailbox: string, added: seq<GmailMessage>): seq<WatchEvent> {
    seq(|added|, i requires 0 <= i < |added| => EnvelopeAdded(mailbox, EnvelopeFrom(added[i])))
  }

  function RemovedEvents(mailbox: string, removed: seq<string>, newIds: set<string>): seq<WatchEvent> {
    if removed == [] then []
    else
      var before, last := removed[..|removed| - 1], removed[|removed| - 1];
      RemovedEvents(mailbox, before, newIds) + if last in newIds then [] else [EnvelopeRemoved(mailbox, last)]
  }

  function RecordsEvents(
    mailbox: string, records: seq<LabelRecord>, labelsAdded: bool, newIds: set<string>): seq<WatchEvent> {
    if records == [] then []
    else
      var before, last := records[..|records| - 1], records[|records| - 1];
      RecordsEvents(mailbox, before, labelsAdded, newIds)
      + if last.id in newIds then [] else RecordEvents(mailbox, last, labelsAdded)
  }

  function DiffEvents(diff: HistoryDiff, mailbox: string): seq<WatchEvent> {
    var newIds := AddedIds(diff.added);
    AddedEvents(mailbox, diff.added)
    + RemovedEvents(mailbox, diff.removed, newIds)
    + RecordsEvents(mailbox, diff.labelsAdded, true, newIds)
    + RecordsEvents(mailbox, diff.labelsRemoved, false, newIds)
  }

  // ----- the code

  method PushFlagEvents(events: seq<WatchEvent>, mailbox: string, r: LabelRecord, labelsAdded: bool)
    returns (events': seq<WatchEvent>)
    ensures events' == events + RecordEvents(mailbox, r, labelsAdded)
  {
    var added: set<FlagKey>, removed: set<FlagKey> := {}, {};
    for i := 0 to |r.labelIds|
      invariant added == RecordFlags(r.labelIds[..i], labelsAdded, true)
      invariant removed == RecordFlags(r.labelIds[..i], labelsAdded, false)
    {
      assert r.labelIds[..i + 1] == r.labelIds[..i] + [r.labelIds[i]];
      var flag := FlagOfLabel(r.labelIds[i]);
      if flag.Some? {
        if labelsAdded != flag.value.1 {
          added := added + {Known(flag.value.0)};
        } else {
          removed := removed + {Known(flag.value.0)};
        }
      }
    }
    assert r.labelIds[..|r.labelIds|] == r.labelIds;
    events' := events;
    if added != {} {
      events' := events' + [FlagsAdded(mailbox, r.id, added)];
    }
    if removed != {} {
      events' := events' + [FlagsRemoved(mailbox, r.id, removed)];
    }
  }

  method PushRecords(
    events: seq<WatchEvent>, mailbox: string, records: seq<LabelRecord>, labelsAdded: bool, newIds: set<string>)
    returns (events': seq<WatchEvent>)
    ensures events' == events + RecordsEvents(mailbox, records, labelsAdded, newIds)
  {
    events' := events;
    for i := 0 to |records|
      invariant events' == events + RecordsEvents(mailbox, records[..i], labelsAdded, newIds)
    {
      assert records[..i + 1][..i] == records[..i];
      if records[i].id !in newIds {
        events' := PushFlagEvents(events', mailbox, records[i], labelsAdded);
      }
    }
    assert records[..|records|] == records;
  }

  method HistoryDiffToEvents(diff: HistoryDiff, mailbox: string) returns (events: seq<WatchEvent>)
    ensures events == DiffEvents(diff, mailbox)
  {
    var newIds := AddedIds(diff.added);
    events := [];
    for i := 0 to |diff.added|
      invariant events == AddedEvents(mailbox, diff.added[..i])
    {
      events := events + [EnvelopeAdded(mailbox, EnvelopeFrom(diff.added[i]))];
    }
    assert diff.added[..|diff.added|] == diff.added;
    ghost var first := events;
    for i := 0 to |diff.removed|
      invariant events == first + RemovedEvents(mailbox, diff.removed[..i], newIds)
    {
      assert diff.removed[..i + 1][..i] == diff.removed[..i];
      if diff.removed[i] !in newIds {
        events := events + [EnvelopeRemoved(mailbox, diff.removed[i])];
      }
    }
    assert diff.removed[..|diff.removed|] == diff.removed;
    events := PushRecords(events, mailbox, diff.labelsAdded, true, newIds);
    events := PushRecords(events, mailbox, diff.labelsRemoved, false, newIds);
  }

  // ----- flags commute with labels

  /** The labels of `id` after the records, in visiting order. */
  function LabelsAfter(labels: set<string>, records: seq<LabelRecord>, labelsAdded: bool, id: string): set<string> {
    if records == [] then labels
    else
      var before, last := LabelsAfter(labels, records[..|records| - 1], labelsAdded, id), records[|records| - 1];
      if last.id != id then before
      else if labelsAdded then before + LabelSet(last.labelIds)
      else before - LabelSet(last.labelIds)
  }

  /** The labels after all additions, then all removals: the order in which the diff keeps them. */
  function LabelsInEventOrder(labels: set<string>, diff: HistoryDiff, id: string): set<string> {
    LabelsAfter(LabelsAfter(labels, diff.labelsAdded, true, id), diff.labelsRemoved, false, id)
  }

  /** `id` is in the picture with the flags of the labels. */
  ghost predicate Reads(p: Picture, id: string, labels: set<string>) {
    id in p && p[id] == FlagsOf(labels)
  }

  /** Flags turned on and off by one record, against the labels it adds or removes. */
  lemma {:induction false} RecordCommutes(labels: set<string>, labelIds: seq<string>, labelsAdded: bool)
    ensures FlagsOf(if labelsAdded then labels + LabelSet(labelIds) else labels - LabelSet(labelIds))
         == (FlagsOf(labels) + RecordFlags(labelIds, labelsAdded, true)) - RecordFlags(labelIds, labelsAdded, false)
  {
    var after := if labelsAdded then labels + LabelSet(labelIds) else labels - LabelSet(labelIds);
    forall i | i in SUPPORTED ensures Shows(after, i) <==>
      (Shows(labels, i) || Known(i) in RecordFlags(labelIds, labelsAdded, true))
      && Known(i) !in RecordFlags(labelIds, labelsAdded, false)
    {
      var (name, inverted) := LabelOfIana(i);
      RecordFlagsMember(labelIds, labelsAdded, true, i);
      RecordFlagsMember(labelIds, labelsAdded, false, i);
    }
  }

  lemma {:induction false} RecordFlagsMember(labelIds: seq<string>, labelsAdded: bool, on: bool, i: IanaFlag)
    requires i in SUPPORTED
    ensures Known(i) in RecordFlags(labelIds, labelsAdded, on) <==>
      LabelOfIana(i).0 in labelIds && (labelsAdded != LabelOfIana(i).1) == on
  {
    LabelIdentifies(FromIana(i));
    forall l | FlagOfLabel(l).Some? && FlagOfLabel(l).value.0 == i
      ensures (l, FlagOfLabel(l).value.1) == LabelOfIana(i)
    {
    }
  }

  lemma {:induction false} RecordReplays(
    p: Picture, mailbox: string, r: LabelRecord, labelsAdded: bool, id: string, labels: set<string>)
    requires Reads(p, id, labels)
    ensures Reads(Replay(p, RecordEvents(mailbox, r, labelsAdded)), id,
                  if r.id != id then labels
                  else if labelsAdded then labels + LabelSet(r.labelIds) else labels - LabelSet(r.labelIds))
  {
    var on, off := RecordFlags(r.labelIds, labelsAdded, true), RecordFlags(r.labelIds, labelsAdded, false);
    var plus := if on == {} then [] else [FlagsAdded(mailbox, r.id, on)];
    var minus := if off == {} then [] else [FlagsRemoved(mailbox, r.id, off)];
    ReplayConcat(p, plus, minus);
    ReplayAtMostOne(p, plus);
    ReplayAtMostOne(Replay(p, plus), minus);
    var end := Replay(p, plus + minus);
    assert RecordEvents(mailbox, r, labelsAdded) == plus + minus;
    if r.id == id {
      assert Replay(p, plus)[id] == FlagsOf(labels) + on;
      assert end[id] == (FlagsOf(labels) + on) - off;
      RecordCommutes(labels, r.labelIds, labelsAdded);
    }
  }

  lemma {:induction false} RecordsReplay(
    p: Picture, mailbox: string, records: seq<LabelRecord>, labelsAdded: bool, newIds: set<string>, id: string,
    labels: set<string>)
    requires Reads(p, id, labels) && id !in newIds
    ensures Reads(Replay(p, RecordsEvents(mailbox, records, labelsAdded, newIds)), id,
                  LabelsAfter(labels, records, labelsAdded, id))
  {
    if records != [] {
      var before, last := records[..|records| - 1], records[|records| - 1];
      RecordsReplay(p, mailbox, before, labelsAdded, newIds, id, labels);
      var events := RecordsEvents(mailbox, before, labelsAdded, newIds);
      var more := if last.id in newIds then [] else RecordEvents(mailbox, last, labelsAdded);
      ReplayConcat(p, events, more);
      if last.id !in newIds {
        RecordReplays(Replay(p, events), mailbox, last, labelsAdded, id, LabelsAfter(labels, before, labelsAdded, id));
      }
    }
  }

  lemma {:induction false} RemovedReplay(
    p: Picture, mailbox: string, removed: seq<string>, newIds: set<string>, id: string, labels: set<string>)
    requires Reads(p, id, labels) && id !in removed
    ensures Reads(Replay(p, RemovedEvents(mailbox, removed, newIds)), id, labels)
  {
    if removed != [] {
      var before, last := removed[..|removed| - 1], removed[|removed| - 1];
      assert removed == before + [last];
      RemovedReplay(p, mailbox, before, newIds, id, labels);
      var more := if last in newIds then [] else [EnvelopeRemoved(mailbox, last)];
      ReplayConcat(p, RemovedEvents(mailbox, before, newIds), more);
      ReplayAtMostOne(Replay(p, RemovedEvents(mailbox, before, newIds)), more);
    }
  }

  lemma {:induction false} AddedReplay(
    p: Picture, mailbox: string, added: seq<GmailMessage>, id: string, labels: set<string>)
    requires Reads(p, id, labels) && id !in AddedIds(added)
    ensures Reads(Replay(p, AddedEvents(mailbox, added)), id, labels)
  {
    if added != [] {
      var before, last := added[..|added| - 1], added[|added| - 1];
      assert added == before + [last];
      assert last in added && last.id in AddedIds(added);
      assert forall m | m in before :: m in added && m.id in AddedIds(added);
      AddedReplay(p, mailbox, before, id, labels);
      var more := [EnvelopeAdded(mailbox, EnvelopeFrom(last))];
      assert AddedEvents(mailbox, added) == AddedEvents(mailbox, before) + more;
      ReplayConcat(p, AddedEvents(mailbox, before), more);
      ReplayAtMostOne(Replay(p, AddedEvents(mailbox, before)), more);
    }
  }

  /**
   History events commute with labels: for a message the diff neither adds nor removes, replaying all
   events of the diff over its flags gives the flags of its labels after all additions, then all removals.
   */
  lemma {:induction false} EventsCommuteWithLabels(
    p: Picture, diff: HistoryDiff, mailbox: string, id: string, labels: set<string>)
    requires Reads(p, id, labels) && id !in AddedIds(diff.added) && id !in diff.removed
    ensures Reads(Replay(p, DiffEvents(diff, mailbox)), id, LabelsInEventOrder(labels, diff, id))
  {
    var newIds := AddedIds(diff.added);
    var a := AddedEvents(mailbox, diff.added);
    var r := RemovedEvents(mailbox, diff.removed, newIds);
    var plus := RecordsEvents(mailbox, diff.labelsAdded, true, newIds);
    var minus := RecordsEvents(mailbox, diff.labelsRemoved, false, newIds);
    AddedReplay(p, mailbox, diff.added, id, labels);
    RemovedReplay(Replay(p, a), mailbox, diff.removed, newIds, id, labels);
    ReplayConcat(p, a, r);
    RecordsReplay(Replay(p, a + r), mailbox, diff.labelsAdded, true, newIds, id, labels);
    ReplayConcat(p, a + r, plus);
    RecordsReplay(Replay(p, a + r + plus), mailbox, diff.labelsRemoved, false, newIds, id,
                  LabelsAfter(labels, diff.labelsAdded, true, id));
    ReplayConcat(p, a + r + plus, minus);
  }

  // ----- the real order of the changes

  /** One change as it happened: the diff only keeps additions and removals apart. */
  datatype Change = Change(record: LabelRecord, added: bool)

  function Only(changes: seq<Change>, added: bool): seq<LabelRecord> {
    if changes == [] then []
    else
      var before, last := Only(changes[..|changes| - 1], added), changes[|changes| - 1];
      if last.added == added then before + [last.record] else before
  }

  /** The changes could be those behind the diff. */
  ghost predicate Interleaves(changes: seq<Change>, diff: HistoryDiff) {
    Only(changes, true) == diff.labelsAdded && Only(changes, false) == diff.labelsRemoved
  }

  /** The labels of `id` after the changes, in the order in which they happened. */
  function LabelsThrough(labels: set<string>, changes: seq<Change>, id: string): set<string> {
    if changes == [] then labels
    else
      var before, last := LabelsThrough(labels, changes[..|changes| - 1], id), changes[|changes| - 1];
      if last.record.id != id then before
      else if last.added then before + LabelSet(last.record.labelIds)
      else before - LabelSet(last.record.labelIds)
  }

  ghost predicate Mentions(records: seq<LabelRecord>, id: string, name: string) {
    exists r | r in records :: r.id == id && name in r.labelIds
  }

  /** No flag label of `id` is both added and removed by the diff. */
  ghost predicate NoFlagToggled(diff: HistoryDiff, id: string) {
    forall i | i in SUPPORTED ::
      !(Mentions(diff.labelsAdded, id, LabelOfIana(i).0) && Mentions(diff.labelsRemoved, id, LabelOfIana(i).0))
  }

  /** A label that is only ever added, or only ever removed, ends up the same in any order. */
  lemma {:induction false} ThroughAt(labels: set<string>, changes: seq<Change>, id: string, name: string)
    ensures !Mentions(Only(changes, false), id, name) ==>
      (name in LabelsThrough(labels, changes, id) <==> name in labels || Mentions(Only(changes, true), id, name))
    ensures !Mentions(Only(changes, true), id, name) ==>
      (name in LabelsThrough(labels, changes, id) <==> name in labels && !Mentions(Only(changes, false), id, name))
  {
    if changes != [] {
      var before, last := changes[..|changes| - 1], changes[|changes| - 1];
      ThroughAt(labels, before, id, name);
      MentionsOneMore(Only(before, last.added), last.record, id, name);
    }
  }

  lemma {:induction false} MentionsOneMore(records: seq<LabelRecord>, r: LabelRecord, id: string, name: string)
    ensures Mentions(records + [r], id, name) <==> Mentions(records, id, name) || (r.id == id && name in r.labelIds)
  {
    assert forall x :: x in records + [r] <==> x in records || x == r;
  }

  lemma {:induction false} AfterAt(
    labels: set<string>, records: seq<LabelRecord>, labelsAdded: bool, id: string, name: string)
    ensures name in LabelsAfter(labels, records, labelsAdded, id) <==>
      if labelsAdded then name in labels || Mentions(records, id, name)
      else name in labels && !Mentions(records, id, name)
  {
    if records != [] {
      var before, last := records[..|records| - 1], records[|records| - 1];
      assert records == before + [last];
      AfterAt(labels, before, labelsAdded, id, name);
      MentionsOneMore(before, last, id, name);
    }
  }

  /** All removals, then all additions: as good an order as any. */
  function RemovalsFirst(added: seq<LabelRecord>, removed: seq<LabelRecord>): seq<Change> {
    if added != [] then RemovalsFirst(added[..|added| - 1], removed) + [Change(added[|added| - 1], true)]
    else if removed != [] then RemovalsFirst(added, removed[..|removed| - 1]) + [Change(removed[|removed| - 1], false)]
    else []
  }

  lemma {:induction false} RemovalsFirstAt(
    labels: set<string>, added: seq<LabelRecord>, removed: seq<LabelRecord>, id: string, name: string)
    ensures var changes := RemovalsFirst(added, removed);
      && Only(changes, true) == added && Only(changes, false) == removed
      && (Mentions(added, id, name) ==> name in LabelsThrough(labels, changes, id))
    decreases |added| + |removed|
  {
    if added != [] {
      var before, last := added[..|added| - 1], added[|added| - 1];
      assert added == before + [last];
      RemovalsFirstAt(labels, before, removed, id, name);
      assert RemovalsFirst(added, removed)[..|RemovalsFirst(added, removed)| - 1] == RemovalsFirst(before, removed);
      MentionsOneMore(before, last, id, name);
    } else if removed != [] {
      var before, last := removed[..|removed| - 1], removed[|removed| - 1];
      assert removed == before + [last];
      RemovalsFirstAt(labels, added, before, id, name);
      assert RemovalsFirst(added, removed)[..|RemovalsFirst(added, removed)| - 1] == RemovalsFirst(added, before);
    }
  }

  /** Without a toggled flag, the flags come out the same in any order. */
  lemma {:induction false} OrderDoesNotMatter(labels: set<string>, diff: HistoryDiff, id: string, changes: seq<Change>)
    requires NoFlagToggled(diff, id) && Interleaves(changes, diff)
    ensures FlagsOf(LabelsThrough(labels, changes, id)) == FlagsOf(LabelsInEventOrder(labels, diff, id))
  {
    forall i | i in SUPPORTED
      ensures Shows(LabelsThrough(labels, changes, id), i) <==> Shows(LabelsInEventOrder(labels, diff, id), i)
    {
      var name := LabelOfIana(i).0;
      ThroughAt(labels, changes, id, name);
      AfterAt(labels, diff.labelsAdded, true, id, name);
      AfterAt(LabelsAfter(labels, diff.labelsAdded, true, id), diff.labelsRemoved, false, id, name);
    }
  }

  /** A toggled flag comes out wrong when its last removal was before its last addition. */
  lemma {:induction false} OrderMatters(labels: set<string>, diff: HistoryDiff, id: string, i: IanaFlag)
    returns (changes: seq<Change>)
    requires i in SUPPORTED
    requires Mentions(diff.labelsAdded, id, LabelOfIana(i).0) && Mentions(diff.labelsRemoved, id, LabelOfIana(i).0)
    ensures Interleaves(changes, diff)
    ensures FlagsOf(LabelsThrough(labels, changes, id)) != FlagsOf(LabelsInEventOrder(labels, diff, id))
  {
    var name := LabelOfIana(i).0;
    changes := RemovalsFirst(diff.labelsAdded, diff.labelsRemoved);
    RemovalsFirstAt(labels, diff.labelsAdded, diff.labelsRemoved, id, name);
    AfterAt(LabelsAfter(labels, diff.labelsAdded, true, id), diff.labelsRemoved, false, id, name);
    assert Shows(LabelsThrough(labels, changes, id), i) != Shows(LabelsInEventOrder(labels, diff, id), i);
    assert Known(i) in FlagsOf(LabelsThrough(labels, changes, id)) <==> Shows(LabelsThrough(labels, changes, id), i);
  }

  /**
   The events of a diff give the true flags of a message it neither adds nor removes, in whatever order
   the label changes really happened, exactly when no flag label of the message is both added and removed:
   a star removed and set again between two polls is lost.
   */
  lemma {:induction false} EventsAreTrueIff(
    p: Picture, diff: HistoryDiff, mailbox: string, id: string, labels: set<string>)
    requires Reads(p, id, labels) && id !in AddedIds(diff.added) && id !in diff.removed
    ensures (forall changes | Interleaves(changes, diff) ::
               Reads(Replay(p, DiffEvents(diff, mailbox)), id, LabelsThrough(labels, changes, id)))
       <==> NoFlagToggled(diff, id)
  {
    EventsCommuteWithLabels(p, diff, mailbox, id, labels);
    if NoFlagToggled(diff, id) {
      forall changes | Interleaves(changes, diff)
        ensures Reads(Replay(p, DiffEvents(diff, mailbox)), id, LabelsThrough(labels, changes, id))
      {
        OrderDoesNotMatter(labels, diff, id, changes);
      }
    } else {
      var i :| i in SUPPORTED
        && Mentions(diff.labelsAdded, id, LabelOfIana(i).0) && Mentions(diff.labelsRemoved, id, LabelOfIana(i).0);
      var changes := OrderMatters(labels, diff, id, i);
      assert Interleaves(changes, diff);
    }
  }

  // ----- messages added by the same diff

  /** The message a removal or flag event is about. */
  function Touches(e: WatchEvent): Option<string> {
    match e
    case EnvelopeRemoved(_, id) => Some(id)
    case FlagsAdded(_, id, _) => Some(id)
    case FlagsRemoved(_, id, _) => Some(id)
    case _ => None
  }

  ghost predicate SparesNew(events: seq<WatchEvent>, newIds: set<string>) {
    forall e | e in events && Touches(e).Some? :: Touches(e).value !in newIds
  }

  lemma {:induction false} RemovedSpareNew(mailbox: string, removed: seq<string>, newIds: set<string>)
    ensures SparesNew(RemovedEvents(mailbox, removed, newIds), newIds)
  {
    if removed != [] {
      RemovedSpareNew(mailbox, removed[..|removed| - 1], newIds);
    }
  }

  lemma {:induction false} RecordsSpareNew(
    mailbox: string, records: seq<LabelRecord>, labelsAdded: bool, newIds: set<string>)
    ensures SparesNew(RecordsEvents(mailbox, records, labelsAdded, newIds), newIds)
  {
    if records != [] {
      RecordsSpareNew(mailbox, records[..|records| - 1], labelsAdded, newIds);
    }
  }

  /** No removal and no flag event names a message the same diff adds; each addition carries its flags. */
  lemma {:induction false} AddedMessagesAreSpared(diff: HistoryDiff, mailbox: string)
    ensures SparesNew(DiffEvents(diff, mailbox), AddedIds(diff.added))
    ensures |diff.added| <= |DiffEvents(diff, mailbox)|
    ensures forall i | 0 <= i < |diff.added| ::
      DiffEvents(diff, mailbox)[i] == EnvelopeAdded(mailbox, EnvelopeFrom(diff.added[i]))
  {
    var newIds := AddedIds(diff.added);
    RemovedSpareNew(mailbox, diff.removed, newIds);
    RecordsSpareNew(mailbox, diff.labelsAdded, true, newIds);
    RecordsSpareNew(mailbox, diff.labelsRemoved, false, newIds);
    assert SparesNew(AddedEvents(mailbox, diff.added), newIds);
  }

  // ----- what the events carry

  function MailboxOf(e: WatchEvent): Option<string> {
    match e
    case EnvelopeAdded(mailbox, _) => Some(mailbox)
    case EnvelopeRemoved(mailbox, _) => Some(mailbox)
    case FlagsAdded(mailbox, _, _) => Some(mailbox)
    case FlagsRemoved(mailbox, _, _) => Some(mailbox)
    case KeepAlive => None
  }

  /** The events name the mailbox, and no flag event is empty. */
  ghost predicate AllName(events: seq<WatchEvent>, mailbox: string) {
    forall e | e in events ::
      && MailboxOf(e) == Some(mailbox)
      && (e.FlagsAdded? || e.FlagsRemoved? ==> e.flags != {})
  }

  lemma {:induction false} RemovedName(mailbox: string, removed: seq<string>, newIds: set<string>)
    ensures AllName(RemovedEvents(mailbox, removed, newIds), mailbox)
  {
    if removed != [] {
      RemovedName(mailbox, removed[..|removed| - 1], newIds);
    }
  }

  lemma {:induction false} RecordsName(
    mailbox: string, records: seq<LabelRecord>, labelsAdded: bool, newIds: set<string>)
    ensures AllName(RecordsEvents(mailbox, records, labelsAdded, newIds), mailbox)
  {
    if records != [] {
      RecordsName(mailbox, records[..|records| - 1], labelsAdded, newIds);
    }
  }

  /** Every event of a diff names the mailbox, none is a `KeepAlive`, and no flag event is empty. */
  lemma {:induction false} EventsNameMailbox(diff: HistoryDiff, mailbox: string)
    ensures AllName(DiffEvents(diff, mailbox), mailbox)
  {
    var newIds := AddedIds(diff.added);
    RemovedName(mailbox, diff.removed, newIds);
    RecordsName(mailbox, diff.labelsAdded, true, newIds);
    RecordsName(mailbox, diff.labelsRemoved, false, newIds);
  }

  /** The message that an addition announces: its id, its header, and the flags its labels show. */
  ghost predicate Announces(e: WatchEvent, m: GmailMessage) {
    && e.EnvelopeAdded? && e.envelope.id == m.id && e.envelope.header == m.header
    && forall key :: key in e.envelope.flags <==> IsShown(LabelSet(m.labelIds), key)
  }

  /** The first events of a diff announce its added messages, in order. */
  lemma {:induction false} AddedMessagesAreAnnounced(diff: HistoryDiff, mailbox: string, i: nat)
    requires i < |diff.added|
    ensures i < |DiffEvents(diff, mailbox)| && Announces(DiffEvents(diff, mailbox)[i], diff.added[i])
  {
    AddedMessagesAreSpared(diff, mailbox);
    var m := diff.added[i];
    forall key ensures key in EnvelopeFrom(m).flags <==> IsShown(LabelSet(m.labelIds), key) {
      FlagTable(LabelSet(m.labelIds), key);
    }
  }

  /** A removed id that the diff does not also add is announced as removed, and only such. */
  lemma {:induction false} RemovalsAreAnnouncedIff(diff: HistoryDiff, mailbox: string, id: string)
    ensures EnvelopeRemoved(mailbox, id) in DiffEvents(diff, mailbox) <==>
      id in diff.removed && forall m | m in diff.added :: m.id != id
  {
    var newIds := AddedIds(diff.added);
    RemovedMember(mailbox, diff.removed, newIds, id);
    RecordsRemoveNothing(mailbox, diff.labelsAdded, true, newIds);
    RecordsRemoveNothing(mailbox, diff.labelsRemoved, false, newIds);
  }

  lemma {:induction false} RemovedMember(mailbox: string, removed: seq<string>, newIds: set<string>, id: string)
    ensures EnvelopeRemoved(mailbox, id) in RemovedEvents(mailbox, removed, newIds) <==> id in removed && id !in newIds
  {
    if removed != [] {
      var before, last := removed[..|removed| - 1], removed[|removed| - 1];
      assert removed == before + [last];
      RemovedMember(mailbox, before, newIds, id);
    }
  }

  lemma {:induction false} RecordsRemoveNothing(
    mailbox: string, records: seq<LabelRecord>, labelsAdded: bool, newIds: set<string>)
    ensures forall e | e in RecordsEvents(mailbox, records, labelsAdded, newIds) :: !e.EnvelopeRemoved?
  {
    if records != [] {
      RecordsRemoveNothing(mailbox, records[..|records| - 1], labelsAdded, newIds);
    }
  }
}
