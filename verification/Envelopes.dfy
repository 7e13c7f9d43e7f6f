/** Envelopes, incremental diffs and how a caller applies them (src/envelope/types.rs). */
module Envelopes {
  import opened Wrappers
  import opened Flags

  datatype Address = Address(name: Option<string>, email: string)

  /** `instant` orders timestamps; `day` is the calendar day in the sender's own offset. */
  datatype DateTime = DateTime(instant: int, day: int)

  /** The parts of an envelope that never change once the message exists. */
  datatype Header = Header(
    messageId: Option<string>, inReplyTo: Option<string>, subject: string,
    from: seq<Address>, to: seq<Address>, date: Option<DateTime>,
    size: nat, hasAttachment: Option<bool>)

  const EMPTY_HEADER := Header(None, None, "", [], [], None, 0, None)

  datatype Envelope = Envelope(id: string, flags: set<FlagKey>, header: Header)

  datatype FlagUpdate = FlagUpdate(id: string, flags: set<FlagKey>)

  /** `S` is the backend's checkpoint: bytes for IMAP, a state token for JMAP. */
  datatype EnvelopeDiff<S> =
    | FullListRequired(newState: Option<S>)
    | Incremental(checkpoint: S, flagUpdates: seq<FlagUpdate>,
                  newEnvelopes: seq<Envelope>, vanishedIds: seq<string>)

  /** What a caller keeps for one message. */
  datatype Stored = Stored(flags: set<FlagKey>, header: Header)

  type Replica = map<string, Stored>

  /** Flag updates touch known ids only. */
  function ApplyUpdates(r: Replica, updates: seq<FlagUpdate>): Replica
    decreases updates
  {
    if updates == [] then r
    else
      var u := updates[0];
      ApplyUpdates(if u.id in r then r[u.id := r[u.id].(flags := u.flags)] else r, updates[1..])
  }

  function ApplyNew(r: Replica, envelopes: seq<Envelope>): Replica
    decreases envelopes
  {
    if envelopes == [] then r
    else
      var e := envelopes[0];
      ApplyNew(r[e.id := Stored(e.flags, e.header)], envelopes[1..])
  }

  function ApplyVanished(r: Replica, ids: seq<string>): Replica {
    map id | id in r && id !in ids :: r[id]
  }

  /** Flag updates, then new envelopes, then vanished ids. */
  function ApplyDiff<S>(r: Replica, diff: EnvelopeDiff<S>): Replica
    requires diff.Incremental?
  {
    ApplyVanished(ApplyNew(ApplyUpdates(r, diff.flagUpdates), diff.newEnvelopes), diff.vanishedIds)
  }

  ghost predicate UpdatesAgree(updates: seq<FlagUpdate>, id: string, flags: set<FlagKey>) {
    forall u | u in updates && u.id == id :: u.flags == flags
  }

  ghost predicate Updated(updates: seq<FlagUpdate>, id: string) {
    exists u :: u in updates && u.id == id
  }

  ghost predicate EnvelopesAgree(envelopes: seq<Envelope>, id: string, value: Stored) {
    forall e | e in envelopes && e.id == id :: Stored(e.flags, e.header) == value
  }

  ghost predicate Announced(envelopes: seq<Envelope>, id: string) {
    exists e :: e in envelopes && e.id == id
  }

  lemma {:induction false} ApplyUpdatesKeys(r: Replica, updates: seq<FlagUpdate>)
    ensures ApplyUpdates(r, updates).Keys == r.Keys
    ensures forall id | id in r :: ApplyUpdates(r, updates)[id].header == r[id].header
    decreases updates
  {
    if updates != [] {
      var u := updates[0];
      ApplyUpdatesKeys(if u.id in r then r[u.id := r[u.id].(flags := u.flags)] else r, updates[1..]);
    }
  }

  lemma {:induction false} ApplyUpdatesAt(r: Replica, updates: seq<FlagUpdate>, id: string, flags: set<FlagKey>)
    requires id in r && UpdatesAgree(updates, id, flags)
    ensures id in ApplyUpdates(r, updates)
    ensures ApplyUpdates(r, updates)[id]
         == if Updated(updates, id) then r[id].(flags := flags) else r[id]
    decreases updates
  {
    if updates != [] {
      var u := updates[0];
      var r' := if u.id in r then r[u.id := r[u.id].(flags := u.flags)] else r;
      assert updates == [u] + updates[1..];
      ApplyUpdatesAt(r', updates[1..], id, flags);
      assert Updated(updates, id) <==> u.id == id || Updated(updates[1..], id);
    }
  }

  /** The last entry that names an id decides. */
  lemma {:induction false} ApplyNewEntry(r: Replica, envelopes: seq<Envelope>, id: string)
    ensures id in ApplyNew(r, envelopes) <==> id in r || Announced(envelopes, id)
    ensures Announced(envelopes, id) ==>
      exists e :: e in envelopes && e.id == id && ApplyNew(r, envelopes)[id] == Stored(e.flags, e.header)
    ensures !Announced(envelopes, id) && id in r ==> ApplyNew(r, envelopes)[id] == r[id]
    decreases envelopes
  {
    if envelopes != [] {
      var e := envelopes[0];
      assert envelopes == [e] + envelopes[1..];
      ApplyNewEntry(r[e.id := Stored(e.flags, e.header)], envelopes[1..], id);
      assert Announced(envelopes, id) <==> e.id == id || Announced(envelopes[1..], id);
    }
  }

  lemma {:induction false} ApplyNewAt(r: Replica, envelopes: seq<Envelope>, id: string, value: Stored)
    requires EnvelopesAgree(envelopes, id, value)
    ensures id in ApplyNew(r, envelopes) <==> id in r || Announced(envelopes, id)
    ensures id in ApplyNew(r, envelopes) ==>
      ApplyNew(r, envelopes)[id] == if Announced(envelopes, id) then value else r[id]
  {
    ApplyNewEntry(r, envelopes, id);
  }

  lemma {:induction false} ApplyNewOneMore(r: Replica, envelopes: seq<Envelope>, e: Envelope)
    ensures ApplyNew(r, envelopes + [e]) == ApplyNew(r, envelopes)[e.id := Stored(e.flags, e.header)]
    decreases envelopes
  {
    if envelopes == [] {
      assert [] + [e] == [e] && [e][1..] == [];
    } else {
      assert (envelopes + [e])[1..] == envelopes[1..] + [e];
      ApplyNewOneMore(r[envelopes[0].id := Stored(envelopes[0].flags, envelopes[0].header)], envelopes[1..], e);
    }
  }

  /** One id through the three buckets, when the flag updates that name it agree with each other. */
  lemma {:induction false} ApplyDiffEntry<S>(r: Replica, diff: EnvelopeDiff<S>, id: string, flags: set<FlagKey>)
    requires diff.Incremental? && UpdatesAgree(diff.flagUpdates, id, flags)
    ensures id in ApplyDiff(r, diff) <==>
      id !in diff.vanishedIds && (id in r || Announced(diff.newEnvelopes, id))
    ensures id in ApplyDiff(r, diff) && Announced(diff.newEnvelopes, id) ==>
      exists e :: e in diff.newEnvelopes && e.id == id && ApplyDiff(r, diff)[id] == Stored(e.flags, e.header)
    ensures id in ApplyDiff(r, diff) && !Announced(diff.newEnvelopes, id) ==>
      ApplyDiff(r, diff)[id] == if Updated(diff.flagUpdates, id) then r[id].(flags := flags) else r[id]
  {
    ApplyUpdatesKeys(r, diff.flagUpdates);
    if id in r {
      ApplyUpdatesAt(r, diff.flagUpdates, id, flags);
    }
    ApplyNewEntry(ApplyUpdates(r, diff.flagUpdates), diff.newEnvelopes, id);
  }

  /** The same when the envelopes that name it agree as well. */
  lemma {:induction false} ApplyDiffAt<S>(
    r: Replica, diff: EnvelopeDiff<S>, id: string, flags: set<FlagKey>, value: Stored)
    requires diff.Incremental?
    requires UpdatesAgree(diff.flagUpdates, id, flags)
    requires EnvelopesAgree(diff.newEnvelopes, id, value)
    ensures id in ApplyDiff(r, diff) <==>
      id !in diff.vanishedIds && (id in r || Announced(diff.newEnvelopes, id))
    ensures id in ApplyDiff(r, diff) ==>
      ApplyDiff(r, diff)[id] ==
        if Announced(diff.newEnvelopes, id) then value
        else if Updated(diff.flagUpdates, id) then r[id].(flags := flags)
        else r[id]
  {
    ApplyDiffEntry(r, diff, id, flags);
  }
}
