/**
 A JMAP server as a history of states, one per state token, and what `Foo/changes` and
 `Email/get` promise about it (sections 5.1 and 5.2 of RFC 8620).
 */
module JmapServer {
  import opened Wrappers
  import opened Flags
  import opened Envelopes

  /** `history[i]` maps every id that exists in state `i` to its record. */
  type History<V> = seq<map<string, V>>

  /** Ids are never reused. */
  ghost predicate NoReuse<V>(h: History<V>) {
    forall i, j, k, id | 0 <= i <= j <= k < |h| && id in h[i] && id !in h[j] :: id !in h[k]
  }

  ghost predicate Distinct(tokens: seq<string>) {
    forall i, j | 0 <= i < j < |tokens| :: tokens[i] != tokens[j]
  }

  ghost function At<V>(h: History<V>, i: nat, id: string): Option<V>
    requires i < |h|
  {
    if id in h[i] then Some(h[i][id]) else None
  }

  /** Nothing happened to `id` between states `i` and `j`. */
  ghost predicate Stable<V(!new)>(h: History<V>, i: nat, j: nat, id: string)
    requires i <= j < |h|
  {
    forall p: nat | i <= p <= j :: At(h, p, id) == At(h, j, id)
  }

  ghost predicate ExistedBy<V(!new)>(h: History<V>, j: nat, id: string)
    requires j < |h|
  {
    exists p: nat :: p <= j && id in h[p]
  }

  datatype Changes = Changes(
    created: seq<string>, updated: seq<string>, destroyed: seq<string>,
    newState: string, hasMore: bool)

  /**
   The three lists describe the way from state `i` to state `j`. A record created and destroyed in
   between may be left out, reported as destroyed, or reported as both.
   */
  ghost predicate Covers<V(!new)>(
    h: History<V>, i: nat, j: nat, created: seq<string>, updated: seq<string>, destroyed: seq<string>)
    requires i <= j < |h|
  {
    && (forall id | id in h[j] && id !in h[i] :: id in created)
    && (forall id | id in h[j] && id in h[i] && !Stable(h, i, j, id) :: id in updated)
    && (forall id | id in h[i] && id !in h[j] :: id in destroyed)
    && (forall id | id in created || id in updated || id in destroyed :: ExistedBy(h, j, id))
    && (forall id | id in destroyed :: id !in h[j])
  }

  /** The answer to "what changed since `since`" when the server is at state `now`. */
  ghost predicate AnswersChanges<V(!new)>(h: History<V>, tokens: seq<string>, now: nat, since: string, c: Changes)
    requires now < |h| == |tokens|
  {
    exists i: nat, j: nat ::
      && i <= j <= now
      && tokens[i] == since && tokens[j] == c.newState
      && Covers(h, i, j, c.created, c.updated, c.destroyed)
      && (if c.hasMore then i < j else j == now)
  }

  lemma {:induction false} NeverReborn<V>(h: History<V>, i: nat, j: nat, k: nat, id: string)
    requires NoReuse(h) && i <= j <= k < |h| && id in h[i] && id in h[k]
    ensures id in h[j]
  {
  }

  lemma {:induction false} StableChain<V(!new)>(h: History<V>, i: nat, j: nat, k: nat, id: string)
    requires i <= j <= k < |h|
    ensures Stable(h, i, k, id) <==> Stable(h, i, j, id) && Stable(h, j, k, id)
  {
    if Stable(h, i, k, id) {
      assert At(h, j, id) == At(h, k, id);
    }
    if Stable(h, i, j, id) && Stable(h, j, k, id) {
      assert At(h, j, id) == At(h, k, id);
    }
  }

  /** Two consecutive rounds, concatenated, are one lawful round: truncation loses nothing. */
  lemma {:induction false} RoundsCompose<V(!new)>(
    h: History<V>, i: nat, j: nat, k: nat,
    c1: seq<string>, u1: seq<string>, d1: seq<string>, c2: seq<string>, u2: seq<string>, d2: seq<string>)
    requires NoReuse(h) && i <= j <= k < |h|
    requires Covers(h, i, j, c1, u1, d1) && Covers(h, j, k, c2, u2, d2)
    ensures Covers(h, i, k, c1 + c2, u1 + u2, d1 + d2)
  {
    forall id | id in h[k] && id in h[i] && !Stable(h, i, k, id) ensures id in u1 + u2 {
      NeverReborn(h, i, j, k, id);
      StableChain(h, i, j, k, id);
    }
    forall id | id in d1 + d2 ensures id !in h[k] {
      if id in d1 {
        var p: nat :| p <= j && id in h[p];
      }
    }
    forall id | id in c1 + c2 || id in u1 + u2 || id in d1 + d2 ensures ExistedBy(h, k, id) {
      if ExistedBy(h, j, id) {
        var p: nat :| p <= j && id in h[p];
        assert p <= k;
      }
    }
  }

  // ----- emails

  datatype Email = Email(keywords: map<string, bool>, mailboxIds: map<string, bool>, header: Header)

  /** An `Email/get` row; absent properties are `None`. */
  datatype EmailRow = EmailRow(
    id: Option<string>, keywords: Option<map<string, bool>>, mailboxIds: Option<map<string, bool>>, header: Header)

  function SetKeywords(keywords: map<string, bool>): set<string> {
    set k | k in keywords && keywords[k]
  }

  function FlagsOf(keywords: map<string, bool>): set<FlagKey> {
    KeysOf(SetKeywords(keywords))
  }

  function Shown(e: Email): Stored {
    Stored(FlagsOf(e.keywords), e.header)
  }

  /** The email is flagged so: some keyword of it that is set normalises to the flag. */
  ghost predicate HasFlag(keywords: map<string, bool>, key: FlagKey) {
    exists k :: k in keywords && keywords[k] && KeyOf(k) == key
  }

  lemma {:induction false} FlagsOfIff(keywords: map<string, bool>, key: FlagKey)
    ensures key in FlagsOf(keywords) <==> HasFlag(keywords, key)
  {
    if key in FlagsOf(keywords) {
      var k :| k in SetKeywords(keywords) && KeyOf(k) == key;
    }
    if k :| k in keywords && keywords[k] && KeyOf(k) == key {
      assert k in SetKeywords(keywords);
    }
  }

  ghost predicate HeadersFixed(h: History<Email>) {
    forall i, j, id | 0 <= i <= j < |h| && id in h[i] && id in h[j] :: h[i][id].header == h[j][id].header
  }

  /** Rows for exactly the requested ids that exist in state `now`, in any order. */
  ghost predicate AnswersGet(h: History<Email>, now: nat, ids: seq<string>, withMailboxes: bool, rows: seq<EmailRow>)
    requires now < |h|
  {
    && (forall row | row in rows :: RowIsCurrent(h, now, ids, withMailboxes, row))
    && (forall id | id in ids && id in h[now] :: exists row :: row in rows && row.id == Some(id))
  }

  ghost predicate RowIsCurrent(h: History<Email>, now: nat, ids: seq<string>, withMailboxes: bool, row: EmailRow)
    requires now < |h|
  {
    && row.id.Some? && row.id.value in ids && row.id.value in h[now]
    && var e := h[now][row.id.value];
    && row.keywords == Some(e.keywords)
    && row.header == e.header
    && (withMailboxes ==> row.mailboxIds == Some(e.mailboxIds))
  }

  /** Folds a row into the shared envelope (src/jmap/convert.rs). */
  function EnvelopeFrom(row: EmailRow): Envelope {
    Envelope(
      match row.id case Some(id) => id case None => "",
      match row.keywords case Some(ks) => FlagsOf(ks) case None => {},
      row.header)
  }

  /** The envelope of a row: its id, its header, and a flag for each keyword that is set. */
  lemma {:induction false} EnvelopeIs(row: EmailRow, key: FlagKey)
    requires row.id.Some? && row.keywords.Some?
    ensures EnvelopeFrom(row).id == row.id.value && EnvelopeFrom(row).header == row.header
    ensures key in EnvelopeFrom(row).flags <==> HasFlag(row.keywords.value, key)
  {
    FlagsOfIff(row.keywords.value, key);
  }

  /** What a replica should hold of an email. */
  lemma {:induction false} ShownIs(e: Email, key: FlagKey)
    ensures Shown(e).header == e.header && (key in Shown(e).flags <==> HasFlag(e.keywords, key))
  {
    FlagsOfIff(e.keywords, key);
  }
}
