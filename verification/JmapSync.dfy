/** A replica of a JMAP account fed by `DiffEnvelopes` over whole runs. */
module JmapSync {
  import opened Wrappers
  import opened Envelopes
  import opened JmapServer
  import opened JmapClient
  import opened Lists

  /** The server's past, present and future: one state per token. */
  ghost predicate Lawful(h: History<Email>, tokens: seq<string>) {
    && |h| == |tokens| > 0
    && NoReuse(h) && HeadersFixed(h) && Distinct(tokens)
  }

  /** The replica holds the emails of the account, and nothing else but ids of `late`. */
  ghost predicate MirrorsExcept(r: Replica, account: map<string, Email>, late: set<string>) {
    && (forall id | id in account :: id in r && r[id] == Shown(account[id]))
    && (forall id | id in r :: id in account || id in late)
  }

  /** The replica holds exactly the emails of the account. */
  ghost predicate Mirrors(r: Replica, account: map<string, Email>) {
    r.Keys == account.Keys && forall id | id in account :: r[id] == Shown(account[id])
  }

  /**
   What a replica taken at state `k` knows of state `now`: it is right about every id left alone
   since `k`, misses no surviving email of state `k`, and holds no id created later but those of `late`.
   */
  ghost predicate KnownAt(r: Replica, h: History<Email>, k: nat, now: nat, late: set<string>)
    requires k <= now < |h|
  {
    && (forall id | id in h[now] && Stable(h, k, now, id) :: id in r && r[id] == Shown(h[now][id]))
    && (forall id | id in h[k] && id in h[now] :: id in r && r[id].header == h[now][id].header)
    && (forall id | id in r :: id in h[k] || id in late)
  }

  lemma {:induction false} KnownSurvives(r: Replica, h: History<Email>, k: nat, now: nat, later: nat, late: set<string>)
    requires NoReuse(h) && HeadersFixed(h) && k <= now <= later < |h| && KnownAt(r, h, k, now, late)
    ensures KnownAt(r, h, k, later, late)
  {
    forall id | id in h[later] && Stable(h, k, later, id) ensures id in r && r[id] == Shown(h[later][id]) {
      StableChain(h, k, now, later, id);
      assert At(h, now, id) == At(h, later, id);
    }
    forall id | id in h[k] && id in h[later] ensures id in r && r[id].header == h[later][id].header {
      NeverReborn(h, k, now, later, id);
    }
  }

  /** At its own state, a known replica is the account, but for late ids. */
  lemma {:induction false} KnownNowIsMirror(r: Replica, h: History<Email>, now: nat, late: set<string>)
    requires now < |h| && KnownAt(r, h, now, now, late)
    ensures MirrorsExcept(r, h[now], late)
  {
    forall id | id in h[now] ensures Stable(h, now, now, id) {}
  }

  // ----- one incremental call

  /** The envelopes are the current ones of exactly the surviving `ids`. */
  ghost predicate Got(h: History<Email>, g: nat, ids: seq<string>, envelopes: seq<Envelope>)
    requires g < |h|
  {
    && (forall e | e in envelopes :: e.id in ids && e.id in h[g] && Stored(e.flags, e.header) == Shown(h[g][e.id]))
    && (forall id | id in ids && id in h[g] :: Announced(envelopes, id))
  }

  ghost predicate GotFlags(h: History<Email>, g: nat, ids: seq<string>, updates: seq<FlagUpdate>)
    requires g < |h|
  {
    && (forall u | u in updates :: u.id in ids && u.id in h[g] && u.flags == FlagsOf(h[g][u.id].keywords))
    && (forall id | id in ids && id in h[g] :: Updated(updates, id))
  }

  /** Rounds covering `k..j`, then the two `Email/get`s at `g1` and `g2`. */
  ghost predicate LawfulIncrement(
    r: Replica, h: History<Email>, k: nat, j: nat, g1: nat, g2: nat, late: set<string>, w: Walk, diff: JmapDiff)
  {
    && k <= j <= g1 <= g2 < |h| && NoReuse(h) && HeadersFixed(h)
    && KnownAt(r, h, k, g2, late)
    && Covers(h, k, j, w.created, w.updated, w.destroyed)
    && diff.Incremental? && diff.vanishedIds == w.destroyed
    && Got(h, g1, w.created, diff.newEnvelopes)
    && GotFlags(h, g2, w.updated, diff.flagUpdates)
  }

  /** An id of the new replica existed at the state the checkpoint names, or is a late one. */
  lemma {:induction false} OnlyKnownIds(
    r: Replica, h: History<Email>, k: nat, j: nat, g1: nat, g2: nat, late: set<string>, w: Walk, diff: JmapDiff,
    id: string)
    requires LawfulIncrement(r, h, k, j, g1, g2, late, w, diff)
    requires id in ApplyDiff(r, diff)
    ensures id in h[j] || id in late
  {
    ApplyUpdatesKeys(r, diff.flagUpdates);
    if Announced(diff.newEnvelopes, id) {
      var e :| e in diff.newEnvelopes && e.id == id;
      assert id in w.created && id in h[g1];
      var p: nat :| p <= j && id in h[p];
      NeverReborn(h, p, j, g1, id);
    } else {
      ApplyNewAt(ApplyUpdates(r, diff.flagUpdates), diff.newEnvelopes, id, Stored({}, EMPTY_HEADER));
    }
  }

  /** A surviving email of the checkpoint's state is in the new replica, with its header, current if untouched. */
  lemma {:induction false} SurvivingEmail(
    r: Replica, h: History<Email>, k: nat, j: nat, g1: nat, g2: nat, late: set<string>, w: Walk, diff: JmapDiff,
    id: string)
    requires LawfulIncrement(r, h, k, j, g1, g2, late, w, diff)
    requires id in h[j] && id in h[g2]
    ensures id in ApplyDiff(r, diff) && ApplyDiff(r, diff)[id].header == h[g2][id].header
    ensures Stable(h, j, g2, id) ==> ApplyDiff(r, diff)[id] == Shown(h[g2][id])
  {
    NeverReborn(h, j, g1, g2, id);
    ApplyDiffAt(r, diff, id, FlagsOf(h[g2][id].keywords), Shown(h[g1][id]));
    if Stable(h, j, g2, id) {
      assert At(h, g1, id) == At(h, g2, id);
      if !Announced(diff.newEnvelopes, id) && !Updated(diff.flagUpdates, id) {
        assert id in h[k];
        StableChain(h, k, j, g2, id);
      }
    }
  }

  /** One incremental call, however many rounds it took, whatever happens meanwhile, moves the replica to state `j`. */
  lemma {:induction false} IncrementKeepsKnown(
    r: Replica, h: History<Email>, k: nat, j: nat, g1: nat, g2: nat, late: set<string>, w: Walk, diff: JmapDiff)
    requires LawfulIncrement(r, h, k, j, g1, g2, late, w, diff)
    ensures KnownAt(ApplyDiff(r, diff), h, j, g2, late - h[j].Keys)
  {
    var r' := ApplyDiff(r, diff);
    forall id | id in r' ensures id in h[j] || id in late - h[j].Keys {
      OnlyKnownIds(r, h, k, j, g1, g2, late, w, diff, id);
    }
    forall id | id in h[j] && id in h[g2] ensures id in r' && r'[id].header == h[g2][id].header {
      SurvivingEmail(r, h, k, j, g1, g2, late, w, diff, id);
    }
    forall id | id in h[g2] && Stable(h, j, g2, id) ensures id in r' && r'[id] == Shown(h[g2][id]) {
      assert At(h, j, id) == At(h, g2, id);
      SurvivingEmail(r, h, k, j, g1, g2, late, w, diff, id);
    }
  }

  /** Entries of the two buckets for one id agree when nothing touches it between the two fetches. */
  lemma {:induction false} OverlapsAgree(h: History<Email>, g1: nat, g2: nat, w: Walk, diff: JmapDiff, id: string)
    requires g1 <= g2 < |h| && diff.Incremental?
    requires Got(h, g1, w.created, diff.newEnvelopes) && GotFlags(h, g2, w.updated, diff.flagUpdates)
    requires id in h[g2] && Stable(h, g1, g2, id)
    ensures EnvelopesAgree(diff.newEnvelopes, id, Shown(h[g2][id]))
    ensures UpdatesAgree(diff.flagUpdates, id, Shown(h[g2][id]).flags)
  {
    assert At(h, g1, id) == At(h, g2, id);
  }

  // ----- conversations

  ghost predicate Answers(h: History<Email>, tokens: seq<string>, now: nat, c: Command, r: Reply)
    requires now < |h| == |tokens|
  {
    r.Failed? ||
    match c
    case EmailChanges(since) =>
      r.CannotCalculateChanges? || (r.Changed? && AnswersChanges(h, tokens, now, since, r.changes))
    case EmailGet(ids) =>
      r.Emails? && r.state == tokens[now] && AnswersGet(h, now, ids, false, r.rows)
    case _ => true
  }

  /** Request `i` is answered at state `times[i]`; time only moves forward. */
  ghost predicate Conversation(
    h: History<Email>, tokens: seq<string>, start: nat, sent: seq<Command>, replies: seq<Reply>, times: seq<nat>)
    requires |h| == |tokens|
  {
    && |times| == |sent|
    && (forall i | 0 <= i < |times| :: start <= times[i] < |h|)
    && (forall i, j | 0 <= i <= j < |times| :: times[i] <= times[j])
    && (forall i | 0 <= i < |times| :: Answers(h, tokens, times[i], sent[i], ReplyAt(replies, i)))
  }

  lemma {:induction false} ConversationTail(
    h: History<Email>, tokens: seq<string>, start: nat, sent: seq<Command>, replies: seq<Reply>, times: seq<nat>)
    requires |h| == |tokens| && Conversation(h, tokens, start, sent, replies, times) && sent != []
    ensures Conversation(h, tokens, times[0], sent[1..], Rest(replies), times[1..])
  {
    forall i | 0 <= i < |times[1..]| ensures
      && times[0] <= times[1..][i]
      && Answers(h, tokens, times[1..][i], sent[1..][i], ReplyAt(Rest(replies), i))
    {
      assert times[0] <= times[i + 1];
      assert ReplyAt(Rest(replies), i) == ReplyAt(replies, i + 1);
      assert Answers(h, tokens, times[i + 1], sent[i + 1], ReplyAt(replies, i + 1));
    }
  }

  /**
   Any split of the changes into rounds: the accumulated lists are one lawful answer from the cached
   state to the final cursor, which is the server's state at the last round.
   */
  lemma {:induction false} WalkCovers(
    h: History<Email>, tokens: seq<string>, start: nat, cursor: string, sent: seq<Command>, replies: seq<Reply>,
    times: seq<nat>, k: nat) returns (j: nat)
    requires Lawful(h, tokens) && Conversation(h, tokens, start, sent, replies, times)
    requires k < |h| && tokens[k] == cursor
    requires var w := WalkFrom(cursor, replies); w.ending.Complete? && w.sent <= sent
    ensures var w := WalkFrom(cursor, replies);
      && k <= j < |h| && tokens[j] == w.cursor
      && 0 < |w.sent| && j == times[|w.sent| - 1]
      && Covers(h, k, j, w.created, w.updated, w.destroyed)
      && Conversation(h, tokens, j, sent[|w.sent|..], w.rest, times[|w.sent|..])
    decreases |replies|
  {
    var w := WalkFrom(cursor, replies);
    var c := ReplyAt(replies, 0).changes;
    assert sent[0] == w.sent[0] == EmailChanges(cursor);
    assert Answers(h, tokens, times[0], sent[0], ReplyAt(replies, 0));
    var i: nat, m: nat :| i <= m <= times[0] && tokens[i] == cursor && tokens[m] == c.newState
      && Covers(h, i, m, c.created, c.updated, c.destroyed) && (if c.hasMore then i < m else m == times[0]);
    assert i == k;
    ConversationTail(h, tokens, start, sent, replies, times);
    if c.hasMore {
      var w' := WalkFrom(c.newState, replies[1..]);
      assert w.sent[1..] == w'.sent <= sent[1..];
      j := WalkCovers(h, tokens, times[0], c.newState, sent[1..], replies[1..], times[1..], m);
      RoundsCompose(h, k, m, j, c.created, c.updated, c.destroyed, w'.created, w'.updated, w'.destroyed);
      assert sent[1..][|w'.sent|..] == sent[|w.sent|..];
      assert times[1..][|w'.sent|..] == times[|w.sent|..];
    } else {
      j := m;
    }
  }

  /** Every round that announces more advances the cursor: at most one round per pending state, plus one. */
  lemma {:induction false} WalkTerminates(
    h: History<Email>, tokens: seq<string>, start: nat, cursor: string, sent: seq<Command>, replies: seq<Reply>,
    times: seq<nat>, k: nat)
    requires Lawful(h, tokens) && Conversation(h, tokens, start, sent, replies, times)
    requires k < |h| && tokens[k] == cursor
    requires WalkFrom(cursor, replies).sent <= sent
    ensures |WalkFrom(cursor, replies).sent| <= |h| - k
    decreases |replies|
  {
    var w := WalkFrom(cursor, replies);
    assert sent[0] == w.sent[0] == EmailChanges(cursor);
    assert Answers(h, tokens, times[0], sent[0], ReplyAt(replies, 0));
    if ReplyAt(replies, 0).Changed? && ReplyAt(replies, 0).changes.hasMore {
      var c := ReplyAt(replies, 0).changes;
      var i: nat, m: nat :| i <= m <= times[0] && tokens[i] == cursor && tokens[m] == c.newState && i < m
        && Covers(h, i, m, c.created, c.updated, c.destroyed);
      assert i == k;
      ConversationTail(h, tokens, start, sent, replies, times);
      assert w.sent[1..] == WalkFrom(c.newState, replies[1..]).sent <= sent[1..];
      WalkTerminates(h, tokens, times[0], c.newState, sent[1..], replies[1..], times[1..], m);
    }
  }

  lemma {:induction false} GotRows(h: History<Email>, g: nat, ids: seq<string>, rows: seq<EmailRow>)
    requires g < |h| && AnswersGet(h, g, ids, false, rows)
    ensures Got(h, g, ids, EnvelopesOf(rows)) && GotFlags(h, g, ids, FlagUpdatesOf(rows))
  {
    forall e | e in EnvelopesOf(rows)
      ensures e.id in ids && e.id in h[g] && Stored(e.flags, e.header) == Shown(h[g][e.id])
    {
      var i :| 0 <= i < |rows| && e == EnvelopeFrom(rows[i]);
      assert RowIsCurrent(h, g, ids, false, rows[i]);
    }
    forall u | u in FlagUpdatesOf(rows) ensures u.id in ids && u.id in h[g] && u.flags == FlagsOf(h[g][u.id].keywords) {
      var i :| 0 <= i < |rows| && u == FlagUpdate(EnvelopeFrom(rows[i]).id, EnvelopeFrom(rows[i]).flags);
      assert RowIsCurrent(h, g, ids, false, rows[i]);
    }
    forall id | id in ids && id in h[g]
      ensures Announced(EnvelopesOf(rows), id) && Updated(FlagUpdatesOf(rows), id)
    {
      var row :| row in rows && row.id == Some(id);
      var i :| 0 <= i < |rows| && rows[i] == row;
      assert EnvelopesOf(rows)[i] in EnvelopesOf(rows) && EnvelopesOf(rows)[i].id == id;
      assert FlagUpdatesOf(rows)[i] in FlagUpdatesOf(rows) && FlagUpdatesOf(rows)[i].id == id;
    }
  }

  /** `Get` at the head of a conversation: its rows are current at some state `g`. */
  lemma {:induction false} GetAnswers(
    h: History<Email>, tokens: seq<string>, start: nat, ids: seq<string>, sent: seq<Command>, replies: seq<Reply>,
    times: seq<nat>) returns (g: nat)
    requires |h| == |tokens| && start < |h| && Conversation(h, tokens, start, sent, replies, times)
    requires Get(ids, replies).0 <= sent && Get(ids, replies).2.Some?
    ensures start <= g < |h| && AnswersGet(h, g, ids, false, Get(ids, replies).2.value)
    ensures g == if ids == [] then start else times[0]
    ensures var n := |Get(ids, replies).0|;
      n <= |times| && Conversation(h, tokens, g, sent[n..], Get(ids, replies).1, times[n..])
  {
    if ids == [] {
      g := start;
      assert sent[0..] == sent && times[0..] == times;
    } else {
      assert sent[0] == EmailGet(ids);
      assert Answers(h, tokens, times[0], sent[0], ReplyAt(replies, 0));
      g := times[0];
      ConversationTail(h, tokens, start, sent, replies, times);
    }
  }

  // ----- whole runs

  /** `late` holds the ids that the last listing saw but its checkpoint did not, until a checkpoint does. */
  datatype World = World(now: nat, replica: Replica, state: Option<string>, late: set<string>)

  ghost predicate Inv(h: History<Email>, tokens: seq<string>, w: World)
    requires |h| == |tokens|
  {
    && w.now < |h|
    && (w.state.Some? ==>
          exists k: nat :: k <= w.now && tokens[k] == w.state.value && KnownAt(w.replica, h, k, w.now, w.late))
  }

  /** The ids that came into being between the two states and are still there. */
  function Births(h: History<Email>, i: nat, j: nat): set<string>
    requires i <= j < |h|
  {
    h[j].Keys - h[i].Keys
  }

  /** One call and what the caller does with it: after a full-list answer it lists the account at state `listed`. */
  ghost predicate Synced(
    h: History<Email>, tokens: seq<string>, w: World, replies: seq<Reply>, times: seq<nat>, listed: nat, w': World)
    requires |h| == |tokens|
  {
    var out := Diff(w.state, replies);
    && Conversation(h, tokens, w.now, out.sent, replies, times)
    && (times != [] ==> times[|times| - 1] <= listed)
    && w.now <= listed <= w'.now < |h|
    && match out.result
       case Err(_) => w' == w.(now := w'.now)
       case Ok(FullListRequired(newState)) =>
         && Mirrors(w'.replica, h[listed]) && w'.state == newState
         && w'.late == if times == [] then {} else Births(h, times[|times| - 1], listed)
       case Ok(Incremental(state, _, _, _)) =>
         && w'.replica == ApplyDiff(w.replica, out.result.value) && w'.state == Some(state)
         && exists j: nat :: j < |h| && tokens[j] == state && w'.late == w.late - h[j].Keys
  }

  ghost predicate WorldStep(h: History<Email>, tokens: seq<string>, w: World, w': World)
    requires |h| == |tokens|
  {
    || (w.now <= w'.now < |h| && w' == w.(now := w'.now))
    || exists replies, times, listed :: Synced(h, tokens, w, replies, times, listed, w')
  }

  lemma {:induction false} TimePasses(h: History<Email>, tokens: seq<string>, w: World, later: nat)
    requires Lawful(h, tokens) && Inv(h, tokens, w) && w.now <= later < |h|
    ensures Inv(h, tokens, w.(now := later))
  {
    if w.state.Some? {
      var k: nat :| k <= w.now && tokens[k] == w.state.value && KnownAt(w.replica, h, k, w.now, w.late);
      KnownSurvives(w.replica, h, k, w.now, later, w.late);
    }
  }

  /** A listing is known at an earlier state, but for late ids, exactly when those include all created in between. */
  lemma {:induction false} ListingKnownIff(r: Replica, h: History<Email>, b: nat, listed: nat, late: set<string>)
    requires NoReuse(h) && HeadersFixed(h) && b <= listed < |h| && Mirrors(r, h[listed])
    ensures KnownAt(r, h, b, listed, late) <==> Births(h, b, listed) <= late
  {
  }

  /** The two `Email/get`s that follow a complete walk ending at state `j`. */
  lemma {:induction false} FetchAnswers(
    h: History<Email>, tokens: seq<string>, j: nat, walk: Walk, sent: seq<Command>, times: seq<nat>)
    returns (g1: nat, g2: nat)
    requires |h| == |tokens| && j < |h| && Conversation(h, tokens, j, sent, walk.rest, times)
    requires walk.sent + sent == Fetch(walk).sent && Fetch(walk).result.Ok?
    ensures j <= g1 <= g2 < |h| && g2 == if times == [] then j else times[|times| - 1]
    ensures var diff := Fetch(walk).result.value;
      && diff.Incremental? && diff.checkpoint == walk.cursor && diff.vanishedIds == walk.destroyed
      && Got(h, g1, walk.created, diff.newEnvelopes) && GotFlags(h, g2, walk.updated, diff.flagUpdates)
  {
    var (sent1, rest1, rows1) := Get(walk.created, walk.rest);
    var (sent2, rest2, rows2) := Get(walk.updated, rest1);
    FetchSends(walk);
    assert sent == Fetch(walk).sent[|walk.sent|..] == sent1 + sent2;
    g1 := GetAnswers(h, tokens, j, walk.created, sent, walk.rest, times);
    GotRows(h, g1, walk.created, rows1.value);
    var n := |sent1|;
    assert sent[n..] == sent2;
    g2 := GetAnswers(h, tokens, g1, walk.updated, sent[n..], rest1, times[n..]);
    GotRows(h, g2, walk.updated, rows2.value);
  }

  /** The states behind an incremental result. */
  lemma {:induction false} IncrementOf(
    h: History<Email>, tokens: seq<string>, w: World, replies: seq<Reply>, times: seq<nat>)
    returns (j: nat, g2: nat)
    requires Lawful(h, tokens) && Inv(h, tokens, w)
    requires var out := Diff(w.state, replies);
      && Conversation(h, tokens, w.now, out.sent, replies, times)
      && out.result.Ok? && out.result.value.Incremental?
    ensures w.now <= j <= g2 < |h| && times != [] && g2 == times[|times| - 1] && j in times
    ensures tokens[j] == Diff(w.state, replies).result.value.checkpoint
    ensures KnownAt(ApplyDiff(w.replica, Diff(w.state, replies).result.value), h, j, g2, w.late - h[j].Keys)
  {
    var walk := WalkFrom(w.state.value, replies);
    var out := Fetch(walk);
    assert Diff(w.state, replies) == out;
    var k: nat :| k <= w.now && tokens[k] == w.state.value && KnownAt(w.replica, h, k, w.now, w.late);
    var g1;
    j, g1, g2 := IncrementTimes(h, tokens, w.now, w.state.value, replies, times, k);
    KnownSurvives(w.replica, h, k, w.now, g2, w.late);
    IncrementKeepsKnown(w.replica, h, k, j, g1, g2, w.late, walk, out.result.value);
  }

  /** When the last round and the two `Email/get`s were answered, and what they said. */
  lemma {:induction false} IncrementTimes(
    h: History<Email>, tokens: seq<string>, now: nat, cursor: string, replies: seq<Reply>, times: seq<nat>, k: nat)
    returns (j: nat, g1: nat, g2: nat)
    requires Lawful(h, tokens) && k <= now < |h| && tokens[k] == cursor
    requires var walk := WalkFrom(cursor, replies);
      && walk.ending.Complete? && Fetch(walk).result.Ok?
      && Conversation(h, tokens, now, Fetch(walk).sent, replies, times)
    ensures now <= j <= g1 <= g2 < |h| && times != [] && g2 == times[|times| - 1] && j in times
    ensures var walk := WalkFrom(cursor, replies);
      var diff := Fetch(walk).result.value;
      && tokens[j] == walk.cursor && Covers(h, k, j, walk.created, walk.updated, walk.destroyed)
      && diff.Incremental? && diff.checkpoint == walk.cursor && diff.vanishedIds == walk.destroyed
      && Got(h, g1, walk.created, diff.newEnvelopes) && GotFlags(h, g2, walk.updated, diff.flagUpdates)
  {
    var walk := WalkFrom(cursor, replies);
    var sent := Fetch(walk).sent;
    var n := |walk.sent|;
    FetchSends(walk);
    SplitAt(walk.sent, sent);
    j := WalkCovers(h, tokens, now, cursor, sent, replies, times, k);
    g1, g2 := FetchAnswers(h, tokens, j, walk, sent[n..], times[n..]);
    LastOfTail(times, n, j, g2);
  }

  lemma {:induction false} SplitAt<T>(a: seq<T>, s: seq<T>)
    requires exists b :: s == a + b
    ensures a <= s && a + s[|a|..] == s
  {
  }

  lemma {:induction false} LastOfTail(times: seq<nat>, n: nat, j: nat, last: nat)
    requires 0 < n <= |times| && times[n - 1] == j
    requires last == if times[n..] == [] then j else times[n..][|times[n..]| - 1]
    ensures last == times[|times| - 1] && j in times
  {
  }

  /** After a complete walk only the two `Email/get`s are sent. */
  lemma {:induction false} FetchSends(walk: Walk)
    requires Fetch(walk).result.Ok?
    ensures var (sent, rest, _) := Get(walk.created, walk.rest);
      Fetch(walk).sent == walk.sent + (sent + Get(walk.updated, rest).0)
  {
  }

  lemma {:induction false} FullListKeepsInv(
    h: History<Email>, tokens: seq<string>, w: World, replies: seq<Reply>, times: seq<nat>, listed: nat, w': World)
    requires Lawful(h, tokens) && Synced(h, tokens, w, replies, times, listed, w')
    requires Diff(w.state, replies).result.Ok? && Diff(w.state, replies).result.value.FullListRequired?
    ensures Inv(h, tokens, w'.(now := listed))
  {
    var out := Diff(w.state, replies);
    var last := |out.sent| - 1;
    BaselineReply(w.state, replies);
    assert Answers(h, tokens, times[last], out.sent[last], ReplyAt(replies, last));
    ListingKnownIff(w'.replica, h, times[last], listed, w'.late);
  }

  /** A full-list answer ends with an empty `Email/get` whose state is the new checkpoint. */
  lemma {:induction false} BaselineReply(state: Option<string>, replies: seq<Reply>)
    requires Diff(state, replies).result.Ok? && Diff(state, replies).result.value.FullListRequired?
    ensures var out := Diff(state, replies);
      && out.sent != [] && out.sent[|out.sent| - 1] == EmailGet([])
      && ReplyAt(replies, |out.sent| - 1).Emails?
      && out.result.value.newState == Some(ReplyAt(replies, |out.sent| - 1).state)
  {
    if state.Some? {
      WalkRest(state.value, replies);
    }
  }

  lemma {:induction false} WalkRest(cursor: string, replies: seq<Reply>)
    requires !WalkFrom(cursor, replies).ending.Broken?
    ensures var w := WalkFrom(cursor, replies);
      |w.sent| <= |replies| && w.rest == replies[|w.sent|..]
    decreases |replies|
  {
    if ReplyAt(replies, 0).Changed? && ReplyAt(replies, 0).changes.hasMore {
      WalkRest(ReplyAt(replies, 0).changes.newState, replies[1..]);
    }
  }

  lemma {:induction false} LateAfter(
    h: History<Email>, tokens: seq<string>, w: World, replies: seq<Reply>, times: seq<nat>, listed: nat, w': World,
    j: nat)
    requires Lawful(h, tokens) && Synced(h, tokens, w, replies, times, listed, w')
    requires var out := Diff(w.state, replies); out.result.Ok? && out.result.value.Incremental?
    requires j < |h| && tokens[j] == Diff(w.state, replies).result.value.checkpoint
    ensures w'.late == w.late - h[j].Keys
  {
  }

  /** One call keeps the invariant. */
  lemma {:induction false} SyncKeepsInv(
    h: History<Email>, tokens: seq<string>, w: World, replies: seq<Reply>, times: seq<nat>, listed: nat, w': World)
    requires Lawful(h, tokens) && Inv(h, tokens, w) && Synced(h, tokens, w, replies, times, listed, w')
    ensures Inv(h, tokens, w')
  {
    match Diff(w.state, replies).result {
      case Err(_) =>
        TimePasses(h, tokens, w, w'.now);
      case Ok(FullListRequired(_)) =>
        FullListKeepsInv(h, tokens, w, replies, times, listed, w');
        TimePasses(h, tokens, w'.(now := listed), w'.now);
      case Ok(Incremental(_, _, _, _)) =>
        var j, g2 := IncrementOf(h, tokens, w, replies, times);
        LateAfter(h, tokens, w, replies, times, listed, w', j);
        KnownSurvives(w'.replica, h, j, g2, w'.now, w'.late);
    }
  }

  ghost predicate IsRun(h: History<Email>, tokens: seq<string>, worlds: seq<World>)
    requires |h| == |tokens| && worlds != []
    decreases |worlds|
  {
    var n := |worlds| - 1;
    n == 0 || (IsRun(h, tokens, worlds[..n]) && WorldStep(h, tokens, worlds[n - 1], worlds[n]))
  }

  /** The invariant holds along every run. */
  lemma {:induction false} RunKeepsInv(h: History<Email>, tokens: seq<string>, worlds: seq<World>)
    requires Lawful(h, tokens) && worlds != [] && IsRun(h, tokens, worlds) && Inv(h, tokens, worlds[0])
    ensures Inv(h, tokens, worlds[|worlds| - 1])
    decreases |worlds|
  {
    var n := |worlds| - 1;
    if n > 0 {
      RunKeepsInv(h, tokens, worlds[..n]);
      StepKeepsInv(h, tokens, worlds[n - 1], worlds[n]);
    }
  }

  lemma {:induction false} StepKeepsInv(h: History<Email>, tokens: seq<string>, w: World, w': World)
    requires Lawful(h, tokens) && Inv(h, tokens, w) && WorldStep(h, tokens, w, w')
    ensures Inv(h, tokens, w')
  {
    if w.now <= w'.now < |h| && w' == w.(now := w'.now) {
      TimePasses(h, tokens, w, w'.now);
    } else {
      var replies, times, listed :| Synced(h, tokens, w, replies, times, listed, w');
      SyncKeepsInv(h, tokens, w, replies, times, listed, w');
    }
  }

  /** A successful call during which the account does not change. */
  ghost predicate QuietCall(
    h: History<Email>, tokens: seq<string>, w: World, replies: seq<Reply>, times: seq<nat>, w': World)
    requires |h| == |tokens|
  {
    && Synced(h, tokens, w, replies, times, w.now, w') && w'.now == w.now
    && (forall k | 0 <= k < |times| :: times[k] == w.now)
    && Diff(w.state, replies).result.Ok?
  }

  /**
   Replica correctness: after any run that starts without a checkpoint, a quiet call leaves the replica
   equal to the account, but possibly for late ids, all of them gone from the account.
   */
  lemma {:induction false} QuietSyncMirrors(
    h: History<Email>, tokens: seq<string>, worlds: seq<World>, replies: seq<Reply>, times: seq<nat>, w': World)
    requires Lawful(h, tokens) && worlds != [] && IsRun(h, tokens, worlds)
    requires worlds[0].now < |h| && worlds[0].state.None?
    requires QuietCall(h, tokens, worlds[|worlds| - 1], replies, times, w')
    ensures MirrorsExcept(w'.replica, h[w'.now], w'.late) && w'.late !! h[w'.now].Keys
  {
    RunKeepsInv(h, tokens, worlds);
    QuietCallMirrors(h, tokens, worlds[|worlds| - 1], replies, times, w');
  }

  lemma {:induction false} QuietCallMirrors(
    h: History<Email>, tokens: seq<string>, w: World, replies: seq<Reply>, times: seq<nat>, w': World)
    requires Lawful(h, tokens) && Inv(h, tokens, w) && QuietCall(h, tokens, w, replies, times, w')
    ensures MirrorsExcept(w'.replica, h[w'.now], w'.late) && w'.late !! h[w'.now].Keys
  {
    if Diff(w.state, replies).result.value.Incremental? {
      var j, g2 := IncrementOf(h, tokens, w, replies, times);
      assert j == g2 == w.now;
      LateAfter(h, tokens, w, replies, times, w.now, w', j);
      KnownNowIsMirror(w'.replica, h, w.now, w'.late);
    } else {
      BaselineReply(w.state, replies);
      assert times != [];
    }
  }

  // ----- listing late

  /** The account's next state: `id` is destroyed, if it is there. */
  ghost function Destroying(h: History<Email>, id: string): History<Email>
    requires |h| > 0
  {
    h + [h[|h| - 1] - {id}]
  }

  lemma {:induction false} DestroyingLawful(h: History<Email>, tokens: seq<string>, id: string)
    requires Lawful(h, tokens)
    ensures Lawful(Destroying(h, id), tokens + [LongerThan(tokens)])
  {
    var h': History<Email> := Destroying(h, id);
    forall i, j, k, x | 0 <= i <= j <= k < |h'| && x in h'[i] && x !in h'[j] ensures x !in h'[k] {
      if k == |h| && j < |h| {
        assert x !in h[|h| - 1];
      }
    }
    forall i: nat, j: nat, x: string | i <= j < |h'| && x in h'[i] && x in h'[j]
      ensures h'[i][x].header == h'[j][x].header
    {
      var j' := if j == |h| then |h| - 1 else j;
      var i' := if i == |h| then |h| - 1 else i;
      assert h[i'][x].header == h[j'][x].header;
    }
  }

  /** The shortest answer: it does not name a record created and destroyed in between. */
  ghost function Shortest(h: History<Email>, i: nat, j: nat, token: string): Changes
    requires i <= j < |h|
  {
    var was, now := h[i].Keys, h[j].Keys;
    Changes(Listed(now - was), Listed(now * was), Listed(was - now), token, false)
  }

  lemma {:induction false} ShortestCovers(h: History<Email>, i: nat, j: nat, token: string)
    requires i <= j < |h|
    ensures var c := Shortest(h, i, j, token); Covers(h, i, j, c.created, c.updated, c.destroyed)
  {
    var c := Shortest(h, i, j, token);
    forall x | x in c.created || x in c.updated || x in c.destroyed ensures ExistedBy(h, j, x) {
      if x in h[j] {
        assert x in h[j];
      } else {
        assert x in h[i];
      }
    }
  }

  function RowsOf(account: map<string, Email>, ids: seq<string>): seq<EmailRow>
    requires forall id | id in ids :: id in account
  {
    seq(|ids|, i requires 0 <= i < |ids| =>
      var e := account[ids[i]]; EmailRow(Some(ids[i]), Some(e.keywords), Some(e.mailboxIds), e.header))
  }

  lemma {:induction false} RowsOfAnswer(h: History<Email>, now: nat, ids: seq<string>)
    requires now < |h| && forall id | id in ids :: id in h[now]
    ensures AnswersGet(h, now, ids, false, RowsOf(h[now], ids))
  {
    var rows := RowsOf(h[now], ids);
    forall row | row in rows ensures RowIsCurrent(h, now, ids, false, row) {
      var i :| 0 <= i < |rows| && rows[i] == row;
      assert ids[i] in ids;
    }
    forall id | id in ids && id in h[now] ensures exists row :: row in rows && row.id == Some(id) {
      var i :| 0 <= i < |ids| && ids[i] == id;
      assert rows[i] in rows && rows[i].id == Some(id);
    }
  }

  /** The one answer to an `Email/get` that is not skipped. */
  function GetReply(account: map<string, Email>, ids: seq<string>, token: string): seq<Reply>
    requires forall id | id in ids :: id in account
  {
    if ids == [] then [] else [Emails(RowsOf(account, ids), token)]
  }

  lemma {:induction false} GetTakes(account: map<string, Email>, ids: seq<string>, token: string, rest: seq<Reply>)
    requires forall id | id in ids :: id in account
    ensures Get(ids, GetReply(account, ids, token) + rest) == (GetSent(ids), rest, Some(RowsOf(account, ids)))
  {
    var replies := GetReply(account, ids, token) + rest;
    if ids == [] {
      assert replies == rest && RowsOf(account, ids) == [];
    } else {
      assert replies[0] == Emails(RowsOf(account, ids), token) && replies[1..] == rest;
    }
  }

  function GetSent(ids: seq<string>): seq<Command> {
    if ids == [] then [] else [EmailGet(ids)]
  }

  /** The answers given in state `now`, one per request. */
  ghost predicate Answered(h: History<Email>, tokens: seq<string>, now: nat, sent: seq<Command>, replies: seq<Reply>)
    requires now < |h| == |tokens|
  {
    |sent| == |replies| && forall i | 0 <= i < |sent| :: Answers(h, tokens, now, sent[i], replies[i])
  }

  lemma {:induction false} AnsweredConversation(
    h: History<Email>, tokens: seq<string>, now: nat, sent: seq<Command>, replies: seq<Reply>)
    returns (times: seq<nat>)
    requires now < |h| == |tokens| && Answered(h, tokens, now, sent, replies)
    ensures Conversation(h, tokens, now, sent, replies, times) && forall k | 0 <= k < |times| :: times[k] == now
  {
    times := seq(|sent|, i => now);
    forall i | 0 <= i < |sent| ensures Answers(h, tokens, times[i], sent[i], ReplyAt(replies, i)) {
      assert ReplyAt(replies, i) == replies[i];
    }
  }

  lemma {:induction false} GetAnswered(h: History<Email>, tokens: seq<string>, now: nat, ids: seq<string>)
    requires now < |h| == |tokens| && forall id | id in ids :: id in h[now]
    ensures Answered(h, tokens, now, GetSent(ids), GetReply(h[now], ids, tokens[now]))
  {
    RowsOfAnswer(h, now, ids);
  }

  lemma {:induction false} AnsweredConcat(
    h: History<Email>, tokens: seq<string>, now: nat,
    sent1: seq<Command>, replies1: seq<Reply>, sent2: seq<Command>, replies2: seq<Reply>)
    requires now < |h| == |tokens|
    requires Answered(h, tokens, now, sent1, replies1) && Answered(h, tokens, now, sent2, replies2)
    ensures Answered(h, tokens, now, sent1 + sent2, replies1 + replies2)
  {
  }

  /** The answers to a quiet call that the server answers with `Shortest`. */
  ghost function ShortestReplies(h: History<Email>, k: nat, now: nat, token: string): seq<Reply>
    requires k <= now < |h|
  {
    var c := Shortest(h, k, now, token);
    [Changed(c)] + (GetReply(h[now], c.created, token) + GetReply(h[now], c.updated, token))
  }

  lemma {:induction false} ShortestDiff(h: History<Email>, k: nat, now: nat, since: string, token: string)
    requires k <= now < |h|
    ensures var c, out := Shortest(h, k, now, token), Diff(Some(since), ShortestReplies(h, k, now, token));
      && out.sent == [EmailChanges(since)] + (GetSent(c.created) + GetSent(c.updated))
      && out.result.Ok? && out.result.value.Incremental?
      && out.result.value.checkpoint == token && out.result.value.vanishedIds == c.destroyed
  {
    var c, replies := Shortest(h, k, now, token), ShortestReplies(h, k, now, token);
    var got1, got2 := GetReply(h[now], c.created, token), GetReply(h[now], c.updated, token);
    assert replies[1..] == got1 + got2;
    var walk := WalkFrom(since, replies);
    assert walk == Walk([EmailChanges(since)], got1 + got2, Complete, c.created, c.updated, c.destroyed, token);
    GetTakes(h[now], c.created, token, got2);
    assert got2 + [] == got2;
    GetTakes(h[now], c.updated, token, []);
    FetchSends(walk);
  }

  lemma {:induction false} ShortestAnswered(h: History<Email>, tokens: seq<string>, k: nat, now: nat)
    requires |h| == |tokens| && k <= now < |h|
    ensures var c := Shortest(h, k, now, tokens[now]);
      Answered(h, tokens, now, [EmailChanges(tokens[k])] + (GetSent(c.created) + GetSent(c.updated)),
               ShortestReplies(h, k, now, tokens[now]))
  {
    var c := Shortest(h, k, now, tokens[now]);
    ShortestCovers(h, k, now, tokens[now]);
    assert AnswersChanges(h, tokens, now, tokens[k], c);
    GetAnswered(h, tokens, now, c.created);
    GetAnswered(h, tokens, now, c.updated);
    var got1, got2 := GetReply(h[now], c.created, tokens[now]), GetReply(h[now], c.updated, tokens[now]);
    AnsweredConcat(h, tokens, now, GetSent(c.created), got1, GetSent(c.updated), got2);
    AnsweredConcat(h, tokens, now, [EmailChanges(tokens[k])], [Changed(c)],
                   GetSent(c.created) + GetSent(c.updated), got1 + got2);
  }

  /** A quiet call that the server answers with `Shortest`. */
  lemma {:induction false} ShortestCall(h: History<Email>, tokens: seq<string>, w: World, k: nat)
    returns (replies: seq<Reply>, times: seq<nat>, w': World)
    requires Lawful(h, tokens) && k <= w.now < |h| && w.state == Some(tokens[k])
    ensures QuietCall(h, tokens, w, replies, times, w')
    ensures Diff(w.state, replies).result.value.Incremental?
    ensures w'.replica == ApplyDiff(w.replica, Diff(w.state, replies).result.value)
    ensures Diff(w.state, replies).result.value.vanishedIds == Shortest(h, k, w.now, tokens[w.now]).destroyed
  {
    replies := ShortestReplies(h, k, w.now, tokens[w.now]);
    var out := Diff(w.state, replies);
    ShortestDiff(h, k, w.now, tokens[k], tokens[w.now]);
    ShortestAnswered(h, tokens, k, w.now);
    times := AnsweredConversation(h, tokens, w.now, out.sent, replies);
    w' := World(w.now, ApplyDiff(w.replica, out.result.value), Some(tokens[w.now]), w.late - h[w.now].Keys);
  }

  /** Whatever becomes of the account after `h`, whenever it is asked again, a quiet call leaves the replica right. */
  ghost predicate MirrorsFromNowOn(h: History<Email>, tokens: seq<string>, k: nat, r: Replica)
    requires |h| == |tokens| && k < |h|
  {
    forall h', tokens', now, replies, times, w' | FollowUp(h, tokens, k, r, h', tokens', now, replies, times, w') ::
      Mirrors(w'.replica, h'[now])
  }

  /** A quiet call in a later state of an account with this past. */
  ghost predicate FollowUp(
    h: History<Email>, tokens: seq<string>, k: nat, r: Replica,
    h': History<Email>, tokens': seq<string>, now: nat, replies: seq<Reply>, times: seq<nat>, w': World)
    requires |h| == |tokens| && k < |h|
  {
    && Lawful(h', tokens') && h <= h' && tokens <= tokens'
    && |h| - 1 <= now < |h'|
    && QuietCall(h', tokens', World(now, r, Some(tokens[k]), {}), replies, times, w')
  }

  lemma {:induction false} SamePastKnown(h: History<Email>, h': History<Email>, k: nat, r: Replica)
    requires h <= h' && k < |h| && KnownAt(r, h, k, |h| - 1, {})
    ensures KnownAt(r, h', k, |h| - 1, {})
  {
    var last := |h| - 1;
    forall id | id in h'[last] && Stable(h', k, last, id) ensures id in r && r[id] == Shown(h'[last][id]) {
      assert forall p: nat | k <= p <= last :: At(h, p, id) == At(h', p, id);
      assert Stable(h, k, last, id);
    }
  }

  lemma {:induction false} KnownStaysRight(h: History<Email>, tokens: seq<string>, k: nat, r: Replica)
    requires Lawful(h, tokens) && k < |h| && KnownAt(r, h, k, |h| - 1, {})
    ensures MirrorsFromNowOn(h, tokens, k, r)
  {
    forall h', tokens', now, replies, times, w' | FollowUp(h, tokens, k, r, h', tokens', now, replies, times, w')
      ensures Mirrors(w'.replica, h'[now])
    {
      var last := |h| - 1;
      SamePastKnown(h, h', k, r);
      KnownSurvives(r, h', k, last, now, {});
      assert Inv(h', tokens', World(now, r, Some(tokens[k]), {}));
      QuietCallMirrors(h', tokens', World(now, r, Some(tokens[k]), {}), replies, times, w');
      if w'.late != {} {
        var id :| id in w'.late;
      }
    }
  }

  /**
   An id of the replica that the checkpoint does not know is a ghost waiting to happen: if it is
   destroyed before the next call, the server need not name it, and the replica keeps it for good.
   */
  lemma {:induction false} LateListingKeepsGhost(
    h: History<Email>, tokens: seq<string>, k: nat, r: Replica, id: string)
    returns (replies: seq<Reply>, times: seq<nat>, w': World)
    requires Lawful(h, tokens) && k < |h| && id in r && id !in h[k]
    ensures FollowUp(h, tokens, k, r, Destroying(h, id), tokens + [LongerThan(tokens)], |h|, replies, times, w')
    ensures id in w'.replica && id !in Destroying(h, id)[|h|]
  {
    var h', tokens' := Destroying(h, id), tokens + [LongerThan(tokens)];
    DestroyingLawful(h, tokens, id);
    var w := World(|h|, r, Some(tokens[k]), {});
    replies, times, w' := ShortestCall(h', tokens', w, k);
    var diff := Diff(w.state, replies).result.value;
    ApplyUpdatesKeys(r, diff.flagUpdates);
    NewKeepsIds(ApplyUpdates(r, diff.flagUpdates), diff.newEnvelopes);
  }

  /** A replica stays right exactly when its checkpoint knows every id it holds. */
  lemma {:induction false} MirrorsFromNowOnIff(
    h: History<Email>, tokens: seq<string>, k: nat, r: Replica, late: set<string>)
    requires Lawful(h, tokens) && k < |h| && KnownAt(r, h, k, |h| - 1, late)
    ensures MirrorsFromNowOn(h, tokens, k, r) <==> r.Keys <= h[k].Keys
  {
    if r.Keys <= h[k].Keys {
      KnownStaysRight(h, tokens, k, r);
    } else {
      var id :| id in r && id !in h[k];
      var replies, times, w' := LateListingKeepsGhost(h, tokens, k, r, id);
    }
  }

  /**
   When a caller may list after taking the checkpoint: every quiet call from then on, whatever becomes of
   the account, leaves the replica equal to it exactly when no email came into being in between.
   */
  lemma {:induction false} ListingMirrorsIff(h: History<Email>, tokens: seq<string>, b: nat, r: Replica)
    requires Lawful(h, tokens) && b < |h| && Mirrors(r, h[|h| - 1])
    ensures MirrorsFromNowOn(h, tokens, b, r) <==> Births(h, b, |h| - 1) == {}
  {
    ListingKnownIff(r, h, b, |h| - 1, Births(h, b, |h| - 1));
    MirrorsFromNowOnIff(h, tokens, b, r, Births(h, b, |h| - 1));
    ListingKnowsIff(h, b, r);
  }

  lemma {:induction false} ListingKnowsIff(h: History<Email>, b: nat, r: Replica)
    requires b < |h| && r.Keys == h[|h| - 1].Keys
    ensures r.Keys <= h[b].Keys <==> Births(h, b, |h| - 1) == {}
  {
    SubsetIffNoDifference(r.Keys, h[b].Keys);
  }

  lemma {:induction false} SubsetIffNoDifference(a: set<string>, b: set<string>)
    ensures a <= b <==> a - b == {}
  {
    if a - b == {} {
      forall x | x in a ensures x in b {
        assert x !in a - b;
      }
    }
  }

  lemma {:induction false} NewKeepsIds(r: Replica, envelopes: seq<Envelope>)
    ensures r.Keys <= ApplyNew(r, envelopes).Keys
    decreases envelopes
  {
    if envelopes != [] {
      var e := envelopes[0];
      NewKeepsIds(r[e.id := Stored(e.flags, e.header)], envelopes[1..]);
    }
  }

  // ----- the set of mailboxes

  /**
   `Unchanged` is only said when it is so: no mailbox differs between the checkpoint's state and the
   server's, whose token is the new checkpoint; and no mailbox that exists now was touched in between.
   */
  lemma {:induction false} UnchangedMailboxesAreUnchanged<V(!new)>(
    h: History<V>, tokens: seq<string>, now: nat, k: nat, replies: seq<Reply>)
    requires now < |h| == |tokens| && Distinct(tokens) && k < |h|
    requires var r := ReplyAt(replies, 0); r.Changed? ==> AnswersChanges(h, tokens, now, tokens[k], r.changes)
    requires var result := MailboxSetDiff(Some(tokens[k]), replies).result;
      result.Ok? && result.value.MailboxesUnchanged?
    ensures k <= now && h[k] == h[now]
    ensures MailboxSetDiff(Some(tokens[k]), replies).result.value.checkpoint == tokens[now]
    ensures forall id | id in h[now] :: Stable(h, k, now, id)
  {
    var c := ReplyAt(replies, 0).changes;
    var i: nat, j: nat :| i <= j <= now && tokens[i] == tokens[k] && tokens[j] == c.newState
      && Covers(h, i, j, c.created, c.updated, c.destroyed) && (if c.hasMore then i < j else j == now);
    assert i == k && j == now;
    forall id | id in h[now] ensures id in h[k] && Stable(h, k, now, id) && h[k][id] == h[now][id] {
      assert id in h[k] && Stable(h, k, now, id);
      assert At(h, k, id) == At(h, now, id);
    }
  }

  /** A state bump alone is reported as `Unchanged`; any listed id, or a truncated answer, as `Changed`. */
  lemma {:induction false} MailboxDiffIffIdle(since: string, replies: seq<Reply>)
    requires ReplyAt(replies, 0).Changed?
    ensures var c := ReplyAt(replies, 0).changes;
      MailboxSetDiff(Some(since), replies).result.value.MailboxesUnchanged? <==>
        !c.hasMore && forall id :: id !in c.created && id !in c.updated && id !in c.destroyed
  {
    var c := ReplyAt(replies, 0).changes;
    assert c.created != [] ==> c.created[0] in c.created;
    assert c.updated != [] ==> c.updated[0] in c.updated;
    assert c.destroyed != [] ==> c.destroyed[0] in c.destroyed;
  }
}
