/** When a JMAP synchronisation succeeds, with what kind of result, and with which token. */
module JmapOutcomes {
  import opened Wrappers
  import opened Envelopes
  import opened JmapServer
  import opened JmapClient
  import opened JmapSync

  predicate Truncated(r: Reply) {
    r.Changed? && r.changes.hasMore
  }

  predicate Final(r: Reply) {
    r.Changed? && !r.changes.hasMore
  }

  /** How many truncated rounds come first. */
  function Rounds(replies: seq<Reply>): (n: nat)
    ensures n <= |replies|
    ensures forall i | 0 <= i < n :: Truncated(replies[i])
    ensures n < |replies| ==> !Truncated(replies[n])
  {
    if replies != [] && Truncated(replies[0]) then 1 + Rounds(replies[1..]) else 0
  }

  /** One changes request per round, each from where the last one ended. */
  ghost predicate AsksRounds(sent: seq<Command>, cursor: string, replies: seq<Reply>, n: nat)
    requires n <= |replies|
  {
    && |sent| == n + 1 && sent[0] == EmailChanges(cursor)
    && forall i | 0 <= i < n :: Truncated(replies[i]) && sent[i + 1] == EmailChanges(replies[i].changes.newState)
  }

  /** Some round up to the `n`th names a created id. */
  ghost predicate NamesCreated(replies: seq<Reply>, n: nat) {
    exists i | 0 <= i <= n && i < |replies| :: replies[i].Changed? && replies[i].changes.created != []
  }

  ghost predicate NamesUpdated(replies: seq<Reply>, n: nat) {
    exists i | 0 <= i <= n && i < |replies| :: replies[i].Changed? && replies[i].changes.updated != []
  }

  lemma {:induction false} WalkIs(cursor: string, replies: seq<Reply>)
    ensures var n, w := Rounds(replies), WalkFrom(cursor, replies);
      && AsksRounds(w.sent, cursor, replies, n)
      && w.rest == (if n < |replies| then replies[n + 1..] else [])
      && (w.ending.Complete? <==> Final(ReplyAt(replies, n)))
      && (w.ending.Invalidated? <==> ReplyAt(replies, n).CannotCalculateChanges?)
      && (w.ending.Complete? ==> w.cursor == replies[n].changes.newState)
    decreases |replies|
  {
    if replies != [] && Truncated(replies[0]) {
      WalkIs(replies[0].changes.newState, replies[1..]);
    }
  }

  lemma {:induction false} WalkLists(cursor: string, replies: seq<Reply>)
    requires WalkFrom(cursor, replies).ending.Complete?
    ensures var n, w := Rounds(replies), WalkFrom(cursor, replies);
      (w.created != [] <==> NamesCreated(replies, n)) && (w.updated != [] <==> NamesUpdated(replies, n))
    decreases |replies|
  {
    var n := Rounds(replies);
    if Truncated(replies[0]) {
      var rest := replies[1..];
      var w := WalkFrom(replies[0].changes.newState, rest);
      WalkLists(replies[0].changes.newState, rest);
      FirstOrLater(replies, n);
    }
  }

  lemma {:induction false} FirstOrLater(replies: seq<Reply>, n: nat)
    requires 0 < n && replies != [] && replies[0].Changed?
    ensures NamesCreated(replies, n) <==> replies[0].changes.created != [] || NamesCreated(replies[1..], n - 1)
    ensures NamesUpdated(replies, n) <==> replies[0].changes.updated != [] || NamesUpdated(replies[1..], n - 1)
  {
    var rest := replies[1..];
    if i :| 0 <= i <= n - 1 && i < |rest| && rest[i].Changed? && rest[i].changes.created != [] {
      assert replies[i + 1] == rest[i];
    }
    if i :| 0 <= i <= n - 1 && i < |rest| && rest[i].Changed? && rest[i].changes.updated != [] {
      assert replies[i + 1] == rest[i];
    }
    if i :| 0 <= i <= n && i < |replies| && replies[i].Changed? && replies[i].changes.created != [] && i > 0 {
      assert rest[i - 1] == replies[i];
    }
    if i :| 0 <= i <= n && i < |replies| && replies[i].Changed? && replies[i].changes.updated != [] && i > 0 {
      assert rest[i - 1] == replies[i];
    }
  }

  /** The emails asked for after the final round `n` are sent: created ones first, each list only if not empty. */
  ghost predicate GetsAnswered(replies: seq<Reply>, n: nat) {
    var first, second := NamesCreated(replies, n), NamesUpdated(replies, n);
    && (first ==> ReplyAt(replies, n + 1).Emails?)
    && (second ==> ReplyAt(replies, n + if first then 2 else 1).Emails?)
  }

  /** An empty `Email/get` answered at index `i` gives a fresh token and asks for a full list; nothing else will do. */
  ghost predicate IsBaseline(result: Result<JmapDiff, JmapError>, replies: seq<Reply>, i: nat) {
    if ReplyAt(replies, i).Emails? then result == Ok(FullListRequired(Some(ReplyAt(replies, i).state)))
    else result.Err?
  }

  /**
   What decides the result of a call. Without a token it is a baseline. Otherwise the rounds go on while
   they are truncated, and the first other answer decides: the server cannot calculate changes, and a
   baseline follows; the round is final, and the result is incremental if the emails are sent; or the call fails.
   */
  lemma {:induction false} DiffOutcome(state: Option<string>, replies: seq<Reply>)
    ensures var out, n := Diff(state, replies), Rounds(replies);
      && (state.None? ==> out.sent == [EmailGet([])] && IsBaseline(out.result, replies, 0))
      && (state.Some? ==>
            && |out.sent| > n && AsksRounds(out.sent[..n + 1], state.value, replies, n)
            && (ReplyAt(replies, n).CannotCalculateChanges? ==>
                  out.sent[n + 1..] == [EmailGet([])] && IsBaseline(out.result, replies, n + 1))
            && (Final(ReplyAt(replies, n)) ==>
                  && (out.result.Ok? <==> GetsAnswered(replies, n))
                  && (out.result.Ok? ==>
                        out.result.value.Incremental? && out.result.value.checkpoint == replies[n].changes.newState))
            && (!ReplyAt(replies, n).CannotCalculateChanges? && !Final(ReplyAt(replies, n)) ==> out.result.Err?))
  {
    if state.Some? {
      var n, w, out := Rounds(replies), WalkFrom(state.value, replies), Diff(state, replies);
      WalkIs(state.value, replies);
      assert w.sent <= out.sent && out.sent[..n + 1] == w.sent;
      if w.ending.Complete? {
        WalkLists(state.value, replies);
        FetchOutcome(w, replies, n);
      } else if w.ending.Invalidated? {
        assert ReplyAt(w.rest, 0) == ReplyAt(replies, n + 1);
        assert out.sent[n + 1..] == [EmailGet([])];
      }
    }
  }

  lemma {:induction false} FetchOutcome(w: Walk, replies: seq<Reply>, n: nat)
    requires n < |replies| && w.rest == replies[n + 1..]
    requires (w.created != [] <==> NamesCreated(replies, n)) && (w.updated != [] <==> NamesUpdated(replies, n))
    ensures Fetch(w).result.Ok? <==> GetsAnswered(replies, n)
    ensures Fetch(w).result.Ok? ==> Fetch(w).result.value.Incremental? && Fetch(w).result.value.checkpoint == w.cursor
  {
    var (sent1, rest, created) := Get(w.created, w.rest);
    assert ReplyAt(w.rest, 0) == ReplyAt(replies, n + 1);
    assert ReplyAt(rest, 0) == ReplyAt(replies, n + if w.created != [] then 2 else 1);
  }

  /** Some round is refused. */
  ghost predicate RoundRefused(sent: seq<Command>, replies: seq<Reply>) {
    exists i | 0 <= i < |sent| :: ReplyAt(replies, i).CannotCalculateChanges?
  }

  /**
   Recovery: from any token, when the server answers every request, the call succeeds. It asks for a full
   list exactly when there is no token or a round is refused, and then with the token of the `Email/get`
   that ends it; so an expired token never keeps a client from synchronising.
   */
  lemma {:induction false} AnsweredCallSucceeds(
    h: History<Email>, tokens: seq<string>, start: nat, state: Option<string>, replies: seq<Reply>, times: seq<nat>)
    requires |h| == |tokens|
    requires var sent := Diff(state, replies).sent;
      && Conversation(h, tokens, start, sent, replies, times)
      && forall i | 0 <= i < |sent| :: !ReplyAt(replies, i).Failed?
    ensures var out := Diff(state, replies);
      && out.result.Ok?
      && (out.result.value.FullListRequired? <==> state.None? || RoundRefused(out.sent, replies))
      && (out.result.value.FullListRequired? ==>
            times != [] && out.result.value.newState == Some(tokens[times[|times| - 1]]))
  {
    var out, n := Diff(state, replies), Rounds(replies);
    DiffOutcome(state, replies);
    if state.None? {
      assert Answers(h, tokens, times[0], out.sent[0], ReplyAt(replies, 0));
    } else {
      LastRound(h, tokens, start, state.value, out.sent, replies, times);
      if ReplyAt(replies, n).CannotCalculateChanges? {
        assert out.sent[n + 1] == out.sent[n + 1..][0] == EmailGet([]) && |out.sent| == n + 2;
        assert Answers(h, tokens, times[n + 1], out.sent[n + 1], ReplyAt(replies, n + 1));
      } else {
        FinalAnswered(h, tokens, start, state.value, replies, times);
      }
    }
  }

  /** The first round that is not truncated is answered with a refusal or is final. */
  lemma {:induction false} LastRound(
    h: History<Email>, tokens: seq<string>, start: nat, since: string, sent: seq<Command>, replies: seq<Reply>,
    times: seq<nat>)
    requires |h| == |tokens| && Conversation(h, tokens, start, sent, replies, times)
    requires forall i | 0 <= i < |sent| :: !ReplyAt(replies, i).Failed?
    requires |sent| > Rounds(replies) && AsksRounds(sent[..Rounds(replies) + 1], since, replies, Rounds(replies))
    ensures ReplyAt(replies, Rounds(replies)).CannotCalculateChanges? || Final(ReplyAt(replies, Rounds(replies)))
  {
    var n := Rounds(replies);
    assert sent[n] == sent[..n + 1][n];
    if n > 0 {
      assert Truncated(replies[n - 1]) && sent[..n + 1][n - 1 + 1].EmailChanges?;
    }
    assert Answers(h, tokens, times[n], sent[n], ReplyAt(replies, n));
  }

  lemma {:induction false} FetchAsks(w: Walk)
    ensures var sent, n := Fetch(w).sent, |w.sent|;
      && w.sent <= sent && (forall i | n <= i < |sent| :: sent[i].EmailGet?)
      && (w.created != [] ==> n < |sent|)
      && (Get(w.created, w.rest).2.Some? && w.updated != [] ==> n + (if w.created != [] then 1 else 0) < |sent|)
  {
  }

  lemma {:induction false} FinalAnswered(
    h: History<Email>, tokens: seq<string>, start: nat, since: string, replies: seq<Reply>, times: seq<nat>)
    requires |h| == |tokens| && Final(ReplyAt(replies, Rounds(replies)))
    requires var sent := Diff(Some(since), replies).sent;
      && Conversation(h, tokens, start, sent, replies, times)
      && forall i | 0 <= i < |sent| :: !ReplyAt(replies, i).Failed?
    ensures Diff(Some(since), replies).result.Ok?
    ensures !RoundRefused(Diff(Some(since), replies).sent, replies)
  {
    var n, w := Rounds(replies), WalkFrom(since, replies);
    WalkIs(since, replies);
    WalkLists(since, replies);
    FetchAsks(w);
    GetsGetEmails(h, tokens, start, Diff(Some(since), replies).sent, replies, times, n);
    assert ReplyAt(w.rest, 0) == ReplyAt(replies, n + 1);
    FetchOutcome(w, replies, n);
  }

  /** After the rounds only gets are sent, which a server that does not fail answers with emails. */
  lemma {:induction false} GetsGetEmails(
    h: History<Email>, tokens: seq<string>, start: nat, sent: seq<Command>, replies: seq<Reply>, times: seq<nat>,
    n: nat)
    requires |h| == |tokens| && Conversation(h, tokens, start, sent, replies, times)
    requires n == Rounds(replies) && Final(ReplyAt(replies, n))
    requires forall i | n < i < |sent| :: sent[i].EmailGet? && !ReplyAt(replies, i).Failed?
    ensures forall i | n < i < |sent| :: ReplyAt(replies, i).Emails?
    ensures !RoundRefused(sent, replies)
  {
    forall i | n < i < |sent| ensures ReplyAt(replies, i).Emails? {
      assert Answers(h, tokens, times[i], sent[i], ReplyAt(replies, i));
    }
  }

  /**
   The mailbox diff fails only when its request does; a client without a token, or with one the server
   cannot use, is told to list, with a fresh token or none.
   */
  lemma {:induction false} MailboxDiffOutcome(state: Option<string>, replies: seq<Reply>)
    ensures var out, r := MailboxSetDiff(state, replies), ReplyAt(replies, 0);
      && out.sent == [if state.None? then MailboxGet([]) else MailboxChanges(state.value)]
      && (out.result.Ok? <==> if state.None? then r.Mailboxes? else r.Changed? || r.CannotCalculateChanges?)
      && (state.None? && r.Mailboxes? ==> out.result.value == MailboxesChanged(Some(r.state)))
      && (state.Some? && r.CannotCalculateChanges? ==> out.result.value == MailboxesChanged(None))
      && (state.Some? && r.Changed? ==>
            out.result.value in {MailboxesUnchanged(r.changes.newState), MailboxesChanged(Some(r.changes.newState))})
  {
  }
}
