/** What the events of the JMAP watch say is so. */
module JmapWatchEvents {
  import opened Wrappers
  import opened Flags
  import opened Events
  import opened JmapServer
  import opened JmapWatch
  import opened JmapWatchProofs

  /** The event names the watched mailbox and is right about the account's state `t`. */
  ghost predicate IsTrue(h: History<Email>, t: nat, mailboxId: string, e: WatchEvent)
    requires t < |h|
  {
    match e
    case EnvelopeAdded(mailbox, envelope) =>
      && mailbox == mailboxId && InMailboxAt(h, t, mailboxId, envelope.id)
      && envelope.header == h[t][envelope.id].header
      && (forall key :: key in envelope.flags <==> HasFlag(h[t][envelope.id].keywords, key))
    case EnvelopeRemoved(mailbox, id) => mailbox == mailboxId && !InMailboxAt(h, t, mailboxId, id)
    case FlagsAdded(mailbox, id, flags) =>
      && mailbox == mailboxId && InMailboxAt(h, t, mailboxId, id)
      && flags != {} && (forall key | key in flags :: HasFlag(h[t][id].keywords, key))
    case FlagsRemoved(mailbox, id, flags) => mailbox == mailboxId && flags != {} && InMailboxAt(h, t, mailboxId, id)
    case KeepAlive => true
  }

  ghost predicate InMailboxAt(h: History<Email>, t: nat, mailboxId: string, id: string)
    requires t < |h|
  {
    id in h[t] && Visible(h[t][id], mailboxId)
  }

  ghost predicate AllTrueAt(h: History<Email>, t: nat, mailboxId: string, events: seq<WatchEvent>)
    requires t < |h|
  {
    forall e | e in events :: IsTrue(h, t, mailboxId, e)
  }

  /** Each event is right about some state. */
  ghost predicate AllTrue(h: History<Email>, mailboxId: string, events: seq<WatchEvent>) {
    forall e | e in events :: exists t: nat :: t < |h| && IsTrue(h, t, mailboxId, e)
  }

  // ----- one batch

  lemma {:induction false} KeysOfSome(raws: set<string>)
    ensures raws != {} ==> KeysOf(raws) != {}
  {
    if raw :| raw in raws {
      assert KeyOf(raw) in KeysOf(raws);
    }
  }

  lemma {:induction false} RowEventsTrue(
    shadow: Shadow, mailboxId: string, h: History<Email>, t: nat, ids: seq<string>, row: EmailRow)
    requires t < |h| && RowIsCurrent(h, t, ids, true, row)
    ensures AllTrueAt(h, t, mailboxId, RowEvents(shadow, mailboxId, row))
  {
    var email := h[t][row.id.value];
    forall key ensures key in EnvelopeFrom(row).flags <==> HasFlag(email.keywords, key) {
      EnvelopeIs(row, key);
    }
    if row.id.value in shadow {
      var added, removed := RowKeywords(row) - shadow[row.id.value], shadow[row.id.value] - RowKeywords(row);
      KeysOfSome(added);
      KeysOfSome(removed);
      forall key | key in KeysOf(added) ensures HasFlag(email.keywords, key) {
        var k :| k in added && KeyOf(k) == key;
        assert k in email.keywords && email.keywords[k];
      }
    }
  }

  lemma {:induction false} RowsEventsTrue(
    shadow: Shadow, mailboxId: string, h: History<Email>, t: nat, ids: seq<string>, rows: seq<EmailRow>)
    requires t < |h| && forall row | row in rows :: RowIsCurrent(h, t, ids, true, row)
    ensures AllTrueAt(h, t, mailboxId, RowsEvents(shadow, mailboxId, rows))
  {
    if rows != [] {
      var before, last := rows[..|rows| - 1], rows[|rows| - 1];
      assert rows == before + [last];
      RowsEventsTrue(shadow, mailboxId, h, t, ids, before);
      RowEventsTrue(ShadowRows(shadow, mailboxId, before), mailboxId, h, t, ids, last);
    }
  }

  lemma {:induction false} DestroyedEventsTrue(
    shadow: Shadow, mailboxId: string, h: History<Email>, t: nat, destroyed: seq<string>)
    requires t < |h| && forall id | id in destroyed :: id !in h[t]
    ensures AllTrueAt(h, t, mailboxId, DestroyedEvents(shadow, mailboxId, destroyed))
  {
    if destroyed != [] {
      var before := destroyed[..|destroyed| - 1];
      assert destroyed == before + [destroyed[|destroyed| - 1]];
      DestroyedEventsTrue(shadow, mailboxId, h, t, before);
    }
  }

  /** What one lawful answer queues is right about the state in which it was given. */
  lemma {:induction false} StepPushesTrue(
    h: History<Email>, tokens: seq<string>, m: Machine, k: nat, now: nat, o: Inner)
    requires Lawful(h, tokens) && Inv(h, tokens, m, k, now) && Fetching(m) && Answers(h, tokens, m, now, o)
    ensures AllTrueAt(h, now, m.mailboxId, StepPushes(m, o))
  {
    if m.state.FetchingEmails? && o.EmailsOk? {
      var j: nat :| InFlight(h, tokens, m.state, k, j, now);
      var created, updated :| created + updated == m.state.ids && Covers(h, k, j, created, updated, m.state.destroyed);
      RowsEventsTrue(m.shadow, m.mailboxId, h, now, m.state.ids, o.rows);
      forall id | id in m.state.destroyed ensures id !in h[now] {
        var p: nat :| p <= j && id in h[p];
        assert id !in h[j];
      }
      DestroyedEventsTrue(ShadowRows(m.shadow, m.mailboxId, o.rows), m.mailboxId, h, now, m.state.destroyed);
    }
  }

  // ----- whole runs

  lemma {:induction false} LoopPushesTrue(
    h: History<Email>, tokens: seq<string>, m: Machine, k: nat, now: nat, inner: seq<Inner>, times: seq<nat>)
    requires Lawful(h, tokens) && (m.state.Done? || Inv(h, tokens, m, k, now))
    requires LawfulScript(h, tokens, m, now, inner, times)
    ensures AllTrue(h, m.mailboxId, Pushes(m, inner))
    decreases |inner|, if m.state.Emitting? then 1 else 0
  {
    match m.state {
      case Emitting =>
        if m.pending == [] {
          LoopPushesTrue(h, tokens, m.(state := Subscribing(None)), k, now, inner, times);
        }
      case Done =>
      case _ =>
        if inner != [] {
          TimePasses(h, tokens, m, k, now, times[0]);
          StepPushesTrue(h, tokens, m, k, times[0], inner[0]);
          var (m', out) := Step(m, inner[0]);
          if out.None? {
            var k' := StepKeepsInv(h, tokens, m, k, times[0], inner[0]);
            LoopPushesTrue(h, tokens, m', k', times[0], inner[1..], times[1..]);
          }
        }
    }
  }

  /** The events of a run, in the order in which they are emitted. */
  function Emitted(m: Machine, calls: seq<TimedCall>): seq<WatchEvent>
    decreases |calls|
  {
    if calls == [] then []
    else
      var (m', _, out) := Resumed(m, calls[0].shutdown, calls[0].inner);
      EmittedBy(out) + Emitted(m', calls[1..])
  }

  lemma {:induction false} DoneEmitsNothing(m: Machine, calls: seq<TimedCall>)
    requires m.state.Done?
    ensures Emitted(m, calls) == []
    decreases |calls|
  {
    if calls != [] {
      DoneEmitsNothing(Resumed(m, calls[0].shutdown, calls[0].inner).0, calls[1..]);
    }
  }

  lemma {:induction false} LoopKeepsMailbox(m: Machine, inner: seq<Inner>)
    ensures Loop(m, inner).0.mailboxId == m.mailboxId && Loop(m, inner).0.accountId == m.accountId
    decreases |inner|, if m.state.Emitting? then 1 else 0
  {
    match m.state {
      case Emitting =>
        if m.pending == [] {
          LoopKeepsMailbox(m.(state := Subscribing(None)), inner);
        }
      case Done =>
      case _ =>
        if inner != [] && Step(m, inner[0]).1.None? {
          LoopKeepsMailbox(Step(m, inner[0]).0, inner[1..]);
        }
    }
  }

  lemma {:induction false} RunEmitsTrue(
    h: History<Email>, tokens: seq<string>, m: Machine, k: nat, now: nat, calls: seq<TimedCall>)
    requires Lawful(h, tokens) && LawfulRun(h, tokens, m, now, calls) && MachineInv(m)
    requires Inv(h, tokens, m, k, now) && !m.state.Done? && AllTrue(h, m.mailboxId, m.pending)
    ensures AllTrue(h, m.mailboxId, Emitted(m, calls))
    decreases |calls|
  {
    if calls != [] {
      var c := calls[0];
      var (m', _, out) := Resumed(m, c.shutdown, c.inner);
      ResumeKeepsMachineInv(m, c.shutdown, c.inner);
      if m'.state.Done? {
        DoneEmitsNothing(m', calls[1..]);
      } else {
        TimePasses(h, tokens, m, k, now, c.start);
        LoopPushesTrue(h, tokens, m, k, c.start, c.inner, c.times);
        assert forall e | e in EmittedBy(out) + m'.pending :: e in m.pending || e in Pushes(m, c.inner);
        var k' := LoopKeepsInv(h, tokens, m, k, c.start, c.inner, c.times);
        LoopKeepsMailbox(m, c.inner);
        assert forall e | e in m'.pending || e in EmittedBy(out) :: e in EmittedBy(out) + m'.pending;
        RunEmitsTrue(h, tokens, m', k', EndOf(m, c), calls[1..]);
      }
    }
  }

  /**
   Over every lawful run from the start, each emitted event names the watched mailbox and is right about the
   account as it was when fetched: an announced email is in the mailbox and carries the header and the
   flags the server has for it, a removed one is not, and added flags are set.
   */
  lemma {:induction false} WatchTellsTheTruth(
    h: History<Email>, tokens: seq<string>, mailboxId: string, accountId: string, now: nat, calls: seq<TimedCall>)
    requires Lawful(h, tokens) && now < |h|
    requires LawfulRun(h, tokens, Initial(mailboxId, accountId), now, calls)
    ensures AllTrue(h, mailboxId, Emitted(Initial(mailboxId, accountId), calls))
  {
    var m := Initial(mailboxId, accountId);
    var k := WatchIsNeverStale(h, tokens, mailboxId, accountId, now, []);
    RunEmitsTrue(h, tokens, m, k, now, calls);
  }

  // ----- keep-alives

  /** The notification names a state of the account's emails other than the known one. */
  ghost predicate NamesNews(m: Machine, change: StateChange) {
    exists token :: Names(change, m.accountId, token) && m.emailState != Some(token)
  }

  /**
   A `KeepAlive` is queued exactly when, after the first fetch, a round ends that brought a notification, the
   last of which names no new state for the account; and then nothing else is.
   */
  lemma {:induction false} KeepAliveIff(m: Machine, o: Inner)
    requires MachineInv(m) && Fetching(m)
    ensures KeepAlive in StepPushes(m, o) <==>
      && m.emailState.Some? && m.state.Subscribing? && m.state.latest.Some? && o.Ended?
      && !NamesNews(m, m.state.latest.value)
    ensures KeepAlive in StepPushes(m, o) ==> StepPushes(m, o) == [KeepAlive] && Step(m, o).0.shadow == m.shadow
  {
    if m.state.FetchingEmails? && o.EmailsOk? {
      NoKeepAliveInRows(m.shadow, m.mailboxId, o.rows);
      NoKeepAliveInDestroyed(ShadowRows(m.shadow, m.mailboxId, o.rows), m.mailboxId, m.state.destroyed);
    } else if m.state.Subscribing? && m.state.latest.Some? {
      var change := m.state.latest.value;
      assert forall token :: Names(change, m.accountId, token) <==> Observed(Some(change), m.accountId) == Some(token);
    }
  }

  lemma {:induction false} NoKeepAliveInRows(shadow: Shadow, mailboxId: string, rows: seq<EmailRow>)
    ensures KeepAlive !in RowsEvents(shadow, mailboxId, rows)
  {
    if rows != [] {
      NoKeepAliveInRows(shadow, mailboxId, rows[..|rows| - 1]);
    }
  }

  lemma {:induction false} NoKeepAliveInDestroyed(shadow: Shadow, mailboxId: string, destroyed: seq<string>)
    ensures KeepAlive !in DestroyedEvents(shadow, mailboxId, destroyed)
  {
    if destroyed != [] {
      NoKeepAliveInDestroyed(shadow, mailboxId, destroyed[..|destroyed| - 1]);
    }
  }
}
