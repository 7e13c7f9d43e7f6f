/** Watch events (src/envelope/event.rs) and what a consumer that folds them ends up with. */
module Events {
  import opened Flags
  import opened Envelopes

  datatype WatchEvent =
    | EnvelopeAdded(mailbox: string, envelope: Envelope)
    | EnvelopeRemoved(mailbox: string, id: string)
    | FlagsAdded(mailbox: string, id: string, flags: set<FlagKey>)
    | FlagsRemoved(mailbox: string, id: string, flags: set<FlagKey>)
    | KeepAlive

  /** A consumer's picture of the mailbox: the flags of each id. */
  type Picture = map<string, set<FlagKey>>

  function ReplayOne(p: Picture, e: WatchEvent): Picture {
    match e
    case EnvelopeAdded(_, envelope) => p[envelope.id := envelope.flags]
    case EnvelopeRemoved(_, id) => p - {id}
    case FlagsAdded(_, id, flags) => if id in p then p[id := p[id] + flags] else p
    case FlagsRemoved(_, id, flags) => if id in p then p[id := p[id] - flags] else p
    case KeepAlive => p
  }

  function Replay(p: Picture, events: seq<WatchEvent>): Picture {
    if events == [] then p
    else ReplayOne(Replay(p, events[..|events| - 1]), events[|events| - 1])
  }

  lemma {:induction false} ReplayConcat(p: Picture, a: seq<WatchEvent>, b: seq<WatchEvent>)
    ensures Replay(p, a + b) == Replay(Replay(p, a), b)
    decreases b
  {
    if b == [] {
      assert a + b == a;
    } else {
      assert (a + b)[..|a + b| - 1] == a + b[..|b| - 1];
      ReplayConcat(p, a, b[..|b| - 1]);
    }
  }

  lemma {:induction false} ReplayAtMostOne(p: Picture, events: seq<WatchEvent>)
    requires |events| <= 1
    ensures Replay(p, events) == if events == [] then p else ReplayOne(p, events[0])
  {
    if events != [] {
      assert events[..0] == [] && Replay(p, events[..0]) == p;
    }
  }
}
