/** Storing flags on Gmail messages, one modify request per id (src/flag/gmail/store.rs). */
module GmailStore {
  import opened Wrappers
  import opened Flags
  import opened GmailLabels

  datatype Request = Modify(id: string, patch: Patch)

  datatype State = Modifying(index: nat) | Noop | Done

  /** What one `resume` of the inner coroutine may come back with; `Failed` also covers a failing constructor. */
  datatype Inner = WantsIo | Modified | Failed

  datatype Output = YieldIo | CompleteOk | CompleteErr

  datatype Machine = Machine(ids: seq<string>, patch: Patch, state: State, sent: seq<Request>)

  predicate NothingToDo(ids: seq<string>, p: Patch) {
    ids == [] || (p.add == [] && p.remove == [])
  }

  function Initial(ids: seq<string>, flags: seq<Flag>, op: FlagOp): Machine {
    var p := PatchFor(flags, op);
    if NothingToDo(ids, p) then Machine(ids, p, Noop, [])
    else Machine(ids, p, Modifying(0), [Modify(ids[0], p)])
  }

  function Step(m: Machine, o: Inner): (Machine, Option<Output>)
    requires m.state.Modifying?
  {
    match o
    case WantsIo => (m, Some(YieldIo))
    case Failed => (m.(state := Done), Some(CompleteErr))
    case Modified =>
      var next := m.state.index + 1;
      if next >= |m.ids| then (m.(state := Done), Some(CompleteOk))
      else (m.(state := Modifying(next), sent := m.sent + [Modify(m.ids[next], m.patch)]), None)
  }

  function Loop(m: Machine, inner: seq<Inner>): (Machine, seq<Inner>, Output)
    decreases |inner|
  {
    match m.state
    case Noop => (m.(state := Done), inner, CompleteOk)
    case Done => (m, inner, CompleteErr)
    case Modifying(_) =>
      if inner == [] then (m, [], YieldIo)
      else
        var (m', out) := Step(m, inner[0]);
        match out
        case Some(o) => (m', inner[1..], o)
        case None => Loop(m', inner[1..])
  }

  class GmailFlagStore {
    var ids: seq<string>
    var patch: Patch
    var state: State
    var sent: seq<Request>

    ghost function Model(): Machine
      reads this
    {
      Machine(ids, patch, state, sent)
    }

    constructor (ids: seq<string>, flags: seq<Flag>, op: FlagOp)
      ensures Model() == Initial(ids, flags, op)
    {
      var add, remove := LabelPatch(flags, op);
      this.ids := ids;
      patch := Patch(add, remove);
      if ids == [] || (add == [] && remove == []) {
        state := Noop;
        sent := [];
      } else {
        state := Modifying(0);
        sent := [Modify(ids[0], Patch(add, remove))];
      }
    }

    method Resume(inner: seq<Inner>) returns (out: Output, rest: seq<Inner>)
      modifies this
      ensures (Model(), rest, out) == Loop(old(Model()), inner)
    {
      rest := inner;
      while true
        invariant Loop(Model(), rest) == Loop(old(Model()), inner)
        decreases |rest|
      {
        match state {
          case Noop =>
            state := Done;
            return CompleteOk, rest;
          case Done =>
            return CompleteErr, rest;
          case Modifying(index) =>
            if rest == [] {
              return YieldIo, rest;
            }
            var answer := rest[0];
            rest := rest[1..];
            match answer {
              case WantsIo =>
                return YieldIo, rest;
              case Failed =>
                state := Done;
                return CompleteErr, rest;
              case Modified =>
                if index + 1 >= |ids| {
                  state := Done;
                  return CompleteOk, rest;
                }
                sent := sent + [Modify(ids[index + 1], patch)];
                state := Modifying(index + 1);
            }
        }
      }
    }
  }

  /** One modify per id, in order. */
  function ModifyAll(ids: seq<string>, p: Patch): seq<Request> {
    seq(|ids|, i requires 0 <= i < |ids| => Modify(ids[i], p))
  }

  /** What a successful store sends. */
  function AllRequests(ids: seq<string>, p: Patch): seq<Request> {
    if NothingToDo(ids, p) then [] else ModifyAll(ids, p)
  }

  /** The requests so far are those of the first ids. */
  ghost predicate Inv(m: Machine) {
    && (m.state.Modifying? ==>
          && m.state.index < |m.ids| && !NothingToDo(m.ids, m.patch)
          && m.sent == ModifyAll(m.ids[..m.state.index + 1], m.patch))
    && (m.state.Noop? ==> m.sent == [] && NothingToDo(m.ids, m.patch))
    && (m.state.Done? ==> m.sent <= ModifyAll(m.ids, m.patch))
  }

  lemma {:induction false} InitialInv(ids: seq<string>, flags: seq<Flag>, op: FlagOp)
    ensures Inv(Initial(ids, flags, op))
  {
    if ids != [] {
      assert ids[..1] == [ids[0]];
    }
  }

  /**
   In every call, the requests sent are those of a prefix of the ids, in order, all with the same
   patch; a successful completion means every id was sent its one request, or there was nothing to do.
   */
  lemma {:induction false} ResumeModifiesInOrder(m: Machine, inner: seq<Inner>)
    requires Inv(m)
    ensures var (m', rest, out) := Loop(m, inner);
      && Inv(m') && m'.ids == m.ids && m'.patch == m.patch
      && m.sent <= m'.sent <= ModifyAll(m.ids, m.patch)
      && (out.CompleteOk? ==> m'.sent == AllRequests(m.ids, m.patch))
      && (out.CompleteOk? || out.CompleteErr? ==> m'.state.Done?)
    decreases |inner|
  {
    match m.state {
      case Modifying(index) =>
        PrefixOfAll(m.ids, m.patch, index + 1);
        if index + 1 < |m.ids| {
          PrefixOfAll(m.ids, m.patch, index + 2);
          assert ModifyAll(m.ids[..index + 2], m.patch)
              == ModifyAll(m.ids[..index + 1], m.patch) + [Modify(m.ids[index + 1], m.patch)];
        } else {
          assert m.ids[..index + 1] == m.ids;
        }
        if inner != [] && Step(m, inner[0]).1.None? {
          ResumeModifiesInOrder(Step(m, inner[0]).0, inner[1..]);
        }
      case _ =>
    }
  }

  /** The machine after a sequence of calls, each with the answers available to it. */
  function RunCalls(m: Machine, calls: seq<seq<Inner>>): Machine {
    if calls == [] then m else Loop(RunCalls(m, calls[..|calls| - 1]), calls[|calls| - 1]).0
  }

  /** What the last call comes back with. */
  function LastOutput(m: Machine, calls: seq<seq<Inner>>): Output
    requires calls != []
  {
    Loop(RunCalls(m, calls[..|calls| - 1]), calls[|calls| - 1]).2
  }

  lemma {:induction false} RunKeepsInv(m: Machine, calls: seq<seq<Inner>>)
    requires Inv(m)
    ensures var m' := RunCalls(m, calls); Inv(m') && m'.ids == m.ids && m'.patch == m.patch
  {
    if calls != [] {
      RunKeepsInv(m, calls[..|calls| - 1]);
      ResumeModifiesInOrder(RunCalls(m, calls[..|calls| - 1]), calls[|calls| - 1]);
    }
  }

  /**
   Over any sequence of calls from the start: the requests sent are one per id, in order, for a prefix
   of the ids, all with the patch of the operation; a call that completes successfully leaves all of
   them sent, or none when there was nothing to do; once it has completed, nothing more is sent.
   */
  lemma {:induction false} StoreModifiesInOrder(
    ids: seq<string>, flags: seq<Flag>, op: FlagOp, calls: seq<seq<Inner>>, inner: seq<Inner>)
    ensures var p, m := PatchFor(flags, op), RunCalls(Initial(ids, flags, op), calls);
      && m.sent <= ModifyAll(ids, p)
      && (calls != [] && LastOutput(Initial(ids, flags, op), calls).CompleteOk? ==> m.sent == AllRequests(ids, p))
      && (calls != [] && !LastOutput(Initial(ids, flags, op), calls).YieldIo? ==>
            Loop(m, inner) == (m, inner, CompleteErr))
  {
    var m := Initial(ids, flags, op);
    InitialInv(ids, flags, op);
    RunKeepsInv(m, calls);
    ResumeModifiesInOrder(RunCalls(m, calls), []);
    if calls != [] {
      RunKeepsInv(m, calls[..|calls| - 1]);
      ResumeModifiesInOrder(RunCalls(m, calls[..|calls| - 1]), calls[|calls| - 1]);
    }
  }

  /** A store without ids, or that changes no label, succeeds without a request; any other starts with the first id. */
  lemma {:induction false} StoreStarts(ids: seq<string>, flags: seq<Flag>, op: FlagOp, inner: seq<Inner>)
    ensures var p, m := PatchFor(flags, op), Initial(ids, flags, op);
      if ids == [] || (p.add == [] && p.remove == []) then
        m.sent == [] && Loop(m, inner) == (m.(state := Done), inner, CompleteOk)
      else m.sent == [Modify(ids[0], p)] && m.state == Modifying(0)
  {
  }

  /**
   What one call comes back with when its first `k` answers are `Modified`: success once every id left had its
   turn, an error only at a failed request, and otherwise the wait for I/O.
   */
  lemma {:induction false} ResumeEndsAt(m: Machine, inner: seq<Inner>, k: nat)
    requires m.state.Modifying? && m.state.index < |m.ids| && k <= |inner|
    requires forall i | 0 <= i < k :: inner[i] == Modified
    ensures var left, out := |m.ids| - m.state.index, Loop(m, inner).2;
      && (k >= left ==> out == CompleteOk)
      && (k < left && k < |inner| && inner[k] == Failed ==> out == CompleteErr)
      && (k < left && (k == |inner| || inner[k] == WantsIo) ==> out == YieldIo)
    decreases k
  {
    if k > 0 && m.state.index + 1 < |m.ids| {
      ResumeEndsAt(Step(m, inner[0]).0, inner[1..], k - 1);
    }
  }

  lemma {:induction false} PrefixOfAll(ids: seq<string>, p: Patch, n: nat)
    requires n <= |ids|
    ensures ModifyAll(ids[..n], p) <= ModifyAll(ids, p)
  {
  }
}
