/**
 Moving and copying messages between m2dirs (src/message/m2dir/move.rs, src/message/m2dir/copy.rs).
 Per id: get, store, and for a move delete. A copy is the same loop without the delete stage.
 */
module M2dirTransfer {
  import opened Wrappers
  import opened Lists

  datatype Stage =
    | Idle
    | Getting(id: string)
    | Storing(contents: string)
    | Deleting(id: string)

  /** What one `resume` of the inner coroutine may come back with. */
  datatype Inner = Yielded | GetOk(contents: string) | StoreOk | DeleteOk | Failed

  datatype Output = YieldIo | CompleteOk | CompleteErr

  datatype Machine = Machine(removes: bool, pending: seq<string>, currentId: Option<string>, stage: Stage)

  /** Takes the next id when idle. */
  function Start(m: Machine): Machine {
    if m.stage.Idle? && m.pending != [] then
      m.(stage := Getting(m.pending[0]), currentId := Some(m.pending[0]), pending := m.pending[1..])
    else m
  }

  /** One answer of the inner coroutine; an error leaves the machine idle. */
  function Step(m: Machine, o: Inner): (Machine, Option<Output>)
    requires !m.stage.Idle?
  {
    match (m.stage, o)
    case (_, Yielded) => (m, Some(YieldIo))
    case (Getting(_), GetOk(contents)) => (m.(stage := Storing(contents)), None)
    case (Storing(_), StoreOk) =>
      if m.removes && m.currentId.Some? then (m.(stage := Deleting(m.currentId.value), currentId := None), None)
      else (m.(stage := Idle), None)
    case (Deleting(_), DeleteOk) => (m.(stage := Idle), None)
    case _ => (m.(stage := Idle), Some(CompleteErr))
  }

  /** The loop: `inner` lists what the inner coroutines answer, in order; afterwards they want I/O. */
  function Loop(m: Machine, inner: seq<Inner>): (Machine, seq<Inner>, Output)
    decreases |inner|
  {
    var s := Start(m);
    if s.stage.Idle? then (s, inner, CompleteOk)
    else if inner == [] then (s, [], YieldIo)
    else
      var (m', out) := Step(s, inner[0]);
      match out
      case Some(o) => (m', inner[1..], o)
      case None => Loop(m', inner[1..])
  }

  class Transfer {
    const removes: bool
    var pending: seq<string>
    var currentId: Option<string>
    var stage: Stage

    ghost function Model(): Machine
      reads this
    {
      Machine(removes, pending, currentId, stage)
    }

    constructor (removes: bool, ids: seq<string>)
      ensures Model() == Machine(removes, ids, None, Idle)
    {
      this.removes := removes;
      pending := ids;
      currentId := None;
      stage := Idle;
    }

    method Resume(inner: seq<Inner>) returns (out: Output, rest: seq<Inner>)
      modifies this
      ensures (Model(), rest, out) == Loop(old(Model()), inner)
    {
      rest := inner;
      while true
        invariant Loop(Model(), rest) == Loop(old(Model()), inner)
        decreases |rest|
      {
        if stage.Idle? {
          if pending == [] {
            return CompleteOk, rest;
          }
          currentId := Some(pending[0]);
          stage := Getting(pending[0]);
          pending := pending[1..];
        }
        if rest == [] {
          return YieldIo, rest;
        }
        var answer := rest[0];
        rest := rest[1..];
        var stopped := Advance(answer);
        if stopped.Some? {
          return stopped.value, rest;
        }
      }
    }

    /** Feeds one answer of the inner coroutine to the current stage. */
    method Advance(answer: Inner) returns (out: Option<Output>)
      requires !stage.Idle?
      modifies this
      ensures (Model(), out) == Step(old(Model()), answer)
    {
      out := None;
      if answer.Yielded? {
        out := Some(YieldIo);
      } else if stage.Getting? && answer.GetOk? {
        stage := Storing(answer.contents);
      } else if stage.Storing? && answer.StoreOk? {
        if removes && currentId.Some? {
          stage := Deleting(currentId.value);
          currentId := None;
        } else {
          stage := Idle;
        }
      } else if stage.Deleting? && answer.DeleteOk? {
        stage := Idle;
      } else {
        stage := Idle;
        out := Some(CompleteErr);
      }
    }
  }

  // ----- the file system

  /** An entry of a directory. */
  datatype Place = Place(dir: string, id: string)

  type Files = map<Place, string>

  datatype Effect = NoEffect | Added(place: Place) | Removed

  /** One answer, with what happened to the file system up to it. */
  datatype Answer = Answer(outcome: Inner, effect: Effect)

  /** The two directories, what was there at the start, and the ids to transfer. */
  datatype Job = Job(source: string, target: string, removes: bool, ids: seq<string>, before: Files)

  /** `stored` is the entry made for the id in hand; `done` pairs each finished id with its new entry. */
  datatype World = World(m: Machine, files: Files, stored: Option<Place>, done: seq<(string, Place)>)

  function Origin(job: Job, id: string): Place { Place(job.source, id) }

  function FilesAfter(job: Job, w: World, e: Effect): Files {
    match (w.m.stage, e)
    case (Storing(contents), Added(p)) => w.files[p := contents]
    case (Deleting(id), Removed) => w.files - {Origin(job, id)}
    case _ => w.files
  }

  /**
   What the inner coroutines may do: a get reads the entry it finds; a store adds at most one fresh
   entry to the target, and exactly one if it succeeds; a delete removes nothing but its own entry,
   and does if it succeeds. Any of them may fail at any point.
   */
  ghost predicate Lawful(job: Job, w: World, a: Answer)
    requires !w.m.stage.Idle?
  {
    match w.m.stage
    case Getting(id) =>
      && a.effect == NoEffect
      && (a.outcome.GetOk? ==>
            Origin(job, id) in w.files && w.files[Origin(job, id)] == a.outcome.contents)
    case Storing(_) =>
      && !a.effect.Removed?
      && (a.effect.Added? ==>
            w.stored.None? && a.effect.place.dir == job.target && a.effect.place !in w.files)
      && (a.outcome.StoreOk? ==> w.stored.Some? || a.effect.Added?)
    case Deleting(id) =>
      && !a.effect.Added?
      && (a.outcome.DeleteOk? ==> Origin(job, id) !in FilesAfter(job, w, a.effect))
    case Idle => true
  }

  function WorldAfter(job: Job, w: World, a: Answer): World
    requires !w.m.stage.Idle?
  {
    var files := FilesAfter(job, w, a.effect);
    var stored := if w.m.stage.Getting? then None else if a.effect.Added? then Some(a.effect.place) else w.stored;
    var (m', out) := Step(w.m, a.outcome);
    var finished := m'.stage.Idle? && out.None? && stored.Some? && |w.done| < |job.ids|;
    World(m', files, stored, if finished then w.done + [(job.ids[|w.done|], stored.value)] else w.done)
  }

  /** A run: answers are consumed until the transfer completes; yields just go on. */
  function Run(job: Job, w: World, answers: seq<Answer>): (World, Option<Output>)
    decreases |answers|
  {
    var s := w.(m := Start(w.m));
    if s.m.stage.Idle? then (s, Some(CompleteOk))
    else if answers == [] then (s, None)
    else
      var out := Step(s.m, answers[0].outcome).1;
      var next := WorldAfter(job, s, answers[0]);
      if out == Some(CompleteErr) then (next, out) else Run(job, next, answers[1..])
  }

  ghost predicate LawfulRun(job: Job, w: World, answers: seq<Answer>)
    decreases |answers|
  {
    var s := w.(m := Start(w.m));
    if s.m.stage.Idle? || answers == [] then true
    else
      && Lawful(job, s, answers[0])
      && (Step(s.m, answers[0].outcome).1 != Some(CompleteErr) ==>
            LawfulRun(job, WorldAfter(job, s, answers[0]), answers[1..]))
  }

  function Begin(job: Job): World {
    World(Machine(job.removes, job.ids, None, Idle), job.before, None, [])
  }

  function Outcomes(answers: seq<Answer>): seq<Inner> {
    seq(|answers|, i requires 0 <= i < |answers| => answers[i].outcome)
  }

  /** One `Resume` is a run over the answers it consumes, so what holds of runs holds after every call. */
  lemma {:induction false} ResumeIsRun(job: Job, w: World, answers: seq<Answer>)
    ensures var (m', rest, out) := Loop(w.m, Outcomes(answers));
      && |rest| <= |answers|
      && rest == Outcomes(answers)[|answers| - |rest|..]
      && var (w', end) := Run(job, w, answers[..|answers| - |rest|]);
      && w'.m == m'
      && end == (if out == YieldIo then None else Some(out))
    decreases |answers|
  {
    var s := w.(m := Start(w.m));
    var inner := Outcomes(answers);
    if s.m.stage.Idle? {
      assert answers[..0] == [];
    } else if answers == [] {
      assert inner == [] && answers[..0] == answers;
    } else {
      var rest := Loop(w.m, inner).1;
      assert inner[1..] == Outcomes(answers[1..]);
      var next := WorldAfter(job, s, answers[0]);
      if Step(s.m, inner[0]).1.None? {
        ResumeIsRun(job, next, answers[1..]);
        var n := |answers| - |rest|;
        assert answers[..n][1..] == answers[1..][..n - 1] && answers[..n][0] == answers[0];
        assert inner[n..] == inner[1..][n - 1..];
      } else {
        assert answers[..1][1..] == [] && answers[..1][0] == answers[0];
      }
    }
  }

  // ----- the file system after a number of finished ids

  /** One finished id: a fresh target entry with the same contents, and the original gone if removing. */
  function TransferOne(job: Job, files: Files, id: string, place: Place): Files
    requires Origin(job, id) in files
  {
    var added := files[place := files[Origin(job, id)]];
    if job.removes then added - {Origin(job, id)} else added
  }

  ghost predicate Feasible(job: Job, done: seq<(string, Place)>)
    decreases |done|, 0
  {
    if done == [] then true
    else
      var before, last := done[..|done| - 1], done[|done| - 1];
      && Feasible(job, before)
      && Origin(job, last.0) in Transferred(job, before)
      && last.1 !in Transferred(job, before)
      && last.1.dir == job.target
  }

  ghost function Transferred(job: Job, done: seq<(string, Place)>): Files
    requires Feasible(job, done)
    decreases |done|, 1
  {
    if done == [] then job.before
    else
      var before, last := done[..|done| - 1], done[|done| - 1];
      TransferOne(job, Transferred(job, before), last.0, last.1)
  }

  /** What the world looks like in every stage, given the finished ids. */
  ghost predicate Inv(job: Job, w: World) {
    && w.m.removes == job.removes
    && |w.done| <= |job.ids|
    && Feasible(job, w.done)
    && (forall k | 0 <= k < |w.done| :: w.done[k].0 == job.ids[k])
    && var files := Transferred(job, w.done);
    match w.m.stage
    case Idle => w.files == files && w.m.pending == job.ids[|w.done|..]
    case Getting(id) => w.files == files && InHand(job, w, id) && w.m.currentId == Some(id)
    case Storing(contents) =>
      && w.m.currentId.Some?
      && var id := w.m.currentId.value;
      && InHand(job, w, id)
      && Origin(job, id) in files && files[Origin(job, id)] == contents
      && (match w.stored
          case None => w.files == files
          case Some(p) => p.dir == job.target && p !in files && w.files == files[p := contents])
    case Deleting(id) =>
      && job.removes && InHand(job, w, id)
      && w.stored.Some? && w.stored.value.dir == job.target && w.stored.value !in files
      && Origin(job, id) in files
      && var both := files[w.stored.value := files[Origin(job, id)]];
      && (w.files == both || w.files == both - {Origin(job, id)})
  }

  /** `id` is the one after the finished ones. */
  ghost predicate InHand(job: Job, w: World, id: string) {
    |w.done| < |job.ids| && id == job.ids[|w.done|] && w.m.pending == job.ids[|w.done| + 1..]
  }

  lemma {:induction false} StartKeepsInv(job: Job, w: World)
    requires Inv(job, w)
    ensures Inv(job, w.(m := Start(w.m)))
  {
  }

  lemma {:induction false} FinishOne(job: Job, done: seq<(string, Place)>, id: string, place: Place)
    requires Feasible(job, done) && Origin(job, id) in Transferred(job, done)
    requires place !in Transferred(job, done) && place.dir == job.target
    ensures Feasible(job, done + [(id, place)])
    ensures Transferred(job, done + [(id, place)]) == TransferOne(job, Transferred(job, done), id, place)
  {
    assert (done + [(id, place)])[..|done|] == done;
  }

  lemma {:induction false} GettingKeepsInv(job: Job, w: World, a: Answer)
    requires Inv(job, w) && w.m.stage.Getting? && Lawful(job, w, a)
    requires Step(w.m, a.outcome).1 != Some(CompleteErr)
    ensures Inv(job, WorldAfter(job, w, a))
  {
    assert a.outcome.Yielded? || a.outcome.GetOk?;
  }

  lemma {:induction false} StoringKeepsInv(job: Job, w: World, a: Answer)
    requires Inv(job, w) && w.m.stage.Storing? && Lawful(job, w, a)
    requires Step(w.m, a.outcome).1 != Some(CompleteErr)
    ensures Inv(job, WorldAfter(job, w, a))
  {
    StoredFiles(job, w, a);
    if a.outcome.StoreOk? {
      StoreOkKeepsInv(job, w, a);
    } else {
      assert a.outcome.Yielded?;
    }
  }

  lemma {:induction false} StoreOkKeepsInv(job: Job, w: World, a: Answer)
    requires Inv(job, w) && w.m.stage.Storing? && Lawful(job, w, a) && a.outcome.StoreOk?
    ensures Inv(job, WorldAfter(job, w, a))
  {
    StoredFiles(job, w, a);
    if job.removes {
      assert WorldAfter(job, w, a).m.stage == Deleting(w.m.currentId.value);
    } else {
      CopyKeepsInv(job, w, a);
    }
  }

  lemma {:induction false} CopyKeepsInv(job: Job, w: World, a: Answer)
    requires Inv(job, w) && w.m.stage.Storing? && Lawful(job, w, a) && a.outcome.StoreOk? && !job.removes
    ensures Inv(job, WorldAfter(job, w, a))
  {
    StoredFiles(job, w, a);
    var w', id := WorldAfter(job, w, a), w.m.currentId.value;
    FinishOne(job, w.done, id, w'.stored.value);
    assert w'.done == w.done + [(id, w'.stored.value)];
  }

  /** While storing, the target entry is absent or has the source's contents. */
  lemma {:induction false} StoredFiles(job: Job, w: World, a: Answer)
    requires Inv(job, w) && w.m.stage.Storing? && Lawful(job, w, a)
    ensures var w', files := WorldAfter(job, w, a), Transferred(job, w.done);
      && (a.outcome.StoreOk? ==> w'.stored.Some?)
      && (w'.stored.None? ==> w'.files == files)
      && (w'.stored.Some? ==>
            && w'.stored.value.dir == job.target && w'.stored.value !in files
            && w'.files == files[w'.stored.value := w.m.stage.contents])
  {
  }

  /** While deleting, both copies are there or only the target's. */
  lemma {:induction false} DeletedFiles(job: Job, w: World, a: Answer)
    requires Inv(job, w) && w.m.stage.Deleting? && Lawful(job, w, a)
    requires Step(w.m, a.outcome).1 != Some(CompleteErr)
    ensures var w', files, o := WorldAfter(job, w, a), Transferred(job, w.done), Origin(job, w.m.stage.id);
      var both := files[w.stored.value := files[o]];
      && (w'.files == both || w'.files == both - {o})
      && (a.outcome.DeleteOk? ==> w'.files == both - {o})
      && w'.stored == w.stored
  {
    var files, o := Transferred(job, w.done), Origin(job, w.m.stage.id);
    var both := files[w.stored.value := files[o]];
    assert both - {o} - {o} == both - {o};
  }

  lemma {:induction false} DeletingKeepsInv(job: Job, w: World, a: Answer)
    requires Inv(job, w) && w.m.stage.Deleting? && Lawful(job, w, a)
    requires Step(w.m, a.outcome).1 != Some(CompleteErr)
    ensures Inv(job, WorldAfter(job, w, a))
  {
    DeletedFiles(job, w, a);
    if a.outcome.DeleteOk? {
      FinishOne(job, w.done, w.m.stage.id, w.stored.value);
    } else {
      assert a.outcome.Yielded?;
    }
  }

  lemma {:induction false} StepKeepsInv(job: Job, w: World, a: Answer)
    requires Inv(job, w) && !w.m.stage.Idle? && Lawful(job, w, a)
    requires Step(w.m, a.outcome).1 != Some(CompleteErr)
    ensures Inv(job, WorldAfter(job, w, a))
  {
    match w.m.stage {
      case Getting(_) => GettingKeepsInv(job, w, a);
      case Storing(_) => StoringKeepsInv(job, w, a);
      case Deleting(_) => DeletingKeepsInv(job, w, a);
    }
  }

  // ----- when a transfer ends

  /** The answer is one the stage waits for. */
  predicate FitsStage(stage: Stage, o: Inner) {
    || o.Yielded?
    || (stage.Getting? && o.GetOk?)
    || (stage.Storing? && o.StoreOk?)
    || (stage.Deleting? && o.DeleteOk?)
  }

  predicate AllFit(job: Job, w: World, answers: seq<Answer>)
    decreases |answers|
  {
    var s := w.(m := Start(w.m));
    || s.m.stage.Idle?
    || answers == []
    || (FitsStage(s.m.stage, answers[0].outcome) && AllFit(job, WorldAfter(job, s, answers[0]), answers[1..]))
  }

  /** How many of the answers are not yields. */
  function Busy(answers: seq<Answer>): nat {
    if answers == [] then 0 else (if answers[0].outcome.Yielded? then 0 else 1) + Busy(answers[1..])
  }

  /** Answers still needed. */
  function Work(m: Machine): nat {
    var each := if m.removes then 3 else 2;
    each * |m.pending|
    + match m.stage
      case Idle => 0
      case Getting(_) => each
      case Storing(_) => each - 1
      case Deleting(_) => 1
  }

  lemma {:induction false} StepWorks(m: Machine, o: Inner)
    requires !m.stage.Idle?
    ensures FitsStage(m.stage, o) && !o.Yielded? ==> Work(Step(m, o).0) < Work(m)
    ensures Step(m, o).1 == Some(YieldIo) <==> o.Yielded?
    ensures Step(m, o).1 == Some(CompleteErr) <==> !FitsStage(m.stage, o)
    ensures o.Yielded? ==> Step(m, o).0 == m
  {
  }

  lemma {:induction false} RunEnds(job: Job, w: World, answers: seq<Answer>)
    ensures var out := Run(job, w, answers).1;
      && (out == Some(CompleteErr) <==> !AllFit(job, w, answers))
      && (out.None? ==> Busy(answers) < Work(w.m))
      && out != Some(YieldIo)
    decreases |answers|
  {
    var s := w.(m := Start(w.m));
    assert Work(s.m) == Work(w.m);
    if !s.m.stage.Idle? && answers != [] {
      StepWorks(s.m, answers[0].outcome);
      RunEnds(job, WorldAfter(job, s, answers[0]), answers[1..]);
    }
  }

  /**
   A transfer fails exactly when a coroutine fails or comes back with what its stage does not wait for. Otherwise
   it succeeds after at most three answers per id moved, two per id copied, however often they yield in between.
   */
  lemma {:induction false} TransferEnds(job: Job, answers: seq<Answer>)
    ensures var out := Run(job, Begin(job), answers).1;
      && (out == Some(CompleteErr) <==> !AllFit(job, Begin(job), answers))
      && (AllFit(job, Begin(job), answers)
          && Busy(answers) >= (if job.removes then 3 * |job.ids| else 2 * |job.ids|) ==>
            out == Some(CompleteOk))
  {
    RunEnds(job, Begin(job), answers);
    var out := Run(job, Begin(job), answers).1;
    assert out.Some? ==> out.value.YieldIo? || out.value.CompleteOk? || out.value.CompleteErr?;
    assert Work(Begin(job).m) == if job.removes then 3 * |job.ids| else 2 * |job.ids|;
  }

  // ----- nothing is lost

  /** Every message that was in the source is still there, or its contents are in the target. */
  ghost predicate NothingLost(job: Job, files: Files) {
    forall p | p in job.before && p.dir == job.source :: Survives(job, files, p)
  }

  ghost predicate Survives(job: Job, files: Files, p: Place)
    requires p in job.before
  {
    || (p in files && files[p] == job.before[p])
    || exists t :: t in files && t.dir == job.target && files[t] == job.before[p]
  }

  /** Adding a fresh entry loses nothing; then removing an entry whose contents were just added loses nothing. */
  lemma {:induction false} TransferLosesNothing(job: Job, files: Files, id: string, place: Place)
    requires NothingLost(job, files) && Origin(job, id) in files
    requires place !in files && place.dir == job.target
    ensures NothingLost(job, files[place := files[Origin(job, id)]])
    ensures NothingLost(job, files[place := files[Origin(job, id)]] - {Origin(job, id)})
  {
    var o := Origin(job, id);
    var added := files[place := files[o]];
    var moved := added - {o};
    forall p | p in job.before && p.dir == job.source ensures Survives(job, added, p) && Survives(job, moved, p) {
      if p in files && files[p] == job.before[p] {
        if p == o {
          assert place in moved && moved[place] == job.before[p];
        }
      } else {
        var t :| t in files && t.dir == job.target && files[t] == job.before[p];
        assert t in added && added[t] == job.before[p];
        if t == o {
          assert place in moved && moved[place] == job.before[p];
        } else {
          assert t in moved && moved[t] == job.before[p];
        }
      }
    }
  }

  lemma {:induction false} TransferredLosesNothing(job: Job, done: seq<(string, Place)>)
    requires Feasible(job, done)
    ensures NothingLost(job, Transferred(job, done))
    decreases |done|
  {
    if done != [] {
      var before, last := done[..|done| - 1], done[|done| - 1];
      TransferredLosesNothing(job, before);
      TransferLosesNothing(job, Transferred(job, before), last.0, last.1);
    }
  }

  lemma {:induction false} InvLosesNothing(job: Job, w: World)
    requires Inv(job, w)
    ensures NothingLost(job, w.files)
  {
    TransferredLosesNothing(job, w.done);
    match w.m.stage {
      case Storing(_) =>
        if w.stored.Some? {
          TransferLosesNothing(job, Transferred(job, w.done), w.m.currentId.value, w.stored.value);
        }
      case Deleting(id) =>
        TransferLosesNothing(job, Transferred(job, w.done), id, w.stored.value);
      case _ =>
    }
  }

  /** Even the answer that ends the run with an error has lost nothing. */
  lemma {:induction false} EffectLosesNothing(job: Job, w: World, a: Answer)
    requires Inv(job, w) && !w.m.stage.Idle? && Lawful(job, w, a)
    ensures NothingLost(job, FilesAfter(job, w, a.effect))
  {
    var files := Transferred(job, w.done);
    TransferredLosesNothing(job, w.done);
    match w.m.stage {
      case Getting(_) =>
      case Storing(_) =>
        InvLosesNothing(job, w);
        if a.effect.Added? {
          TransferLosesNothing(job, files, w.m.currentId.value, a.effect.place);
        }
      case Deleting(id) =>
        TransferLosesNothing(job, files, id, w.stored.value);
        var both := files[w.stored.value := files[Origin(job, id)]];
        assert both - {Origin(job, id)} - {Origin(job, id)} == both - {Origin(job, id)};
    }
  }

  /**
   Safety over every run: after any number of answers, at every yield, error and completion, each
   message of the source is still in the source or its contents are in the target.
   */
  lemma {:induction false} RunLosesNothing(job: Job, w: World, answers: seq<Answer>)
    requires Inv(job, w) && LawfulRun(job, w, answers)
    ensures NothingLost(job, Run(job, w, answers).0.files)
    ensures Run(job, w, answers).1 != Some(CompleteErr) ==> Inv(job, Run(job, w, answers).0)
    decreases |answers|
  {
    StartKeepsInv(job, w);
    var s := w.(m := Start(w.m));
    if s.m.stage.Idle? || answers == [] {
      InvLosesNothing(job, s);
    } else {
      EffectLosesNothing(job, s, answers[0]);
      if Step(s.m, answers[0].outcome).1 != Some(CompleteErr) {
        StepKeepsInv(job, s, answers[0]);
        RunLosesNothing(job, WorldAfter(job, s, answers[0]), answers[1..]);
      }
    }
  }

  lemma {:induction false} TransferLosesNoMessage(job: Job, answers: seq<Answer>)
    requires LawfulRun(job, Begin(job), answers)
    ensures NothingLost(job, Run(job, Begin(job), answers).0.files)
  {
    assert Inv(job, Begin(job));
    RunLosesNothing(job, Begin(job), answers);
  }

  // ----- what a successful run did

  ghost function DonePlaces(done: seq<(string, Place)>): set<Place> {
    set k | 0 <= k < |done| :: done[k].1
  }

  ghost function DoneOrigins(job: Job, done: seq<(string, Place)>): set<Place> {
    set k | 0 <= k < |done| :: Origin(job, done[k].0)
  }

  /** Each finished id has its own new target entry, with the original's contents. */
  ghost predicate EntriesMade(job: Job, done: seq<(string, Place)>, files: Files) {
    && (forall k | 0 <= k < |done| :: EntryMade(job, done[k], files))
    && (forall j, k | 0 <= j < k < |done| :: done[j].1 != done[k].1)
  }

  ghost predicate EntryMade(job: Job, d: (string, Place), files: Files) {
    && Origin(job, d.0) in job.before
    && d.1.dir == job.target && d.1 !in job.before
    && d.1 in files && files[d.1] == job.before[Origin(job, d.0)]
  }

  /** Nothing else was added, nothing but the originals of a move was removed, nothing was rewritten. */
  ghost predicate OthersKept(job: Job, done: seq<(string, Place)>, files: Files) {
    && files.Keys == job.before.Keys + DonePlaces(done) - (if job.removes then DoneOrigins(job, done) else {})
    && (forall p | p in files && p in job.before :: files[p] == job.before[p])
  }

  /** A move handles each id once. */
  ghost predicate MovedOnce(job: Job, done: seq<(string, Place)>) {
    job.removes ==> forall j, k | 0 <= j < k < |done| :: done[j].0 != done[k].0
  }

  ghost predicate ExactlyTransferred(job: Job, done: seq<(string, Place)>, files: Files) {
    EntriesMade(job, done, files) && OthersKept(job, done, files) && MovedOnce(job, done)
  }

  /** No new entry took the place of an id to transfer, past or still to come. */
  ghost predicate FreshIds(job: Job, done: seq<(string, Place)>) {
    forall j, k | 0 <= j < |done| && 0 <= k < |done| :: done[k].1 != Origin(job, done[j].0)
  }

  lemma {:induction false} DoneSets(job: Job, before: seq<(string, Place)>, last: (string, Place))
    ensures DonePlaces(before + [last]) == DonePlaces(before) + {last.1}
    ensures DoneOrigins(job, before + [last]) == DoneOrigins(job, before) + {Origin(job, last.0)}
  {
    var done := before + [last];
    forall k | 0 <= k < |before| ensures done[k] == before[k] {}
    assert done[|before|] == last;
    forall p | p in DonePlaces(before) ensures p in DonePlaces(done) {
      var k :| 0 <= k < |before| && before[k].1 == p;
      assert done[k].1 == p;
    }
    forall p | p in DoneOrigins(job, before) ensures p in DoneOrigins(job, done) {
      var k :| 0 <= k < |before| && Origin(job, before[k].0) == p;
      assert Origin(job, done[k].0) == p;
    }
  }

  /** The id in hand is an original still there, and its new place is unused, even in the past. */
  lemma {:induction false} FreshInHand(job: Job, before: seq<(string, Place)>, last: (string, Place), files: Files)
    requires FreshIds(job, before + [last]) && ExactlyTransferred(job, before, files)
    requires Origin(job, last.0) in files && last.1 !in files && last.1.dir == job.target
    ensures Origin(job, last.0) !in DonePlaces(before) && last.1 !in DoneOrigins(job, before)
    ensures Origin(job, last.0) in job.before && last.1 !in job.before && last.1 != Origin(job, last.0)
    ensures forall k | 0 <= k < |before| :: before[k].1 != last.1
    ensures job.removes ==> forall k | 0 <= k < |before| :: before[k].0 != last.0
  {
    var done := before + [last];
    assert done[|before|] == last;
    assert Origin(job, last.0) !in DonePlaces(before) by {
      forall k | 0 <= k < |before| ensures before[k].1 != Origin(job, last.0) {
        assert done[k] == before[k] && done[k].1 != Origin(job, done[|before|].0);
      }
    }
    assert last.1 !in DoneOrigins(job, before) by {
      forall k | 0 <= k < |before| ensures Origin(job, before[k].0) != last.1 {
        assert done[k] == before[k] && done[|before|].1 != Origin(job, done[k].0);
      }
    }
    forall k | 0 <= k < |before| ensures before[k].1 != last.1 {
      assert EntryMade(job, before[k], files);
    }
    if job.removes {
      forall k | 0 <= k < |before| ensures before[k].0 != last.0 {
        assert Origin(job, before[k].0) in DoneOrigins(job, before);
      }
    }
  }

  lemma {:induction false} EntriesStay(
    job: Job, before: seq<(string, Place)>, last: (string, Place), files: Files)
    requires FreshIds(job, before + [last]) && ExactlyTransferred(job, before, files)
    requires Origin(job, last.0) in files && last.1 !in files && last.1.dir == job.target
    ensures forall k | 0 <= k <= |before| ::
      EntryMade(job, (before + [last])[k], TransferOne(job, files, last.0, last.1))
  {
    var done := before + [last];
    FreshInHand(job, before, last, files);
    forall k | 0 <= k <= |before| ensures EntryMade(job, done[k], TransferOne(job, files, last.0, last.1)) {
      if k < |before| {
        assert done[k] == before[k] && EntryMade(job, before[k], files);
        assert before[k].1 in DonePlaces(before);
      }
    }
  }

  lemma {:induction false} OneMoreExactly(job: Job, before: seq<(string, Place)>, last: (string, Place), files: Files)
    requires FreshIds(job, before + [last]) && ExactlyTransferred(job, before, files)
    requires Origin(job, last.0) in files && last.1 !in files && last.1.dir == job.target
    ensures ExactlyTransferred(job, before + [last], TransferOne(job, files, last.0, last.1))
  {
    var done := before + [last];
    var files' := TransferOne(job, files, last.0, last.1);
    var o := Origin(job, last.0);
    FreshInHand(job, before, last, files);
    DoneSets(job, before, last);
    EntriesStay(job, before, last, files);
    forall j, k | 0 <= j < k < |done| ensures done[j].1 != done[k].1 && (job.removes ==> done[j].0 != done[k].0) {
      assert done[j] == before[j];
      if k < |before| {
        assert done[k] == before[k];
      }
    }
    assert o !in DonePlaces(done) && last.1 !in DoneOrigins(job, done);
  }

  lemma {:induction false} TransferredExactly(job: Job, done: seq<(string, Place)>)
    requires Feasible(job, done) && FreshIds(job, done)
    ensures ExactlyTransferred(job, done, Transferred(job, done))
    decreases |done|
  {
    if done != [] {
      var before, last := done[..|done| - 1], done[|done| - 1];
      assert done == before + [last];
      forall j, k | 0 <= j < |before| && 0 <= k < |before| ensures before[k].1 != Origin(job, before[j].0) {
        assert before[k] == done[k] && before[j] == done[j];
      }
      TransferredExactly(job, before);
      OneMoreExactly(job, before, last, Transferred(job, before));
    }
  }

  lemma {:induction false} ExactlyIsFresh(job: Job, done: seq<(string, Place)>, files: Files)
    requires ExactlyTransferred(job, done, files)
    ensures FreshIds(job, done)
  {
    forall j, k | 0 <= j < |done| && 0 <= k < |done| ensures done[k].1 != Origin(job, done[j].0) {
      assert EntryMade(job, done[k], files) && EntryMade(job, done[j], files);
    }
  }

  /** New entries of another directory are never in the way. */
  lemma {:induction false} OtherDirectoryIsFresh(job: Job, done: seq<(string, Place)>)
    requires Feasible(job, done) && job.source != job.target
    ensures FreshIds(job, done)
    ensures forall k | 0 <= k < |done| :: done[k].1.dir == job.target
    decreases |done|
  {
    if done != [] {
      var before, last := done[..|done| - 1], done[|done| - 1];
      assert done == before + [last];
      OtherDirectoryIsFresh(job, before);
      forall k | 0 <= k < |done| ensures done[k].1.dir == job.target {
        if k < |before| {
          assert done[k] == before[k];
        }
      }
    }
  }

  /**
   A run that completes successfully handled the given ids in order, each in the way of `TransferOne`.
   A move removed exactly the ids from the source (so they were distinct), a copy nothing, and the target
   gained exactly one new entry per id, with that id's original contents: always between two different
   directories, and within one directory exactly when no new entry took the place of one of the ids.
   */
  lemma {:induction false} SuccessTransfersExactlyIff(job: Job, answers: seq<Answer>)
    requires LawfulRun(job, Begin(job), answers)
    requires Run(job, Begin(job), answers).1 == Some(CompleteOk)
    ensures var w := Run(job, Begin(job), answers).0;
      && |w.done| == |job.ids| && (forall k | 0 <= k < |w.done| :: w.done[k].0 == job.ids[k])
      && Feasible(job, w.done) && w.files == Transferred(job, w.done)
      && (ExactlyTransferred(job, w.done, w.files) <==> FreshIds(job, w.done))
      && (job.source != job.target ==> FreshIds(job, w.done))
  {
    assert Inv(job, Begin(job));
    RunLosesNothing(job, Begin(job), answers);
    RunEndsIdle(job, Begin(job), answers);
    var w := Run(job, Begin(job), answers).0;
    if job.source != job.target {
      OtherDirectoryIsFresh(job, w.done);
    }
    if FreshIds(job, w.done) {
      TransferredExactly(job, w.done);
    }
    if ExactlyTransferred(job, w.done, w.files) {
      ExactlyIsFresh(job, w.done, w.files);
    }
  }

  lemma {:induction false} RunEndsIdle(job: Job, w: World, answers: seq<Answer>)
    requires Run(job, w, answers).1 == Some(CompleteOk)
    ensures Run(job, w, answers).0.m.stage.Idle? && Run(job, w, answers).0.m.pending == []
    decreases |answers|
  {
    var s := w.(m := Start(w.m));
    if !s.m.stage.Idle? && answers != [] {
      RunEndsIdle(job, WorldAfter(job, s, answers[0]), answers[1..]);
    }
  }

  // ----- when the job alone makes every successful run exact

  ghost predicate Completes(job: Job, answers: seq<Answer>) {
    LawfulRun(job, Begin(job), answers) && Run(job, Begin(job), answers).1 == Some(CompleteOk)
  }

  ghost predicate AlwaysExact(job: Job) {
    forall answers | Completes(job, answers) ::
      var w := Run(job, Begin(job), answers).0; ExactlyTransferred(job, w.done, w.files)
  }

  ghost predicate MovesTwiceInARow(job: Job) {
    job.removes && exists k: nat :: k + 1 < |job.ids| && job.ids[k] == job.ids[k + 1]
  }

  /** Within one directory, whether any run can complete: the first id exists, and no id is moved twice in a row. */
  ghost predicate Runnable(job: Job) {
    (job.ids != [] ==> Origin(job, job.ids[0]) in job.before) && !MovesTwiceInARow(job)
  }

  predicate AllExist(job: Job) {
    forall id | id in job.ids :: Origin(job, id) in job.before
  }

  /** Safe within one directory: a copy of ids that all exist, a move of at most one, or a job that never completes. */
  ghost predicate NamesCannotClash(job: Job) {
    (if job.removes then |job.ids| <= 1 else AllExist(job)) || !Runnable(job)
  }

  lemma {:induction false} FeasiblePrefix(job: Job, done: seq<(string, Place)>, n: nat)
    requires Feasible(job, done) && n < |done|
    ensures Feasible(job, done[..n]) && Feasible(job, done[..n + 1])
    ensures Origin(job, done[n].0) in Transferred(job, done[..n])
    ensures done[n].1 !in Transferred(job, done[..n]) && done[n].1.dir == job.target
    ensures Transferred(job, done[..n + 1]) == TransferOne(job, Transferred(job, done[..n]), done[n].0, done[n].1)
    decreases |done|
  {
    var before := done[..|done| - 1];
    if n < |before| {
      FeasiblePrefix(job, before, n);
      assert before[..n] == done[..n] && before[..n + 1] == done[..n + 1];
    } else {
      assert done[..n] == before && done[..n + 1] == done;
    }
  }

  /** A copy keeps everything that was there. */
  lemma {:induction false} CopyKeeps(job: Job, done: seq<(string, Place)>)
    requires Feasible(job, done) && !job.removes
    ensures job.before.Keys <= Transferred(job, done).Keys
    decreases |done|
  {
    if done != [] {
      CopyKeeps(job, done[..|done| - 1]);
    }
  }

  lemma {:induction false} CopyIsFresh(job: Job, done: seq<(string, Place)>)
    requires Feasible(job, done) && !job.removes && forall k | 0 <= k < |done| :: Origin(job, done[k].0) in job.before
    ensures FreshIds(job, done)
  {
    forall j, k | 0 <= j < |done| && 0 <= k < |done| ensures done[k].1 != Origin(job, done[j].0) {
      FeasiblePrefix(job, done, k);
      CopyKeeps(job, done[..k]);
    }
  }

  lemma {:induction false} FeasibleIsRunnable(job: Job, done: seq<(string, Place)>)
    requires Feasible(job, done) && |done| == |job.ids| && forall k | 0 <= k < |done| :: done[k].0 == job.ids[k]
    ensures Runnable(job)
  {
    if done != [] {
      FeasiblePrefix(job, done, 0);
      assert done[..0] == [];
    }
    if MovesTwiceInARow(job) {
      var k: nat :| k + 1 < |job.ids| && job.ids[k] == job.ids[k + 1];
      FeasiblePrefix(job, done, k);
      FeasiblePrefix(job, done, k + 1);
    }
  }

  lemma {:induction false} NoClashIsFresh(job: Job, done: seq<(string, Place)>)
    requires Feasible(job, done) && |done| == |job.ids| && forall k | 0 <= k < |done| :: done[k].0 == job.ids[k]
    requires job.source != job.target || NamesCannotClash(job)
    ensures FreshIds(job, done)
  {
    FeasibleIsRunnable(job, done);
    if job.source != job.target {
      OtherDirectoryIsFresh(job, done);
    } else if job.removes {
      if done != [] {
        FeasiblePrefix(job, done, 0);
      }
    } else {
      CopyIsFresh(job, done);
    }
  }

  // A run within one directory that reuses the names of the job's own ids wherever it can.

  ghost function Named(files: Files): seq<string> {
    Listed(set p | p in files :: p.id)
  }

  ghost function ReusedPlace(job: Job, files: Files, n: nat): (place: Place)
    requires n < |job.ids|
    ensures job.source == job.target ==> place !in files && place.dir == job.target
  {
    if n + 1 < |job.ids| && Origin(job, job.ids[n + 1]) !in files then Origin(job, job.ids[n + 1])
    else if Origin(job, job.ids[0]) !in files then Origin(job, job.ids[0])
    else
      var place := Place(job.target, LongerThan(Named(files)));
      assert place in files ==> place.id in Named(files);
      place
  }

  /** Some of the job's ids finished, in order, and the next one there to be taken. */
  ghost predicate Partial(job: Job, done: seq<(string, Place)>) {
    && |done| <= |job.ids| && Feasible(job, done)
    && (forall k | 0 <= k < |done| :: done[k].0 == job.ids[k])
    && (|done| < |job.ids| ==> Origin(job, job.ids[|done|]) in Transferred(job, done))
  }

  /** One more id finished, its name reused from the job where it can be. */
  ghost function OneMore(job: Job, done: seq<(string, Place)>): (more: seq<(string, Place)>)
    requires job.source == job.target && Runnable(job) && Partial(job, done) && |done| < |job.ids|
    ensures Partial(job, more) && |more| == |done| + 1 && done <= more
    ensures more[|done|].1 == ReusedPlace(job, Transferred(job, done), |done|)
    ensures Transferred(job, more) == TransferOne(job, Transferred(job, done), more[|done|].0, more[|done|].1)
  {
    var place := ReusedPlace(job, Transferred(job, done), |done|);
    FinishOne(job, done, job.ids[|done|], place);
    done + [(job.ids[|done|], place)]
  }

  ghost function Reusing(job: Job, done: seq<(string, Place)>): (all: seq<(string, Place)>)
    requires job.source == job.target && Runnable(job) && Partial(job, done)
    ensures Partial(job, all) && |all| == |job.ids| && done <= all
    decreases |job.ids| - |done|
  {
    if |done| == |job.ids| then done else Reusing(job, OneMore(job, done))
  }

  /** The answers that finish one id. */
  function AnswersFor(job: Job, contents: string, place: Place): seq<Answer> {
    [Answer(GetOk(contents), NoEffect), Answer(StoreOk, Added(place))]
    + if job.removes then [Answer(DeleteOk, Removed)] else []
  }

  ghost predicate IdleAfter(job: Job, w: World, done: seq<(string, Place)>) {
    Inv(job, w) && w.m.stage.Idle? && w.done == done
  }

  /** The first answers take a run from `w` to `w'`, whatever follows. */
  ghost predicate Leads(job: Job, w: World, first: seq<Answer>, w': World, rest: seq<Answer>) {
    && Run(job, w, first + rest) == Run(job, w', rest)
    && (LawfulRun(job, w', rest) ==> LawfulRun(job, w, first + rest))
  }

  lemma {:induction false} RunOneId(job: Job, w: World, id: string, place: Place) returns (w': World)
    requires IdleAfter(job, w, w.done) && |w.done| < |job.ids| && id == job.ids[|w.done|]
    requires Origin(job, id) in w.files && place !in w.files && place.dir == job.target
    ensures IdleAfter(job, w', w.done + [(id, place)])
    ensures forall rest :: Leads(job, w, AnswersFor(job, w.files[Origin(job, id)], place), w', rest)
  {
    var contents := w.files[Origin(job, id)];
    var a1, a2, a3 := Answer(GetOk(contents), NoEffect), Answer(StoreOk, Added(place)), Answer(DeleteOk, Removed);
    var s := w.(m := Start(w.m));
    StartKeepsInv(job, w);
    var w1 := WorldAfter(job, s, a1);
    StepKeepsInv(job, s, a1);
    var w2 := WorldAfter(job, w1, a2);
    StepKeepsInv(job, w1, a2);
    if job.removes {
      w' := WorldAfter(job, w2, a3);
      StepKeepsInv(job, w2, a3);
    } else {
      w' := w2;
    }
    forall rest ensures Leads(job, w, AnswersFor(job, contents, place), w', rest) {
      var tail := if job.removes then [a3] + rest else rest;
      assert AnswersFor(job, contents, place) + rest == [a1] + ([a2] + tail);
      if job.removes {
        RunOneAnswer(job, w2, a3, rest);
      }
      RunOneAnswer(job, w1, a2, tail);
      RunOneAnswer(job, w, a1, [a2] + tail);
    }
  }

  lemma {:induction false} RunOneAnswer(job: Job, w: World, a: Answer, rest: seq<Answer>)
    requires var s := w.(m := Start(w.m));
      !s.m.stage.Idle? && Lawful(job, s, a) && Step(s.m, a.outcome).1 != Some(CompleteErr)
    ensures var next := WorldAfter(job, w.(m := Start(w.m)), a);
      && Run(job, w, [a] + rest) == Run(job, next, rest)
      && (LawfulRun(job, next, rest) ==> LawfulRun(job, w, [a] + rest))
  {
    assert ([a] + rest)[1..] == rest;
  }

  /** Any feasible way to finish the ids is a run. */
  lemma {:induction false} FeasibleRuns(job: Job, w: World, done: seq<(string, Place)>) returns (answers: seq<Answer>)
    requires Feasible(job, done) && |done| == |job.ids| && forall k | 0 <= k < |done| :: done[k].0 == job.ids[k]
    requires |w.done| <= |done| && IdleAfter(job, w, done[..|w.done|])
    ensures LawfulRun(job, w, answers)
    ensures Run(job, w, answers).1 == Some(CompleteOk) && Run(job, w, answers).0.done == done
    decreases |done| - |w.done|
  {
    var n := |w.done|;
    if n == |done| {
      answers := [];
    } else {
      var first, w' := NextId(job, w, done);
      var rest := FeasibleRuns(job, w', done);
      answers := first + rest;
      assert Leads(job, w, first, w', rest);
    }
  }

  lemma {:induction false} NextId(job: Job, w: World, done: seq<(string, Place)>)
    returns (first: seq<Answer>, w': World)
    requires Feasible(job, done) && |done| == |job.ids| && forall k | 0 <= k < |done| :: done[k].0 == job.ids[k]
    requires |w.done| < |done| && IdleAfter(job, w, done[..|w.done|])
    ensures IdleAfter(job, w', done[..|w.done| + 1]) && |w'.done| == |w.done| + 1
    ensures forall rest :: Leads(job, w, first, w', rest)
  {
    var n := |w.done|;
    FeasiblePrefix(job, done, n);
    first := AnswersFor(job, w.files[Origin(job, done[n].0)], done[n].1);
    w' := RunOneId(job, w, done[n].0, done[n].1);
    assert done[..n] + [done[n]] == done[..n + 1];
  }

  /** The second id moved takes the name the first one had. */
  lemma {:induction false} SecondTakesFirst(job: Job)
    requires job.source == job.target && Runnable(job) && job.removes && AllExist(job) && |job.ids| >= 2
    ensures !FreshIds(job, Reusing(job, []))
  {
    var one := OneMore(job, []);
    var files := Transferred(job, one);
    assert job.ids[0] in job.ids && job.ids[1] in job.ids;
    var two := OneMore(job, one);
    ThirdIdStays(job, one);
    assert two[1].1 == Origin(job, job.ids[0]);
    assert Reusing(job, []) == Reusing(job, one) == Reusing(job, two);
    assert Reusing(job, [])[1] == two[1] && Reusing(job, [])[0].0 == job.ids[0];
  }

  /** After the first id is moved its name is free, and a third one is still there unless it is the same id. */
  lemma {:induction false} ThirdIdStays(job: Job, one: seq<(string, Place)>)
    requires job.source == job.target && Runnable(job) && job.removes && AllExist(job) && |job.ids| >= 2
    requires one == OneMore(job, [])
    ensures ReusedPlace(job, Transferred(job, one), 1) == Origin(job, job.ids[0])
  {
    var files := Transferred(job, one);
    assert job.ids[0] in job.ids;
    assert files == TransferOne(job, job.before, job.ids[0], one[0].1);
    assert Origin(job, job.ids[0]) !in files;
    if |job.ids| > 2 {
      assert job.ids[2] in job.ids;
      assert Origin(job, job.ids[2]) in files || job.ids[2] == job.ids[0];
    }
  }

  lemma {:induction false} ExactMeansAllExist(job: Job, done: seq<(string, Place)>, files: Files)
    requires ExactlyTransferred(job, done, files)
    requires |done| == |job.ids| && forall k | 0 <= k < |done| :: done[k].0 == job.ids[k]
    ensures AllExist(job)
  {
    forall id | id in job.ids ensures Origin(job, id) in job.before {
      var k :| 0 <= k < |job.ids| && job.ids[k] == id;
      assert EntryMade(job, done[k], files);
    }
  }

  /** A job that is not safe has a lawful run that completes successfully and is not exact. */
  lemma {:induction false} SomeRunIsInexact(job: Job) returns (answers: seq<Answer>)
    requires job.source == job.target && !NamesCannotClash(job)
    ensures Completes(job, answers)
    ensures var w := Run(job, Begin(job), answers).0; !ExactlyTransferred(job, w.done, w.files)
  {
    var done := Reusing(job, []);
    assert done[..0] == [] && Begin(job).done == [];
    answers := FeasibleRuns(job, Begin(job), done);
    var files := Run(job, Begin(job), answers).0.files;
    if AllExist(job) {
      SecondTakesFirst(job);
      if ExactlyTransferred(job, done, files) {
        ExactlyIsFresh(job, done, files);
      }
    } else if ExactlyTransferred(job, done, files) {
      ExactMeansAllExist(job, done, files);
    }
  }

  /**
   Every successful run is exact if and only if the directories differ, or the job is a copy of ids that all
   exist, or a move of at most one, or no run of it can succeed at all.
   */
  lemma {:induction false} AlwaysExactIff(job: Job)
    ensures AlwaysExact(job) <==> job.source != job.target || NamesCannotClash(job)
  {
    if job.source != job.target || NamesCannotClash(job) {
      forall answers | Completes(job, answers)
        ensures var w := Run(job, Begin(job), answers).0; ExactlyTransferred(job, w.done, w.files)
      {
        SuccessTransfersExactlyIff(job, answers);
        NoClashIsFresh(job, Run(job, Begin(job), answers).0.done);
      }
    } else {
      var answers := SomeRunIsInexact(job);
      assert Completes(job, answers);
    }
  }

  /** For instance: moving `a` and `b` within their directory, where `b` can take the name that `a` just left. */
  lemma {:induction false} SecondMoveMayTakeTheFirstName(dir: string, a: string, b: string, files: Files)
    requires a != b && Place(dir, a) in files && Place(dir, b) in files
    ensures !AlwaysExact(Job(dir, dir, true, [a, b], files))
  {
    var job := Job(dir, dir, true, [a, b], files);
    AlwaysExactIff(job);
  }

  // ----- going on after an error

  /** Like `Run`, but the caller calls again after an error, and the next id is taken. */
  function RunOn(job: Job, w: World, answers: seq<Answer>): World
    decreases |answers|
  {
    var s := w.(m := Start(w.m));
    if answers == [] then w
    else if s.m.stage.Idle? then s
    else RunOn(job, WorldAfter(job, s, answers[0]), answers[1..])
  }

  ghost predicate LawfulRunOn(job: Job, w: World, answers: seq<Answer>)
    decreases |answers|
  {
    var s := w.(m := Start(w.m));
    answers == [] || s.m.stage.Idle?
    || (Lawful(job, s, answers[0]) && LawfulRunOn(job, WorldAfter(job, s, answers[0]), answers[1..]))
  }

  /** What every stage needs for the next removal to be safe, whatever happened before. */
  ghost predicate Safe(job: Job, w: World) {
    && NothingLost(job, w.files)
    && match w.m.stage
       case Idle => true
       case Getting(id) => w.m.currentId == Some(id)
       case Storing(contents) =>
         && w.m.currentId.Some?
         && var o := Origin(job, w.m.currentId.value);
         && o in w.files && w.files[o] == contents
         && (w.stored.Some? ==> Copied(job, w.files, w.stored.value, o))
       case Deleting(id) => w.stored.Some? && Copied(job, w.files, w.stored.value, Origin(job, id))
  }

  /** The target holds another entry with the contents of `o`, as long as `o` is there. */
  ghost predicate Copied(job: Job, files: Files, p: Place, o: Place) {
    p in files && p.dir == job.target && p != o && (o in files ==> files[p] == files[o])
  }

  lemma {:induction false} AddingIsSafe(job: Job, files: Files, p: Place, contents: string)
    requires NothingLost(job, files) && p !in files
    ensures NothingLost(job, files[p := contents])
  {
    forall q | q in job.before && q.dir == job.source ensures Survives(job, files[p := contents], q) {
      assert Survives(job, files, q);
      if !(q in files && files[q] == job.before[q]) {
        var t :| t in files && t.dir == job.target && files[t] == job.before[q];
        assert t in files[p := contents] && files[p := contents][t] == job.before[q];
      }
    }
  }

  lemma {:induction false} RemovingIsSafe(job: Job, files: Files, p: Place, o: Place)
    requires NothingLost(job, files) && Copied(job, files, p, o)
    ensures NothingLost(job, files - {o})
  {
    forall q | q in job.before && q.dir == job.source ensures Survives(job, files - {o}, q) {
      assert Survives(job, files, q);
      if q in files && files[q] == job.before[q] {
        if q == o {
          assert p in files - {o} && (files - {o})[p] == job.before[q];
        }
      } else {
        var t :| t in files && t.dir == job.target && files[t] == job.before[q];
        var t' := if t == o then p else t;
        assert t' in files - {o} && t'.dir == job.target && (files - {o})[t'] == job.before[q];
      }
    }
  }

  lemma {:induction false} AnswerIsSafe(job: Job, w: World, a: Answer)
    requires Safe(job, w) && !w.m.stage.Idle? && Lawful(job, w, a)
    ensures Safe(job, WorldAfter(job, w, a))
  {
    match w.m.stage {
      case Getting(_) =>
      case Storing(contents) =>
        if a.effect.Added? {
          AddingIsSafe(job, w.files, a.effect.place, contents);
        }
      case Deleting(id) =>
        if a.effect.Removed? {
          RemovingIsSafe(job, w.files, w.stored.value, Origin(job, id));
        }
    }
  }

  lemma {:induction false} RunOnIsSafe(job: Job, w: World, answers: seq<Answer>)
    requires Safe(job, w) && LawfulRunOn(job, w, answers)
    ensures NothingLost(job, RunOn(job, w, answers).files)
    decreases |answers|
  {
    var s := w.(m := Start(w.m));
    if answers != [] && !s.m.stage.Idle? {
      AnswerIsSafe(job, s, answers[0]);
      RunOnIsSafe(job, WorldAfter(job, s, answers[0]), answers[1..]);
    }
  }

  /** Safety also when the transfer goes on after errors: no message of the source is ever lost. */
  lemma {:induction false} GoingOnLosesNoMessage(job: Job, answers: seq<Answer>)
    requires LawfulRunOn(job, Begin(job), answers)
    ensures NothingLost(job, RunOn(job, Begin(job), answers).files)
  {
    RunOnIsSafe(job, Begin(job), answers);
  }

  /** Each call goes on from where the last one stopped, error or not. */
  lemma {:induction false} ResumeGoesOn(job: Job, w: World, answers: seq<Answer>)
    ensures var (m', rest, out) := Loop(w.m, Outcomes(answers));
      && |rest| <= |answers| && rest == Outcomes(answers)[|answers| - |rest|..]
      && Start(RunOn(job, w, answers[..|answers| - |rest|]).m) == Start(m')
    decreases |answers|
  {
    var s := w.(m := Start(w.m));
    var inner := Outcomes(answers);
    if s.m.stage.Idle? {
      assert answers[..0] == [];
    } else if answers == [] {
      assert inner == [] && answers[..0] == answers;
    } else {
      var rest := Loop(w.m, inner).1;
      assert inner[1..] == Outcomes(answers[1..]);
      var next := WorldAfter(job, s, answers[0]);
      if Step(s.m, inner[0]).1.None? {
        ResumeGoesOn(job, next, answers[1..]);
        var n := |answers| - |rest|;
        assert answers[..n][1..] == answers[1..][..n - 1] && answers[..n][0] == answers[0];
        assert inner[n..] == inner[1..][n - 1..];
      } else {
        assert answers[..1][1..] == [] && answers[..1][0] == answers[0];
      }
    }
  }

  /**
   An error skips the id in hand and no other: the next call goes on like a new transfer of the ids not yet
   begun.
   */
  lemma {:induction false} ErrorSkipsOneId(m: Machine, o: Inner, inner: seq<Inner>)
    requires !m.stage.Idle? && Step(m, o).1 == Some(CompleteErr)
    ensures var next, anew := Step(m, o).0, Machine(m.removes, m.pending, None, Idle);
      && Loop(next, inner).1 == Loop(anew, inner).1 && Loop(next, inner).2 == Loop(anew, inner).2
      && (m.pending != [] ==> Loop(next, inner) == Loop(anew, inner))
  {
    assert Step(m, o).0.stage.Idle?;
  }

  /** But then success no longer means that every id was transferred: the one whose get failed was skipped. */
  lemma {:induction false} SuccessAfterErrorSkipsAnId(job: Job, id: string)
    requires job.ids == [id]
    ensures var first := [Answer(Failed, NoEffect)];
      var w := RunOn(job, Begin(job), first);
      && LawfulRunOn(job, Begin(job), first)
      && Loop(Begin(job).m, Outcomes(first)).2 == CompleteErr
      && Loop(w.m, []).2 == CompleteOk && w.files == job.before
  {
    var first := [Answer(Failed, NoEffect)];
    assert first[1..] == [] && Outcomes(first) == [Failed];
    assert [id][1..] == [];
  }
}
