/**
 * The workbench coordinator and its workers (`coordinator.ts` and the guards of `workspace.ts`): commands, stops,
 * restores and worker replies interleave at every yield. A command that was overtaken by a replacement finds the
 * generation changed; replies of replaced workers change nothing.
 */
module Coordinator {
  import opened Basics

  type Snapshot = nat

  datatype Build = Build(revision: int, success: bool)

  datatype View = View(generation: int, revision: int, build: Option<Build>, checkpoint: nat)

  datatype Reply = Reply(view: View, snapshot: Option<Snapshot>)

  datatype Action = ViewAction | Compile | Run | CompileRun | Save | Restore | Stop | Reset

  datatype Command = Command(action: Action, generation: int, revision: int, edits: nat)

  // ---------------------------------------------------------------- the worker

  datatype Request = Boot(generation: int, from: Option<Snapshot>) | Execute(action: Action, generation: int, revision: int, edits: nat)

  /** One worker's workspace; `replaced` once the coordinator has given it up. */
  datatype Worker = Worker(started: bool, generation: int, revision: int, checkpoint: nat, build: Option<Build>, replaced: bool)

  const IDLE := Worker(false, 0, 0, 0, None, false)

  /** What the world decides about one execution: whether an edit changes text, the compiler's verdict, what fails. */
  datatype Chance = Chance(edited: bool, compiled: bool, fails: bool, snapshot: Snapshot)

  function ViewOf(w: Worker): View { View(w.generation, w.revision, w.build, w.checkpoint) }

  /** `execute`: the generation and revision guards, then the transition. */
  function ExecuteRequest(w: Worker, r: Request, chance: Chance): (Worker, Option<Reply>) {
    match r
    case Boot(generation, _) =>
      if chance.fails then (w, None)
      else
        var next := w.(started := true, generation := generation, revision := 0, build := None);
        (next, Some(Reply(ViewOf(next), Some(chance.snapshot))))
    case Execute(action, generation, revision, edits) =>
      if !w.started || generation != w.generation || revision != w.revision || (edits > 0 && action == Run) then (w, None)
      else
        var edited := if edits > 0 && chance.edited then w.(revision := w.revision + 1) else w;
        if chance.fails then (edited, None)
        else if action == Compile then
          var next := edited.(build := Some(Build(edited.revision, chance.compiled)));
          (next, Some(Reply(ViewOf(next), None)))
        else if action == Run then
          if edited.build != Some(Build(edited.revision, true)) then (edited, None) else (edited, Some(Reply(ViewOf(edited), None)))
        else if action == Save then
          var next := edited.(generation := edited.generation + 1, revision := 0, checkpoint := edited.checkpoint + 1, build := None);
          (next, Some(Reply(ViewOf(next), Some(chance.snapshot))))
        else (edited, Some(Reply(ViewOf(edited), None)))
  }

  /** A reply shows its worker; only a save moves the generation on, and only boots and saves bring a snapshot. */
  lemma ReplyShowsWorker(w: Worker, r: Request, chance: Chance)
    ensures var (next, reply) := ExecuteRequest(w, r, chance);
            && next.replaced == w.replaced
            && (reply.Some? ==> reply.value.view.generation == next.generation)
            && (reply.Some? && r.Boot? ==> next.generation == r.generation && reply.value.snapshot.Some?)
            && (reply.Some? && r.Execute? ==>
                  && (reply.value.snapshot.Some? <==> r.action == Save)
                  && next.generation == if r.action == Save then r.generation + 1 else r.generation)
  {
  }

  // ---------------------------------------------------------------- the coordinator's own variables

  datatype Core = Core(generation: int, saved: Snapshot, saves: nat, state: View, handle: nat, closing: bool)

  /** `replace` up to the first yield: claim the workspace, unless it was replaced already. */
  function Claim(c: Core, expected: int): Option<Core> {
    if c.closing || c.generation != expected then None else Some(c.(generation := c.generation + 1))
  }

  /** The end of `replace`. */
  function Restored(c: Core, reset: bool, reply: Reply): Core {
    var shown := c.(state := reply.view.(checkpoint := if reset then 0 else c.saves));
    if reset && reply.snapshot.Some? then shown.(saved := reply.snapshot.value, saves := 0)
    else if reset then shown.(saves := 0)
    else shown
  }

  datatype Admission = Refuse | Replace(reset: bool) | Send(action: Action)

  /** What a command may do once it holds the gate. */
  function Admit(c: Core, input: Command): Admission {
    if input.generation != c.generation || input.generation != c.state.generation || input.revision != c.state.revision then Refuse
    else if input.action == Restore || input.action == Reset then Replace(input.action == Reset)
    else if input.action == Run then
      if input.edits > 0 || c.state.build.None? || !c.state.build.value.success || c.state.build.value.revision != c.state.revision
      then Refuse
      else Send(Run)
    else Send(if input.action == CompileRun then Compile else input.action)
  }

  datatype Verdict = Stale | Failed | Accept(next: Core, goOn: bool)

  /** The reply to a command other than a run. */
  function TakeReply(c: Core, expected: int, requested: Action, reply: Option<Reply>): Verdict {
    if reply.None? then Failed
    else if c.closing || c.generation != expected then Stale
    else
      var shown := c.(state := reply.value.view.(checkpoint := c.saves));
      var next :=
        if reply.value.snapshot.Some? then
          shown.(saved := reply.value.snapshot.value, saves := c.saves + 1,
                 state := shown.state.(checkpoint := c.saves + 1), generation := shown.state.generation)
        else shown;
      Accept(next, requested == CompileRun && next.state.build.Some? && next.state.build.value.success)
  }

  /** The reply to a run; a failed run restores the save point. */
  function TakeRun(c: Core, expected: int, reply: Option<Reply>): Verdict {
    if c.closing || c.generation != expected then Stale
    else if reply.None? then Failed
    else Accept(c.(state := reply.value.view.(checkpoint := c.saves)), false)
  }

  /** The coordinator as the source keeps it: one variable per field, reassigned between yields. */
  class Variables {
    var generation: int
    var saved: Snapshot
    var saves: nat
    var state: View
    var handle: nat
    var closing: bool

    function Now(): Core reads this { Core(generation, saved, saves, state, handle, closing) }

    constructor (initial: Reply, handle: nat)
      ensures Now() == Core(0, if initial.snapshot.Some? then initial.snapshot.value else 0, 0, initial.view, handle, false)
    {
      generation, saves, state, this.handle, closing := 0, 0, initial.view, handle, false;
      saved := if initial.snapshot.Some? then initial.snapshot.value else 0;
    }

    method ClaimReplacement(expected: int) returns (ok: bool)
      modifies this
      ensures Claim(old(Now()), expected) == if ok then Some(Now()) else None
      ensures !ok ==> Now() == old(Now())
      ensures ok <==> !old(closing) && old(generation) == expected
      ensures ok ==> generation == expected + 1 && saved == old(saved) && saves == old(saves) && state == old(state)
    {
      if closing || generation != expected { return false; }
      generation := generation + 1;
      return true;
    }

    method FinishReplacement(reset: bool, reply: Reply)
      modifies this
      ensures Now() == Restored(old(Now()), reset, reply)
      ensures !reset ==> saved == old(saved) && saves == old(saves)
      ensures state.checkpoint == saves && generation == old(generation)
    {
      state := reply.view.(checkpoint := if reset then 0 else saves);
      if reset {
        if reply.snapshot.Some? { saved := reply.snapshot.value; }
        saves := 0;
      }
    }

    method ReceiveReply(expected: int, requested: Action, reply: Option<Reply>) returns (v: Verdict)
      modifies this
      ensures v == TakeReply(old(Now()), expected, requested, reply)
      ensures Now() == if v.Accept? then v.next else old(Now())
      ensures v.Accept? <==> reply.Some? && !old(closing) && old(generation) == expected
      ensures v.Accept? ==> state.checkpoint == saves && handle == old(handle)
      ensures saved != old(saved) || saves != old(saves) || generation != old(generation) ==>
                v.Accept? && reply.value.snapshot == Some(saved) && saves == old(saves) + 1 && generation == state.generation
    {
      if reply.None? { return Failed; }
      if closing || generation != expected { return Stale; }
      state := reply.value.view.(checkpoint := saves);
      if reply.value.snapshot.Some? {
        saved := reply.value.snapshot.value;
        saves := saves + 1;
        state := state.(checkpoint := saves);
        generation := state.generation;
      }
      return Accept(Now(), requested == CompileRun && state.build.Some? && state.build.value.success);
    }

    method ReceiveRun(expected: int, reply: Option<Reply>) returns (v: Verdict)
      modifies this
      ensures v == TakeRun(old(Now()), expected, reply)
      ensures Now() == if v.Accept? then v.next else old(Now())
      ensures saved == old(saved) && saves == old(saves) && generation == old(generation)
    {
      if closing || generation != expected { return Stale; }
      if reply.None? { return Failed; }
      state := reply.value.view.(checkpoint := saves);
      return Accept(Now(), false);
    }
  }

  // ---------------------------------------------------------------- the whole system

  type FiberId = nat

  /** Whether a reply has come: not sent on yet, or an answer or a failure. */
  datatype Answer = Pending | Answered(reply: Option<Reply>)

  /** Where a command's fiber waits. */
  datatype Fiber =
    | Starting(input: Command)
    | AtGate(input: Command)
    | AtView
    | Awaiting(requested: Action, running: bool, worker: nat, expected: int, request: Request, answer: Answer)
    | AtReplacement(reset: bool, expected: int)
    | ClosingWorker(reset: bool)
    | Spawning(reset: bool)
    | Booting(reset: bool, worker: nat, request: Request, answer: Answer)
    | Done

  /** `gate` and `permit` name the fibers that hold the two semaphores. */
  datatype System = System(
    core: Core, workers: seq<Worker>, fibers: map<FiberId, Fiber>, gate: Option<FiberId>, permit: Option<FiberId>)

  datatype Step =
    | Submit(fiber: FiberId, input: Command)
    | Begin(fiber: FiberId)
    | EnterGate(fiber: FiberId)
    | ShowView(fiber: FiberId)
    | WorkerRuns(fiber: FiberId, chance: Chance)
    | ReplyLost(fiber: FiberId)
    | Resume(fiber: FiberId)
    | EnterReplacement(fiber: FiberId)
    | WorkerClosed(fiber: FiberId)
    | WorkerSpawned(fiber: FiberId, ok: bool)
    | Shutdown
    | Interrupt(fiber: FiberId)

  /** A fiber ends and gives back what it holds. */
  function Finish(s: System, f: FiberId): System {
    s.(fibers := s.fibers[f := Done],
       gate := if s.gate == Some(f) then None else s.gate,
       permit := if s.permit == Some(f) then None else s.permit)
  }

  function Go(s: System, f: FiberId, pc: Fiber): System { s.(fibers := s.fibers[f := pc]) }

  /** Send the run of the current source to the active worker. */
  function SendRun(s: System, f: FiberId): System {
    var c := s.core;
    Go(s, f, Awaiting(Run, true, c.handle, c.generation, Execute(Run, c.state.generation, c.state.revision, 0), Pending))
  }

  function EnterGateStep(s: System, f: FiberId, input: Command): System {
    if input.action == ViewAction then Go(s.(gate := Some(f)), f, AtView)
    else
      match Admit(s.core, input)
      case Refuse => Finish(s, f)
      case Replace(reset) => Go(s.(gate := Some(f)), f, AtReplacement(reset, input.generation))
      case Send(Run) => SendRun(s.(gate := Some(f)), f)
      case Send(action) =>
        Go(s.(gate := Some(f)), f,
           Awaiting(input.action, false, s.core.handle, s.core.generation,
                    Execute(action, input.generation, input.revision, input.edits), Pending))
  }

  function ResumeAwaiting(s: System, f: FiberId, p: Fiber, reply: Option<Reply>): System
    requires p.Awaiting?
  {
    if p.running then
      match TakeRun(s.core, p.expected, reply)
      case Stale => Finish(s, f)
      case Failed => Go(s, f, AtReplacement(false, p.expected))
      case Accept(next, _) => Finish(s.(core := next), f)
    else
      match TakeReply(s.core, p.expected, p.requested, reply)
      case Stale => Finish(s, f)
      case Failed => Finish(s, f)
      // A run after a compile keeps the expected generation it started with.
      case Accept(next, goOn) =>
        if goOn then
          Go(s.(core := next), f,
             Awaiting(Run, true, p.worker, p.expected, Execute(Run, next.state.generation, next.state.revision, 0), Pending))
        else Finish(s.(core := next), f)
  }

  function WorkerStep(s: System, f: FiberId, worker: nat, request: Request, chance: Chance): (System, Answer)
    requires worker < |s.workers|
  {
    var (next, reply) := ExecuteRequest(s.workers[worker], request, chance);
    (s.(workers := s.workers[worker := next]), Answered(reply))
  }

  /** The worker executes what the fiber asked of it; one that is being replaced may still do so. */
  function WorkerRunsStep(s: System, f: FiberId, p: Fiber, chance: Chance): Option<System>
    requires p.Awaiting? || p.Booting?
  {
    if !p.answer.Pending? || p.worker >= |s.workers| then None
    else
      var (t, answer) := WorkerStep(s, f, p.worker, p.request, chance);
      Some(Go(t, f, WithAnswer(p, answer)))
  }

  function WithAnswer(p: Fiber, answer: Answer): Fiber
    requires p.Awaiting? || p.Booting?
  {
    if p.Awaiting? then Awaiting(p.requested, p.running, p.worker, p.expected, p.request, answer)
    else Booting(p.reset, p.worker, p.request, answer)
  }

  function ResumeStep(s: System, f: FiberId, p: Fiber): Option<System> {
    if p.Awaiting? && p.answer.Answered? then Some(ResumeAwaiting(s, f, p, p.answer.reply))
    else if p.Booting? && p.answer.Answered? then
      if p.answer.reply.None? then Some(Finish(s, f))
      else Some(Finish(s.(core := Restored(s.core, p.reset, p.answer.reply.value)), f))
    else None
  }

  function EnterReplacementStep(s: System, f: FiberId, p: Fiber): Option<System> {
    if !p.AtReplacement? || s.permit.Some? || s.core.handle >= |s.workers| then None
    else
      match Claim(s.core, p.expected)
      case None => Some(Finish(s, f))
      case Some(core) =>
        Some(Go(s.(core := core, permit := Some(f),
                   workers := s.workers[s.core.handle := s.workers[s.core.handle].(replaced := true)]),
                f, ClosingWorker(p.reset)))
  }

  function SpawnedStep(s: System, f: FiberId, p: Fiber, ok: bool): Option<System> {
    if !p.Spawning? then None
    else if !ok then Some(Finish(s, f))
    else
      Some(Go(s.(workers := s.workers + [IDLE], core := s.core.(handle := |s.workers|)), f,
              Booting(p.reset, |s.workers|, Boot(s.core.generation, if p.reset then None else Some(s.core.saved)), Pending)))
  }

  function BeginStep(s: System, f: FiberId, p: Fiber): Option<System> {
    if !p.Starting? then None
    else if s.core.closing then Some(Finish(s, f))
    else if p.input.action == Stop then Some(Go(s, f, AtReplacement(false, p.input.generation)))
    else Some(Go(s, f, AtGate(p.input)))
  }

  /** One step from one yield to the next; `None` when it cannot be taken. */
  function Next(s: System, step: Step): Option<System> {
    if step.Shutdown? then Some(s.(core := s.core.(closing := true)))
    else if step.Submit? then
      if step.fiber in s.fibers || s.core.closing then None else Some(Go(s, step.fiber, Starting(step.input)))
    else
      var f := step.fiber;
      if f !in s.fibers then None
      else
        var p := s.fibers[f];
        match step
        case Begin(_) => BeginStep(s, f, p)
        case EnterGate(_) => if p.AtGate? && s.gate.None? then Some(EnterGateStep(s, f, p.input)) else None
        case ShowView(_) => if p.AtView? && s.permit.None? then Some(Finish(s, f)) else None
        case WorkerRuns(_, chance) => if p.Awaiting? || p.Booting? then WorkerRunsStep(s, f, p, chance) else None
        case ReplyLost(_) => if p.Awaiting? || p.Booting? then Some(Go(s, f, WithAnswer(p, Answered(None)))) else None
        case Resume(_) => ResumeStep(s, f, p)
        case EnterReplacement(_) => EnterReplacementStep(s, f, p)
        case WorkerClosed(_) => if p.ClosingWorker? then Some(Go(s, f, Spawning(p.reset))) else None
        case WorkerSpawned(_, ok) => SpawnedStep(s, f, p, ok)
        case _ => if s.core.closing then Some(Finish(s, f)) else None
  }

  function Initial(reply: Reply): System {
    System(
      Core(0, if reply.snapshot.Some? then reply.snapshot.value else 0, 0, reply.view, 0, false),
      [Worker(true, 0, 0, 0, None, false)], map[], None, None)
  }

  function Steps(s: System, steps: seq<Step>): Option<System>
    decreases |steps|
  {
    if steps == [] then Some(s)
    else match Steps(s, steps[..|steps| - 1])
      case None => None
      case Some(t) => Next(t, steps[|steps| - 1])
  }

  // ---------------------------------------------------------------- what every step keeps

  predicate Replacing(p: Fiber) { p.ClosingWorker? || p.Spawning? || p.Booting? }

  /** A fiber that waits for a worker. */
  ghost predicate FiberOk(s: System, f: FiberId) {
    f in s.fibers &&
    match s.fibers[f]
    case Awaiting(requested, running, worker, expected, request, answer) =>
      && s.gate == Some(f) && worker < |s.workers| && request.Execute? && expected <= s.core.generation
      && request.generation == expected
      && (running ==> request.action == Run) && (!running ==> (request.action == Save <==> requested == Save))
      && (expected == s.core.generation <==> !s.workers[worker].replaced)
      && (!s.workers[worker].replaced ==> worker == s.core.handle)
      && (answer.Answered? && answer.reply.Some? ==> ReplyOk(s.workers[worker], expected, request, answer.reply.value))
    case ClosingWorker(_) => s.permit == Some(f)
    case Spawning(_) => s.permit == Some(f)
    case Booting(_, worker, request, answer) =>
      && s.permit == Some(f) && worker == s.core.handle && worker < |s.workers| && !s.workers[worker].replaced
      && request.Boot? && request.generation == s.core.generation
      && (answer.Answered? && answer.reply.Some? ==>
            answer.reply.value.view.generation == s.core.generation && answer.reply.value.snapshot.Some?)
    case _ => true
  }

  /** A reply still on its way shows the worker it came from. */
  ghost predicate ReplyOk(w: Worker, expected: int, request: Request, reply: Reply) {
    && request.Execute? && reply.view.generation == w.generation
    && (reply.snapshot.Some? <==> request.action == Save)
    && w.generation == if request.action == Save then expected + 1 else expected
  }

  ghost predicate Inv(s: System) {
    && s.core.handle < |s.workers| && s.core.state.generation <= s.core.generation
    && (s.core.state.generation == s.core.generation ==> s.permit.None? && !s.workers[s.core.handle].replaced)
    && (s.permit.Some? ==> s.permit.value in s.fibers && Replacing(s.fibers[s.permit.value]))
    && (s.permit.Some? ==> forall f :: f in s.fibers && s.fibers[f].Awaiting? ==> s.fibers[f].expected < s.core.generation)
    && (forall f :: f in s.fibers ==> FiberOk(s, f))
  }

  lemma InitialInv(reply: Reply)
    requires reply.view.generation == 0
    ensures Inv(Initial(reply))
  {
  }

  /** Ending a fiber keeps the invariant when the core changed in an allowed way. */
  lemma FinishInv(s: System, f: FiberId)
    requires f in s.fibers && s.core.handle < |s.workers| && s.core.state.generation <= s.core.generation
    requires s.core.state.generation == s.core.generation ==> (s.permit.None? || s.permit == Some(f)) && !s.workers[s.core.handle].replaced
    requires s.permit.Some? && s.permit != Some(f) ==>
               && s.permit.value in s.fibers && Replacing(s.fibers[s.permit.value])
               && forall g :: g in s.fibers && g != f && s.fibers[g].Awaiting? ==> s.fibers[g].expected < s.core.generation
    requires forall g :: g in s.fibers && g != f ==> FiberOk(s, g)
    requires forall g :: g in s.fibers && g != f && s.fibers[g].Awaiting? ==> s.gate != Some(f)
    requires forall g :: g in s.fibers && g != f && Replacing(s.fibers[g]) ==> s.permit != Some(f)
    ensures Inv(Finish(s, f))
  {
    var t := Finish(s, f);
    forall g | g in t.fibers ensures FiberOk(t, g) {
      if g != f { assert FiberOk(s, g); }
    }
  }

  /** A fiber that ends without touching the core. */
  lemma PlainFinishInv(s: System, f: FiberId)
    requires Inv(s) && f in s.fibers
    ensures Inv(Finish(s, f))
  {
    forall g | g in s.fibers && g != f && s.fibers[g].Awaiting? ensures s.gate != Some(f) { assert FiberOk(s, g); }
    forall g | g in s.fibers && g != f && Replacing(s.fibers[g]) ensures s.permit != Some(f) { assert FiberOk(s, g); }
    FinishInv(s, f);
  }

  /** A fiber that moves without touching anything else. */
  lemma GoInv(s: System, f: FiberId, p: Fiber)
    requires Inv(s) && (f in s.fibers ==> (Replacing(s.fibers[f]) ==> Replacing(p)))
    requires FiberOk(Go(s, f, p), f)
    requires p.Awaiting? && s.permit.Some? ==> p.expected < s.core.generation
    ensures Inv(Go(s, f, p))
  {
    var t := Go(s, f, p);
    forall g | g in t.fibers ensures FiberOk(t, g) {
      if g != f { assert FiberOk(s, g); }
    }
  }

  /** Taking the gate changes nothing else. */
  lemma GateInv(s: System, f: FiberId)
    requires Inv(s) && s.gate.None?
    ensures Inv(s.(gate := Some(f)))
  {
    var t := s.(gate := Some(f));
    forall g | g in t.fibers ensures FiberOk(t, g) { assert FiberOk(s, g); }
  }

  lemma EnterGateInv(s: System, f: FiberId, input: Command)
    requires Inv(s) && s.gate.None? && f in s.fibers && s.fibers[f] == AtGate(input)
    ensures Inv(EnterGateStep(s, f, input))
  {
    GateInv(s, f);
    var t := s.(gate := Some(f));
    if input.action == ViewAction {
      GoInv(t, f, AtView);
    } else {
      match Admit(s.core, input)
      case Refuse => PlainFinishInv(s, f);
      case Replace(reset) => GoInv(t, f, AtReplacement(reset, input.generation));
      case Send(action) =>
        if action == Run {
          GoInv(t, f, Awaiting(Run, true, s.core.handle, s.core.generation,
                               Execute(Run, s.core.state.generation, s.core.state.revision, 0), Pending));
        } else {
          GoInv(t, f, Awaiting(input.action, false, s.core.handle, s.core.generation,
                               Execute(action, input.generation, input.revision, input.edits), Pending));
        }
    }
  }

  /** A worker's execution is seen by the one fiber that waits for it. */
  lemma WorkerRunsInv(s: System, f: FiberId, chance: Chance)
    requires Inv(s) && Next(s, WorkerRuns(f, chance)).Some?
    ensures Inv(Next(s, WorkerRuns(f, chance)).value)
  {
    assert FiberOk(s, f);
    var p := s.fibers[f];
    var worker, request := p.worker, p.request;
    ReplyShowsWorker(s.workers[worker], request, chance);
    if p.Awaiting? { ExecuteGuard(s.workers[worker], request, chance); }
    var t := Next(s, WorkerRuns(f, chance)).value;
    hide ExecuteRequest;
    forall g | g in t.fibers ensures FiberOk(t, g) {
      if g != f {
        assert FiberOk(s, g);
        OthersElsewhere(s, f, g);
      }
    }
  }

  /** No two fibers wait for the same worker. */
  lemma OthersElsewhere(s: System, f: FiberId, g: FiberId)
    requires Inv(s) && f in s.fibers && g in s.fibers && f != g && (s.fibers[f].Awaiting? || s.fibers[f].Booting?)
    ensures (s.fibers[g].Awaiting? || s.fibers[g].Booting?) ==> s.fibers[g].worker != s.fibers[f].worker
  {
    assert FiberOk(s, f) && FiberOk(s, g);
  }

  lemma ExecuteGuard(w: Worker, r: Request, chance: Chance)
    requires r.Execute?
    ensures ExecuteRequest(w, r, chance).1.Some? ==> w.generation == r.generation
  {
  }

  /** An accepted reply moves the core only while the worker is the live one. */
  lemma ResumeAwaitingInv(s: System, f: FiberId)
    requires Inv(s) && Next(s, Resume(f)).Some? && s.fibers[f].Awaiting?
    ensures Inv(Next(s, Resume(f)).value)
  {
    var p := s.fibers[f];
    assert FiberOk(s, f);
    var reply := p.answer.reply;
    var verdict := if p.running then TakeRun(s.core, p.expected, reply) else TakeReply(s.core, p.expected, p.requested, reply);
    if verdict.Accept? {
      AcceptedInv(s, f);
    } else if p.running && verdict.Failed? {
      GoInv(s, f, AtReplacement(false, p.expected));
    } else {
      PlainFinishInv(s, f);
    }
  }

  lemma AcceptedInv(s: System, f: FiberId)
    requires Inv(s) && f in s.fibers && s.fibers[f].Awaiting? && s.fibers[f].answer.Answered?
    requires var p := s.fibers[f];
             (if p.running then TakeRun(s.core, p.expected, p.answer.reply)
              else TakeReply(s.core, p.expected, p.requested, p.answer.reply)).Accept?
    ensures Inv(ResumeAwaiting(s, f, s.fibers[f], s.fibers[f].answer.reply))
  {
    var p := s.fibers[f];
    assert FiberOk(s, f);
    var verdict := if p.running then TakeRun(s.core, p.expected, p.answer.reply)
                   else TakeReply(s.core, p.expected, p.requested, p.answer.reply);
    var t := s.(core := verdict.next);
    forall g | g in t.fibers && g != f ensures FiberOk(t, g) && !t.fibers[g].Awaiting? && !Replacing(t.fibers[g]) {
      assert FiberOk(s, g);
    }
    if verdict.goOn {
      var q := Awaiting(Run, true, p.worker, p.expected, Execute(Run, t.core.state.generation, t.core.state.revision, 0), Pending);
      var u := Go(t, f, q);
      assert ResumeAwaiting(s, f, p, p.answer.reply) == u;
      forall g | g in u.fibers ensures FiberOk(u, g) { if g != f { assert FiberOk(t, g); } }
    } else {
      FinishInv(t, f);
    }
  }

  /** Claiming the workspace gives the live worker up, so every waiting command is overtaken. */
  lemma EnterReplacementInv(s: System, f: FiberId)
    requires Inv(s) && Next(s, EnterReplacement(f)).Some?
    ensures Inv(Next(s, EnterReplacement(f)).value)
  {
    var t := Next(s, EnterReplacement(f)).value;
    var p := s.fibers[f];
    assert FiberOk(s, f);
    if Claim(s.core, p.expected).None? {
      PlainFinishInv(s, f);
    } else {
      forall g | g in t.fibers ensures FiberOk(t, g) {
        if g != f { assert FiberOk(s, g); }
      }
      forall g | g in t.fibers && t.fibers[g].Awaiting? ensures t.fibers[g].expected < t.core.generation { assert FiberOk(s, g); }
    }
  }

  lemma SpawnedInv(s: System, f: FiberId, ok: bool)
    requires Inv(s) && Next(s, WorkerSpawned(f, ok)).Some?
    ensures Inv(Next(s, WorkerSpawned(f, ok)).value)
  {
    assert FiberOk(s, f);
    if !ok {
      PlainFinishInv(s, f);
    } else {
      var t := Next(s, WorkerSpawned(f, ok)).value;
      forall g | g in t.fibers ensures FiberOk(t, g) {
        if g != f { assert FiberOk(s, g); }
      }
    }
  }

  lemma BootedInv(s: System, f: FiberId)
    requires Inv(s) && Next(s, Resume(f)).Some? && s.fibers[f].Booting?
    ensures Inv(Next(s, Resume(f)).value)
  {
    assert FiberOk(s, f);
    var p := s.fibers[f];
    if p.answer.reply.None? {
      PlainFinishInv(s, f);
    } else {
      var t := s.(core := Restored(s.core, p.reset, p.answer.reply.value));
      forall g | g in t.fibers && g != f ensures FiberOk(t, g) && (t.fibers[g].Awaiting? ==> t.gate != Some(f)) && !Replacing(t.fibers[g]) {
        assert FiberOk(s, g);
      }
      FinishInv(t, f);
    }
  }

  lemma ShutdownInv(s: System)
    requires Inv(s)
    ensures Inv(s.(core := s.core.(closing := true)))
  {
    var t := s.(core := s.core.(closing := true));
    forall g | g in t.fibers ensures FiberOk(t, g) { assert FiberOk(s, g); }
  }

  /** Every step keeps the invariant. */
  lemma StepInv(s: System, step: Step)
    requires Inv(s) && Next(s, step).Some?
    ensures Inv(Next(s, step).value)
  {
    if step.Shutdown? {
      ShutdownInv(s);
    } else if step.Submit? {
      GoInv(s, step.fiber, Starting(step.input));
    } else {
      var f := step.fiber;
      var p := s.fibers[f];
      assert FiberOk(s, f);
      match step
      case Begin(_) =>
        if s.core.closing { PlainFinishInv(s, f); }
        else if p.input.action == Stop { GoInv(s, f, AtReplacement(false, p.input.generation)); }
        else { GoInv(s, f, AtGate(p.input)); }
      case EnterGate(_) => EnterGateInv(s, f, p.input);
      case ShowView(_) => PlainFinishInv(s, f);
      case WorkerRuns(_, chance) => WorkerRunsInv(s, f, chance);
      case ReplyLost(_) =>
        GoInv(s, f, WithAnswer(p, Answered(None)));
      case Resume(_) => if p.Awaiting? { ResumeAwaitingInv(s, f); } else { BootedInv(s, f); }
      case EnterReplacement(_) => EnterReplacementInv(s, f);
      case WorkerClosed(_) => GoInv(s, f, Spawning(p.reset));
      case WorkerSpawned(_, ok) => SpawnedInv(s, f, ok);
      case Interrupt(_) => PlainFinishInv(s, f);
    }
  }

  lemma {:induction false} RunInv(reply: Reply, steps: seq<Step>)
    requires reply.view.generation == 0 && Steps(Initial(reply), steps).Some?
    ensures Inv(Steps(Initial(reply), steps).value)
    decreases |steps|
  {
    if steps == [] {
      InitialInv(reply);
    } else {
      RunInv(reply, steps[..|steps| - 1]);
      StepInv(Steps(Initial(reply), steps[..|steps| - 1]).value, steps[|steps| - 1]);
    }
  }

  // ---------------------------------------------------------------- main results

  /** Main result: in every interleaving, a reply from a replaced worker changes neither state, saved nor saves. */
  lemma StaleRepliesChangeNothing(reply: Reply, steps: seq<Step>, f: FiberId)
    requires reply.view.generation == 0 && Steps(Initial(reply), steps).Some?
    requires var s := Steps(Initial(reply), steps).value;
             && Next(s, Resume(f)).Some? && s.fibers[f].Awaiting?
             && s.fibers[f].worker < |s.workers| && s.workers[s.fibers[f].worker].replaced
    ensures var s := Steps(Initial(reply), steps).value;
            Next(s, Resume(f)).value.core == s.core
  {
    RunInv(reply, steps);
    assert FiberOk(Steps(Initial(reply), steps).value, f);
  }

  /** A worker is never replaced while it boots, so no reply to a boot is stale. */
  lemma BootingIsLive(reply: Reply, steps: seq<Step>, f: FiberId)
    requires reply.view.generation == 0 && Steps(Initial(reply), steps).Some?
    requires var s := Steps(Initial(reply), steps).value; f in s.fibers && s.fibers[f].Booting?
    ensures var s := Steps(Initial(reply), steps).value;
            s.fibers[f].worker == s.core.handle < |s.workers| && !s.workers[s.core.handle].replaced
  {
    RunInv(reply, steps);
    assert FiberOk(Steps(Initial(reply), steps).value, f);
  }

  /** Main result: the generation never decreases. */
  lemma GenerationNeverDecreases(reply: Reply, steps: seq<Step>, step: Step)
    requires reply.view.generation == 0 && Steps(Initial(reply), steps).Some?
    requires Next(Steps(Initial(reply), steps).value, step).Some?
    ensures var s := Steps(Initial(reply), steps).value; Next(s, step).value.core.generation >= s.core.generation
  {
    RunInv(reply, steps);
    var s := Steps(Initial(reply), steps).value;
    if !step.Shutdown? && !step.Submit? { assert FiberOk(s, step.fiber); }
  }

  /** What a step may do to what is saved. */
  ghost predicate SaveAccepted(s: System, step: Step, t: System) {
    && step.Resume? && step.fiber in s.fibers && s.fibers[step.fiber].Awaiting? && s.fibers[step.fiber].requested == Save
    && var p := s.fibers[step.fiber];
       && p.answer.Answered? && p.answer.reply.Some? && p.answer.reply.value.snapshot == Some(t.core.saved)
       && t.core.saves == s.core.saves + 1 && t.core.state.checkpoint == t.core.saves
       && t.core.generation == s.core.generation + 1 == t.core.state.generation
       && p.worker == t.core.handle < |t.workers| && !t.workers[t.core.handle].replaced
       && t.workers[t.core.handle].generation == t.core.generation
  }

  ghost predicate ResetAccepted(s: System, step: Step, t: System) {
    && step.Resume? && step.fiber in s.fibers && s.fibers[step.fiber].Booting? && s.fibers[step.fiber].reset
    && t.core.saves == 0 && t.core.generation == s.core.generation == t.core.state.generation
    && s.fibers[step.fiber].worker == t.core.handle < |t.workers| && !t.workers[t.core.handle].replaced
  }

  /**
   * Main result: the save point changes only with an accepted save, whose reply the live worker sent and whose
   * generation is that worker's, or with a completed reset.
   */
  lemma SavePointChanges(reply: Reply, steps: seq<Step>, step: Step)
    requires reply.view.generation == 0 && Steps(Initial(reply), steps).Some?
    requires Next(Steps(Initial(reply), steps).value, step).Some?
    ensures var s := Steps(Initial(reply), steps).value;
            var t := Next(s, step).value;
            t.core.saved != s.core.saved || t.core.saves != s.core.saves ==> SaveAccepted(s, step, t) || ResetAccepted(s, step, t)
  {
    RunInv(reply, steps);
    var s := Steps(Initial(reply), steps).value;
    SavePointStep(s, step);
  }

  lemma SavePointStep(s: System, step: Step)
    requires Inv(s) && Next(s, step).Some?
    ensures var t := Next(s, step).value;
            t.core.saved != s.core.saved || t.core.saves != s.core.saves ==> SaveAccepted(s, step, t) || ResetAccepted(s, step, t)
  {
    if step.Resume? {
      assert FiberOk(s, step.fiber);
      var p := s.fibers[step.fiber];
      if p.Awaiting? { AwaitedSave(s, step); }
    } else {
      SavePointKept(s, step);
    }
  }

  lemma SavePointKept(s: System, step: Step)
    requires Next(s, step).Some? && !step.Resume?
    ensures Next(s, step).value.core.saved == s.core.saved && Next(s, step).value.core.saves == s.core.saves
  {
    hide ExecuteRequest;
  }

  lemma AwaitedSave(s: System, step: Step)
    requires Inv(s) && Next(s, step).Some? && step.Resume? && s.fibers[step.fiber].Awaiting?
    ensures var t := Next(s, step).value;
            t.core.saved != s.core.saved || t.core.saves != s.core.saves ==> SaveAccepted(s, step, t)
  {
    assert FiberOk(s, step.fiber);
    var p := s.fibers[step.fiber];
    if p.running {
      assert TakeRun(s.core, p.expected, p.answer.reply).Accept? ==>
               TakeRun(s.core, p.expected, p.answer.reply).next.saved == s.core.saved;
    }
  }
}
