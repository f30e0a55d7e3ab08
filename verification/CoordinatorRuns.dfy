/**
 * What the coordinator sends its workers, in any run (`coordinator.ts`): which commands are admitted, what a run
 * executes, and which snapshot a replaced workspace is restored from.
 */
module CoordinatorRuns {
  import opened Basics
  import opened Coordinator

  /** The command was written for the workspace and revision that is shown and active. */
  predicate UpToDate(c: Core, input: Command) {
    input.generation == c.generation == c.state.generation && input.revision == c.state.revision
  }

  /** The shown source is the one that compiled. */
  predicate Runnable(c: Core) {
    c.state.build == Some(Build(c.state.revision, true))
  }

  /**
   * Main result: a command that takes the gate is sent to the active worker exactly when it is up to date, is neither a
   * restore nor a reset, and, if it is a run, edits nothing and runs the source that compiled; a compile and run is
   * sent as a compile. Restores and resets go on to the replacement; whatever is refused ends and changes nothing else.
   */
  lemma AdmissionMeans(s: System, f: FiberId, input: Command)
    requires f in s.fibers && s.fibers[f] == AtGate(input) && s.gate.None?
    ensures Next(s, EnterGate(f)).Some?
    ensures var t := Next(s, EnterGate(f)).value;
            var c := s.core;
            && t.core == c && t.workers == s.workers
            && (forall g :: g in s.fibers && g != f ==> g in t.fibers && t.fibers[g] == s.fibers[g])
            && f in t.fibers
            && t.fibers[f] ==
               if input.action == ViewAction then AtView
               else if !UpToDate(c, input) then Done
               else if input.action == Restore || input.action == Reset then
                 AtReplacement(input.action == Reset, input.generation)
               else if input.action == Run then
                 if input.edits == 0 && Runnable(c) then
                   Awaiting(Run, true, c.handle, c.generation, Execute(Run, c.generation, c.state.revision, 0), Pending)
                 else Done
               else
                 Awaiting(input.action, false, c.handle, c.generation,
                          Execute(if input.action == CompileRun then Compile else input.action,
                                  c.generation, c.state.revision, input.edits), Pending)
  {
  }

  /** Main result: whenever a worker answers a run, it ran the revision asked for, and that revision compiled. */
  lemma RunsWhatCompiled(w: Worker, generation: int, revision: int, edits: nat, chance: Chance)
    ensures var (next, reply) := ExecuteRequest(w, Execute(Run, generation, revision, edits), chance);
            && next == w
            && (reply.Some? <==>
                  && w.started && generation == w.generation && revision == w.revision && edits == 0 && !chance.fails
                  && w.build == Some(Build(revision, true)))
            && (reply.Some? ==> reply.value == Reply(View(generation, revision, w.build, w.checkpoint), None))
  {
  }

  /** What a compile and a save do to a worker that accepts them. */
  lemma WorkerMoves(w: Worker, action: Action, edits: nat, chance: Chance)
    requires w.started && !chance.fails
    ensures var (next, reply) := ExecuteRequest(w, Execute(action, w.generation, w.revision, edits), chance);
            var revision := if edits > 0 && chance.edited then w.revision + 1 else w.revision;
            && (action == Compile ==>
                  && next.revision == revision && next.generation == w.generation && next.checkpoint == w.checkpoint
                  && next.build == Some(Build(revision, chance.compiled)))
            && (action == Save ==>
                  && next.revision == 0 && next.generation == w.generation + 1 && next.checkpoint == w.checkpoint + 1
                  && next.build == None && reply.Some? && reply.value.snapshot == Some(chance.snapshot))
  {
  }

  /** A new worker boots in the generation it was told, with no build, at revision and checkpoint zero. */
  lemma BootsFresh(generation: int, from: Option<Snapshot>, chance: Chance)
    ensures var (next, reply) := ExecuteRequest(IDLE, Boot(generation, from), chance);
            && !next.replaced && (next.started <==> !chance.fails) && next.checkpoint == 0
            && (chance.fails ==> reply == None)
            && (!chance.fails ==> reply == Some(Reply(View(generation, 0, None, 0), Some(chance.snapshot))))
  {
  }

  // ---------------------------------------------------------------- restoring

  /** A worker that boots was told the generation, and the save point unless the workspace is reset. */
  ghost predicate BootsFrom(s: System, f: FiberId) {
    f in s.fibers && s.fibers[f].Booting? ==>
      s.fibers[f].request == Boot(s.core.generation, if s.fibers[f].reset then None else Some(s.core.saved))
  }

  /** One step keeps it: while a workspace is replaced, no reply is accepted, so the save point stays. */
  lemma StepBootsFrom(s: System, step: Step, f: FiberId)
    requires Inv(s) && (forall g :: BootsFrom(s, g)) && Next(s, step).Some?
    ensures BootsFrom(Next(s, step).value, f)
  {
    var t := Next(s, step).value;
    if f in t.fibers && t.fibers[f].Booting? && f in s.fibers && s.fibers[f].Booting? {
      assert BootsFrom(s, f) && FiberOk(s, f);
      if !step.Shutdown? && !step.Submit? { assert FiberOk(s, step.fiber); }
    }
    hide ExecuteRequest;
  }

  /** Main result: in every run, a replaced workspace boots from the last save point, a reset one from the start. */
  lemma {:induction false} RestoresSavePoint(reply: Reply, steps: seq<Step>, f: FiberId)
    requires reply.view.generation == 0 && Steps(Initial(reply), steps).Some?
    ensures BootsFrom(Steps(Initial(reply), steps).value, f)
    decreases |steps|
  {
    if steps != [] {
      var front := steps[..|steps| - 1];
      RunInv(reply, front);
      forall g ensures BootsFrom(Steps(Initial(reply), front).value, g) { RestoresSavePoint(reply, front, g); }
      hide Inv, Next, BootsFrom;
      StepBootsFrom(Steps(Initial(reply), front).value, steps[|steps| - 1], f);
    }
  }
}
