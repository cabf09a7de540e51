/** How often a put tries its rename, over every behaviour of the commit protocol. */
module CommitRetries {
  import opened Wrappers
  import opened CommitProtocol
  import opened CommitSafety
  import opened CommitTheorems

  /** What one step may do to a put that was there before it. */
  predicate Moves(p: Phase, p': Phase) {
    || p' == p
    || (p.Reserved? && (p'.Writing? || p' == Returned(false)))
    || (p.Writing? && (p'.Abandoning? || (p'.Committing? && p'.attempt == 0)))
    || (p.Committing? && (p' == Returned(true) ||
                          (p'.Committing? && p'.attempt == p.attempt + 1 < 20) ||
                          (p'.Abandoning? && p.attempt + 1 >= 20)))
    || (p.Abandoning? && p' == Returned(false))
  }

  lemma NewIsReserved(s: State, step: Step, tid: nat)
    requires Enabled(s, step) && tid !in s.tasks && InPhase(After(s, step), tid)
    ensures tid == s.nextTid && After(s, step).tasks[tid].phase.Reserved?
  {
  }

  lemma PutWasPut(s: State, step: Step, tid: nat)
    requires Enabled(s, step) && tid in s.tasks && tid != s.nextTid && InPhase(After(s, step), tid)
    ensures s.tasks[tid].Put?
  {
  }

  /** The put a step is about, if it is about one. */
  function Mover(step: Step): Option<nat> {
    match step
    case CreateTemp(tid) => Some(tid)
    case CreateFails(tid) => Some(tid)
    case WriteFails(tid) => Some(tid)
    case Sync(tid) => Some(tid)
    case RenameOk(tid) => Some(tid)
    case RenameFails(tid) => Some(tid)
    case RemoveTemp(tid) => Some(tid)
    case RemoveTempFails(tid) => Some(tid)
    case _ => None
  }

  lemma OthersStay(s: State, step: Step, tid: nat)
    requires Enabled(s, step) && s.nextTid != tid && Mover(step) != Some(tid)
    requires InPhase(s, tid) && InPhase(After(s, step), tid)
    ensures After(s, step).tasks[tid].phase == s.tasks[tid].phase
  {
  }

  lemma MoverMoves(s: State, step: Step, tid: nat)
    requires Enabled(s, step) && Mover(step) == Some(tid)
    ensures InPhase(s, tid) && InPhase(After(s, step), tid)
    ensures Moves(s.tasks[tid].phase, After(s, step).tasks[tid].phase)
  {
  }

  lemma NextTidGrows(s: State, step: Step)
    requires Enabled(s, step)
    ensures s.nextTid <= After(s, step).nextTid
  {
  }

  /** One step, as far as the put `tid` is concerned. */
  predicate Proceeds(s: State, s': State, tid: nat) {
    && s.nextTid <= s'.nextTid
    && (s'.nextTid <= tid ==> tid !in s'.tasks)
    && (InPhase(s', tid) ==>
          if tid in s.tasks then s.tasks[tid].Put? && Moves(s.tasks[tid].phase, s'.tasks[tid].phase)
          else s.nextTid <= tid && s'.tasks[tid].phase.Reserved?)
  }

  lemma StepProceeds(b: seq<State>, i: nat, tid: nat)
    requires Behaviour(b) && i + 1 < |b|
    ensures Proceeds(b[i], b[i + 1], tid)
  {
    BehaviourLeads(b, i);
    AliveAlways(b, i);
    AliveAlways(b, i + 1);
    var step :| Enabled(b[i], step) && b[i + 1] == After(b[i], step);
    NextTidGrows(b[i], step);
    if InPhase(b[i + 1], tid) {
      if tid !in b[i].tasks {
        NewIsReserved(b[i], step, tid);
      } else {
        PutWasPut(b[i], step, tid);
        if Mover(step) == Some(tid) {
          MoverMoves(b[i], step, tid);
        } else {
          OthersStay(b[i], step, tid);
        }
      }
    }
  }

  /** Between two states, a rename of `tid` was refused. */
  predicate RenameRefused(s: State, s': State, tid: nat) {
    && InPhase(s, tid) && InPhase(s', tid)
    && s.tasks[tid].phase.Committing?
    && s'.tasks[tid].phase != s.tasks[tid].phase
    && s'.tasks[tid].phase != Returned(true)
  }

  function Refusals(b: seq<State>, i: nat, tid: nat): nat
    requires i < |b|
    decreases i
  {
    if i == 0 then 0
    else Refusals(b, i - 1, tid) + if RenameRefused(b[i - 1], b[i], tid) then 1 else 0
  }

  lemma {:induction false} NotYetBegun(b: seq<State>, i: nat, tid: nat)
    requires Behaviour(b) && i < |b| && b[i].nextTid <= tid
    ensures Refusals(b, i, tid) == 0
    decreases i
  {
    if i > 0 {
      StepProceeds(b, i - 1, tid);
      NotYetBegun(b, i - 1, tid);
    }
  }

  /** What the phase of a put says about the refusals it has met. */
  predicate Counts(phase: Phase, refusals: nat) {
    match phase
    case Reserved => refusals == 0
    case Writing(_) => refusals == 0
    case Committing(_, attempt) => refusals == attempt < 20
    case Abandoning => refusals == 0 || refusals == 20
    case Returned(ok) => if ok then refusals < 20 else refusals == 0 || refusals == 20
  }

  /**
   A put whose file is written gives up its rename at the twentieth refusal, not
   before and not after: it succeeds if and only if one of twenty is let through.
   */
  lemma {:induction false} TwentyRenames(b: seq<State>, i: nat, tid: nat)
    requires Behaviour(b) && i < |b| && InPhase(b[i], tid)
    ensures Counts(b[i].tasks[tid].phase, Refusals(b, i, tid))
    decreases i
  {
    if i > 0 {
      StepProceeds(b, i - 1, tid);
      if tid in b[i - 1].tasks {
        TwentyRenames(b, i - 1, tid);
      } else {
        NotYetBegun(b, i - 1, tid);
      }
    }
  }
}
