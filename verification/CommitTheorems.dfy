/** What the commit protocol guarantees over every behaviour: any interleaving, any crashes. */
module CommitTheorems {
  import opened Wrappers
  import opened RecordNames
  import opened FileTree
  import opened CommitProtocol
  import opened CommitSafety

  ghost predicate Leads(s: State, s': State) {
    exists step :: Enabled(s, step) && s' == After(s, step)
  }

  ghost predicate StepAt(b: seq<State>, i: nat)
    requires i + 1 < |b|
  {
    Leads(b[i], b[i + 1])
  }

  /** A finite history of the system, from an empty directory and no process. */
  ghost predicate Behaviour(b: seq<State>) {
    && b != [] && b[0] == INITIAL
    && forall i: nat :: i + 1 < |b| ==> StepAt(b, i)
  }

  lemma {:induction false} InvAlways(b: seq<State>, i: nat)
    requires Behaviour(b) && i < |b|
    ensures Inv(b[i])
    decreases i
  {
    if i > 0 {
      InvAlways(b, i - 1);
      assert StepAt(b, i - 1);
      var step :| Enabled(b[i - 1], step) && b[i] == After(b[i - 1], step);
      InvStep(b[i - 1], step);
    }
  }

  /** The part of the invariant a task's own history needs. */
  lemma AliveAlways(b: seq<State>, i: nat)
    requires Behaviour(b) && i < |b|
    ensures TasksAlive(b[i])
  {
    InvAlways(b, i);
  }

  lemma BehaviourLeads(b: seq<State>, i: nat)
    requires Behaviour(b) && i + 1 < |b|
    ensures Leads(b[i], b[i + 1])
  {
    assert StepAt(b, i);
  }

  lemma {:induction false} LastValueWasCommitted(log: seq<Event>, key: Key)
    requires LastValue(log, key).Some?
    ensures exists tid :: Committed(tid, key, LastValue(log, key).value) in log
    decreases |log|
  {
    var e, init := log[|log| - 1], log[..|log| - 1];
    if e.key == key {
      assert Committed(e.tid, key, e.value) in log;
    } else {
      LastValueWasCommitted(init, key);
      var tid :| Committed(tid, key, LastValue(init, key).value) in init;
      assert Committed(tid, key, LastValue(log, key).value) in log;
    }
  }

  /**
   At every moment a record file holds, whole, the value of the last put that
   renamed onto it; there is no file exactly when there is no such put.
   */
  lemma RecordIsLastCommit(b: seq<State>, i: nat, key: Key)
    requires Behaviour(b) && i < |b|
    ensures var s := b[i];
            if Record(key) in s.names then
              && s.names[Record(key)] in s.data
              && LastValue(s.log, key) == Some(s.data[s.names[Record(key)]])
              && exists tid :: Committed(tid, key, s.data[s.names[Record(key)]]) in s.log
            else LastValue(s.log, key) == None
  {
    InvAlways(b, i);
    if Record(key) in b[i].names {
      LastValueWasCommitted(b[i].log, key);
    }
  }

  lemma StepGrowsLog(s: State, step: Step)
    requires Enabled(s, step)
    ensures After(s, step).log == s.log || exists e :: After(s, step).log == s.log + [e]
  {
  }

  /** One step leaves a get's opening alone, or is its opening. */
  ghost predicate OpeningStays(s: State, s': State, tid: nat) {
    && |s.log| <= |s'.log| && s'.log[..|s.log|] == s.log
    && (tid in s'.tasks && !s'.tasks[tid].Put? ==>
          if tid in s.tasks then !s.tasks[tid].Put? && s'.tasks[tid].openedAt == s.tasks[tid].openedAt
          else s'.tasks[tid].openedAt == |s.log|)
  }

  lemma OpeningStep(s: State, s': State, tid: nat)
    requires TasksAlive(s) && Leads(s, s')
    ensures OpeningStays(s, s', tid)
  {
    var step :| Enabled(s, step) && s' == After(s, step);
    StepGrowsLog(s, step);
    if tid in s'.tasks && !s'.tasks[tid].Put? {
      if tid in s.tasks {
        GetStays(s, step, tid);
      } else {
        GetOpens(s, step, tid);
      }
    }
  }

  /** A get was opened at one moment of the history, and remembers how long the log was then. */
  lemma {:induction false} OpenedOnce(b: seq<State>, i: nat, tid: nat) returns (j: nat)
    requires Behaviour(b) && i < |b|
    requires tid in b[i].tasks && !b[i].tasks[tid].Put?
    ensures j < i && tid !in b[j].tasks && tid in b[j + 1].tasks
    ensures |b[j].log| == b[i].tasks[tid].openedAt <= |b[i].log| && b[j].log == b[i].log[..|b[j].log|]
    decreases i
  {
    assert i > 0;
    var s, s' := b[i - 1], b[i];
    AliveAlways(b, i - 1);
    BehaviourLeads(b, i - 1);
    OpeningStep(s, s', tid);
    if tid in s.tasks {
      j := OpenedOnce(b, i - 1, tid);
      assert s'.log[..|b[j].log|] == s.log[..|b[j].log|];
    } else {
      j := i - 1;
    }
  }

  lemma GetStays(s: State, step: Step, tid: nat)
    requires TasksAlive(s) && Enabled(s, step) && tid in s.tasks && tid in After(s, step).tasks
    requires !After(s, step).tasks[tid].Put?
    ensures !s.tasks[tid].Put? && s.tasks[tid].openedAt == After(s, step).tasks[tid].openedAt
  {
  }

  lemma GetOpens(s: State, step: Step, tid: nat)
    requires Enabled(s, step) && tid !in s.tasks && tid in After(s, step).tasks
    requires !After(s, step).tasks[tid].Put?
    ensures After(s, step).tasks[tid].openedAt == |s.log|
  {
  }

  /**
   Reads are atomic although they take many steps: what a get returns is what the
   record held at one moment between its start and its end, however many puts,
   deletes and crashes happened while it was reading.
   */
  lemma ReadIsAtomic(b: seq<State>, i: nat, tid: nat) returns (j: nat)
    requires Behaviour(b) && i < |b|
    requires tid in b[i].tasks && b[i].tasks[tid].Read?
    ensures j < i && tid !in b[j].tasks && tid in b[j + 1].tasks
    ensures b[i].tasks[tid].result == LastValue(b[j].log, b[i].tasks[tid].key)
  {
    j := OpenedOnce(b, i, tid);
    InvAlways(b, i);
    assert ReaderOk(b[i], b[i].tasks[tid]);
  }

  ghost predicate Silent(log: seq<Event>, tid: nat) {
    forall k :: 0 <= k < |log| && log[k].Committed? ==> log[k].tid != tid
  }

  /** A put that has not returned success, because it failed or is still running, has changed nothing. */
  lemma FailedPutChangedNothing(b: seq<State>, i: nat, tid: nat)
    requires Behaviour(b) && i < |b|
    requires tid in b[i].tasks && b[i].tasks[tid].Put? && b[i].tasks[tid].phase != Returned(true)
    ensures Silent(b[i].log, tid)
  {
    InvAlways(b, i);
  }

  /** A put that has returned success changed its record exactly once, to its own value. */
  lemma SuccessfulPutCommittedOnce(b: seq<State>, i: nat, tid: nat) returns (k: nat)
    requires Behaviour(b) && i < |b|
    requires tid in b[i].tasks && Succeeded(b[i].tasks[tid])
    ensures var t := b[i].tasks[tid];
            && k < |b[i].log| && b[i].log[k] == Committed(tid, t.key, t.sealed)
            && forall l :: 0 <= l < |b[i].log| && b[i].log[l].Committed? && b[i].log[l].tid == tid ==> l == k
  {
    InvAlways(b, i);
    var t := b[i].tasks[tid];
    assert Committed(tid, t.key, t.sealed) in b[i].log;
    k :| 0 <= k < |b[i].log| && b[i].log[k] == Committed(tid, t.key, t.sealed);
  }

  /** A put that will never act again: it returned an error, or its process crashed. */
  predicate Over(s: State, tid: nat) {
    && tid < s.nextTid
    && (tid in s.tasks ==> s.tasks[tid].Put? && s.tasks[tid].phase == Returned(false))
  }

  lemma OverStep(s: State, step: Step, tid: nat)
    requires Enabled(s, step) && Over(s, tid) && Silent(s.log, tid)
    ensures Over(After(s, step), tid) && Silent(After(s, step).log, tid)
  {
  }

  lemma OverAt(b: seq<State>, i: nat, tid: nat)
    requires Behaviour(b) && i + 1 < |b|
    requires Over(b[i], tid) && Silent(b[i].log, tid)
    ensures Over(b[i + 1], tid) && Silent(b[i + 1].log, tid)
  {
    BehaviourLeads(b, i);
    var step :| Enabled(b[i], step) && b[i + 1] == After(b[i], step);
    OverStep(b[i], step, tid);
  }

  /** Once it is over without a commit, no later state shows one: errors and crashes are final. */
  lemma {:induction false} OverIsFinal(b: seq<State>, i: nat, j: nat, tid: nat)
    requires Behaviour(b) && i <= j < |b|
    requires Over(b[i], tid) && Silent(b[i].log, tid)
    ensures Over(b[j], tid) && Silent(b[j].log, tid)
    decreases j
  {
    if j > i {
      OverIsFinal(b, i, j - 1, tid);
      OverAt(b, j - 1, tid);
    }
  }

  /** No step waits for a file that is not there: every open file and every name has its bytes. */
  lemma NothingDangles(b: seq<State>, i: nat)
    requires Behaviour(b) && i < |b|
    ensures var s := b[i];
            && (forall n :: n in s.names ==> s.names[n] in s.data)
            && (forall t, ino :: t in s.tasks && Owns(s.tasks[t], ino) ==> ino in s.data)
            && (forall t :: t in s.tasks && s.tasks[t].Reading? ==> s.tasks[t].file in s.data)
  {
    InvAlways(b, i);
    forall t, ino | t in b[i].tasks && Owns(b[i].tasks[t], ino)
      ensures ino in b[i].data
    {
      assert WriterOk(b[i], b[i].tasks[t], ino);
    }
    forall t | t in b[i].tasks && b[i].tasks[t].Reading?
      ensures b[i].tasks[t].file in b[i].data
    {
      assert ReaderOk(b[i], b[i].tasks[t]);
    }
  }
}
