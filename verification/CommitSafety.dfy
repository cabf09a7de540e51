/** The invariant of CommitProtocol holds in every interleaving, and what it means to callers. */
module CommitSafety {
  import opened Wrappers
  import opened RecordNames
  import opened FileTree
  import opened CommitProtocol

  lemma FilesExistStep(s: State, step: Step)
    requires FilesExist(s) && Enabled(s, step)
    ensures FilesExist(After(s, step))
  {
  }

  lemma NamesDistinctStep(s: State, step: Step)
    requires FilesExist(s) && NamesDistinct(s) && Enabled(s, step)
    ensures NamesDistinct(After(s, step))
  {
  }

  predicate Numbered(alive: map<nat, nat>, t: Task) {
    t.pid in alive && (t.Put? ==> t.seqNo < alive[t.pid])
  }

  /** Where a task of the next state comes from. */
  ghost predicate TaskFrom(s: State, s': State, t: nat)
    requires t in s'.tasks
  {
    if t == s.nextTid then t < s'.nextTid && Numbered(s'.alive, s'.tasks[t])
    else t in s.tasks && (Numbered(s.alive, s.tasks[t]) ==> Numbered(s'.alive, s'.tasks[t]))
  }

  lemma TaskFromStep(s: State, step: Step, t: nat)
    requires s.nextTid !in s.tasks && Enabled(s, step) && t in After(s, step).tasks
    ensures TaskFrom(s, After(s, step), t)
  {
  }

  lemma TasksAliveStep(s: State, step: Step)
    requires TasksAlive(s) && Enabled(s, step)
    ensures TasksAlive(After(s, step))
  {
    var s' := After(s, step);
    assert s.nextTid <= s'.nextTid;
    forall t | t in s'.tasks
      ensures t < s'.nextTid && Numbered(s'.alive, s'.tasks[t])
    {
      TaskFromStep(s, step, t);
    }
  }

  /** Where each put of the next state comes from. */
  ghost predicate PutsCarryOver(s: State, s': State) {
    forall t :: t in s'.tasks && s'.tasks[t].Put? ==>
      var p := s'.tasks[t];
      || (t in s.tasks && s.tasks[t].Put? && s.tasks[t].pid == p.pid && s.tasks[t].seqNo == p.seqNo)
      || (t == s.nextTid && p.pid in s.alive && p.seqNo == s.alive[p.pid])
  }

  lemma PutsCarryOverStep(s: State, step: Step)
    requires Enabled(s, step)
    ensures PutsCarryOver(s, After(s, step))
  {
  }

  lemma TempsDistinctFrame(s: State, s': State)
    requires TasksAlive(s) && TempsDistinct(s) && PutsCarryOver(s, s')
    ensures TempsDistinct(s')
  {
  }

  /** What `t` owns it owned before, as the same put, and has finished writing if it commits. */
  ghost predicate OwnerStays(s: State, s': State, t: nat, ino: nat)
    requires t in s'.tasks
  {
    && t in s.tasks && Owns(s.tasks[t], ino)
    && s'.tasks[t].Put? && s'.tasks[t] == s.tasks[t].(phase := s'.tasks[t].phase)
    && (s'.tasks[t].phase.Committing? && !s.tasks[t].phase.Committing? ==>
          ino in s.data && s.data[ino] == s.tasks[t].sealed)
  }

  /** Nothing new is owned, no name is added and no byte changes. */
  ghost predicate Recedes(s: State, s': State) {
    && s'.data == s.data
    && (forall n :: n in s'.names ==> n in s.names && s'.names[n] == s.names[n])
    && (forall t, ino :: t in s'.tasks && Owns(s'.tasks[t], ino) ==> OwnerStays(s, s', t, ino))
  }

  lemma WritersRecede(s: State, s': State)
    requires WritersOk(s) && Recedes(s, s')
    ensures WritersOk(s')
  {
    forall t, ino | t in s'.tasks && Owns(s'.tasks[t], ino)
      ensures WriterOk(s', s'.tasks[t], ino)
    {
      assert WriterOk(s, s.tasks[t], ino);
    }
  }

  /** The three steps that touch a file someone owns. */
  predicate Writes(s: State, step: Step) {
    || (step.CreateTemp? && InPhase(s, step.tid) && TempOf(s.tasks[step.tid]) !in s.names)
    || step.WriteSome?
    || step.RenameOk?
  }

  /** The file the stepping put owns, if any, is in order. */
  ghost predicate ActorOk(s: State, step: Step) {
    (step.WriteSome? || step.Sync? || step.RenameOk? || step.RenameFails?) && InPhase(s, step.tid) ==>
      var t := s.tasks[step.tid];
      (t.phase.Writing? || t.phase.Committing?) && Owns(t, t.phase.ino) && WriterOk(s, t, t.phase.ino)
  }

  lemma ActorIsOk(s: State, step: Step)
    requires WritersOk(s) && Enabled(s, step)
    ensures ActorOk(s, step)
  {
    if (step.WriteSome? || step.Sync? || step.RenameOk? || step.RenameFails?) && InPhase(s, step.tid) {
      var t := s.tasks[step.tid];
      assert Owns(t, t.phase.ino);
    }
  }

  lemma MostStepsRecede(s: State, step: Step)
    requires ActorOk(s, step) && Enabled(s, step) && !Writes(s, step)
    ensures Recedes(s, After(s, step))
  {
    var s' := After(s, step);
    if step.Sync? {
      assert s.data[s.tasks[step.tid].phase.ino] == s.tasks[step.tid].sealed;
    }
    forall t, ino | t in s'.tasks && Owns(s'.tasks[t], ino)
      ensures OwnerStays(s, s', t, ino)
    {
      assert t in s.tasks && s.tasks[t].Put?;
    }
  }

  lemma CreateKeepsWriters(s: State, tid: nat)
    requires FilesExist(s) && TempsDistinct(s) && WritersOk(s)
    requires Enabled(s, CreateTemp(tid)) && TempOf(s.tasks[tid]) !in s.names
    ensures WritersOk(After(s, CreateTemp(tid)))
  {
    var s' := After(s, CreateTemp(tid));
    forall t, ino | t in s'.tasks && Owns(s'.tasks[t], ino)
      ensures WriterOk(s', s'.tasks[t], ino)
    {
      if t != tid {
        assert WriterOk(s, s.tasks[t], ino);
        assert TempOf(s.tasks[t]) != TempOf(s.tasks[tid]);
      }
    }
  }

  lemma WriteKeepsWriters(s: State, tid: nat, count: nat)
    requires WritersOk(s) && WritersDistinct(s) && Enabled(s, WriteSome(tid, count))
    ensures WritersOk(After(s, WriteSome(tid, count)))
  {
    var s' := After(s, WriteSome(tid, count));
    assert Owns(s.tasks[tid], s.tasks[tid].phase.ino);
    forall t, ino | t in s'.tasks && Owns(s'.tasks[t], ino)
      ensures WriterOk(s', s'.tasks[t], ino)
    {
      assert WriterOk(s, s.tasks[t], ino);
    }
  }

  lemma RenameKeepsWriters(s: State, tid: nat)
    requires WritersOk(s) && WritersDistinct(s) && Enabled(s, RenameOk(tid))
    ensures WritersOk(After(s, RenameOk(tid)))
  {
    var s' := After(s, RenameOk(tid));
    var mine := s.tasks[tid];
    assert Owns(mine, mine.phase.ino) && WriterOk(s, mine, mine.phase.ino);
    forall t, ino | t in s'.tasks && Owns(s'.tasks[t], ino)
      ensures WriterOk(s', s'.tasks[t], ino)
    {
      assert t != tid && Owns(s.tasks[t], ino) && WriterOk(s, s.tasks[t], ino);
    }
  }

  lemma WritersStep(s: State, step: Step)
    requires FilesExist(s) && TempsDistinct(s) && WritersOk(s) && WritersDistinct(s) && Enabled(s, step)
    ensures WritersOk(After(s, step))
  {
    if step.WriteSome? {
      WriteKeepsWriters(s, step.tid, step.count);
    } else if step.RenameOk? {
      RenameKeepsWriters(s, step.tid);
    } else if step.CreateTemp? && TempOf(s.tasks[step.tid]) !in s.names {
      CreateKeepsWriters(s, step.tid);
    } else {
      ActorIsOk(s, step);
      MostStepsRecede(s, step);
      WritersRecede(s, After(s, step));
    }
  }

  /** What is owned was owned by the same put, or is new. */
  ghost predicate OwnersCarryOver(s: State, s': State) {
    forall t, ino :: t in s'.tasks && Owns(s'.tasks[t], ino) ==>
      (t in s.tasks && Owns(s.tasks[t], ino)) || ino == s.nextIno
  }

  lemma OwnersCarryOverStep(s: State, step: Step)
    requires Enabled(s, step)
    ensures OwnersCarryOver(s, After(s, step))
  {
  }

  lemma WritersDistinctStep(s: State, step: Step)
    requires FilesExist(s) && WritersOk(s) && WritersDistinct(s) && Enabled(s, step)
    ensures WritersDistinct(After(s, step))
  {
    var s' := After(s, step);
    forall t, u, ino | t in s'.tasks && u in s'.tasks && Owns(s'.tasks[t], ino) && Owns(s'.tasks[u], ino)
      ensures t == u
    {
      assert t in s.tasks && Owns(s.tasks[t], ino) ==> WriterOk(s, s.tasks[t], ino);
      assert u in s.tasks && Owns(s.tasks[u], ino) ==> WriterOk(s, s.tasks[u], ino);
    }
  }

  /** Nothing happened to any record. */
  ghost predicate SameRecords(s: State, s': State) {
    && s'.log == s.log
    && forall key :: (Record(key) in s'.names <==> Record(key) in s.names) &&
         (Record(key) in s.names ==>
            && s'.names[Record(key)] == s.names[Record(key)]
            && s.names[Record(key)] in s.data && s.names[Record(key)] in s'.data
            && s'.data[s.names[Record(key)]] == s.data[s.names[Record(key)]])
  }

  lemma MostStepsKeepRecords(s: State, step: Step)
    requires FilesExist(s) && ActorOk(s, step) && Enabled(s, step)
    requires !step.RenameOk? && !step.Delete?
    ensures SameRecords(s, After(s, step))
  {
  }

  lemma RenameSetsRecord(s: State, tid: nat)
    requires FilesExist(s) && ActorOk(s, RenameOk(tid)) && RecordsOk(s) && Enabled(s, RenameOk(tid))
    ensures RecordsOk(After(s, RenameOk(tid)))
  {
    var s' := After(s, RenameOk(tid));
    assert s'.log[..|s.log|] == s.log;
    forall key
      ensures key != s.tasks[tid].key ==> LastValue(s'.log, key) == LastValue(s.log, key)
    {
    }
  }

  lemma DeleteClearsRecord(s: State, key: Key)
    requires RecordsOk(s)
    ensures RecordsOk(After(s, Delete(key)))
  {
    var s' := After(s, Delete(key));
    if Record(key) in s.names {
      assert s'.log[..|s.log|] == s.log;
      forall k
        ensures k != key ==> LastValue(s'.log, k) == LastValue(s.log, k)
      {
      }
    }
  }

  lemma RecordsStep(s: State, step: Step)
    requires FilesExist(s) && ActorOk(s, step) && RecordsOk(s) && Enabled(s, step)
    ensures RecordsOk(After(s, step))
  {
    if step.RenameOk? {
      RenameSetsRecord(s, step.tid);
    } else if step.Delete? {
      DeleteClearsRecord(s, step.key);
    } else {
      MostStepsKeepRecords(s, step);
    }
  }

  /** Every reader is as it was, and no file changed except under its writer. */
  ghost predicate SameReaders(s: State, s': State) {
    && |s.log| <= |s'.log| && s'.log[..|s.log|] == s.log
    && (forall t :: t in s'.tasks && !s'.tasks[t].Put? ==> t in s.tasks && s'.tasks[t] == s.tasks[t])
  }

  ghost predicate FilesChangeUnderWriters(s: State, s': State) {
    forall ino :: ino in s.data ==>
      && ino in s'.data
      && (s'.data[ino] == s.data[ino] || exists t :: t in s.tasks && Owns(s.tasks[t], ino))
  }

  lemma FilesChangeStep(s: State, step: Step)
    requires FilesExist(s) && Enabled(s, step)
    ensures FilesChangeUnderWriters(s, After(s, step))
  {
    if step.WriteSome? {
      assert Owns(s.tasks[step.tid], s.tasks[step.tid].phase.ino);
    }
  }

  lemma MostStepsKeepReaders(s: State, step: Step)
    requires Enabled(s, step) && !step.OpenRecord? && !step.ReadSome? && !step.FinishRead?
    ensures SameReaders(s, After(s, step))
  {
  }

  lemma ReadersFrame(s: State, s': State)
    requires FilesExist(s) && ReadersOk(s)
    requires SameReaders(s, s') && OwnersCarryOver(s, s') && FilesChangeUnderWriters(s, s')
    ensures ReadersOk(s')
  {
    forall t | t in s'.tasks && !s'.tasks[t].Put?
      ensures ReaderOk(s', s'.tasks[t])
    {
      assert ReaderOk(s, s.tasks[t]);
      assert s'.log[..s.tasks[t].openedAt] == s.log[..s.tasks[t].openedAt];
    }
  }

  lemma RecordsAreNotOwned(s: State, key: Key)
    requires WritersOk(s) && Record(key) in s.names
    ensures forall t :: t in s.tasks ==> !Owns(s.tasks[t], s.names[Record(key)])
  {
    forall t | t in s.tasks
      ensures !Owns(s.tasks[t], s.names[Record(key)])
    {
      assert Owns(s.tasks[t], s.names[Record(key)]) ==> WriterOk(s, s.tasks[t], s.names[Record(key)]);
    }
  }

  lemma OpenKeepsReaders(s: State, pid: nat, key: Key)
    requires RecordsOk(s) && ReadersOk(s) && Enabled(s, OpenRecord(pid, key))
    requires Record(key) in s.names ==> forall t :: t in s.tasks ==> !Owns(s.tasks[t], s.names[Record(key)])
    ensures ReadersOk(After(s, OpenRecord(pid, key)))
  {
    var s' := After(s, OpenRecord(pid, key));
    assert s.log[..|s.log|] == s.log;
    forall t | t in s'.tasks && !s'.tasks[t].Put?
      ensures ReaderOk(s', s'.tasks[t])
    {
      assert t != s.nextTid ==> ReaderOk(s, s.tasks[t]);
    }
  }

  lemma ReadKeepsReaders(s: State, step: Step)
    requires ReadersOk(s) && Enabled(s, step) && (step.ReadSome? || step.FinishRead?)
    ensures ReadersOk(After(s, step))
  {
    var s' := After(s, step);
    assert ReaderOk(s, s.tasks[step.tid]);
    if step.FinishRead? {
      assert s.tasks[step.tid].got == s.data[s.tasks[step.tid].file];
    }
    forall t | t in s'.tasks && !s'.tasks[t].Put?
      ensures ReaderOk(s', s'.tasks[t])
    {
      assert ReaderOk(s, s.tasks[t]);
    }
  }

  lemma ReadersStep(s: State, step: Step)
    requires FilesExist(s) && WritersOk(s) && RecordsOk(s) && ReadersOk(s) && Enabled(s, step)
    ensures ReadersOk(After(s, step))
  {
    if step.OpenRecord? {
      if Record(step.key) in s.names {
        RecordsAreNotOwned(s, step.key);
      }
      OpenKeepsReaders(s, step.pid, step.key);
    } else if step.ReadSome? || step.FinishRead? {
      ReadKeepsReaders(s, step);
    } else {
      MostStepsKeepReaders(s, step);
      FilesChangeStep(s, step);
      OwnersCarryOverStep(s, step);
      ReadersFrame(s, After(s, step));
    }
  }

  predicate Succeeded(t: Task) {
    t.Put? && t.phase == Returned(true)
  }

  /** The same puts have succeeded; others may have come, gone or moved on. */
  ghost predicate SameOutcomes(s: State, s': State) {
    && s'.log == s.log && s.nextTid <= s'.nextTid
    && (forall t :: t in s'.tasks && (Succeeded(s'.tasks[t]) || t < s.nextTid) ==>
          && t in s.tasks
          && (Succeeded(s.tasks[t]) || Succeeded(s'.tasks[t]) ==> s'.tasks[t] == s.tasks[t]))
  }

  lemma MostStepsKeepOutcomes(s: State, step: Step)
    requires Enabled(s, step) && !step.RenameOk? && !step.Delete?
    ensures SameOutcomes(s, After(s, step))
  {
  }

  lemma LogFrame(s: State, s': State)
    requires LogOk(s) && SameOutcomes(s, s')
    ensures LogOk(s')
  {
  }

  lemma RenameKeepsLog(s: State, tid: nat)
    requires TasksAlive(s) && LogOk(s) && Enabled(s, RenameOk(tid))
    ensures LogOk(After(s, RenameOk(tid)))
  {
    var s' := After(s, RenameOk(tid));
    assert forall i :: 0 <= i < |s.log| ==> s'.log[i] == s.log[i];
    assert s'.log[|s.log|] == Committed(tid, s.tasks[tid].key, s.tasks[tid].sealed);
  }

  lemma DeleteKeepsLog(s: State, key: Key)
    requires LogOk(s)
    ensures LogOk(After(s, Delete(key)))
  {
    var s' := After(s, Delete(key));
    assert forall i :: 0 <= i < |s.log| ==> s'.log[i] == s.log[i];
  }

  lemma LogStep(s: State, step: Step)
    requires TasksAlive(s) && LogOk(s) && Enabled(s, step)
    ensures LogOk(After(s, step))
  {
    if step.RenameOk? {
      RenameKeepsLog(s, step.tid);
    } else if step.Delete? {
      DeleteKeepsLog(s, step.key);
    } else {
      MostStepsKeepOutcomes(s, step);
      LogFrame(s, After(s, step));
    }
  }

  lemma InvStep(s: State, step: Step)
    requires Inv(s) && Enabled(s, step)
    ensures Inv(After(s, step))
  {
    FilesExistStep(s, step);
    NamesDistinctStep(s, step);
    TasksAliveStep(s, step);
    PutsCarryOverStep(s, step);
    TempsDistinctFrame(s, After(s, step));
    WritersStep(s, step);
    WritersDistinctStep(s, step);
    ActorIsOk(s, step);
    RecordsStep(s, step);
    ReadersStep(s, step);
    LogStep(s, step);
  }
}
