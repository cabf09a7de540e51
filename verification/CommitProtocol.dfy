/**
 Puts, gets and deletes of one namespace running at once, in any number of
 processes, each cut into the file-system calls it makes, with a crash possible
 between any two of them. Names point at inodes and an open file keeps its inode,
 as on Unix.
 */
module CommitProtocol {
  import opened Wrappers
  import opened RecordNames
  import opened FileTree

  /** A directory entry. */
  datatype Name = Record(key: Key) | Temp(key: Key, pid: nat, seqNo: nat)

  /** What the entry is called on disk. */
  function Spelling(n: Name): string {
    match n
    case Record(key) => HexEncode(key)
    case Temp(key, pid, seqNo) => TempName(HexEncode(key), pid, seqNo)
  }

  /** Distinct entries have distinct names, so entries can stand for them. */
  lemma SpellingInjective(m: Name, n: Name)
    requires Spelling(m) == Spelling(n)
    ensures m == n
  {
    RecordNameIsNotDotted(m.key);
    RecordNameIsNotDotted(n.key);
    if m.Temp? {
      TempNameIsDotted(HexEncode(m.key), m.pid, m.seqNo);
    }
    if n.Temp? {
      TempNameIsDotted(HexEncode(n.key), n.pid, n.seqNo);
    }
    match (m, n)
    case (Record(j), Record(k)) => EncodeInjective(j, k);
    case (Temp(j, p, i), Temp(k, q, l)) => TempNameInjective(j, p, i, k, q, l);
    case _ =>
  }

  datatype Phase =
    | Reserved                               // has its temporary's name
    | Writing(ino: nat)                      // temporary open, some bytes written
    | Committing(ino: nat, attempt: nat)     // all bytes written and synced
    | Abandoning                             // about to remove the temporary
    | Returned(ok: bool)

  datatype Task =
    | Put(pid: nat, key: Key, sealed: Bytes, seqNo: nat, phase: Phase)
    | Reading(pid: nat, key: Key, openedAt: nat, file: nat, got: Bytes)
    | Read(pid: nat, key: Key, openedAt: nat, result: Option<Bytes>)

  /** What happened to records, in order. */
  datatype Event = Committed(tid: nat, key: Key, value: Bytes) | Removed(key: Key)

  datatype State = State(
    names: map<Name, nat>,
    data: map<nat, Bytes>,
    nextIno: nat,
    alive: map<nat, nat>,          // process id to its next temporary number
    tasks: map<nat, Task>,
    nextTid: nat,
    log: seq<Event>)

  const INITIAL := State(map[], map[], 0, map[], map[], 0, [])

  datatype Step =
    | StartProcess(pid: nat)
    | Crash(pid: nat)
    | BeginPut(pid: nat, key: Key, sealed: Bytes)
    | CreateTemp(tid: nat)
    | CreateFails(tid: nat)
    | WriteSome(tid: nat, count: nat)
    | WriteFails(tid: nat)
    | Sync(tid: nat)
    | RenameOk(tid: nat)
    | RenameFails(tid: nat)
    | RemoveTemp(tid: nat)
    | RemoveTempFails(tid: nat)
    | OpenRecord(pid: nat, key: Key)
    | ReadSome(tid: nat, count: nat)
    | FinishRead(tid: nat)
    | Delete(key: Key)
    | SweepTemp(name: Name)        // a clear running alongside

  /** The value a key has after the logged events: that of its last commit, unless removed since. */
  function LastValue(log: seq<Event>, key: Key): Option<Bytes>
    decreases |log|
  {
    if log == [] then None
    else
      var e := log[|log| - 1];
      if e.key != key then LastValue(log[..|log| - 1], key)
      else if e.Committed? then Some(e.value)
      else None
  }

  function TempOf(t: Task): Name
    requires t.Put?
  {
    Temp(t.key, t.pid, t.seqNo)
  }

  predicate InPhase(s: State, tid: nat) {
    tid in s.tasks && s.tasks[tid].Put?
  }

  ghost predicate Enabled(s: State, step: Step) {
    match step
    case StartProcess(pid) => pid !in s.alive
    case Crash(pid) => pid in s.alive
    case BeginPut(pid, _, _) => pid in s.alive
    case CreateTemp(tid) => InPhase(s, tid) && s.tasks[tid].phase.Reserved?
    case CreateFails(tid) => InPhase(s, tid) && s.tasks[tid].phase.Reserved?
    case WriteSome(tid, count) =>
      && InPhase(s, tid) && s.tasks[tid].phase.Writing? && s.tasks[tid].phase.ino in s.data
      && |s.data[s.tasks[tid].phase.ino]| + count <= |s.tasks[tid].sealed|
    case WriteFails(tid) => InPhase(s, tid) && s.tasks[tid].phase.Writing?
    case Sync(tid) =>
      && InPhase(s, tid) && s.tasks[tid].phase.Writing? && s.tasks[tid].phase.ino in s.data
      && |s.data[s.tasks[tid].phase.ino]| == |s.tasks[tid].sealed|
    case RenameOk(tid) =>
      InPhase(s, tid) && s.tasks[tid].phase.Committing? && TempOf(s.tasks[tid]) in s.names
    case RenameFails(tid) => InPhase(s, tid) && s.tasks[tid].phase.Committing?
    case RemoveTemp(tid) => InPhase(s, tid) && s.tasks[tid].phase.Abandoning?
    case RemoveTempFails(tid) => InPhase(s, tid) && s.tasks[tid].phase.Abandoning?
    case OpenRecord(pid, key) => pid in s.alive && (Record(key) in s.names ==> s.names[Record(key)] in s.data)
    case ReadSome(tid, count) =>
      && tid in s.tasks && s.tasks[tid].Reading? && s.tasks[tid].file in s.data
      && |s.tasks[tid].got| + count <= |s.data[s.tasks[tid].file]|
    case FinishRead(tid) =>
      && tid in s.tasks && s.tasks[tid].Reading? && s.tasks[tid].file in s.data
      && |s.tasks[tid].got| == |s.data[s.tasks[tid].file]|
    case Delete(key) => true
    case SweepTemp(name) => name.Temp?
  }

  function ToPhase(s: State, tid: nat, phase: Phase): State
    requires InPhase(s, tid)
  {
    s.(tasks := s.tasks[tid := s.tasks[tid].(phase := phase)])
  }

  function Spawn(s: State, t: Task): State {
    s.(tasks := s.tasks[s.nextTid := t], nextTid := s.nextTid + 1)
  }

  ghost function After(s: State, step: Step): State
    requires Enabled(s, step)
  {
    match step
    case StartProcess(pid) => s.(alive := s.alive[pid := 0])
    case Crash(pid) =>
      s.(alive := s.alive - {pid}, tasks := map tid | tid in s.tasks && s.tasks[tid].pid != pid :: s.tasks[tid])
    case BeginPut(pid, key, sealed) =>
      Spawn(s.(alive := s.alive[pid := s.alive[pid] + 1]), Put(pid, key, sealed, s.alive[pid], Reserved))
    case CreateTemp(tid) =>
      var tmp := TempOf(s.tasks[tid]);
      if tmp in s.names then ToPhase(s, tid, Returned(false))
      else ToPhase(s, tid, Writing(s.nextIno))
           .(names := s.names[tmp := s.nextIno], data := s.data[s.nextIno := []], nextIno := s.nextIno + 1)
    case CreateFails(tid) => ToPhase(s, tid, Returned(false))
    case WriteSome(tid, count) =>
      var ino := s.tasks[tid].phase.ino;
      s.(data := s.data[ino := s.tasks[tid].sealed[..|s.data[ino]| + count]])
    case WriteFails(tid) => ToPhase(s, tid, Abandoning)
    case Sync(tid) => ToPhase(s, tid, Committing(s.tasks[tid].phase.ino, 0))
    case RenameOk(tid) =>
      var t := s.tasks[tid];
      ToPhase(s, tid, Returned(true))
      .(names := (s.names - {TempOf(t)})[Record(t.key) := s.names[TempOf(t)]],
        log := s.log + [Committed(tid, t.key, t.sealed)])
    case RenameFails(tid) =>
      var t := s.tasks[tid];
      ToPhase(s, tid, if t.phase.attempt + 1 < COMMIT_ATTEMPTS then t.phase.(attempt := t.phase.attempt + 1)
                      else Abandoning)
    case RemoveTemp(tid) => ToPhase(s, tid, Returned(false)).(names := s.names - {TempOf(s.tasks[tid])})
    case RemoveTempFails(tid) => ToPhase(s, tid, Returned(false))
    case OpenRecord(pid, key) =>
      Spawn(s, if Record(key) in s.names then Reading(pid, key, |s.log|, s.names[Record(key)], [])
               else Read(pid, key, |s.log|, None))
    case ReadSome(tid, count) =>
      var t := s.tasks[tid];
      s.(tasks := s.tasks[tid := t.(got := s.data[t.file][..|t.got| + count])])
    case FinishRead(tid) =>
      var t := s.tasks[tid];
      s.(tasks := s.tasks[tid := Read(t.pid, t.key, t.openedAt, Some(t.got))])
    case Delete(key) =>
      if Record(key) in s.names then s.(names := s.names - {Record(key)}, log := s.log + [Removed(key)]) else s
    case SweepTemp(name) => s.(names := s.names - {name})
  }

  // ------------------------------------------------------------ invariant

  predicate Owns(t: Task, ino: nat) {
    t.Put? && ((t.phase.Writing? && t.phase.ino == ino) || (t.phase.Committing? && t.phase.ino == ino))
  }

  /** Names point at files that exist, and numbers are handed out once. */
  ghost predicate FilesExist(s: State) {
    && (forall n :: n in s.names ==> s.names[n] in s.data)
    && (forall ino :: ino in s.data ==> ino < s.nextIno)
  }

  ghost predicate NamesDistinct(s: State) {
    forall m, n :: m in s.names && n in s.names && m != n ==> s.names[m] != s.names[n]
  }

  ghost predicate TasksAlive(s: State) {
    && (forall t :: t in s.tasks ==> t < s.nextTid && s.tasks[t].pid in s.alive)
    && (forall t :: t in s.tasks && s.tasks[t].Put? ==> s.tasks[t].seqNo < s.alive[s.tasks[t].pid])
  }

  /** No two running puts have the same temporary. */
  ghost predicate TempsDistinct(s: State) {
    forall t, u | t in s.tasks && u in s.tasks && s.tasks[t].Put? && s.tasks[u].Put? ::
      s.tasks[t].pid == s.tasks[u].pid && s.tasks[t].seqNo == s.tasks[u].seqNo ==> t == u
  }

  /** A file being written is reachable only through its writer's own temporary. */
  ghost predicate WriterOk(s: State, t: Task, ino: nat)
    requires Owns(t, ino)
  {
    && ino in s.data
    && s.data[ino] <= t.sealed
    && (t.phase.Committing? ==> s.data[ino] == t.sealed)
    && (forall n :: n in s.names && s.names[n] == ino ==> n == TempOf(t))
    && (TempOf(t) in s.names ==> s.names[TempOf(t)] == ino)
  }

  ghost predicate WritersOk(s: State) {
    forall t, ino :: t in s.tasks && Owns(s.tasks[t], ino) ==> WriterOk(s, s.tasks[t], ino)
  }

  ghost predicate WritersDistinct(s: State) {
    forall t, u, ino :: t in s.tasks && u in s.tasks && Owns(s.tasks[t], ino) && Owns(s.tasks[u], ino) ==> t == u
  }

  /** A record file holds exactly the last committed value, whole. */
  ghost predicate RecordsOk(s: State) {
    forall key :: LastValue(s.log, key) ==
                  if Record(key) in s.names && s.names[Record(key)] in s.data
                  then Some(s.data[s.names[Record(key)]]) else None
  }

  /** An open record is complete, nobody writes it, and it is what the key held at the open. */
  ghost predicate ReaderOk(s: State, t: Task)
    requires !t.Put?
  {
    && t.openedAt <= |s.log|
    && (t.Reading? ==>
          && t.file in s.data
          && t.got <= s.data[t.file]
          && LastValue(s.log[..t.openedAt], t.key) == Some(s.data[t.file])
          && (forall u :: u in s.tasks ==> !Owns(s.tasks[u], t.file)))
    && (t.Read? ==> LastValue(s.log[..t.openedAt], t.key) == t.result)
  }

  ghost predicate ReadersOk(s: State) {
    forall t :: t in s.tasks && !s.tasks[t].Put? ==> ReaderOk(s, s.tasks[t])
  }

  /** The log speaks of a put exactly when that put succeeded, once, with its own value. */
  ghost predicate LogOk(s: State) {
    && (forall i :: 0 <= i < |s.log| && s.log[i].Committed? ==> s.log[i].tid < s.nextTid)
    && (forall i :: 0 <= i < |s.log| && s.log[i].Committed? && s.log[i].tid in s.tasks ==>
          var t := s.tasks[s.log[i].tid];
          t.Put? && t.phase == Returned(true) && s.log[i] == Committed(s.log[i].tid, t.key, t.sealed))
    && (forall t :: t in s.tasks && s.tasks[t].Put? && s.tasks[t].phase == Returned(true) ==>
          Committed(t, s.tasks[t].key, s.tasks[t].sealed) in s.log)
    && (forall i, j :: 0 <= i < j < |s.log| && s.log[i].Committed? && s.log[j].Committed? ==>
          s.log[i].tid != s.log[j].tid)
  }

  ghost predicate Inv(s: State) {
    && FilesExist(s) && NamesDistinct(s)
    && TasksAlive(s) && TempsDistinct(s)
    && WritersOk(s) && WritersDistinct(s)
    && RecordsOk(s) && ReadersOk(s) && LogOk(s)
  }
}
