/** A Writer starting on a path, interleaved with Readers being constructed there
    (shmdata/writer.cpp and reader.cpp).  The path names a socket file, a segment and
    a semaphore set; any of them may be left over from a dead writer. */
module StartUp {
  import opened Wrappers

  type Id = nat

  /** The socket file: `Live(i)` while the server instance i listens behind it. */
  datatype SockFile = NoFile | DeadFile | Live(i: Id)

  /** The statements of the Writer's constructor, in order; after the check comes either
      serving, or the recovery. */
  datatype Pc =
    | BindFirst | ShmFirst | SemFirst | Check
    | ResetSem | ResetShm | ResetSrv | Inspect
    | CleanSem | NewSem | CleanShm | NewShm | CleanSock | BindAgain
    | Serving | Failed

  /** The statements of a Reader's constructor. */
  datatype Construction =
    | Starting
    | OnSocket(i: Id)
    | WithShm(i: Id, shm: Id)
    | WithSem(i: Id, shm: Id, sem: Id)
    | Valid(i: Id, shm: Id, sem: Id)
    | Invalid

  /** Another writer that is up: its server instance and the objects it holds. */
  datatype Other = Other(i: Id, shm: Id, sem: Id)

  datatype State = State(
    sock: SockFile, shm: Option<Id>, sem: Option<Id>,      // what the path names
    pc: Pc, srv: Option<Id>, myShm: Option<Id>, mySem: Option<Id>,  // the starting writer
    other: Option<Other>,
    readers: map<Id, Construction>,
    next: Id)                                               // identifiers below are used

  datatype Label = WriterStep | Begin(r: Id) | Advance(r: Id) | GiveUp(r: Id)

  /** A server instance that answers connections. */
  predicate Answers(s: State, i: Id) {
    (s.pc.Serving? && s.srv == Some(i)) || (s.other.Some? && s.other.value.i == i)
  }

  /** The inspecting Reader of the Writer's constructor succeeds. */
  predicate CanRead(s: State) {
    s.sock.Live? && s.shm.Some? && s.sem.Some? && Answers(s, s.sock.i)
  }

  function WriterNext(s: State): State {
    match s.pc
    case BindFirst =>
      if s.sock.NoFile? then s.(pc := ShmFirst, sock := Live(s.next), srv := Some(s.next), next := s.next + 1)
      else s.(pc := ShmFirst)
    case ShmFirst =>
      if s.shm.None? then s.(pc := SemFirst, shm := Some(s.next), myShm := Some(s.next), next := s.next + 1)
      else s.(pc := SemFirst)
    case SemFirst =>
      if s.sem.None? then s.(pc := Check, sem := Some(s.next), mySem := Some(s.next), next := s.next + 1)
      else s.(pc := Check)
    case Check =>
      if s.srv.Some? && s.myShm.Some? && s.mySem.Some? then s.(pc := Serving) else s.(pc := ResetSem)
    case ResetSem =>
      s.(pc := ResetShm, sem := if s.mySem.Some? then None else s.sem, mySem := None)
    case ResetShm =>
      s.(pc := ResetSrv, shm := if s.myShm.Some? then None else s.shm, myShm := None)
    case ResetSrv =>
      s.(pc := Inspect, sock := if s.srv.Some? then DeadFile else s.sock, srv := None)
    case Inspect => s.(pc := if CanRead(s) then Failed else CleanSem)
    case CleanSem => s.(pc := NewSem, sem := None)
    case NewSem => s.(pc := CleanShm, sem := Some(s.next), mySem := Some(s.next), next := s.next + 1)
    case CleanShm => s.(pc := NewShm, shm := None)
    case NewShm => s.(pc := CleanSock, shm := Some(s.next), myShm := Some(s.next), next := s.next + 1)
    case CleanSock => s.(pc := BindAgain, sock := NoFile)
    case BindAgain => s.(pc := Serving, sock := Live(s.next), srv := Some(s.next), next := s.next + 1)
    case Serving => s
    case Failed => s
  }

  function ReaderNext(s: State, c: Construction): Construction {
    match c
    case Starting => if s.sock.Live? then OnSocket(s.sock.i) else Invalid
    case OnSocket(i) => if s.shm.Some? then WithShm(i, s.shm.value) else Invalid
    case WithShm(i, shm) => if s.sem.Some? then WithSem(i, shm, s.sem.value) else Invalid
    case WithSem(i, shm, sem) => if Answers(s, i) then Valid(i, shm, sem) else c
    case Valid(_, _, _) => c
    case Invalid => c
  }

  predicate Enabled(s: State, l: Label) {
    match l
    case WriterStep => true
    case Begin(r) => r !in s.readers
    case Advance(r) => r in s.readers
    case GiveUp(r) => r in s.readers && !s.readers[r].Valid?
  }

  function Apply(s: State, l: Label): State
    requires Enabled(s, l)
  {
    match l
    case WriterStep => WriterNext(s)
    case Begin(r) => s.(readers := s.readers[r := Starting])
    case Advance(r) => s.(readers := s.readers[r := ReaderNext(s, s.readers[r])])
    case GiveUp(r) => s.(readers := s.readers[r := Invalid])
  }

  /** Identifiers on the path were handed out before. */
  predicate Used(s: State) {
    (s.sock.Live? ==> s.sock.i < s.next)
    && (s.shm.Some? ==> s.shm.value < s.next) && (s.sem.Some? ==> s.sem.value < s.next)
    && (forall r :: r in s.readers && Connected(s.readers[r]) ==> s.readers[r].i < s.next)
  }

  predicate Connected(c: Construction) {
    c.OnSocket? || c.WithShm? || c.WithSem? || c.Valid?
  }

  /** Any mix of leftovers, and no writer up. */
  predicate InitDead(s: State) {
    s.pc.BindFirst? && s.srv.None? && s.myShm.None? && s.mySem.None? && s.other.None?
    && !s.sock.Live? && s.readers == map[] && Used(s)
  }

  /** A writer that is up and keeps its three objects. */
  predicate InitLive(s: State) {
    s.pc.BindFirst? && s.srv.None? && s.myShm.None? && s.mySem.None? && s.other.Some?
    && s.sock == Live(s.other.value.i) && s.shm == Some(s.other.value.shm)
    && s.sem == Some(s.other.value.sem) && s.readers == map[] && Used(s)
  }

  predicate IsRun(s: State, ls: seq<Label>)
    decreases |ls|
  {
    ls == [] || (Enabled(s, ls[0]) && IsRun(Apply(s, ls[0]), ls[1..]))
  }

  function After(s: State, ls: seq<Label>): State
    requires IsRun(s, ls)
    decreases |ls|
  {
    if ls == [] then s else After(Apply(s, ls[0]), ls[1..])
  }

  // ---------------------------------------------------------------- nobody else is up

  /** The listening instance can still come to serve. */
  predicate MayServe(pc: Pc) {
    pc.ShmFirst? || pc.SemFirst? || pc.Check? || pc.Serving?
  }

  predicate ReaderOk(s: State, c: Construction) {
    && (Connected(c) ==> c.i < s.next)
    && ((c.WithShm? || c.WithSem?) && MayServe(s.pc) && s.srv == Some(c.i) ==> s.shm == Some(c.shm))
    && (c.WithSem? && MayServe(s.pc) && s.srv == Some(c.i) ==> s.sem == Some(c.sem))
    && (c.Valid? ==> s.pc.Serving? && s.srv == Some(c.i) && s.myShm == Some(c.shm) && s.mySem == Some(c.sem))
  }

  predicate DeadInv(s: State) {
    && s.other.None? && Used(s)
    && (s.mySem.Some? ==> s.sem == s.mySem)
    && (s.myShm.Some? ==> s.shm == s.myShm)
    && (s.sock.Live? <==> s.srv.Some?)
    && (s.srv.Some? ==> s.sock == Live(s.srv.value))
    && (s.pc.Serving? ==> s.srv.Some? && s.myShm.Some? && s.mySem.Some?)
    && !s.pc.Failed?
    && (s.pc.BindFirst? ==> s.srv.None? && s.myShm.None? && s.mySem.None?)
    && (s.pc.ShmFirst? ==> s.myShm.None? && s.mySem.None?)
    && (s.pc.SemFirst? ==> s.mySem.None?)
    && (s.pc.ResetShm? || s.pc.ResetSrv? ==> s.mySem.None?)
    && (s.pc.ResetSrv? ==> s.myShm.None?)
    && (s.pc.Inspect? || s.pc.CleanSem? || s.pc.NewSem? ==> s.srv.None? && s.mySem.None? && s.myShm.None?)
    && (s.pc.CleanShm? || s.pc.NewShm? ==> s.srv.None? && s.mySem.Some? && s.myShm.None?)
    && (s.pc.CleanSock? || s.pc.BindAgain? ==> s.srv.None? && s.mySem.Some? && s.myShm.Some?)
    && (forall r :: r in s.readers ==> ReaderOk(s, s.readers[r]))
  }

  lemma ReadersStayOk(s: State, r: Id)
    requires DeadInv(s) && r in s.readers
    ensures ReaderOk(WriterNext(s), s.readers[r])
  {
    assert ReaderOk(s, s.readers[r]);
  }

  lemma DeadWriterStep(s: State)
    requires DeadInv(s)
    ensures DeadInv(WriterNext(s))
  {
    var s' := WriterNext(s);
    assert s'.readers == s.readers;
    forall r | r in s.readers ensures ReaderOk(s', s.readers[r]) {
      ReadersStayOk(s, r);
    }
  }

  lemma DeadReaderStep(s: State, l: Label)
    requires DeadInv(s) && Enabled(s, l) && !l.WriterStep?
    ensures DeadInv(Apply(s, l))
  {
    var s' := Apply(s, l);
    assert s' == s.(readers := s'.readers);
    forall r | r in s'.readers ensures ReaderOk(s', s'.readers[r]) {
      if r in s.readers {
        assert ReaderOk(s, s.readers[r]);
      }
    }
  }

  lemma DeadStep(s: State, l: Label)
    requires DeadInv(s) && Enabled(s, l)
    ensures DeadInv(Apply(s, l))
  {
    if l.WriterStep? {
      DeadWriterStep(s);
    } else {
      DeadReaderStep(s, l);
    }
  }

  lemma {:induction false} DeadRun(s: State, ls: seq<Label>)
    requires DeadInv(s) && IsRun(s, ls)
    ensures DeadInv(After(s, ls))
    decreases |ls|
  {
    if ls != [] {
      DeadStep(s, ls[0]);
      DeadRun(Apply(s, ls[0]), ls[1..]);
    }
  }

  /** Whatever a dead writer left behind and however Readers are interleaved, a Reader
      that becomes valid holds the semaphore and the segment of the writer that serves. */
  lemma ValidReadersHoldTheWriters(s0: State, ls: seq<Label>, r: Id)
    requires InitDead(s0) && IsRun(s0, ls)
    ensures var s := After(s0, ls);
            r in s.readers && s.readers[r].Valid? ==>
              s.pc.Serving? && s.mySem == Some(s.readers[r].sem) && s.myShm == Some(s.readers[r].shm)
              && s.sem == s.mySem && s.shm == s.myShm
  {
    DeadRun(s0, ls);
    var s := After(s0, ls);
    if r in s.readers {
      assert ReaderOk(s, s.readers[r]);
    }
  }

  function StepsLeft(pc: Pc): nat {
    match pc
    case BindFirst => 14
    case ShmFirst => 13
    case SemFirst => 12
    case Check => 11
    case ResetSem => 10
    case ResetShm => 9
    case ResetSrv => 8
    case Inspect => 7
    case CleanSem => 6
    case NewSem => 5
    case CleanShm => 4
    case NewShm => 3
    case CleanSock => 2
    case BindAgain => 1
    case Serving => 0
    case Failed => 0
  }

  /** A start on leftovers always succeeds: it never reports another writer, and each of
      its own steps brings it closer to serving. */
  lemma DeadStartProgress(s0: State, ls: seq<Label>)
    requires InitDead(s0) && IsRun(s0, ls)
    ensures var s := After(s0, ls);
            !s.pc.Failed? && (s.pc.Serving? || StepsLeft(WriterNext(s).pc) < StepsLeft(s.pc))
  {
    DeadRun(s0, ls);
  }

  // ---------------------------------------------------------------- another writer is up

  predicate LiveInv(s: State) {
    && s.other.Some? && Used(s)
    && s.sock == Live(s.other.value.i)
    && s.shm == Some(s.other.value.shm)
    && s.sem == Some(s.other.value.sem)
    && s.srv.None? && s.myShm.None? && s.mySem.None?
    && (s.pc.BindFirst? || s.pc.ShmFirst? || s.pc.SemFirst? || s.pc.Check? || s.pc.ResetSem?
        || s.pc.ResetShm? || s.pc.ResetSrv? || s.pc.Inspect? || s.pc.Failed?)
    && (forall r :: r in s.readers ==>
          (s.readers[r].WithSem? || s.readers[r].Valid? ==> s.readers[r].sem == s.other.value.sem))
  }

  lemma {:induction false} LiveRun(s: State, ls: seq<Label>)
    requires LiveInv(s) && IsRun(s, ls)
    ensures LiveInv(After(s, ls)) && After(s, ls).other == s.other
    decreases |ls|
  {
    if ls != [] {
      LiveRun(Apply(s, ls[0]), ls[1..]);
    }
  }

  /** A start that finds a live writer fails and changes nothing the path names; the
      Readers that become valid meanwhile hold the live writer's semaphore. */
  lemma LiveWriterUntouched(s0: State, ls: seq<Label>, r: Id)
    requires InitLive(s0) && IsRun(s0, ls)
    ensures var s := After(s0, ls);
            && s.sock == s0.sock && s.shm == s0.shm && s.sem == s0.sem
            && !s.pc.Serving? && (s.pc.Failed? || StepsLeft(WriterNext(s).pc) < StepsLeft(s.pc))
            && (r in s.readers && s.readers[r].Valid? ==> Some(s.readers[r].sem) == s0.sem)
  {
    LiveRun(s0, ls);
  }
}
