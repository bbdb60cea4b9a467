/** One shmdata as a labelled transition system: any number of writer threads
    under `WriteLock`, any number of readers, the two semaphores, the client
    list of the socket server and the successive shared segments
    (shmdata/writer.cpp, reader.cpp, sysv-sem.cpp, unix-socket-server.cpp).

    Components that no program variable holds are history, kept so that
    properties can be stated: `published`, `observed`, `owing`, `early`,
    `Update.upToDate` and `Reader.trusted`.

    Hypotheses, all visible as guards below:
    - a segment is replaced before the clients are notified, and a notified size
      fits the segment;
    - the timeout reset fires when no write lock is held and every reader still
      owing a decrement is dead;
    - a reader is cancelled once at most, after it died and before it decremented;
      before the tokens are committed this needs a single writer thread;
    - descriptors of new clients are fresh. */
module FrameProtocol {
  import opened SysVSem

  type Id = nat
  type Byte = b: int | 0 <= b < 256

  /** Where a writer thread stands. */
  datatype WriterPhase =
    | Outside                                            // no lock: idle, or blocked in write_start
    | Locked(replaced: bool)                             // clients not notified yet
    | Sending(size: nat, todo: set<Id>, done: set<Id>)   // inside notify_update, its mutex held
    | Sent(size: nat, done: set<Id>)                     // sends over, tokens not committed
    | Committed(size: nat, done: set<Id>)                // tokens committed, bytes being copied

  /** An update message; `upToDate` records whether the receiver's segment was current,
      or the size differs from the one it last saw. */
  datatype Update = Update(size: nat, upToDate: bool)

  /** Where a reader's thread stands between two messages. */
  datatype ReaderPhase =
    | Idle
    | Got(msg: Update)                       // message read from the socket
    | Attached(msg: Update)                  // sizes compared, segment maybe re-attached
    | Reading(msg: Update, seen: seq<Byte>)  // inside the data callback

  /** `trusted` records that every size sent while the reader was alive found, or made
      it look for, the current segment, or was zero. */
  datatype Reader = Reader(alive: bool, inbox: seq<Update>, phase: ReaderPhase,
                           seg: nat,        // generation of the attached segment
                           curSize: nat,    // cur_size_
                           observed: seq<seq<Byte>>, trusted: bool)

  datatype Frame = Frame(data: seq<Byte>, to: set<Id>)

  datatype State = State(sem: Sem,
                         mem: seq<seq<Byte>>,   // bytes of every segment generation
                         writers: map<Id, WriterPhase>,
                         readers: map<Id, Reader>,
                         clients: set<Id>,      // clients_
                         owing: set<Id>,        // committed, not decremented yet
                         early: set<Id>,        // cancelled before the commit
                         published: seq<Frame>)

  datatype Label =
    | LockWrite(w: Id)
    | Replace(w: Id, n: nat)
    | Store(w: Id, bytes: seq<Byte>)
    | BeginNotify(w: Id, size: nat)
    | SendOk(w: Id, r: Id)
    | SendFail(w: Id, r: Id)
    | EndNotify(w: Id)
    | Commit(w: Id)
    | Release(w: Id)
    | Join(r: Id, g: nat)
    | Leave(r: Id)
    | Die(r: Id)
    | Cancel(r: Id)
    | ResetReaders
    | Receive(r: Id)
    | Attach(r: Id)
    | BeginRead(r: Id)
    | EndRead(r: Id)

  predicate WellFormed(s: State) {
    s.mem != []
  }

  function Generation(s: State): nat
    requires WellFormed(s)
  {
    |s.mem| - 1
  }

  function Capacity(s: State): nat
    requires WellFormed(s)
  {
    |s.mem[Generation(s)]|
  }

  function Take(bytes: seq<Byte>, n: nat): seq<Byte> {
    if n <= |bytes| then bytes[..n] else bytes
  }

  /** The bytes a callback sees through segment `seg`. */
  function View(mem: seq<seq<Byte>>, seg: nat, size: nat): seq<Byte> {
    if seg < |mem| then Take(mem[seg], size) else []
  }

  predicate Holds(s: State, w: Id) {
    w in s.writers && s.writers[w] != Outside
  }

  function Holders(s: State): set<Id> {
    set w | w in s.writers && s.writers[w] != Outside
  }

  /** `clients_mutex_` is not inside `notify_update`. */
  predicate MutexFree(s: State) {
    forall w :: w in s.writers ==> !s.writers[w].Sending?
  }

  predicate IsAlive(s: State, r: Id) {
    r in s.readers && s.readers[r].alive
  }

  predicate WillSeeCurrent(s: State, rd: Reader, size: nat) {
    rd.seg + 1 == |s.mem| || size != rd.curSize
  }

  /** Guard of a cancellation before the commit. */
  predicate EarlyCancel(s: State, r: Id) {
    |s.writers| == 1
    && exists w :: w in s.writers && s.writers[w].Sent? && r in s.writers[w].done && r !in s.early
  }

  predicate ResetGuard(s: State) {
    Holders(s) == {} && forall r :: r in s.owing ==> !IsAlive(s, r)
  }

  predicate Enabled(s: State, l: Label) {
    WellFormed(s) &&
    match l
    case LockWrite(w) =>
      w in s.writers && s.writers[w].Outside? && Semop(s.sem, WRITE_START).Some?
    case Replace(w, n) => w in s.writers && s.writers[w].Locked?
    case Store(w, bytes) =>
      w in s.writers && (s.writers[w].Locked? || s.writers[w].Committed?)
      && |bytes| == Capacity(s)
    case BeginNotify(w, size) =>
      w in s.writers && s.writers[w].Locked? && size <= Capacity(s)
    case SendOk(w, r) =>
      w in s.writers && s.writers[w].Sending? && r in s.writers[w].todo && r in s.readers
    case SendFail(w, r) =>
      w in s.writers && s.writers[w].Sending? && r in s.writers[w].todo
    case EndNotify(w) =>
      w in s.writers && s.writers[w].Sending? && s.writers[w].todo == {}
    case Commit(w) =>
      w in s.writers && s.writers[w].Sent?
      && (s.writers[w].done == {} || Semop(s.sem, CommitOps(|s.writers[w].done|)).Some?)
    case Release(w) =>
      w in s.writers && (s.writers[w].Locked? || s.writers[w].Committed?)
      && Semop(s.sem, WRITE_END).Some?
    case Join(r, g) => r !in s.readers && g < |s.mem| && MutexFree(s)
    case Leave(r) => r in s.clients && MutexFree(s)
    case Die(r) => IsAlive(s, r)
    case Cancel(r) =>
      r in s.clients && r in s.readers && !s.readers[r].alive && MutexFree(s)
      && (r in s.owing || EarlyCancel(s, r)) && Semop(s.sem, READ_END).Some?
    case ResetReaders => ResetGuard(s)
    case Receive(r) =>
      IsAlive(s, r) && s.readers[r].phase.Idle? && s.readers[r].inbox != []
    case Attach(r) => IsAlive(s, r) && s.readers[r].phase.Got?
    case BeginRead(r) =>
      IsAlive(s, r) && s.readers[r].phase.Attached? && Semop(s.sem, READ_START).Some?
    case EndRead(r) =>
      IsAlive(s, r) && s.readers[r].phase.Reading? && Semop(s.sem, READ_END).Some?
  }

  function SetWriter(s: State, w: Id, phase: WriterPhase): State {
    s.(writers := s.writers[w := phase])
  }

  function SetReader(s: State, r: Id, rd: Reader): State {
    s.(readers := s.readers[r := rd])
  }

  /** The update lambda of the Reader: re-attach exactly when the size changed. */
  function AttachOn(rd: Reader, msg: Update, generation: nat): Reader {
    rd.(seg := if msg.size != rd.curSize then generation else rd.seg,
        curSize := msg.size,
        phase := Attached(msg))
  }

  function NewReader(g: nat): Reader {
    Reader(true, [], Idle, g, 0, [], true)
  }

  function Apply(s: State, l: Label): State
    requires Enabled(s, l)
  {
    match l
    case LockWrite(w) =>
      SetWriter(s, w, Locked(false)).(sem := Semop(s.sem, WRITE_START).value)
    case Replace(w, n) =>
      SetWriter(s, w, Locked(true)).(mem := s.mem + [seq(n, i => 0)])
    case Store(w, bytes) => s.(mem := s.mem[|s.mem| - 1 := bytes])
    case BeginNotify(w, size) => SetWriter(s, w, Sending(size, s.clients, {}))
    case SendOk(w, r) =>
      var p := s.writers[w];
      var rd := s.readers[r];
      var msg := Update(p.size, WillSeeCurrent(s, rd, p.size));
      SetReader(SetWriter(s, w, Sending(p.size, p.todo - {r}, p.done + {r})), r,
                rd.(inbox := rd.inbox + [msg],
                    trusted := rd.trusted && (!rd.alive || msg.upToDate || msg.size == 0)))
    case SendFail(w, r) =>
      var p := s.writers[w];
      SetWriter(s, w, Sending(p.size, p.todo - {r}, p.done))
    case EndNotify(w) => SetWriter(s, w, Sent(s.writers[w].size, s.writers[w].done))
    case Commit(w) =>
      var p := s.writers[w];
      SetWriter(s, w, Committed(p.size, p.done))
        .(sem := if p.done == {} then s.sem else Semop(s.sem, CommitOps(|p.done|)).value,
          owing := s.owing + (p.done - s.early),
          early := {})
    case Release(w) =>
      var p := s.writers[w];
      SetWriter(s, w, Outside)
        .(sem := Semop(s.sem, WRITE_END).value,
          published := if p.Locked? then s.published
                       else s.published + [Frame(View(s.mem, |s.mem| - 1, p.size), p.done)])
    case Join(r, g) => SetReader(s, r, NewReader(g)).(clients := s.clients + {r})
    case Leave(r) => s.(clients := s.clients - {r})
    case Die(r) => SetReader(s, r, s.readers[r].(alive := false))
    case Cancel(r) =>
      s.(clients := s.clients - {r},
         sem := Semop(s.sem, READ_END).value,
         owing := s.owing - {r},
         early := if r in s.owing then s.early else s.early + {r})
    case ResetReaders => s.(sem := Sem(0, s.sem.writer), owing := {})
    case Receive(r) =>
      var rd := s.readers[r];
      SetReader(s, r, rd.(inbox := rd.inbox[1..], phase := Got(rd.inbox[0])))
    case Attach(r) =>
      var rd := s.readers[r];
      SetReader(s, r, AttachOn(rd, rd.phase.msg, Generation(s)))
    case BeginRead(r) =>
      var rd := s.readers[r];
      SetReader(s, r, rd.(phase := Reading(rd.phase.msg, View(s.mem, rd.seg, rd.phase.msg.size))))
    case EndRead(r) =>
      var rd := s.readers[r];
      SetReader(s, r, rd.(phase := Idle,
                          observed := rd.observed + [View(s.mem, rd.seg, rd.phase.msg.size)]))
        .(sem := Semop(s.sem, READ_END).value, owing := s.owing - {r})
  }

  /** A started shmdata: nothing held, nobody connected, one segment. */
  predicate Init(s: State) {
    s.sem == FRESH_SEM && |s.mem| == 1 && (forall w :: w in s.writers ==> s.writers[w].Outside?)
    && s.readers == map[] && s.clients == {} && s.owing == {} && s.early == {}
    && s.published == []
  }

  /** `ls` can be taken from `s`, label after label. */
  predicate IsRun(s: State, ls: seq<Label>)
    decreases |ls|
  {
    ls == [] || (Enabled(s, ls[0]) && IsRun(Apply(s, ls[0]), ls[1..]))
  }

  function After(s: State, ls: seq<Label>): State
    requires IsRun(s, ls)
    decreases |ls|
  {
    if ls == [] then s else After(Apply(s, ls[0]), ls[1..])
  }

  /** The frames sent to r, in publication order: what r is meant to see. */
  function Delivered(published: seq<Frame>, r: Id): seq<seq<Byte>> {
    if published == [] then []
    else
      var last := published[|published| - 1];
      Delivered(published[..|published| - 1], r) + if r in last.to then [last.data] else []
  }
}
