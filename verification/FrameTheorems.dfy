/** What the frame protocol guarantees, over every run. */
module FrameTheorems {
  import opened SysVSem
  import opened FrameProtocol
  import opened FrameInvariant

  predicate InCallback(s: State, r: Id) {
    IsAlive(s, r) && s.readers[r].phase.Reading?
  }

  lemma Reached(s0: State, ls: seq<Label>)
    requires Init(s0) && IsRun(s0, ls)
    ensures Inv(After(s0, ls))
  {
    InitInv(s0);
    RunInv(s0, ls);
  }

  // ---------------------------------------------------------------- exclusion

  /** At most one write lock, and nobody inside a callback while it is held; in
      particular between notification and commit no notified reader has passed
      `read_start`.  Any number of writer threads contend. */
  lemma Exclusion(s0: State, ls: seq<Label>)
    requires Init(s0) && IsRun(s0, ls)
    ensures var s := After(s0, ls);
            |Holders(s)| <= 1 && (Holders(s) != {} ==> forall r :: !InCallback(s, r))
  {
    Reached(s0, ls);
    var s := After(s0, ls);
    HoldersCount(s);
    if Holders(s) != {} {
      forall r ensures !InCallback(s, r) {
        if InCallback(s, r) {
          ReadsLastFrame(s, r);
        }
      }
    }
  }

  /** A running callback keeps seeing the bytes it started with. */
  lemma StableCallback(s0: State, ls: seq<Label>, r: Id)
    requires Init(s0) && IsRun(s0, ls) && InCallback(After(s0, ls), r)
    ensures var rd := After(s0, ls).readers[r];
            rd.phase.seen == View(After(s0, ls).mem, rd.seg, rd.phase.msg.size)
  {
    Reached(s0, ls);
    var s := After(s0, ls);
    assert ReaderInv(s, Session(s.writers), r, s.readers[r]);
  }

  // ---------------------------------------------------------------- tokens

  /** Semaphore 1 counts the held write locks; semaphore 0 counts them too, plus
      the committed readers that did not decrement yet, less the readers cancelled
      ahead of their commit (never more than one, and only while their session is
      between notification and commit). */
  lemma TokenConservation(s0: State, ls: seq<Label>)
    requires Init(s0) && IsRun(s0, ls)
    ensures var s := After(s0, ls);
            && s.sem.writer == |Holders(s)|
            && s.sem.reader + |s.early| == |Holders(s)| + |s.owing|
            && |s.early| <= 1
            && (s.early != {} ==> exists w :: w in s.writers && s.writers[w].Sent?)
            && (forall w :: w in s.writers && (s.writers[w].Sending? || s.writers[w].Sent?) ==> s.owing == {})
  {
    Reached(s0, ls);
    var s := After(s0, ls);
    HoldersCount(s);
    forall w | w in s.writers && (s.writers[w].Sending? || s.writers[w].Sent?)
      ensures s.owing == {}
    {
      SessionIs(s.writers, w);
    }
  }

  /** The tokens stand for exactly the readers with work left: outside a session a
      live reader owes a decrement if and only if an update is still on its way
      through it. */
  lemma TokensAreBusyReaders(s0: State, ls: seq<Label>, r: Id)
    requires Init(s0) && IsRun(s0, ls) && IsAlive(After(s0, ls), r)
    requires Holders(After(s0, ls)) == {}
    ensures r in After(s0, ls).owing <==> Busy(After(s0, ls).readers[r])
    ensures |After(s0, ls).readers[r].inbox| <= 1
  {
    Reached(s0, ls);
    var s := After(s0, ls);
    HoldersCount(s);
    assert ReaderInv(s, Session(s.writers), r, s.readers[r]);
  }

  // ---------------------------------------------------------------- broadcast

  /** What r saw so far, against the frames sent to it, in order and once each. */
  predicate InOrderOnce(observed: seq<seq<Byte>>, sent: seq<seq<Byte>>, owes: bool) {
    if owes then sent != [] && observed == sent[..|sent| - 1] else observed == sent
  }

  /** Broadcast: a live reader whose segment was current at every notification has
      seen exactly the published frames whose send to it succeeded, with the bytes
      they had when the lock was released, except for one it is still working on. */
  lemma Broadcast(s0: State, ls: seq<Label>, r: Id)
    requires Init(s0) && IsRun(s0, ls)
    ensures var s := After(s0, ls);
            r in s.readers && s.readers[r].trusted ==>
              var sent := Delivered(s.published, r);
              if s.readers[r].alive
              then InOrderOnce(s.readers[r].observed, sent, r in s.owing && Holders(s) == {})
              else |s.readers[r].observed| <= |sent| && s.readers[r].observed == sent[..|s.readers[r].observed|]
  {
    Reached(s0, ls);
    var s := After(s0, ls);
    HoldersCount(s);
    if r in s.readers {
      var ses := Session(s.writers);
      assert ReaderInv(s, ses, r, s.readers[r]);
      if s.readers[r].alive && r in s.owing && ses.Outside? {
        DeliveredLast(s.published, r);
      }
    }
  }

  /** Even a reader left on an old segment runs one callback per frame sent to it. */
  lemma OneCallbackPerFrame(s0: State, ls: seq<Label>, r: Id)
    requires Init(s0) && IsRun(s0, ls) && IsAlive(After(s0, ls), r)
    ensures var s := After(s0, ls);
            |s.readers[r].observed| + (if r in s.owing && Holders(s) == {} then 1 else 0)
            == |Delivered(s.published, r)|
  {
    Reached(s0, ls);
    var s := After(s0, ls);
    HoldersCount(s);
    assert ReaderInv(s, Session(s.writers), r, s.readers[r]);
    if r in s.owing && Session(s.writers).Outside? {
      DeliveredLast(s.published, r);
    }
  }

  /** Published frames never change and observations are never taken back. */
  lemma {:induction false} LogsGrow(s: State, ls: seq<Label>)
    requires IsRun(s, ls)
    ensures s.published <= After(s, ls).published
    ensures forall r :: r in s.readers ==>
              r in After(s, ls).readers && s.readers[r].observed <= After(s, ls).readers[r].observed
    decreases |ls|
  {
    if ls != [] {
      LogsGrow(Apply(s, ls[0]), ls[1..]);
    }
  }

  // ---------------------------------------------------------------- segment currency

  predicate Touches(l: Label, r: Id) {
    l == EndRead(r) || l == Die(r)
  }

  lemma PendingKept(s: State, l: Label, r: Id)
    requires Inv(s) && Enabled(s, l) && !Touches(l, r)
    requires IsAlive(s, r) && Busy(s.readers[r])
    ensures var s' := Apply(s, l);
            IsAlive(s', r) && Busy(s'.readers[r]) && Pending(s'.readers[r]) == Pending(s.readers[r])
  {
    assert ReaderInv(s, Session(s.writers), r, s.readers[r]);
    if l.SendOk? && l.r == r {
      SessionIs(s.writers, l.w);
    }
  }

  lemma {:induction false} PendingKeptAlong(s: State, ls: seq<Label>, r: Id)
    requires Inv(s) && IsRun(s, ls) && forall l :: l in ls ==> !Touches(l, r)
    requires IsAlive(s, r) && Busy(s.readers[r])
    ensures var s' := After(s, ls);
            IsAlive(s', r) && Busy(s'.readers[r]) && Pending(s'.readers[r]) == Pending(s.readers[r])
    decreases |ls|
  {
    if ls != [] {
      StepInv(s, ls[0]);
      PendingKept(s, ls[0], r);
      PendingKeptAlong(Apply(s, ls[0]), ls[1..], r);
    }
  }

  /** Currency, exactly: whatever happens between a send and the callback it causes,
      the callback runs on the writer's segment if and only if, at the send, the
      reader was attached to it already or the size differs from the one it last saw. */
  lemma CurrencyExact(s: State, w: Id, r: Id, ls: seq<Label>)
    requires Inv(s) && Enabled(s, SendOk(w, r)) && IsAlive(s, r)
    requires IsRun(Apply(s, SendOk(w, r)), ls) && forall l :: l in ls ==> !Touches(l, r)
    requires InCallback(After(Apply(s, SendOk(w, r)), ls), r)
    ensures var s' := After(Apply(s, SendOk(w, r)), ls);
            s'.readers[r].seg + 1 == |s'.mem|
            <==> WillSeeCurrent(s, s.readers[r], s.writers[w].size)
  {
    var next := Apply(s, SendOk(w, r));
    SessionIs(s.writers, w);
    assert ReaderInv(s, Session(s.writers), r, s.readers[r]);
    StepInv(s, SendOk(w, r));
    PendingKeptAlong(next, ls, r);
    RunInv(next, ls);
    var s' := After(next, ls);
    assert ReaderInv(s', Session(s'.writers), r, s'.readers[r]);
  }

  /** A callback on the current segment is given a size that fits it. */
  lemma CallbackFits(s0: State, ls: seq<Label>, r: Id)
    requires Init(s0) && IsRun(s0, ls) && InCallback(After(s0, ls), r)
    ensures var s := After(s0, ls);
            var rd := s.readers[r];
            rd.seg + 1 == |s.mem| ==> rd.phase.msg.size <= Capacity(s)
  {
    Reached(s0, ls);
    ReadsLastFrame(After(s0, ls), r);
  }

  // ---------------------------------------------------------------- blocking

  /** No decrement and no release of a lock ever waits, and a thread inside a
      session always has a step to take. */
  lemma NeverBlocks(s0: State, ls: seq<Label>)
    requires Init(s0) && IsRun(s0, ls)
    ensures var s := After(s0, ls);
            && (forall r :: InCallback(s, r) ==> Enabled(s, EndRead(r)))
            && (forall w :: w in s.writers && (s.writers[w].Locked? || s.writers[w].Committed?)
                  ==> Enabled(s, Release(w)))
            && (forall w :: w in s.writers && s.writers[w].Sent? ==> Enabled(s, Commit(w)))
            && (forall w :: w in s.writers && s.writers[w].Sending? ==>
                  Enabled(s, EndNotify(w))
                  || exists r :: r in s.writers[w].todo && Enabled(s, SendFail(w, r)) && Enabled(s, SendOk(w, r)))
  {
    Reached(s0, ls);
    var s := After(s0, ls);
    OpsMeaning(s.sem);
    forall r | InCallback(s, r) ensures Enabled(s, EndRead(r)) {
      ReadsLastFrame(s, r);
    }
    forall w | w in s.writers && s.writers[w] != Outside
      ensures s.writers[w].Locked? || s.writers[w].Committed? ==> Enabled(s, Release(w))
      ensures s.writers[w].Sent? ==> Enabled(s, Commit(w))
      ensures s.writers[w].Sending? ==>
                Enabled(s, EndNotify(w))
                || exists r :: r in s.writers[w].todo && Enabled(s, SendFail(w, r)) && Enabled(s, SendOk(w, r))
    {
      SessionMoves(s, w);
    }
  }

  lemma SessionMoves(s: State, w: Id)
    requires Inv(s) && w in s.writers && s.writers[w] != Outside
    ensures s.writers[w].Locked? || s.writers[w].Committed? ==> Enabled(s, Release(w))
    ensures s.writers[w].Sent? ==> Enabled(s, Commit(w))
    ensures s.writers[w].Sending? ==>
              Enabled(s, EndNotify(w))
              || exists r :: r in s.writers[w].todo && Enabled(s, SendFail(w, r)) && Enabled(s, SendOk(w, r))
  {
    OpsMeaning(s.sem);
    SessionIs(s.writers, w);
    if s.writers[w].Sent? {
      CommitMeaning(s.sem, |s.writers[w].done|);
    }
    if s.writers[w].Sending? && s.writers[w].todo != {} {
      var r :| r in s.writers[w].todo;
      assert Enabled(s, SendFail(w, r)) && Enabled(s, SendOk(w, r));
    }
  }

  /** Steps a reader still has to take before its token is gone; 1 for a dead one,
      whose token goes with a cancellation or a reset. */
  function Rank(rd: Reader): nat {
    if !rd.alive then 1
    else match rd.phase
      case Idle => 5
      case Got(_) => 4
      case Attached(_) => 3
      case Reading(_, _) => 2
  }

  ghost function Work(readers: map<Id, Reader>, rs: set<Id>): nat
    requires rs <= readers.Keys
  {
    if rs == {} then 0
    else
      var r :| r in rs;
      Rank(readers[r]) + Work(readers, rs - {r})
  }

  /** The sum does not depend on the order in which it is taken. */
  lemma {:induction false} WorkSplit(readers: map<Id, Reader>, rs: set<Id>, r: Id)
    requires rs <= readers.Keys && r in rs
    ensures Work(readers, rs) == Rank(readers[r]) + Work(readers, rs - {r})
    decreases |rs|
  {
    var q :| q in rs && Work(readers, rs) == Rank(readers[q]) + Work(readers, rs - {q});
    if q != r {
      WorkSplit(readers, rs - {q}, r);
      WorkSplit(readers, rs - {r}, q);
      assert rs - {q} - {r} == rs - {r} - {q};
    }
  }

  lemma {:induction false} WorkSame(readers: map<Id, Reader>, readers': map<Id, Reader>, rs: set<Id>)
    requires rs <= readers.Keys && rs <= readers'.Keys
    requires forall q :: q in rs ==> readers'[q] == readers[q]
    ensures Work(readers', rs) == Work(readers, rs)
    decreases |rs|
  {
    if rs != {} {
      var q :| q in rs;
      WorkSplit(readers, rs, q);
      WorkSplit(readers', rs, q);
      WorkSame(readers, readers', rs - {q});
    }
  }

  lemma {:induction false} WorkBound(readers: map<Id, Reader>, rs: set<Id>)
    requires rs <= readers.Keys
    ensures |rs| <= Work(readers, rs) <= 5 * |rs|
    decreases |rs|
  {
    if rs != {} {
      var q :| q in rs;
      WorkSplit(readers, rs, q);
      WorkBound(readers, rs - {q});
    }
  }

  /** Steps that bring a waiting writer closer to its lock. */
  predicate Consumes(s: State, l: Label) {
    match l
    case Receive(_) => true
    case Attach(_) => true
    case BeginRead(_) => true
    case EndRead(_) => true
    case Cancel(_) => true
    case Die(r) => r in s.owing
    case ResetReaders => s.owing != {}
    case _ => false
  }

  ghost predicate Waiting(s: State) {
    Inv(s) && Session(s.writers).Outside?
  }

  /** A lowered rank lowers the sum. */
  lemma WorkLowered(readers: map<Id, Reader>, r: Id, rd: Reader, rs: set<Id>)
    requires rs <= readers.Keys && r in rs && Rank(rd) < Rank(readers[r])
    ensures Work(readers[r := rd], rs) < Work(readers, rs)
  {
    WorkSplit(readers, rs, r);
    WorkSplit(readers[r := rd], rs, r);
    WorkSame(readers, readers[r := rd], rs - {r});
  }

  /** While no lock is held, no step adds work, and every step that a reader, a
      cancellation or a reset takes removes some. */
  lemma WaitingShrinks(s: State, l: Label)
    requires Waiting(s) && Enabled(s, l) && !l.LockWrite?
    ensures Waiting(Apply(s, l))
    ensures Work(Apply(s, l).readers, Apply(s, l).owing)
         <= Work(s.readers, s.owing) - (if Consumes(s, l) then 1 else 0)
  {
    StepInv(s, l);
    var s' := Apply(s, l);
    match l
    case Receive(r) =>
      assert ReaderInv(s, Session(s.writers), r, s.readers[r]);
      WorkLowered(s.readers, r, s'.readers[r], s.owing);
    case Attach(r) =>
      assert ReaderInv(s, Session(s.writers), r, s.readers[r]);
      WorkLowered(s.readers, r, s'.readers[r], s.owing);
    case BeginRead(r) =>
      assert ReaderInv(s, Session(s.writers), r, s.readers[r]);
      WorkLowered(s.readers, r, s'.readers[r], s.owing);
    case EndRead(r) =>
      ReadsLastFrame(s, r);
      WorkSplit(s.readers, s.owing, r);
      WorkSame(s.readers, s'.readers, s'.owing);
    case Cancel(r) =>
      WorkSplit(s.readers, s.owing, r);
    case Die(r) =>
      if r in s.owing {
        WorkLowered(s.readers, r, s'.readers[r], s.owing);
      } else {
        WorkSame(s.readers, s'.readers, s.owing);
      }
    case ResetReaders =>
      WorkBound(s.readers, s.owing);
    case Join(r, g) =>
      WorkSame(s.readers, s'.readers, s.owing);
    case Leave(r) =>
    case _ =>
      assert false;
  }

  function Consumed(s: State, ls: seq<Label>): nat
    requires IsRun(s, ls)
    decreases |ls|
  {
    if ls == [] then 0
    else (if Consumes(s, ls[0]) then 1 else 0) + Consumed(Apply(s, ls[0]), ls[1..])
  }

  /** Termination: a writer that waits sees at most five steps per owing reader, in
      any run during which nobody takes the lock. */
  lemma {:induction false} WaitIsBounded(s: State, ls: seq<Label>)
    requires Waiting(s) && IsRun(s, ls) && forall l :: l in ls ==> !l.LockWrite?
    ensures Waiting(After(s, ls))
    ensures Consumed(s, ls) + Work(After(s, ls).readers, After(s, ls).owing) <= Work(s.readers, s.owing)
    ensures Work(s.readers, s.owing) <= 5 * |s.owing|
    decreases |ls|
  {
    WorkBound(s.readers, s.owing);
    if ls != [] {
      WaitingShrinks(s, ls[0]);
      WaitIsBounded(Apply(s, ls[0]), ls[1..]);
    }
  }

  /** The step a live reader that owes a token takes next. */
  function NextOf(r: Id, rd: Reader): Label {
    match rd.phase
    case Idle => Receive(r)
    case Got(_) => Attach(r)
    case Attached(_) => BeginRead(r)
    case Reading(_, _) => EndRead(r)
  }

  /** No deadlock: while the lock is free, either it is granted at once, or each live
      reader that owes a token can step, or all of them are dead and the reset applies. */
  lemma NoDeadlock(s: State, w: Id)
    requires Waiting(s) && w in s.writers
    ensures Enabled(s, LockWrite(w)) <==> s.owing == {}
    ensures s.owing == {} <==> Work(s.readers, s.owing) == 0
    ensures forall r :: r in s.owing && IsAlive(s, r) ==> Enabled(s, NextOf(r, s.readers[r]))
    ensures (forall r :: r in s.owing ==> !IsAlive(s, r)) ==> Enabled(s, ResetReaders)
  {
    OpsMeaning(s.sem);
    WorkBound(s.readers, s.owing);
    HoldersCount(s);
    assert s.writers[w].Outside?;
    forall r | r in s.owing && IsAlive(s, r)
      ensures Enabled(s, NextOf(r, s.readers[r]))
    {
      assert ReaderInv(s, Session(s.writers), r, s.readers[r]);
    }
  }

  // ---------------------------------------------------------------- crashes

  /** Writing 0 into semaphore 0 forgets the tokens of dead readers only: live ones
      will still decrement. */
  function RawReset(s: State): State {
    s.(sem := Sem(0, s.sem.writer), owing := set r | r in s.owing && IsAlive(s, r))
  }

  /** The reset keeps the tokens right if and only if no lock is held and all owing
      readers are dead, or the semaphore was zero anyway. */
  lemma ResetExact(s: State)
    requires Inv(s)
    ensures TokenInv(RawReset(s)) <==> ResetGuard(s) || s.sem.reader == 0
  {
    HoldersCount(s);
    var live := RawReset(s).owing;
    if s.sem.reader == 0 {
      if Session(s.writers).Outside? {
        assert s.owing == {};
      }
      assert live == {} || s.early == {};
    }
    if TokenInv(RawReset(s)) {
      assert |s.early| == Held(Session(s.writers)) + |live|;
      if s.early == {} {
        assert live == {};
        assert forall r :: r in s.owing && IsAlive(s, r) ==> r in live;
      }
    }
  }

  /** `cancel_commited_reader` for r as the server can make it, whatever r still owes. */
  function RawCancel(s: State, r: Id): State
    requires Semop(s.sem, READ_END).Some?
  {
    s.(clients := s.clients - {r},
       sem := Semop(s.sem, READ_END).value,
       owing := s.owing - {r},
       early := if r in s.owing then s.early else s.early + {r})
  }

  lemma CancelCounts(s: State, r: Id)
    requires Inv(s) && MutexFree(s) && Semop(s.sem, READ_END).Some? && r !in s.owing
    ensures TokenInv(RawCancel(s, r)) ==> EarlyCancel(s, r)
  {
    OpsMeaning(s.sem);
    var after := RawCancel(s, r);
    assert s.owing - {r} == s.owing;
    assert r in s.early ==> after.early == s.early;
    if TokenInv(after) {
      assert r in after.early;
      var w :| w in s.writers && s.writers[w] != Outside;
      SessionIs(s.writers, w);
    }
  }

  /** A cancellation keeps the tokens right if and only if the client has a committed
      token out, or was just notified, is not cancelled yet, and no second writer thread
      is around. */
  lemma CancelExact(s: State, r: Id)
    requires Inv(s) && MutexFree(s) && Semop(s.sem, READ_END).Some?
    ensures TokenInv(RawCancel(s, r)) <==> r in s.owing || EarlyCancel(s, r)
  {
    OpsMeaning(s.sem);
    if r in s.owing {
      SubsetCount({r}, s.owing);
    } else if EarlyCancel(s, r) {
      var w :| w in s.writers && s.writers[w].Sent? && r in s.writers[w].done && r !in s.early;
      SessionIs(s.writers, w);
      SubsetCount({r}, s.early + {r});
      assert s.early + {r} - {r} == s.early && s.owing - {r} == s.owing;
    } else {
      CancelCounts(s, r);
    }
  }

  /** Cancelling a client that owes nothing while a lock is held takes the lock's own
      token: the release then waits if and only if no other token is out. */
  lemma CancelUnderLock(s: State, r: Id, w: Id)
    requires Inv(s) && w in s.writers && (s.writers[w].Locked? || s.writers[w].Committed?) && r !in s.owing
    ensures Semop(s.sem, READ_END).Some?
    ensures Enabled(RawCancel(s, r), Release(w)) <==> s.owing != {}
    ensures s.owing == {} ==> forall v <- s.writers :: v != w ==> Enabled(RawCancel(s, r), LockWrite(v))
  {
    UnderLock(s, w);
    OpsMeaning(s.sem);
    var after := RawCancel(s, r);
    assert after.sem == Sem(|s.owing|, 1) && after.writers == s.writers && after.mem == s.mem;
    ReleaseGranted(after, w);
    forall v | v in s.writers && v != w ensures s.owing == {} ==> Enabled(after, LockWrite(v)) {
      LockGranted(after, v);
    }
  }

  lemma LockGranted(s: State, w: Id)
    requires WellFormed(s) && w in s.writers && s.writers[w].Outside?
    ensures Enabled(s, LockWrite(w)) <==> s.sem.reader == 0
  {
    OpsMeaning(s.sem);
  }

  lemma ReleaseGranted(s: State, w: Id)
    requires WellFormed(s) && w in s.writers && (s.writers[w].Locked? || s.writers[w].Committed?)
    ensures Enabled(s, Release(w)) <==> s.sem.reader > 0 && s.sem.writer > 0
  {
    OpsMeaning(s.sem);
  }

  lemma UnderLock(s: State, w: Id)
    requires Inv(s) && w in s.writers && (s.writers[w].Locked? || s.writers[w].Committed?)
    ensures s.sem == Sem(1 + |s.owing|, 1)
    ensures forall v <- s.writers :: v != w ==> s.writers[v].Outside?
  {
    SessionIs(s.writers, w);
    OthersOutside(s.writers, w);
  }

  // ---------------------------------------------------------------- who owes, by what is seen

  /** A token of r is out, or will be with the commit. */
  ghost predicate Owes(s: State, r: Id) {
    r in s.owing || r in Promised(Session(s.writers), s.early)
  }

  /** Whoever owes a token, or is promised one, has not finished with the update it was sent. */
  ghost predicate OwingIsBusy(s: State, r: Id) {
    Owes(s, r) ==> r in s.readers && Busy(s.readers[r])
  }

  lemma PhaseStep(s: State, l: Label)
    requires Inv(s) && Enabled(s, l)
    ensures var ses, ses' := Session(s.writers), Session(Apply(s, l).writers);
            match l
            case LockWrite(w) => ses.Outside? && s.owing == {} && ses'.Locked?
            case Replace(w, n) => ses.Locked? && ses'.Locked?
            case BeginNotify(w, size) => ses.Locked? && ses' == Sending(size, s.clients, {})
            case SendOk(w, r) => ses == s.writers[w] && ses' == Sending(ses.size, ses.todo - {r}, ses.done + {r})
            case SendFail(w, r) => ses == s.writers[w] && ses' == Sending(ses.size, ses.todo - {r}, ses.done)
            case EndNotify(w) => ses == s.writers[w] && ses' == Sent(ses.size, ses.done)
            case Commit(w) => ses == s.writers[w] && ses' == Committed(ses.size, ses.done)
            case Release(w) => ses == s.writers[w] && ses'.Outside?
            case _ => ses' == ses
  {
    var s' := Apply(s, l);
    match l
    case LockWrite(w) => LockWriteInv(s, w); SessionAfter(s.writers, w, Locked(false));
    case Replace(w, n) => PhaseMoves(s.writers, w, s'.writers[w]);
    case BeginNotify(w, size) => PhaseMoves(s.writers, w, s'.writers[w]);
    case SendOk(w, r) => PhaseMoves(s.writers, w, s'.writers[w]);
    case SendFail(w, r) => PhaseMoves(s.writers, w, s'.writers[w]);
    case EndNotify(w) => PhaseMoves(s.writers, w, s'.writers[w]);
    case Commit(w) => PhaseMoves(s.writers, w, s'.writers[w]);
    case Release(w) => PhaseMoves(s.writers, w, Outside);
    case _ =>
  }

  lemma PhaseMoves(ws: map<Id, WriterPhase>, w: Id, p: WriterPhase)
    requires Exclusive(ws) && w in ws && ws[w] != Outside
    ensures Session(ws) == ws[w] && Session(ws[w := p]) == p
  {
    SessionIs(ws, w);
    OthersOutside(ws, w);
    SessionAfter(ws, w, p);
  }

  predicate OfReader(l: Label) {
    l.Join? || l.Leave? || l.Die? || l.Cancel? || l.ResetReaders? || l.Receive? || l.Attach? || l.BeginRead? || l.EndRead?
  }

  lemma ReaderStepSession(s: State, l: Label)
    requires Enabled(s, l) && OfReader(l)
    ensures Session(Apply(s, l).writers) == Session(s.writers)
    ensures !l.Cancel? ==> Apply(s, l).early == s.early
  {
    assert Apply(s, l).writers == s.writers;
  }

  lemma OwingBusyByReader(s: State, l: Label, r: Id)
    requires Inv(s) && Enabled(s, l) && OwingIsBusy(s, r) && OfReader(l)
    ensures OwingIsBusy(Apply(s, l), r)
  {
    ReaderStepSession(s, l);
    if l.EndRead? && l.r == r {
      ReadsLastFrame(s, r);
    }
  }

  predicate SentTo(l: Label, r: Id) {
    l.SendOk? && l.r == r
  }

  lemma WriterOwes(s: State, l: Label, r: Id)
    requires Inv(s) && Enabled(s, l) && !OfReader(l)
    ensures Owes(Apply(s, l), r) ==> Owes(s, r) || SentTo(l, r)
    ensures r !in s.early && (Owes(s, r) || SentTo(l, r)) ==> Owes(Apply(s, l), r)
    ensures r !in s.early ==> r !in Apply(s, l).early
  {
    PhaseStep(s, l);
  }

  lemma WriterKeepsReader(s: State, l: Label, r: Id)
    requires Enabled(s, l) && !OfReader(l)
    ensures r in s.readers <==> r in Apply(s, l).readers
    ensures r in s.readers ==> (Busy(Apply(s, l).readers[r]) <==> Busy(s.readers[r]) || SentTo(l, r))
    ensures SentTo(l, r) ==> r in s.readers
  {
  }

  lemma OwingBusyByWriter(s: State, l: Label, r: Id)
    requires Inv(s) && Enabled(s, l) && OwingIsBusy(s, r) && !OfReader(l)
    ensures OwingIsBusy(Apply(s, l), r)
  {
    WriterOwes(s, l, r);
    WriterKeepsReader(s, l, r);
  }

  lemma OwingBusyStep(s: State, l: Label, r: Id)
    requires Inv(s) && Enabled(s, l) && OwingIsBusy(s, r)
    ensures OwingIsBusy(Apply(s, l), r)
  {
    if OfReader(l) {
      OwingBusyByReader(s, l, r);
    } else {
      OwingBusyByWriter(s, l, r);
    }
  }

  lemma {:induction false} OwingBusyRun(s: State, ls: seq<Label>, r: Id)
    requires Inv(s) && IsRun(s, ls) && OwingIsBusy(s, r)
    ensures OwingIsBusy(After(s, ls), r)
    decreases |ls|
  {
    if ls != [] {
      OwingBusyStep(s, ls[0], r);
      StepInv(s, ls[0]);
      OwingBusyRun(Apply(s, ls[0]), ls[1..], r);
    }
  }

  /** No reader, dead or alive, owes a token for an update it is done with. */
  lemma OwingHasWork(s0: State, ls: seq<Label>, r: Id)
    requires Init(s0) && IsRun(s0, ls) && r in After(s0, ls).owing
    ensures r in After(s0, ls).readers && Busy(After(s0, ls).readers[r])
  {
    InitInv(s0);
    assert Session(s0.writers) == Outside;
    OwingBusyRun(s0, ls, r);
  }

  /** A reader that was neither cancelled nor reset: busy exactly when it owes or is promised. */
  ghost predicate BusyIsOwing(s: State, r: Id) {
    r !in s.early && (r in s.readers && Busy(s.readers[r]) ==> Owes(s, r))
  }

  lemma BusyOwingByReader(s: State, l: Label, r: Id)
    requires Inv(s) && Enabled(s, l) && BusyIsOwing(s, r) && l != Cancel(r) && l != ResetReaders && OfReader(l)
    ensures BusyIsOwing(Apply(s, l), r)
  {
    ReaderStepSession(s, l);
    if l.EndRead? && l.r == r {
      ReadsLastFrame(s, r);
      assert ReaderInv(s, Session(s.writers), r, s.readers[r]);
    }
  }

  lemma BusyOwingByWriter(s: State, l: Label, r: Id)
    requires Inv(s) && Enabled(s, l) && BusyIsOwing(s, r) && !OfReader(l)
    ensures BusyIsOwing(Apply(s, l), r)
  {
    WriterOwes(s, l, r);
    WriterKeepsReader(s, l, r);
  }

  /** No cancellation of r, and no reset. */
  predicate Uncancelled(ls: seq<Label>, r: Id) {
    forall i :: 0 <= i < |ls| ==> ls[i] != Cancel(r) && ls[i] != ResetReaders
  }

  lemma {:induction false} BusyOwingRun(s: State, ls: seq<Label>, r: Id)
    requires Inv(s) && IsRun(s, ls) && BusyIsOwing(s, r) && Uncancelled(ls, r)
    ensures BusyIsOwing(After(s, ls), r)
    decreases |ls|
  {
    if ls != [] {
      var l := ls[0];
      if OfReader(l) {
        BusyOwingByReader(s, l, r);
      } else {
        BusyOwingByWriter(s, l, r);
      }
      StepInv(s, l);
      BusyOwingRun(Apply(s, l), ls[1..], r);
    }
  }

  /** The first cancellation of a client, in a run without resets, keeps the tokens right if
      and only if the client left its update unfinished, and no second writer thread is
      around if it is between notification and commit.  A client that had finished, and whose
      read fails afterwards, must not be cancelled. */
  lemma FirstCancelExact(s0: State, ls: seq<Label>, r: Id)
    requires Init(s0) && IsRun(s0, ls) && Uncancelled(ls, r)
    requires var s := After(s0, ls); r in s.readers && MutexFree(s) && Semop(s.sem, READ_END).Some?
    ensures var s := After(s0, ls);
            TokenInv(RawCancel(s, r)) <==> Busy(s.readers[r]) && (Session(s.writers).Sent? ==> |s.writers| == 1)
  {
    InitInv(s0);
    assert Session(s0.writers) == Outside;
    RunInv(s0, ls);
    OwingBusyRun(s0, ls, r);
    BusyOwingRun(s0, ls, r);
    var s := After(s0, ls);
    CancelExact(s, r);
    EarlyCancelIs(s, r);
  }

  lemma EarlyCancelIs(s: State, r: Id)
    requires Inv(s) && MutexFree(s)
    ensures EarlyCancel(s, r) <==> |s.writers| == 1 && r in Promised(Session(s.writers), s.early)
    ensures r in Promised(Session(s.writers), s.early) ==> Session(s.writers).Sent?
  {
    MutexFreeMeans(s);
    forall w | w in s.writers && s.writers[w].Sent? ensures Session(s.writers) == s.writers[w] {
      SessionIs(s.writers, w);
    }
  }

  /** Only the dead owe, and nothing has been done about it. */
  ghost predicate OnlyDeadOwe(s: State) {
    Waiting(s) && s.owing != {} && forall r :: r in s.owing ==> !IsAlive(s, r)
  }

  lemma DeadOweStep(s: State, l: Label)
    requires OnlyDeadOwe(s) && Enabled(s, l) && !l.Cancel? && !l.ResetReaders?
    ensures !l.LockWrite? && OnlyDeadOwe(Apply(s, l)) && Apply(s, l).owing == s.owing
  {
    if l.LockWrite? {
      LockWriteInv(s, l.w);
      assert false;
    } else {
      WaitingShrinks(s, l);
      match l {
        case Commit(v) => SessionIs(s.writers, v);
        case EndRead(r) => ReadsLastFrame(s, r);
        case _ =>
      }
    }
  }

  /** Without a cancellation or the reset a writer is stuck for good. */
  lemma {:induction false} StuckForGood(s: State, w: Id, ls: seq<Label>)
    requires OnlyDeadOwe(s) && w in s.writers
    requires IsRun(s, ls) && forall l <- ls :: !l.Cancel? && !l.ResetReaders?
    ensures After(s, ls).owing == s.owing && !Enabled(After(s, ls), LockWrite(w))
    decreases |ls|
  {
    if ls == [] {
      NoDeadlock(s, w);
    } else {
      DeadOweStep(s, ls[0]);
      StuckForGood(Apply(s, ls[0]), w, ls[1..]);
    }
  }

  /** Recovery: from a state where everyone owing is dead nothing but a cancellation
      or the reset can free the lock; the reset does, and all guarantees go on holding
      for the rest of the run. */
  lemma CrashRecovery(s: State, w: Id, ls: seq<Label>)
    requires Waiting(s) && w in s.writers && s.owing != {} && forall r :: r in s.owing ==> !IsAlive(s, r)
    requires IsRun(Apply(s, ResetReaders), ls)
    ensures !Enabled(s, LockWrite(w))
    ensures forall l :: Enabled(s, l) && !l.Cancel? && !l.ResetReaders? ==> Apply(s, l).owing == s.owing
    ensures var s' := Apply(s, ResetReaders);
            Enabled(s', LockWrite(w)) && s'.owing == {} && Inv(After(s', ls))
  {
    NoDeadlock(s, w);
    StepInv(s, ResetReaders);
    NoDeadlock(Apply(s, ResetReaders), w);
    RunInv(Apply(s, ResetReaders), ls);
    forall l | Enabled(s, l) && !l.Cancel? && !l.ResetReaders?
      ensures Apply(s, l).owing == s.owing
    {
      match l {
        case Commit(v) => SessionIs(s.writers, v);
        case EndRead(r) => ReadsLastFrame(s, r);
        case _ =>
      }
    }
  }
}
