/** Runs whose writer threads call `copy_to_shm`, or plain accesses that notify
    within the capacity: the segment is replaced only to grow, and the size that
    made it grow is then notified.  Sends may fail; a reader is followed as long as
    it gets the notifications it needs. */
module FrameCopies {
  import opened FrameProtocol
  import opened FrameInvariant
  import opened FrameTheorems

  predicate CopyLabel(s: State, l: Label)
    requires Enabled(s, l)
  {
    match l
    case Replace(w, n) => !s.writers[w].replaced && n > Capacity(s)
    case BeginNotify(w, size) => s.writers[w].replaced ==> size == Capacity(s)
    case Release(w) => s.writers[w] != Locked(true)
    case _ => true
  }

  predicate IsCopyRun(s: State, ls: seq<Label>)
    decreases |ls|
  {
    ls == []
    || (Enabled(s, ls[0]) && CopyLabel(s, ls[0]) && IsCopyRun(Apply(s, ls[0]), ls[1..]))
  }

  lemma {:induction false} CopyRunIsRun(s: State, ls: seq<Label>)
    requires IsCopyRun(s, ls)
    ensures IsRun(s, ls)
    decreases |ls|
  {
    if ls != [] {
      CopyRunIsRun(Apply(s, ls[0]), ls[1..]);
    }
  }

  // ---------------------------------------------------------------- lost notifications

  /** A notification r can do without: it is attached to the current segment, or has
      seen no size yet and will look again at any. */
  predicate CanMiss(s: State, r: Id) {
    IsAlive(s, r) ==> s.readers[r].seg + 1 == |s.mem| || s.readers[r].curSize == 0
  }

  /** The send of this step does not fail to r while r needs it. */
  predicate ReachesReader(s: State, l: Label, r: Id) {
    l.SendFail? && l.r == r ==> CanMiss(s, r)
  }

  /** No send that r needs fails along the run; sends to other readers may. */
  predicate KeepsUp(s: State, ls: seq<Label>, r: Id)
    requires IsRun(s, ls)
    decreases |ls|
  {
    ls == [] || (ReachesReader(s, ls[0], r) && KeepsUp(Apply(s, ls[0]), ls[1..], r))
  }

  /** An idle client is attached to the current segment, or will be by the next
      notification it can get. */
  predicate WillReattach(s: State, ses: WriterPhase, r: Id, rd: Reader) {
    WellFormed(s)
    && (rd.seg + 1 == |s.mem|
        || rd.curSize == 0
        || (ses == Locked(true) && rd.curSize < Capacity(s))
        || (ses.Sending? && r in ses.todo && ses.size == Capacity(s) && rd.curSize < Capacity(s)))
  }

  ghost predicate CopyReader(s: State, ses: WriterPhase, r: Id, rd: Reader) {
    WellFormed(s)
    && rd.trusted
    && (rd.alive ==>
          rd.curSize <= Capacity(s)
          && (r in s.clients && !Busy(rd) ==> WillReattach(s, ses, r, rd)))
  }

  ghost predicate CopyInv(s: State, r: Id) {
    Inv(s) && (r in s.readers ==> CopyReader(s, Session(s.writers), r, s.readers[r]))
  }

  lemma CopyStep(s: State, l: Label, r: Id)
    requires CopyInv(s, r) && Enabled(s, l) && CopyLabel(s, l) && ReachesReader(s, l, r)
    ensures CopyInv(Apply(s, l), r)
  {
    StepInv(s, l);
    if r in Apply(s, l).readers {
      if OfReader(l) {
        CopyReaderByReader(s, l, r);
      } else {
        CopyReaderByWriter(s, l, r);
      }
    }
  }

  lemma CopyReaderKept(s: State, l: Label, r: Id)
    requires CopyInv(s, r) && Enabled(s, l) && OfReader(l) && r in s.readers
    requires Apply(s, l).readers[r] == s.readers[r]
    ensures CopyReader(Apply(s, l), Session(Apply(s, l).writers), r, Apply(s, l).readers[r])
  {
    var s' := Apply(s, l);
    assert s'.mem == s.mem && s'.writers == s.writers;
    assert r in s'.clients ==> r in s.clients;
  }

  lemma CopyReaderMoves(s: State, l: Label, r: Id)
    requires CopyInv(s, r) && Enabled(s, l)
    requires l == Die(r) || l == Receive(r) || l == Attach(r) || l == BeginRead(r) || l == EndRead(r)
    requires ReaderInv(Apply(s, l), Session(Apply(s, l).writers), r, Apply(s, l).readers[r])
    ensures CopyReader(Apply(s, l), Session(Apply(s, l).writers), r, Apply(s, l).readers[r])
  {
    var s' := Apply(s, l);
    var ses := Session(s.writers);
    assert s'.mem == s.mem && s'.writers == s.writers && s'.clients == s.clients;
    assert ReaderInv(s, ses, r, s.readers[r]);
  }

  lemma CopyReaderByReader(s: State, l: Label, r: Id)
    requires CopyInv(s, r) && Enabled(s, l) && OfReader(l)
    requires Inv(Apply(s, l)) && r in Apply(s, l).readers
    ensures CopyReader(Apply(s, l), Session(Apply(s, l).writers), r, Apply(s, l).readers[r])
  {
    var s' := Apply(s, l);
    if r in s.readers && s'.readers[r] == s.readers[r] {
      CopyReaderKept(s, l, r);
    } else if r in s.readers {
      assert ReaderInv(s', Session(s'.writers), r, s'.readers[r]);
      CopyReaderMoves(s, l, r);
    }
  }

  lemma CopyReaderSent(s: State, w: Id, r: Id)
    requires CopyInv(s, r) && Enabled(s, SendOk(w, r)) && Inv(Apply(s, SendOk(w, r)))
    ensures var s' := Apply(s, SendOk(w, r)); CopyReader(s', Session(s'.writers), r, s'.readers[r])
  {
    CopySessions(s, SendOk(w, r));
    var ses := Session(s.writers);
    assert CopyReader(s, ses, r, s.readers[r]);
    assert ReaderInv(s, ses, r, s.readers[r]);
  }

  lemma CopyReaderByWriter(s: State, l: Label, r: Id)
    requires CopyInv(s, r) && Enabled(s, l) && CopyLabel(s, l) && !OfReader(l) && ReachesReader(s, l, r)
    requires Inv(Apply(s, l)) && r in Apply(s, l).readers
    ensures CopyReader(Apply(s, l), Session(Apply(s, l).writers), r, Apply(s, l).readers[r])
  {
    if SentTo(l, r) {
      CopyReaderSent(s, l.w, r);
    } else {
      CopyReaderUnsent(s, l, r);
    }
  }

  lemma CopyReaderUnsent(s: State, l: Label, r: Id)
    requires CopyInv(s, r) && Enabled(s, l) && CopyLabel(s, l) && !OfReader(l) && ReachesReader(s, l, r)
    requires !SentTo(l, r) && Inv(Apply(s, l)) && r in Apply(s, l).readers
    ensures CopyReader(Apply(s, l), Session(Apply(s, l).writers), r, s.readers[r])
    ensures Apply(s, l).readers[r] == s.readers[r]
  {
    CopySessions(s, l);
    var s' := Apply(s, l);
    var ses := Session(s.writers);
    assert s'.readers[r] == s.readers[r] && s'.clients == s.clients;
    assert CopyReader(s, ses, r, s.readers[r]);
    assert ReaderInv(s, ses, r, s.readers[r]);
  }

  /** How a step moves the session. */
  lemma CopySessions(s: State, l: Label)
    requires Inv(s) && Enabled(s, l) && CopyLabel(s, l)
    ensures var ses, ses' := Session(s.writers), Session(Apply(s, l).writers);
            match l
            case LockWrite(w) => ses == Outside && ses' == Locked(false)
            case Replace(w, n) => ses == Locked(false) && ses' == Locked(true)
            case Store(w, bytes) => ses' == ses
            case BeginNotify(w, size) => ses == s.writers[w] && ses' == Sending(size, s.clients, {})
            case SendOk(w, r) =>
              ses == s.writers[w] && ses.Sending? && ses' == Sending(ses.size, ses.todo - {r}, ses.done + {r})
            case SendFail(w, r) =>
              ses == s.writers[w] && ses.Sending? && ses' == Sending(ses.size, ses.todo - {r}, ses.done)
            case EndNotify(w) => ses == s.writers[w] && ses.Sending? && ses.todo == {} && ses' == Sent(ses.size, ses.done)
            case Commit(w) => ses == s.writers[w] && ses.Sent? && ses' == Committed(ses.size, ses.done)
            case Release(w) => ses == s.writers[w] && ses != Locked(true) && ses' == Outside
            case _ => ses' == ses
  {
    var s' := Apply(s, l);
    match l
    case LockWrite(w) => LockWriteInv(s, w); SessionAfter(s.writers, w, Locked(false));
    case Replace(w, n) => PhaseMoves(s.writers, w, Locked(true));
    case BeginNotify(w, size) => PhaseMoves(s.writers, w, s'.writers[w]);
    case SendOk(w, r) => PhaseMoves(s.writers, w, s'.writers[w]);
    case SendFail(w, r) => PhaseMoves(s.writers, w, s'.writers[w]);
    case EndNotify(w) => PhaseMoves(s.writers, w, s'.writers[w]);
    case Commit(w) => PhaseMoves(s.writers, w, s'.writers[w]);
    case Release(w) => PhaseMoves(s.writers, w, Outside);
    case _ =>
  }

  lemma {:induction false} CopyRunInv(s: State, ls: seq<Label>, r: Id)
    requires CopyInv(s, r) && IsCopyRun(s, ls) && IsRun(s, ls) && KeepsUp(s, ls, r)
    ensures CopyInv(After(s, ls), r)
    decreases |ls|
  {
    if ls != [] {
      CopyStep(s, ls[0], r);
      CopyRunInv(Apply(s, ls[0]), ls[1..], r);
    }
  }

  lemma CopyReached(s0: State, ls: seq<Label>, r: Id)
    requires Init(s0) && IsCopyRun(s0, ls) && IsRun(s0, ls) && KeepsUp(s0, ls, r)
    ensures CopyInv(After(s0, ls), r)
  {
    InitInv(s0);
    CopyRunInv(s0, ls, r);
  }

  /** Segment currency: every callback of a reader that lost no notification it needed
      runs on the writer's current segment with a size within its capacity, late joiners
      included; only a frame of size zero may find a reader that never saw anything else
      still on its first segment. */
  lemma CopyCurrency(s0: State, ls: seq<Label>, r: Id)
    requires Init(s0) && IsCopyRun(s0, ls) && IsRun(s0, ls) && KeepsUp(s0, ls, r)
    ensures var s := After(s0, ls);
            InCallback(s, r) ==>
              var rd := s.readers[r];
              WellFormed(s) && rd.phase.msg.size <= Capacity(s) && (rd.phase.msg.size > 0 ==> rd.seg + 1 == |s.mem|)
  {
    CopyReached(s0, ls, r);
    var s := After(s0, ls);
    if InCallback(s, r) {
      ReadsLastFrame(s, r);
      assert ReaderInv(s, Session(s.writers), r, s.readers[r]);
    }
  }

  /** Broadcast for such a reader: once no lock is held and no token is out, it has seen
      exactly the frames sent to it; at any other time it lacks at most the one in
      progress, and after its death it has seen a prefix. */
  lemma CopyBroadcast(s0: State, ls: seq<Label>, r: Id)
    requires Init(s0) && IsCopyRun(s0, ls) && IsRun(s0, ls) && KeepsUp(s0, ls, r)
    ensures var s := After(s0, ls);
            r in s.readers ==>
              var sent := Delivered(s.published, r);
              if s.readers[r].alive
              then InOrderOnce(s.readers[r].observed, sent, r in s.owing && Holders(s) == {})
              else s.readers[r].observed <= sent
  {
    CopyReached(s0, ls, r);
    if r in After(s0, ls).readers {
      Broadcast(s0, ls, r);
    }
  }

  // ---------------------------------------------------------------- what a lost notification costs

  /** A failed send keeps the reader current or sure to re-attach exactly when the reader
      could do without it. */
  lemma LostSendExact(s: State, w: Id, r: Id)
    requires CopyInv(s, r) && Enabled(s, SendFail(w, r)) && IsAlive(s, r)
    ensures CopyInv(Apply(s, SendFail(w, r)), r) <==> CanMiss(s, r)
  {
    SessionIs(s.writers, w);
    CopySessions(s, SendFail(w, r));
    StepInv(s, SendFail(w, r));
    var s' := Apply(s, SendFail(w, r));
    var ses, ses' := Session(s.writers), Session(s'.writers);
    assert ReaderInv(s, ses, r, s.readers[r]);
    assert CopyReader(s', ses', r, s.readers[r]) <==> CanMiss(s, r);
  }

  /** Steps after which r has been told nothing and is still there. */
  predicate LeavesAlone(l: Label, r: Id) {
    l != Die(r) && !(l.SendOk? && l.r == r)
  }

  /** r is idle on a segment that is gone, having seen a size. */
  ghost predicate Stale(s: State, r: Id, seen: nat) {
    Inv(s) && IsAlive(s, r) && !Busy(s.readers[r])
    && s.readers[r].seg + 1 < |s.mem| && s.readers[r].curSize == seen
  }

  lemma StaleReader(s: State, l: Label, r: Id)
    requires Enabled(s, l) && LeavesAlone(l, r) && IsAlive(s, r) && !Busy(s.readers[r])
    ensures r in Apply(s, l).readers && Apply(s, l).readers[r] == s.readers[r] && |Apply(s, l).mem| >= |s.mem|
  {
  }

  lemma StaleStep(s: State, l: Label, r: Id, seen: nat)
    requires Stale(s, r, seen) && Enabled(s, l) && LeavesAlone(l, r)
    ensures Stale(Apply(s, l), r, seen)
  {
    StepInv(s, l);
    StaleReader(s, l, r);
  }

  lemma {:induction false} StaleAlong(s: State, ls: seq<Label>, r: Id, seen: nat)
    requires Stale(s, r, seen) && IsRun(s, ls) && forall l <- ls :: LeavesAlone(l, r)
    ensures Stale(After(s, ls), r, seen)
    decreases |ls|
  {
    if ls != [] {
      StaleStep(s, ls[0], r, seen);
      StaleAlong(Apply(s, ls[0]), ls[1..], r, seen);
    }
  }

  /** A reader that lost a notification it needed stays behind until the next one that
      reaches it, and then its callback runs on the current segment if and only if that
      size differs from the last one it saw. */
  lemma LostGrowthExact(s: State, w: Id, r: Id, before: seq<Label>, v: Id, after: seq<Label>)
    requires Inv(s) && Enabled(s, SendFail(w, r)) && IsAlive(s, r) && s.readers[r].seg + 1 < |s.mem|
    requires IsRun(Apply(s, SendFail(w, r)), before) && forall l <- before :: LeavesAlone(l, r)
    requires Enabled(After(Apply(s, SendFail(w, r)), before), SendOk(v, r))
    requires var t := Apply(After(Apply(s, SendFail(w, r)), before), SendOk(v, r));
             IsRun(t, after) && (forall l <- after :: !Touches(l, r)) && InCallback(After(t, after), r)
    ensures var t0 := After(Apply(s, SendFail(w, r)), before);
            var end := After(Apply(t0, SendOk(v, r)), after);
            end.readers[r].seg + 1 == |end.mem| <==> t0.writers[v].size != s.readers[r].curSize
  {
    SessionIs(s.writers, w);
    assert ReaderInv(s, Session(s.writers), r, s.readers[r]);
    var s1 := Apply(s, SendFail(w, r));
    StepInv(s, SendFail(w, r));
    StaleAlong(s1, before, r, s.readers[r].curSize);
    CurrencyExact(After(s1, before), v, r, after);
  }
}
