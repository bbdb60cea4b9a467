/** The invariant of the frame protocol and its preservation by every step. */
module FrameInvariant {
  import opened SysVSem
  import opened FrameProtocol

  predicate Exclusive(ws: map<Id, WriterPhase>) {
    forall v, w :: v in ws && w in ws && ws[v] != Outside && ws[w] != Outside ==> v == w
  }

  /** The phase of the thread that holds the write lock, `Outside` when none does. */
  ghost function Session(ws: map<Id, WriterPhase>): WriterPhase {
    if w :| w in ws && ws[w] != Outside then ws[w] else Outside
  }

  function Held(ses: WriterPhase): nat {
    if ses.Outside? then 0 else 1
  }

  function DoneOf(ses: WriterPhase): set<Id> {
    if ses.Sending? || ses.Sent? || ses.Committed? then ses.done else {}
  }

  /** Clients notified in the open session whose token is still to be committed. */
  function Promised(ses: WriterPhase, early: set<Id>): set<Id> {
    if ses.Sending? || ses.Sent? then ses.done - early else {}
  }

  predicate Busy(rd: Reader) {
    rd.inbox != [] || !rd.phase.Idle?
  }

  /** The update a busy reader is working on. */
  function Pending(rd: Reader): Update
    requires Busy(rd)
  {
    if rd.phase.Idle? then rd.inbox[0] else rd.phase.msg
  }

  predicate BoundFrame(s: State, f: Frame) {
    WellFormed(s) && |f.data| <= Capacity(s) && f.data == s.mem[Generation(s)][..|f.data|]
  }

  ghost predicate TokenInv(s: State) {
    var ses := Session(s.writers);
    && Exclusive(s.writers)
    && s.sem.writer == Held(ses)
    && s.sem.reader + |s.early| == Held(ses) + |s.owing|
    && (s.early != {} ==> |s.writers| == 1 && ses.Sent? && s.early <= ses.done)
    && (s.owing != {} ==> ses.Outside? || (ses.Committed? && s.owing <= ses.done))
  }

  predicate KnownIds(s: State, ses: WriterPhase) {
    && s.clients <= s.readers.Keys
    && s.owing <= s.readers.Keys
    && DoneOf(ses) <= s.readers.Keys
    && (ses.Sending? ==> ses.todo <= s.clients && ses.todo !! ses.done)
    && (forall r :: r in s.early ==> r in s.readers && !s.readers[r].alive)
    && (forall i :: 0 <= i < |s.published| ==> s.published[i].to <= s.readers.Keys)
  }

  ghost predicate SessionInv(s: State) {
    var ses := Session(s.writers);
    && WellFormed(s)
    && KnownIds(s, ses)
    && (ses.Sending? || ses.Sent? || ses.Committed? ==> ses.size <= Capacity(s))
    && (ses.Committed? ==> forall r :: r in ses.done ==> r in s.owing || !IsAlive(s, r))
    && (ses.Outside? && s.owing != {} ==>
          s.published != [] && s.owing <= s.published[|s.published| - 1].to
          && BoundFrame(s, s.published[|s.published| - 1]))
  }

  /** Size of the frame a busy reader has been told about. */
  function FrameSize(s: State, ses: WriterPhase): nat {
    if ses.Sending? || ses.Sent? || ses.Committed? then ses.size
    else if s.published != [] then |s.published[|s.published| - 1].data|
    else 0
  }

  /** What r has been told to read and is not still about to read. */
  function Due(s: State, ses: WriterPhase, r: Id): seq<seq<Byte>> {
    var all := Delivered(s.published, r);
    if r in s.owing && ses.Outside? && all != [] then all[..|all| - 1] else all
  }

  ghost predicate LiveReader(s: State, ses: WriterPhase, r: Id, rd: Reader) {
    && (Busy(rd) <==> r in s.owing || r in Promised(ses, s.early))
    && |rd.inbox| + (if rd.phase.Idle? then 0 else 1) <= 1
    && (rd.phase.Reading? ==>
          ses.Outside? && rd.phase.seen == View(s.mem, rd.seg, rd.phase.msg.size))
    && (Busy(rd) ==>
          var m := Pending(rd);
          && m.size == FrameSize(s, ses)
          && (rd.trusted ==> m.upToDate || m.size == 0)
          && (if rd.phase.Attached? || rd.phase.Reading?
              then rd.curSize == m.size && (m.upToDate <==> rd.seg + 1 == |s.mem|)
              else m.upToDate <==> WillSeeCurrent(s, rd, m.size)))
    && |rd.observed| == |Due(s, ses, r)|
    && (rd.trusted ==> rd.observed == Due(s, ses, r))
  }

  ghost predicate DeadReader(s: State, r: Id, rd: Reader) {
    && |rd.observed| <= |Delivered(s.published, r)|
    && (rd.trusted ==> rd.observed == Delivered(s.published, r)[..|rd.observed|])
  }

  ghost predicate ReaderInv(s: State, ses: WriterPhase, r: Id, rd: Reader) {
    && rd.seg < |s.mem|
    && (if rd.alive then LiveReader(s, ses, r, rd) else DeadReader(s, r, rd))
  }

  ghost predicate ReadersInv(s: State) {
    forall r :: r in s.readers ==> ReaderInv(s, Session(s.writers), r, s.readers[r])
  }

  ghost predicate Inv(s: State) {
    TokenInv(s) && SessionInv(s) && ReadersInv(s)
  }

  // ---------------------------------------------------------------- small facts

  lemma SessionIs(ws: map<Id, WriterPhase>, w: Id)
    requires Exclusive(ws) && w in ws && ws[w] != Outside
    ensures Session(ws) == ws[w]
  {
  }

  lemma SessionAfter(ws: map<Id, WriterPhase>, w: Id, p: WriterPhase)
    requires w in ws && forall v :: v in ws && v != w ==> ws[v].Outside?
    ensures Exclusive(ws[w := p]) && Session(ws[w := p]) == p
  {
    var next := ws[w := p];
    if p != Outside {
      SessionIs(next, w);
    }
  }

  lemma OthersOutside(ws: map<Id, WriterPhase>, w: Id)
    requires Exclusive(ws) && w in ws && ws[w] != Outside
    ensures forall v :: v in ws && v != w ==> ws[v].Outside?
  {
  }

  lemma OnlyKey<V>(m: map<Id, V>, v: Id, w: Id)
    requires |m| == 1 && v in m && w in m
    ensures v == w
  {
    assert |m.Keys - {v}| == 0;
    assert w !in m.Keys - {v};
  }

  lemma SubsetCount(part: set<Id>, whole: set<Id>)
    requires part <= whole
    ensures |whole - part| == |whole| - |part|
  {
    assert whole == (whole - part) + part;
  }

  lemma HoldersCount(s: State)
    requires Exclusive(s.writers)
    ensures |Holders(s)| == Held(Session(s.writers))
  {
    if Holders(s) != {} {
      var w :| w in Holders(s);
      SessionIs(s.writers, w);
      assert Holders(s) == {w};
    } else {
      assert forall w :: w in s.writers ==> w in Holders(s) || s.writers[w].Outside?;
    }
  }

  lemma MutexFreeMeans(s: State)
    requires MutexFree(s)
    ensures !Session(s.writers).Sending?
  {
  }

  lemma DeliveredSnoc(published: seq<Frame>, f: Frame, r: Id)
    ensures Delivered(published + [f], r)
         == Delivered(published, r) + if r in f.to then [f.data] else []
  {
    assert (published + [f])[..|published|] == published;
  }

  lemma DeliveredUnknown(published: seq<Frame>, r: Id)
    requires forall i :: 0 <= i < |published| ==> r !in published[i].to
    ensures Delivered(published, r) == []
  {
  }

  /** A frame last sent to r ends what r is meant to see. */
  lemma DeliveredLast(published: seq<Frame>, r: Id)
    requires published != [] && r in published[|published| - 1].to
    ensures var all := Delivered(published, r);
            all != [] && all[|all| - 1] == published[|published| - 1].data
  {
  }

  /** Steps that touch one reader only, and neither segments nor publications. */
  lemma OneReaderChanged(s: State, s': State, r: Id)
    requires ReadersInv(s) && r in s.readers && r in s'.readers
    requires s'.readers == s.readers[r := s'.readers[r]]
    requires s'.mem == s.mem && s'.writers == s.writers && s'.published == s.published
    requires forall q :: q in s.readers && q != r && s.readers[q].alive ==>
               (q in s'.owing <==> q in s.owing)
               && (q in Promised(Session(s.writers), s'.early) <==> q in Promised(Session(s.writers), s.early))
    requires ReaderInv(s', Session(s.writers), r, s'.readers[r])
    ensures ReadersInv(s')
  {
    var ses := Session(s.writers);
    forall q | q in s'.readers ensures ReaderInv(s', ses, q, s'.readers[q]) {
      if q != r {
        assert ReaderInv(s, ses, q, s.readers[q]);
      }
    }
  }

  /** Steps that leave readers, segments and publications alone. */
  lemma ReadersKept(s: State, s': State)
    requires ReadersInv(s)
    requires s'.readers == s.readers && s'.mem == s.mem && s'.published == s.published
    requires var ses, ses' := Session(s.writers), Session(s'.writers);
             (ses.Outside? <==> ses'.Outside?) && FrameSize(s, ses) == FrameSize(s', ses')
             && forall q :: q in s.readers && s.readers[q].alive ==>
                  (q in s.owing + Promised(ses, s.early) <==> q in s'.owing + Promised(ses', s'.early))
                  && (ses.Outside? ==> (q in s.owing <==> q in s'.owing))
    ensures ReadersInv(s')
  {
    var ses, ses' := Session(s.writers), Session(s'.writers);
    forall q | q in s'.readers ensures ReaderInv(s', ses', q, s'.readers[q]) {
      assert ReaderInv(s, ses, q, s.readers[q]);
      assert s.readers[q].alive ==> Due(s, ses, q) == Due(s', ses', q);
    }
  }

  // ---------------------------------------------------------------- initial states

  lemma InitInv(s: State)
    requires Init(s)
    ensures Inv(s)
  {
  }

  // ---------------------------------------------------------------- writer steps

  lemma LockWriteInv(s: State, w: Id)
    requires Inv(s) && Enabled(s, LockWrite(w))
    ensures Inv(Apply(s, LockWrite(w)))
    ensures Session(s.writers).Outside? && s.owing == {}
  {
    OpsMeaning(s.sem);
    var ses := Session(s.writers);
    if !ses.Outside? {
      var v :| v in s.writers && s.writers[v] != Outside;
      SessionIs(s.writers, v);
      assert s.early != {};
      OnlyKey(s.writers, v, w);
      assert false;
    }
    assert forall v :: v in s.writers ==> s.writers[v].Outside?;
    var s' := Apply(s, LockWrite(w));
    SessionAfter(s.writers, w, Locked(false));
    forall r | r in s'.readers ensures ReaderInv(s', Locked(false), r, s'.readers[r]) {
      assert ReaderInv(s, ses, r, s.readers[r]);
    }
  }

  lemma ReplaceInv(s: State, w: Id, n: nat)
    requires Inv(s) && Enabled(s, Replace(w, n))
    ensures Inv(Apply(s, Replace(w, n)))
  {
    SessionIs(s.writers, w);
    OthersOutside(s.writers, w);
    SessionAfter(s.writers, w, Locked(true));
    var s' := Apply(s, Replace(w, n));
    forall r | r in s'.readers ensures ReaderInv(s', Locked(true), r, s'.readers[r]) {
      assert ReaderInv(s, s.writers[w], r, s.readers[r]);
    }
  }

  lemma StoreInv(s: State, w: Id, bytes: seq<Byte>)
    requires Inv(s) && Enabled(s, Store(w, bytes))
    ensures Inv(Apply(s, Store(w, bytes)))
  {
    SessionIs(s.writers, w);
    var s' := Apply(s, Store(w, bytes));
    forall r | r in s'.readers ensures ReaderInv(s', s.writers[w], r, s'.readers[r]) {
      assert ReaderInv(s, s.writers[w], r, s.readers[r]);
    }
  }

  lemma BeginNotifyInv(s: State, w: Id, size: nat)
    requires Inv(s) && Enabled(s, BeginNotify(w, size))
    ensures Inv(Apply(s, BeginNotify(w, size)))
  {
    SessionIs(s.writers, w);
    OthersOutside(s.writers, w);
    SessionAfter(s.writers, w, Sending(size, s.clients, {}));
    var s' := Apply(s, BeginNotify(w, size));
    forall r | r in s'.readers ensures ReaderInv(s', s'.writers[w], r, s'.readers[r]) {
      assert ReaderInv(s, s.writers[w], r, s.readers[r]);
    }
  }

  lemma SendOkInv(s: State, w: Id, r: Id)
    requires Inv(s) && Enabled(s, SendOk(w, r))
    ensures Inv(Apply(s, SendOk(w, r)))
  {
    SessionIs(s.writers, w);
    OthersOutside(s.writers, w);
    var p := s.writers[w];
    var s' := Apply(s, SendOk(w, r));
    SessionAfter(s.writers, w, s'.writers[w]);
    forall q | q in s'.readers ensures ReaderInv(s', s'.writers[w], q, s'.readers[q]) {
      assert ReaderInv(s, p, q, s.readers[q]);
      if q == r && s.readers[q].alive {
        assert !Busy(s.readers[r]);
        assert s'.readers[r].inbox == [Update(p.size, WillSeeCurrent(s, s.readers[r], p.size))];
      }
    }
  }

  lemma SendFailInv(s: State, w: Id, r: Id)
    requires Inv(s) && Enabled(s, SendFail(w, r))
    ensures Inv(Apply(s, SendFail(w, r)))
  {
    SessionIs(s.writers, w);
    OthersOutside(s.writers, w);
    var s' := Apply(s, SendFail(w, r));
    SessionAfter(s.writers, w, s'.writers[w]);
    forall q | q in s'.readers ensures ReaderInv(s', s'.writers[w], q, s'.readers[q]) {
      assert ReaderInv(s, s.writers[w], q, s.readers[q]);
    }
  }

  lemma EndNotifyInv(s: State, w: Id)
    requires Inv(s) && Enabled(s, EndNotify(w))
    ensures Inv(Apply(s, EndNotify(w)))
  {
    SessionIs(s.writers, w);
    OthersOutside(s.writers, w);
    var s' := Apply(s, EndNotify(w));
    SessionAfter(s.writers, w, s'.writers[w]);
    forall q | q in s'.readers ensures ReaderInv(s', s'.writers[w], q, s'.readers[q]) {
      assert ReaderInv(s, s.writers[w], q, s.readers[q]);
    }
  }

  lemma CommitTokens(s: State, w: Id)
    requires Inv(s) && Enabled(s, Commit(w))
    ensures var s', p := Apply(s, Commit(w)), s.writers[w];
            TokenInv(s') && SessionInv(s') && s'.owing == p.done - s.early
            && Session(s.writers) == p && Session(s'.writers) == Committed(p.size, p.done)
  {
    SessionIs(s.writers, w);
    OthersOutside(s.writers, w);
    var p := s.writers[w];
    CommitMeaning(s.sem, |p.done|);
    SessionAfter(s.writers, w, Committed(p.size, p.done));
    assert s.owing == {};
    assert s.owing + (p.done - s.early) == p.done - s.early;
    SubsetCount(s.early, p.done);
  }

  lemma CommitInv(s: State, w: Id)
    requires Inv(s) && Enabled(s, Commit(w))
    ensures Inv(Apply(s, Commit(w)))
  {
    CommitTokens(s, w);
    ReadersKept(s, Apply(s, Commit(w)));
  }

  /** Publishing what an owing reader was told to read leaves what it is due as it was. */
  lemma DueAfterRelease(s: State, w: Id, q: Id)
    requires Inv(s) && Enabled(s, Release(w)) && s.writers[w].Committed?
    ensures var all, s' := Delivered(s.published, q), Apply(s, Release(w));
            && all <= Delivered(s'.published, q)
            && Due(s, s.writers[w], q) == all
            && (q in s.owing || (q in s.readers && s.readers[q].alive) ==> Due(s', Outside, q) == all)
  {
    SessionIs(s.writers, w);
    var p := s.writers[w];
    var frame := Frame(View(s.mem, |s.mem| - 1, p.size), p.done);
    DeliveredSnoc(s.published, frame, q);
    var all := Delivered(s.published, q);
    assert (all + [frame.data])[..|all|] == all;
  }

  lemma ReleaseUnsent(s: State, w: Id, q: Id)
    requires Inv(s) && Enabled(s, Release(w)) && q in s.readers && s.writers[w].Locked?
    ensures ReaderInv(Apply(s, Release(w)), Outside, q, s.readers[q])
  {
    SessionIs(s.writers, w);
    assert ReaderInv(s, s.writers[w], q, s.readers[q]);
  }

  lemma ReleaseSent(s: State, w: Id, q: Id)
    requires Inv(s) && Enabled(s, Release(w)) && q in s.readers && s.writers[w].Committed?
    ensures ReaderInv(Apply(s, Release(w)), Outside, q, s.readers[q])
  {
    SessionIs(s.writers, w);
    assert ReaderInv(s, s.writers[w], q, s.readers[q]);
    DueAfterRelease(s, w, q);
  }

  lemma ReleaseReader(s: State, w: Id, q: Id)
    requires Inv(s) && Enabled(s, Release(w)) && q in s.readers
    ensures ReaderInv(Apply(s, Release(w)), Outside, q, s.readers[q])
  {
    if s.writers[w].Committed? {
      ReleaseSent(s, w, q);
    } else {
      ReleaseUnsent(s, w, q);
    }
  }

  lemma ReleaseInv(s: State, w: Id)
    requires Inv(s) && Enabled(s, Release(w))
    ensures Inv(Apply(s, Release(w)))
  {
    SessionIs(s.writers, w);
    OthersOutside(s.writers, w);
    OpsMeaning(s.sem);
    var s' := Apply(s, Release(w));
    SessionAfter(s.writers, w, Outside);
    forall q | q in s'.readers ensures ReaderInv(s', Outside, q, s'.readers[q]) {
      ReleaseReader(s, w, q);
    }
  }

  // ---------------------------------------------------------------- server steps

  lemma JoinInv(s: State, r: Id, g: nat)
    requires Inv(s) && Enabled(s, Join(r, g))
    ensures Inv(Apply(s, Join(r, g)))
  {
    var s' := Apply(s, Join(r, g));
    MutexFreeMeans(s);
    DeliveredUnknown(s.published, r);
    forall q | q in s'.readers ensures ReaderInv(s', Session(s.writers), q, s'.readers[q]) {
      if q != r {
        assert ReaderInv(s, Session(s.writers), q, s.readers[q]);
      }
    }
  }

  lemma LeaveInv(s: State, r: Id)
    requires Inv(s) && Enabled(s, Leave(r))
    ensures Inv(Apply(s, Leave(r)))
  {
    MutexFreeMeans(s);
    var s' := Apply(s, Leave(r));
    forall q | q in s'.readers ensures ReaderInv(s', Session(s.writers), q, s'.readers[q]) {
      assert ReaderInv(s, Session(s.writers), q, s.readers[q]);
    }
  }

  lemma DieInv(s: State, r: Id)
    requires Inv(s) && Enabled(s, Die(r))
    ensures Inv(Apply(s, Die(r)))
  {
    var s' := Apply(s, Die(r));
    assert ReaderInv(s, Session(s.writers), r, s.readers[r]);
    OneReaderChanged(s, s', r);
  }

  lemma CancelOwing(s: State, r: Id)
    requires Inv(s) && Enabled(s, Cancel(r)) && r in s.owing
    ensures TokenInv(Apply(s, Cancel(r))) && SessionInv(Apply(s, Cancel(r)))
  {
    OpsMeaning(s.sem);
    SubsetCount({r}, s.owing);
  }

  lemma CancelEarly(s: State, r: Id)
    requires Inv(s) && Enabled(s, Cancel(r)) && r !in s.owing
    ensures TokenInv(Apply(s, Cancel(r))) && SessionInv(Apply(s, Cancel(r)))
  {
    OpsMeaning(s.sem);
    var w :| w in s.writers && s.writers[w].Sent? && r in s.writers[w].done && r !in s.early;
    SessionIs(s.writers, w);
    SubsetCount({r}, s.early + {r});
    assert s.early + {r} - {r} == s.early;
    assert s.owing - {r} == s.owing;
  }

  lemma CancelTokens(s: State, r: Id)
    requires Inv(s) && Enabled(s, Cancel(r))
    ensures TokenInv(Apply(s, Cancel(r))) && SessionInv(Apply(s, Cancel(r)))
  {
    if r in s.owing {
      CancelOwing(s, r);
    } else {
      CancelEarly(s, r);
    }
  }

  lemma CancelInv(s: State, r: Id)
    requires Inv(s) && Enabled(s, Cancel(r))
    ensures Inv(Apply(s, Cancel(r)))
  {
    CancelTokens(s, r);
    ReadersKept(s, Apply(s, Cancel(r)));
  }

  lemma ResetReadersInv(s: State)
    requires Inv(s) && Enabled(s, ResetReaders)
    ensures Inv(Apply(s, ResetReaders))
  {
    HoldersCount(s);
    var ses := Session(s.writers);
    var s' := Apply(s, ResetReaders);
    forall q | q in s'.readers ensures ReaderInv(s', ses, q, s'.readers[q]) {
      assert ReaderInv(s, ses, q, s.readers[q]);
    }
  }

  // ---------------------------------------------------------------- reader steps

  lemma ReceiveInv(s: State, r: Id)
    requires Inv(s) && Enabled(s, Receive(r))
    ensures Inv(Apply(s, Receive(r)))
  {
    assert ReaderInv(s, Session(s.writers), r, s.readers[r]);
    OneReaderChanged(s, Apply(s, Receive(r)), r);
  }

  lemma AttachInv(s: State, r: Id)
    requires Inv(s) && Enabled(s, Attach(r))
    ensures Inv(Apply(s, Attach(r)))
  {
    assert ReaderInv(s, Session(s.writers), r, s.readers[r]);
    OneReaderChanged(s, Apply(s, Attach(r)), r);
  }

  lemma BeginReadReader(s: State, r: Id)
    requires Inv(s) && Enabled(s, BeginRead(r))
    ensures var s' := Apply(s, BeginRead(r));
            s' == SetReader(s, r, s'.readers[r]) && ReaderInv(s', Session(s.writers), r, s'.readers[r])
  {
    OpsMeaning(s.sem);
    assert ReaderInv(s, Session(s.writers), r, s.readers[r]);
  }

  lemma BeginReadInv(s: State, r: Id)
    requires Inv(s) && Enabled(s, BeginRead(r))
    ensures Inv(Apply(s, BeginRead(r)))
  {
    BeginReadReader(s, r);
    OneReaderChanged(s, Apply(s, BeginRead(r)), r);
  }

  /** A trusted reader's callback sees the bytes of the last published frame. */
  lemma ReadsLastFrame(s: State, r: Id)
    requires Inv(s) && IsAlive(s, r) && s.readers[r].phase.Reading?
    ensures r in s.owing && Session(s.writers).Outside? && s.published != []
    ensures var last := s.published[|s.published| - 1];
            var rd := s.readers[r];
            r in last.to && rd.phase.msg.size == |last.data|
            && (rd.phase.msg.upToDate ==> rd.phase.seen == last.data)
            && (rd.phase.msg.size == 0 ==> rd.phase.seen == last.data)
  {
    assert ReaderInv(s, Session(s.writers), r, s.readers[r]);
  }

  lemma EndReadCounts(s: State, r: Id)
    requires Inv(s) && Enabled(s, EndRead(r))
    ensures TokenInv(Apply(s, EndRead(r)))
  {
    OpsMeaning(s.sem);
    ReadsLastFrame(s, r);
    SubsetCount({r}, s.owing);
  }

  lemma EndReadSession(s: State, r: Id)
    requires Inv(s) && Enabled(s, EndRead(r))
    ensures SessionInv(Apply(s, EndRead(r)))
  {
    ReadsLastFrame(s, r);
  }

  lemma EndReadTokens(s: State, r: Id)
    requires Inv(s) && Enabled(s, EndRead(r))
    ensures TokenInv(Apply(s, EndRead(r))) && SessionInv(Apply(s, EndRead(r)))
  {
    EndReadCounts(s, r);
    EndReadSession(s, r);
  }

  lemma EndReadInv(s: State, r: Id)
    requires Inv(s) && Enabled(s, EndRead(r))
    ensures Inv(Apply(s, EndRead(r)))
  {
    EndReadTokens(s, r);
    var ses := Session(s.writers);
    var s' := Apply(s, EndRead(r));
    assert ReaderInv(s, ses, r, s.readers[r]);
    ReadsLastFrame(s, r);
    DeliveredLast(s.published, r);
    var all := Delivered(s.published, r);
    assert all[..|all| - 1] + [all[|all| - 1]] == all;
    assert LiveReader(s', ses, r, s'.readers[r]);
    OneReaderChanged(s, s', r);
  }

  // ---------------------------------------------------------------- any step, any run

  lemma StepInv(s: State, l: Label)
    requires Inv(s) && Enabled(s, l)
    ensures Inv(Apply(s, l))
  {
    match l
    case LockWrite(w) => LockWriteInv(s, w);
    case Replace(w, n) => ReplaceInv(s, w, n);
    case Store(w, bytes) => StoreInv(s, w, bytes);
    case BeginNotify(w, size) => BeginNotifyInv(s, w, size);
    case SendOk(w, r) => SendOkInv(s, w, r);
    case SendFail(w, r) => SendFailInv(s, w, r);
    case EndNotify(w) => EndNotifyInv(s, w);
    case Commit(w) => CommitInv(s, w);
    case Release(w) => ReleaseInv(s, w);
    case Join(r, g) => JoinInv(s, r, g);
    case Leave(r) => LeaveInv(s, r);
    case Die(r) => DieInv(s, r);
    case Cancel(r) => CancelInv(s, r);
    case ResetReaders => ResetReadersInv(s);
    case Receive(r) => ReceiveInv(s, r);
    case Attach(r) => AttachInv(s, r);
    case BeginRead(r) => BeginReadInv(s, r);
    case EndRead(r) => EndReadInv(s, r);
  }

  /** The invariant holds along every run. */
  lemma {:induction false} RunInv(s: State, ls: seq<Label>)
    requires Inv(s) && IsRun(s, ls)
    ensures Inv(After(s, ls))
    decreases |ls|
  {
    if ls != [] {
      StepInv(s, ls[0]);
      RunInv(Apply(s, ls[0]), ls[1..]);
    }
  }
}
