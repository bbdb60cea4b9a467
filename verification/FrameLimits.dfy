/** Why the hypotheses of the frame protocol are needed: runs that reach a bad
    state without them. */
module FrameLimits {
  import opened SysVSem
  import opened FrameProtocol
  import opened FrameInvariant
  import opened FrameTheorems
  import opened FrameCopies

  /** A shmdata with the writer thread 0 and the reader 7. */
  function One(sem: Sem, mem: seq<seq<Byte>>, phase: WriterPhase, rd: Reader,
               owing: set<Id>, published: seq<Frame>): State {
    State(sem, mem, map[0 := phase], map[7 := rd], {7}, owing, {}, published)
  }

  /** The same before the reader joins. */
  function Alone(sem: Sem, mem: seq<seq<Byte>>, phase: WriterPhase, published: seq<Frame>): State {
    State(sem, mem, map[0 := phase], map[], {}, {}, {}, published)
  }

  /** Some run leads from s to t; `copies` asks for a run of copies. */
  ghost predicate Reaches(copies: bool, s: State, t: State) {
    exists ls :: IsRun(s, ls) && After(s, ls) == t && (copies ==> IsCopyRun(s, ls))
  }

  lemma ReachesItself(copies: bool, s: State)
    ensures Reaches(copies, s, s)
  {
    assert IsRun(s, []);
  }

  lemma {:induction false} Extend(copies: bool, s: State, ls: seq<Label>, l: Label)
    requires IsRun(s, ls) && Enabled(After(s, ls), l)
    requires copies ==> IsCopyRun(s, ls) && CopyLabel(After(s, ls), l)
    ensures IsRun(s, ls + [l]) && After(s, ls + [l]) == Apply(After(s, ls), l)
    ensures copies ==> IsCopyRun(s, ls + [l])
    decreases |ls|
  {
    if ls == [] {
      assert [l][1..] == [];
    } else {
      Extend(copies, Apply(s, ls[0]), ls[1..], l);
      assert (ls + [l])[1..] == ls[1..] + [l];
    }
  }

  /** A set of states closed under the steps (of copies). */
  ghost predicate Closed(copies: bool, R: State -> bool) {
    forall t, l :: R(t) && Enabled(t, l) && (copies ==> CopyLabel(t, l)) ==> R(Apply(t, l))
  }

  lemma ReachesIsClosed(copies: bool, s: State)
    ensures Closed(copies, (t: State) => Reaches(copies, s, t))
  {
    forall t, l | Reaches(copies, s, t) && Enabled(t, l) && (copies ==> CopyLabel(t, l))
      ensures Reaches(copies, s, Apply(t, l))
    {
      var ls :| IsRun(s, ls) && After(s, ls) == t && (copies ==> IsCopyRun(s, ls));
      Extend(copies, s, ls, l);
    }
  }

  lemma Then(copies: bool, R: State -> bool, t: State, l: Label, u: State)
    requires Closed(copies, R) && R(t)
    requires Enabled(t, l) && Apply(t, l) == u && (copies ==> CopyLabel(t, l))
    ensures R(u)
  {
  }

  function Told(mem: seq<seq<Byte>>, rd: Reader, size: nat): Reader {
    var msg := Update(size, rd.seg + 1 == |mem| || size != rd.curSize);
    rd.(inbox := rd.inbox + [msg], trusted := msg.upToDate || size == 0)
  }

  lemma NotifyOne(copies: bool, R: State -> bool, mem: seq<seq<Byte>>, rd: Reader, size: nat,
                  published: seq<Frame>)
    requires Closed(copies, R) && R(One(Sem(0, 0), mem, Outside, rd, {}, published))
    requires mem != [] && rd.alive && rd.trusted && size <= |mem[|mem| - 1]|
    ensures R(One(Sem(1, 1), mem, Sending(size, {}, {7}), Told(mem, rd, size), {}, published))
  {
    OpsMeaning(Sem(0, 0));
    var s0 := One(Sem(0, 0), mem, Outside, rd, {}, published);
    var s1 := One(Sem(1, 1), mem, Locked(false), rd, {}, published);
    var s2 := One(Sem(1, 1), mem, Sending(size, {7}, {}), rd, {}, published);
    assert {7} - {7} == {} && {} + {7} == {7};
    Then(copies, R, s0, LockWrite(0), s1);
    Then(copies, R, s1, BeginNotify(0, size), s2);
    Then(copies, R, s2, SendOk(0, 7), One(Sem(1, 1), mem, Sending(size, {}, {7}), Told(mem, rd, size), {}, published));
  }

  lemma CommitOne(copies: bool, R: State -> bool, mem: seq<seq<Byte>>, rd: Reader, size: nat,
                  published: seq<Frame>)
    requires Closed(copies, R) && R(One(Sem(1, 1), mem, Sending(size, {}, {7}), rd, {}, published))
    requires mem != []
    ensures R(One(Sem(2, 1), mem, Committed(size, {7}), rd, {7}, published))
  {
    CommitMeaning(Sem(1, 1), 1);
    var s3 := One(Sem(1, 1), mem, Sending(size, {}, {7}), rd, {}, published);
    var s4 := One(Sem(1, 1), mem, Sent(size, {7}), rd, {}, published);
    assert {} + ({7} - {}) == {7};
    Then(copies, R, s3, EndNotify(0), s4);
    Then(copies, R, s4, Commit(0), One(Sem(2, 1), mem, Committed(size, {7}), rd, {7}, published));
  }

  lemma ReleaseOne(copies: bool, R: State -> bool, mem: seq<seq<Byte>>, rd: Reader, size: nat,
                   fill: seq<Byte>, published: seq<Frame>)
    requires Closed(copies, R) && R(One(Sem(2, 1), mem, Committed(size, {7}), rd, {7}, published))
    requires mem != [] && |fill| == |mem[|mem| - 1]| && size <= |fill|
    ensures R(One(Sem(1, 0), mem[|mem| - 1 := fill], Outside, rd, {7}, published + [Frame(fill[..size], {7})]))
  {
    OpsMeaning(Sem(2, 1));
    var s5 := One(Sem(2, 1), mem, Committed(size, {7}), rd, {7}, published);
    var s6 := One(Sem(2, 1), mem[|mem| - 1 := fill], Committed(size, {7}), rd, {7}, published);
    Then(copies, R, s5, Store(0, fill), s6);
    Then(copies, R, s6, Release(0),
         One(Sem(1, 0), mem[|mem| - 1 := fill], Outside, rd, {7}, published + [Frame(fill[..size], {7})]));
  }

  /** A session without replacement: lock, notify the reader 7, commit, store, release. */
  lemma PlainSession(copies: bool, R: State -> bool, mem: seq<seq<Byte>>, rd: Reader,
                     size: nat, fill: seq<Byte>, published: seq<Frame>)
    requires Closed(copies, R) && R(One(Sem(0, 0), mem, Outside, rd, {}, published))
    requires mem != [] && rd.alive && rd.trusted && |fill| == |mem[|mem| - 1]| && size <= |fill|
    ensures R(One(Sem(1, 0), mem[|mem| - 1 := fill], Outside, Told(mem, rd, size), {7},
                  published + [Frame(fill[..size], {7})]))
  {
    NotifyOne(copies, R, mem, rd, size, published);
    CommitOne(copies, R, mem, Told(mem, rd, size), size, published);
    ReleaseOne(copies, R, mem, Told(mem, rd, size), size, fill, published);
  }

  /** The reader takes its update up to the inside of the callback. */
  lemma Intake(copies: bool, R: State -> bool, mem: seq<seq<Byte>>, rd: Reader,
               msg: Update, published: seq<Frame>)
    requires Closed(copies, R) && R(One(Sem(1, 0), mem, Outside, rd, {7}, published))
    requires mem != [] && rd.alive && rd.phase.Idle? && rd.inbox == [msg]
    ensures var att := AttachOn(rd.(inbox := []), msg, |mem| - 1);
            R(
                  One(Sem(1, 0), mem, Outside,
                      att.(phase := Reading(msg, View(mem, att.seg, msg.size))), {7}, published))
  {
    OpsMeaning(Sem(1, 0));
    var s0 := One(Sem(1, 0), mem, Outside, rd, {7}, published);
    var got := rd.(inbox := [], phase := Got(msg));
    var s1 := One(Sem(1, 0), mem, Outside, got, {7}, published);
    var att := AttachOn(got, msg, |mem| - 1);
    var s2 := One(Sem(1, 0), mem, Outside, att, {7}, published);
    var s3 := One(Sem(1, 0), mem, Outside, att.(phase := Reading(msg, View(mem, att.seg, msg.size))), {7}, published);
    assert rd.inbox[1..] == [];
    Then(copies, R, s0, Receive(7), s1);
    Then(copies, R, s1, Attach(7), s2);
    Then(copies, R, s2, BeginRead(7), s3);
  }

  lemma LeaveCallback(copies: bool, R: State -> bool, mem: seq<seq<Byte>>, rd: Reader,
              published: seq<Frame>)
    requires Closed(copies, R) && R(One(Sem(1, 0), mem, Outside, rd, {7}, published))
    requires mem != [] && rd.alive && rd.phase.Reading?
    ensures R(
                  One(Sem(0, 0), mem, Outside,
                      rd.(phase := Idle, observed := rd.observed + [View(mem, rd.seg, rd.phase.msg.size)]), {}, published))
  {
    OpsMeaning(Sem(1, 0));
    var s0 := One(Sem(1, 0), mem, Outside, rd, {7}, published);
    assert {7} - {7} == {};
    var left := rd.(phase := Idle, observed := rd.observed + [View(mem, rd.seg, rd.phase.msg.size)]);
    assert map[7 := rd][7 := left] == map[7 := left];
    Then(copies, R, s0, EndRead(7), One(Sem(0, 0), mem, Outside, left, {}, published));
  }

  const START := Alone(Sem(0, 0), [[0]], Outside, [])

  /** Grow the segment to two zero bytes while nobody listens. */
  lemma ReplaceAlone(R: State -> bool)
    requires Closed(true, R) && R(START)
    ensures R(Alone(Sem(1, 1), [[0], [0, 0]], Locked(true), []))
  {
    OpsMeaning(Sem(0, 0));
    var s1 := Alone(Sem(1, 1), [[0]], Locked(false), []);
    assert seq(2, i => 0) == [0, 0];
    Then(true, R, START, LockWrite(0), s1);
    Then(true, R, s1, Replace(0, 2), Alone(Sem(1, 1), [[0], [0, 0]], Locked(true), []));
  }

  lemma GrowAlone(R: State -> bool)
    requires Closed(true, R) && R(START)
    ensures R(Alone(Sem(0, 0), [[0], [0, 0]], Outside, [Frame([0, 0], {})]))
  {
    ReplaceAlone(R);
    OpsMeaning(Sem(1, 1));
    var mem := [[0], [0, 0]];
    var s2 := Alone(Sem(1, 1), mem, Locked(true), []);
    var s3 := Alone(Sem(1, 1), mem, Sending(2, {}, {}), []);
    var s4 := Alone(Sem(1, 1), mem, Sent(2, {}), []);
    var s5 := Alone(Sem(1, 1), mem, Committed(2, {}), []);
    assert [0, 0][..2] == [0, 0];
    Then(true, R, s2, BeginNotify(0, 2), s3);
    Then(true, R, s3, EndNotify(0), s4);
    Then(true, R, s4, Commit(0), s5);
    Then(true, R, s5, Release(0), Alone(Sem(0, 0), mem, Outside, [Frame([0, 0], {})]));
  }

  lemma EmptyFrameRun(R: State -> bool) returns (s: State)
    requires Closed(true, R) && R(START)
    ensures R(s) && InCallback(s, 7) && s.readers[7].seg + 1 != |s.mem|
  {
    GrowAlone(R);
    var mem := [[0], [0, 0]];
    var first := [Frame([0, 0], {})];
    var s6 := Alone(Sem(0, 0), mem, Outside, first);
    Then(true, R, s6, Join(7, 0), One(Sem(0, 0), mem, Outside, NewReader(0), {}, first));
    PlainSession(true, R, mem, NewReader(0), 0, [0, 0], first);
    var msg := Update(0, false);
    var told := NewReader(0).(inbox := [msg]);
    var both := first + [Frame([0, 0][..0], {7})];
    assert mem[1 := [0, 0]] == mem && [] + [msg] == [msg];
    Intake(true, R, mem, told, msg, both);
    var att := AttachOn(told.(inbox := []), msg, 1);
    s := One(Sem(1, 0), mem, Outside, att.(phase := Reading(msg, View(mem, att.seg, 0))), {7}, both);
  }

  /** A run of copies in which a callback of size zero runs on a segment that is gone:
      the reader was constructed before the segment grew, joined after, and its
      `cur_size_` starts at 0. */
  lemma LateJoinerEmptyFrame()
    ensures exists s0, s :: Init(s0) && Reaches(true, s0, s)
              && InCallback(s, 7) && s.readers[7].seg + 1 != |s.mem|
  {
    ReachesItself(true, START);
    ReachesIsClosed(true, START);
    var s := EmptyFrameRun((t: State) => Reaches(true, START, t));
  }

  /** One byte 1 is published and read. */
  lemma FirstByte(copies: bool, R: State -> bool) returns (rd: Reader)
    requires Closed(copies, R) && R(START)
    ensures rd == Reader(true, [], Idle, 0, 1, [[1]], true)
    ensures R(One(Sem(0, 0), [[1]], Outside, rd, {}, [Frame([1], {7})]))
  {
    Then(copies, R, START, Join(7, 0), One(Sem(0, 0), [[0]], Outside, NewReader(0), {}, []));
    PlainSession(copies, R, [[0]], NewReader(0), 1, [1], []);
    var msg := Update(1, true);
    var told := NewReader(0).(inbox := [msg]);
    var first := [Frame([1], {7})];
    assert [1][..1] == [1] && [[0]][0 := [1]] == [[1]] && [] + [msg] == [msg] && [] + first == first;
    Intake(copies, R, [[1]], told, msg, first);
    var att := AttachOn(told.(inbox := []), msg, 0).(phase := Reading(msg, [1]));
    LeaveCallback(copies, R, [[1]], att, first);
    rd := att.(phase := Idle, observed := [[1]]);
    assert [] + [[1]] == [[1]];
  }

  /** Then an access replaces the segment by one of the same size and notifies nobody. */
  lemma ReplaceUnnoticed(R: State -> bool) returns (rd: Reader)
    requires Closed(false, R) && R(START)
    ensures rd == Reader(true, [], Idle, 0, 1, [[1]], true)
    ensures R(One(Sem(0, 0), [[1], [0]], Outside, rd, {}, [Frame([1], {7})]))
  {
    rd := FirstByte(false, R);
    OpsMeaning(Sem(0, 0));
    OpsMeaning(Sem(1, 1));
    assert seq(1, i => 0) == [0];
    var first := [Frame([1], {7})];
    var t0 := One(Sem(0, 0), [[1]], Outside, rd, {}, first);
    var t1 := One(Sem(1, 1), [[1]], Locked(false), rd, {}, first);
    var t2 := One(Sem(1, 1), [[1], [0]], Locked(true), rd, {}, first);
    Then(false, R, t0, LockWrite(0), t1);
    Then(false, R, t1, Replace(0, 1), t2);
    Then(false, R, t2, Release(0), One(Sem(0, 0), [[1], [0]], Outside, rd, {}, first));
  }

  /** The next frame has the size the reader saw last: it reads the old byte again. */
  lemma RepeatsOld(copies: bool, R: State -> bool, b: seq<Byte>, rd: Reader, published: seq<Frame>) returns (s: State)
    requires Closed(copies, R) && R(One(Sem(0, 0), [[1], b], Outside, rd, {}, published))
    requires rd == Reader(true, [], Idle, 0, 1, [[1]], true) && b != [] && Delivered(published, 7) == [[1]]
    ensures R(s) && 7 in s.readers && s.owing == {} && Holders(s) == {}
    ensures s.readers[7].observed == [[1], [1]] && Delivered(s.published, 7) == [[1], [2]]
  {
    var fill := [2] + b[1..];
    var mem := [[1], fill];
    var all := published + [Frame([2], {7})];
    PlainSession(copies, R, [[1], b], rd, 1, fill, published);
    assert [[1], b][1 := fill] == mem && fill[..1] == [2];
    var msg := Update(1, false);
    assert [] + [msg] == [msg];
    Intake(copies, R, mem, rd.(inbox := [msg], trusted := false), msg, all);
    assert [1][..1] == [1];
    var stale := rd.(trusted := false, phase := Reading(msg, [1]));
    LeaveCallback(copies, R, mem, stale, all);
    assert [[1]] + [[1]] == [[1], [1]];
    DeliveredSnoc(published, Frame([2], {7}), 7);
    s := One(Sem(0, 0), mem, Outside, stale.(phase := Idle, observed := [[1], [1]]), {}, all);
  }

  lemma FirstDelivered()
    ensures Delivered([Frame([1], {7})], 7) == [[1]]
  {
    DeliveredSnoc([], Frame([1], {7}), 7);
    assert [] + [Frame([1], {7})] == [Frame([1], {7})];
  }

  /** Replacing the segment by one of the same size (`get_one_write_access_ptr_resize`)
      goes unnoticed: the reader sees the bytes of the old segment. */
  lemma SameSizeReplacementIsMissed()
    ensures exists s0, s :: Init(s0) && Reaches(false, s0, s) && 7 in s.readers
              && s.owing == {} && Holders(s) == {}
              && s.readers[7].observed == [[1], [1]] && Delivered(s.published, 7) == [[1], [2]]
  {
    ReachesItself(false, START);
    ReachesIsClosed(false, START);
    var R := (t: State) => Reaches(false, START, t);
    var rd := ReplaceUnnoticed(R);
    FirstDelivered();
    var s := RepeatsOld(false, R, [0], rd, [Frame([1], {7})]);
  }

  // ------------------------------------------------ a notification that is lost

  /** The segment grows to two bytes, and the send to the live reader fails. */
  lemma GrowthLocked(R: State -> bool, rd: Reader)
    requires Closed(true, R) && R(One(Sem(0, 0), [[1]], Outside, rd, {}, [Frame([1], {7})]))
    ensures R(One(Sem(1, 1), [[1], [0, 0]], Sending(2, {7}, {}), rd, {}, [Frame([1], {7})]))
  {
    OpsMeaning(Sem(0, 0));
    assert seq(2, i => 0) == [0, 0];
    var first := [Frame([1], {7})];
    var mem := [[1], [0, 0]];
    var s1 := One(Sem(1, 1), [[1]], Locked(false), rd, {}, first);
    var s2 := One(Sem(1, 1), mem, Locked(true), rd, {}, first);
    Then(true, R, One(Sem(0, 0), [[1]], Outside, rd, {}, first), LockWrite(0), s1);
    Then(true, R, s1, Replace(0, 2), s2);
    Then(true, R, s2, BeginNotify(0, 2), One(Sem(1, 1), mem, Sending(2, {7}, {}), rd, {}, first));
  }

  lemma GrowthLost(R: State -> bool, rd: Reader)
    requires Closed(true, R) && R(One(Sem(0, 0), [[1]], Outside, rd, {}, [Frame([1], {7})]))
    ensures R(One(Sem(0, 0), [[1], [0, 0]], Outside, rd, {}, [Frame([1], {7}), Frame([0, 0], {})]))
  {
    GrowthLocked(R, rd);
    OpsMeaning(Sem(1, 1));
    var first := [Frame([1], {7})];
    var mem := [[1], [0, 0]];
    var s3 := One(Sem(1, 1), mem, Sending(2, {7}, {}), rd, {}, first);
    var s4 := One(Sem(1, 1), mem, Sending(2, {}, {}), rd, {}, first);
    var s5 := One(Sem(1, 1), mem, Sent(2, {}), rd, {}, first);
    var s6 := One(Sem(1, 1), mem, Committed(2, {}), rd, {}, first);
    var both := [Frame([1], {7}), Frame([0, 0], {})];
    assert {7} - {7} == {} && [0, 0][..2] == [0, 0] && first + [Frame([0, 0], {})] == both;
    Then(true, R, s3, SendFail(0, 7), s4);
    Then(true, R, s4, EndNotify(0), s5);
    Then(true, R, s5, Commit(0), s6);
    Then(true, R, s6, Release(0), One(Sem(0, 0), mem, Outside, rd, {}, both));
  }

  /** A run of copies in which one failed send makes a live reader see old bytes later:
      the segment grew unnoticed, and the frame after that has the size it saw last. */
  lemma LostGrowthIsMissed()
    ensures exists s0, s :: Init(s0) && Reaches(true, s0, s) && 7 in s.readers
              && s.owing == {} && Holders(s) == {}
              && s.readers[7].observed == [[1], [1]] && Delivered(s.published, 7) == [[1], [2]]
  {
    ReachesItself(true, START);
    ReachesIsClosed(true, START);
    var R := (t: State) => Reaches(true, START, t);
    var rd := FirstByte(true, R);
    GrowthLost(R, rd);
    FirstDelivered();
    var both := [Frame([1], {7}), Frame([0, 0], {})];
    DeliveredSnoc([Frame([1], {7})], Frame([0, 0], {}), 7);
    assert [Frame([1], {7})] + [Frame([0, 0], {})] == both && [[1]] + [] == [[1]];
    var s := RepeatsOld(true, R, [0, 0], rd, both);
  }

  // ------------------------------------------------ hypotheses on reset and cancellation

  /** The reset thread firing although the lock is held (after the grant, or because of
      another thread's lock) lets a second writer in. */
  lemma ResetWhileHeld(s: State, v: Id, w: Id)
    requires Inv(s) && Holds(s, v) && w in s.writers && w != v
    requires s.early == {} && s.owing == {}
    ensures !Enabled(s, LockWrite(w))
    ensures Enabled(RawReset(s), LockWrite(w)) && {v, w} <= Holders(Apply(RawReset(s), LockWrite(w)))
  {
    OpsMeaning(s.sem);
    OpsMeaning(Sem(0, s.sem.writer));
    SessionIs(s.writers, v);
    OthersOutside(s.writers, v);
  }

  /** The reset firing on a live reader lets the writer in while its callback runs. */
  lemma ResetWhileReading(s: State, r: Id, w: Id)
    requires Inv(s) && InCallback(s, r) && w in s.writers
    ensures !Enabled(s, LockWrite(w))
    ensures Enabled(RawReset(s), LockWrite(w))
            && InCallback(Apply(RawReset(s), LockWrite(w)), r)
            && Holds(Apply(RawReset(s), LockWrite(w)), w)
  {
    ReadsLastFrame(s, r);
    OpsMeaning(s.sem);
    OpsMeaning(Sem(0, s.sem.writer));
    assert s.writers[w].Outside?;
  }

  /** Cancelling a reader between notification and commit with a second writer thread
      around lets that thread in beside the holder. */
  lemma EarlyCancelWithTwoWriters(s: State, r: Id, v: Id, w: Id)
    requires Inv(s) && w in s.writers && w != v && v in s.writers && s.writers[v].Sent? && s.early == {}
    ensures Semop(s.sem, READ_END).Some?
    ensures var s' := RawCancel(s, r);
            Enabled(s', LockWrite(w)) && {v, w} <= Holders(Apply(s', LockWrite(w)))
  {
    OpsMeaning(s.sem);
    OpsMeaning(Sem(0, 1));
    SessionIs(s.writers, v);
    OthersOutside(s.writers, v);
  }

  /** `on_client_error_` is called for any notified client, even one, q, that has done its
      decrement; the second decrement then lets a writer in beside the callback of r. */
  lemma CancelAfterDecrement(s: State, q: Id, r: Id, w: Id)
    requires Inv(s) && InCallback(s, r) && s.owing == {r} && q != r && w in s.writers
    ensures Semop(s.sem, READ_END).Some?
    ensures var s' := RawCancel(s, q);
            Enabled(s', LockWrite(w)) && InCallback(Apply(s', LockWrite(w)), r)
  {
    ReadsLastFrame(s, r);
    OpsMeaning(s.sem);
    OpsMeaning(Sem(0, 0));
    assert s.writers[w].Outside?;
  }
}
