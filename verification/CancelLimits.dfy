/** Runs after which the server cancels a client that no longer owes its token
    (shmdata/unix-socket-server.cpp, shmdata/writer.cpp): the call is made for any client
    of the latest notification whose read fails. */
module CancelLimits {
  import opened SysVSem
  import opened FrameProtocol
  import opened FrameInvariant
  import opened FrameTheorems
  import FL = FrameLimits

  /** `clients_notified_`, as the latest notification left it. */
  ghost function LastNotified(s: State): set<Id> {
    var ses := Session(s.writers);
    if ses.Sending? || ses.Sent? || ses.Committed? then ses.done
    else if s.published == [] then {} else s.published[|s.published| - 1].to
  }

  /** The server's loop finds the read of r failing, r counts as notified, and the
      decrement does not have to wait. */
  ghost predicate ServerCancels(s: State, r: Id) {
    r in s.clients && r in s.readers && !s.readers[r].alive && MutexFree(s)
    && r in LastNotified(s) && Semop(s.sem, READ_END).Some?
  }

  // ---------------------------------------------------------------- the next lock's token

  lemma DeadUnderNextLock(R: State -> bool) returns (s: State)
    requires FL.Closed(true, R) && R(FL.START)
    ensures R(s) && ServerCancels(s, 7) && s.writers == map[0 := Locked(false)] && s.owing == {}
  {
    var rd := FL.FirstByte(true, R);
    OpsMeaning(Sem(0, 0));
    OpsMeaning(Sem(1, 1));
    var first := [Frame([1], {7})];
    var dead := rd.(alive := false);
    var t0 := FL.One(Sem(0, 0), [[1]], Outside, rd, {}, first);
    var t1 := FL.One(Sem(0, 0), [[1]], Outside, dead, {}, first);
    s := FL.One(Sem(1, 1), [[1]], Locked(false), dead, {}, first);
    FL.Then(true, R, t0, Die(7), t1);
    FL.Then(true, R, t1, LockWrite(0), s);
    assert s.writers[0] != Outside;
    SessionIs(s.writers, 0);
  }

  /** A run of copies: the only reader reads its frame and dies; the next lock is taken; the
      server then cancels the reader and takes the lock's own token.  The release waits. */
  lemma CancelTakesTheLocksToken()
    ensures exists s0, s :: Init(s0) && FL.Reaches(true, s0, s) && ServerCancels(s, 7)
              && 0 in s.writers && s.writers[0].Locked? && !Enabled(RawCancel(s, 7), Release(0))
  {
    FL.ReachesItself(true, FL.START);
    FL.ReachesIsClosed(true, FL.START);
    var R := (t: State) => FL.Reaches(true, FL.START, t);
    var s := DeadUnderNextLock(R);
    var ls :| IsRun(FL.START, ls) && After(FL.START, ls) == s;
    Reached(FL.START, ls);
    CancelUnderLock(s, 7, 0);
  }

  // ---------------------------------------------------------------- a second writer thread

  const EMPTY: Update := Update(0, true)

  function Pair(sem: Sem, phase: WriterPhase, rd: Reader): State {
    State(sem, [[0]], map[0 := phase, 1 := Outside], map[7 := rd], {7}, {}, {}, [])
  }

  const PAIR_START := State(Sem(0, 0), [[0]], map[0 := Outside, 1 := Outside], map[], {}, {}, {}, [])

  lemma PairSending(R: State -> bool)
    requires FL.Closed(true, R) && R(PAIR_START)
    ensures R(Pair(Sem(1, 1), Sending(0, {7}, {}), NewReader(0)))
  {
    OpsMeaning(Sem(0, 0));
    var rd := NewReader(0);
    var s1 := Pair(Sem(0, 0), Outside, rd);
    var s2 := Pair(Sem(1, 1), Locked(false), rd);
    FL.Then(true, R, PAIR_START, Join(7, 0), s1);
    FL.Then(true, R, s1, LockWrite(0), s2);
    FL.Then(true, R, s2, BeginNotify(0, 0), Pair(Sem(1, 1), Sending(0, {7}, {}), rd));
  }

  lemma PairSent(R: State -> bool)
    requires FL.Closed(true, R) && R(PAIR_START)
    ensures R(Pair(Sem(1, 1), Sent(0, {7}), NewReader(0).(inbox := [EMPTY])))
  {
    PairSending(R);
    var rd := NewReader(0);
    var told := rd.(inbox := [EMPTY]);
    assert [] + [EMPTY] == [EMPTY] && {7} - {7} == {} && {} + {7} == {7};
    var s3 := Pair(Sem(1, 1), Sending(0, {7}, {}), rd);
    var s4 := Pair(Sem(1, 1), Sending(0, {}, {7}), told);
    FL.Then(true, R, s3, SendOk(0, 7), s4);
    FL.Then(true, R, s4, EndNotify(0), Pair(Sem(1, 1), Sent(0, {7}), told));
  }

  lemma SentAndDead(R: State -> bool) returns (s: State)
    requires FL.Closed(true, R) && R(PAIR_START)
    ensures R(s) && ServerCancels(s, 7) && 0 in s.writers && 1 in s.writers && s.writers[0].Sent? && s.early == {}
  {
    PairSent(R);
    OpsMeaning(Sem(1, 1));
    var told := NewReader(0).(inbox := [EMPTY]);
    s := Pair(Sem(1, 1), Sent(0, {7}), told.(alive := false));
    FL.Then(true, R, Pair(Sem(1, 1), Sent(0, {7}), told), Die(7), s);
    assert s.writers[0] != Outside;
    SessionIs(s.writers, 0);
  }

  /** With a second writer thread, a client that fails between its notification and the
      commit lets that thread in beside the holder. */
  lemma EarlyCancelBreaksExclusion()
    ensures exists s0, s :: Init(s0) && FL.Reaches(true, s0, s) && ServerCancels(s, 7)
              && Holds(s, 0) && 1 in s.writers && Enabled(RawCancel(s, 7), LockWrite(1))
              && {0, 1} <= Holders(Apply(RawCancel(s, 7), LockWrite(1)))
  {
    FL.ReachesItself(true, PAIR_START);
    FL.ReachesIsClosed(true, PAIR_START);
    var R := (t: State) => FL.Reaches(true, PAIR_START, t);
    var s := SentAndDead(R);
    var ls :| IsRun(PAIR_START, ls) && After(PAIR_START, ls) == s;
    Reached(PAIR_START, ls);
    FL.EarlyCancelWithTwoWriters(s, 7, 0, 1);
  }

  // ---------------------------------------------------------------- another reader's token

  function Two(sem: Sem, phase: WriterPhase, a: Reader, b: Reader, owing: set<Id>, published: seq<Frame>): State {
    State(sem, [[0]], map[0 := phase], map[7 := a, 8 := b], {7, 8}, owing, {}, published)
  }

  lemma BothJoined(R: State -> bool)
    requires FL.Closed(true, R) && R(FL.START)
    ensures R(Two(Sem(1, 1), Locked(false), NewReader(0), NewReader(0), {}, []))
  {
    OpsMeaning(Sem(0, 0));
    var rd := NewReader(0);
    assert map[7 := rd][8 := rd] == map[7 := rd, 8 := rd] && {7} + {8} == {7, 8};
    var s1 := FL.One(Sem(0, 0), [[0]], Outside, rd, {}, []);
    var s2 := Two(Sem(0, 0), Outside, rd, rd, {}, []);
    FL.Then(true, R, FL.START, Join(7, 0), s1);
    FL.Then(true, R, s1, Join(8, 0), s2);
    FL.Then(true, R, s2, LockWrite(0), Two(Sem(1, 1), Locked(false), rd, rd, {}, []));
  }

  /** Both readers have been sent an empty frame. */
  lemma BothTold(R: State -> bool)
    requires FL.Closed(true, R) && R(FL.START)
    ensures var told := NewReader(0).(inbox := [EMPTY]);
            R(Two(Sem(1, 1), Sending(0, {}, {7, 8}), told, told, {}, []))
  {
    BothJoined(R);
    var rd := NewReader(0);
    var told := rd.(inbox := [EMPTY]);
    assert [] + [EMPTY] == [EMPTY];
    assert {7, 8} - {7} == {8} && {8} - {8} == {} && {} + {7} == {7} && {7} + {8} == {7, 8};
    var s3 := Two(Sem(1, 1), Locked(false), rd, rd, {}, []);
    var s4 := Two(Sem(1, 1), Sending(0, {7, 8}, {}), rd, rd, {}, []);
    var s5 := Two(Sem(1, 1), Sending(0, {8}, {7}), told, rd, {}, []);
    FL.Then(true, R, s3, BeginNotify(0, 0), s4);
    FL.Then(true, R, s4, SendOk(0, 7), s5);
    FL.Then(true, R, s5, SendOk(0, 8), Two(Sem(1, 1), Sending(0, {}, {7, 8}), told, told, {}, []));
  }

  lemma BothCommitted(R: State -> bool)
    requires FL.Closed(true, R) && R(FL.START)
    ensures var told := NewReader(0).(inbox := [EMPTY]);
            R(Two(Sem(3, 1), Committed(0, {7, 8}), told, told, {7, 8}, []))
  {
    BothTold(R);
    CommitMeaning(Sem(1, 1), 2);
    var told := NewReader(0).(inbox := [EMPTY]);
    assert |{7, 8}| == 2 && {} + ({7, 8} - {}) == {7, 8};
    var s6 := Two(Sem(1, 1), Sending(0, {}, {7, 8}), told, told, {}, []);
    var s7 := Two(Sem(1, 1), Sent(0, {7, 8}), told, told, {}, []);
    FL.Then(true, R, s6, EndNotify(0), s7);
    FL.Then(true, R, s7, Commit(0), Two(Sem(3, 1), Committed(0, {7, 8}), told, told, {7, 8}, []));
  }

  lemma BothOwe(R: State -> bool)
    requires FL.Closed(true, R) && R(FL.START)
    ensures var told := NewReader(0).(inbox := [EMPTY]);
            R(Two(Sem(2, 0), Outside, told, told, {7, 8}, [Frame([], {7, 8})]))
  {
    BothCommitted(R);
    OpsMeaning(Sem(3, 1));
    var told := NewReader(0).(inbox := [EMPTY]);
    var s8 := Two(Sem(3, 1), Committed(0, {7, 8}), told, told, {7, 8}, []);
    assert [] + [Frame([], {7, 8})] == [Frame([], {7, 8})] && [0][..0] == [];
    FL.Then(true, R, s8, Release(0), Two(Sem(2, 0), Outside, told, told, {7, 8}, [Frame([], {7, 8})]));
  }

  function InPhase(phase: ReaderPhase): Reader {
    NewReader(0).(phase := phase)
  }

  lemma EightReads(R: State -> bool)
    requires FL.Closed(true, R) && R(FL.START)
    ensures R(Two(Sem(2, 0), Outside, NewReader(0).(inbox := [EMPTY]), InPhase(Reading(EMPTY, [])), {7, 8},
                  [Frame([], {7, 8})]))
  {
    BothOwe(R);
    OpsMeaning(Sem(2, 0));
    var told := NewReader(0).(inbox := [EMPTY]);
    var frames := [Frame([], {7, 8})];
    assert told.inbox[1..] == [] && [0][..0] == [];
    var t0 := Two(Sem(2, 0), Outside, told, told, {7, 8}, frames);
    var t1 := Two(Sem(2, 0), Outside, told, InPhase(Got(EMPTY)), {7, 8}, frames);
    var t2 := Two(Sem(2, 0), Outside, told, InPhase(Attached(EMPTY)), {7, 8}, frames);
    FL.Then(true, R, t0, Receive(8), t1);
    FL.Then(true, R, t1, Attach(8), t2);
    FL.Then(true, R, t2, BeginRead(8), Two(Sem(2, 0), Outside, told, InPhase(Reading(EMPTY, [])), {7, 8}, frames));
  }

  /** Reader 8 reads and dies. */
  lemma OneLeft(R: State -> bool) returns (dead: Reader)
    requires FL.Closed(true, R) && R(FL.START)
    ensures !dead.alive
    ensures R(Two(Sem(1, 0), Outside, NewReader(0).(inbox := [EMPTY]), dead, {7}, [Frame([], {7, 8})]))
  {
    EightReads(R);
    OpsMeaning(Sem(2, 0));
    var told := NewReader(0).(inbox := [EMPTY]);
    var frames := [Frame([], {7, 8})];
    assert [0][..0] == [] && told.observed + [[]] == [[]] && {7, 8} - {8} == {7};
    var done := NewReader(0).(observed := [[]]);
    dead := done.(alive := false);
    var t3 := Two(Sem(2, 0), Outside, told, InPhase(Reading(EMPTY, [])), {7, 8}, frames);
    var t4 := Two(Sem(1, 0), Outside, told, done, {7}, frames);
    FL.Then(true, R, t3, EndRead(8), t4);
    FL.Then(true, R, t4, Die(8), Two(Sem(1, 0), Outside, told, dead, {7}, frames));
  }

  /** Reader 7 is inside its callback. */
  lemma OneReading(R: State -> bool) returns (s: State)
    requires FL.Closed(true, R) && R(FL.START)
    ensures R(s) && ServerCancels(s, 8) && InCallback(s, 7) && s.owing == {7} && 0 in s.writers
  {
    var dead := OneLeft(R);
    OpsMeaning(Sem(1, 0));
    var told := NewReader(0).(inbox := [EMPTY]);
    var frames := [Frame([], {7, 8})];
    assert told.inbox[1..] == [] && [0][..0] == [];
    var t0 := Two(Sem(1, 0), Outside, told, dead, {7}, frames);
    var t1 := Two(Sem(1, 0), Outside, InPhase(Got(EMPTY)), dead, {7}, frames);
    var t2 := Two(Sem(1, 0), Outside, InPhase(Attached(EMPTY)), dead, {7}, frames);
    s := Two(Sem(1, 0), Outside, InPhase(Reading(EMPTY, [])), dead, {7}, frames);
    FL.Then(true, R, t0, Receive(7), t1);
    FL.Then(true, R, t1, Attach(7), t2);
    FL.Then(true, R, t2, BeginRead(7), s);
    assert Session(s.writers) == Outside;
  }

  /** A run of copies: one of two notified readers reads and dies, the server cancels it,
      and the writer gets in beside the callback of the other. */
  lemma CancelLetsTheWriterIn()
    ensures exists s0, s :: Init(s0) && FL.Reaches(true, s0, s) && ServerCancels(s, 8) && InCallback(s, 7)
              && Enabled(RawCancel(s, 8), LockWrite(0))
              && InCallback(Apply(RawCancel(s, 8), LockWrite(0)), 7)
  {
    FL.ReachesItself(true, FL.START);
    FL.ReachesIsClosed(true, FL.START);
    var R := (t: State) => FL.Reaches(true, FL.START, t);
    var s := OneReading(R);
    var ls :| IsRun(FL.START, ls) && After(FL.START, ls) == s;
    Reached(FL.START, ls);
    FL.CancelAfterDecrement(s, 8, 7, 0);
  }
}
