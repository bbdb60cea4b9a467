/** The zero-copy hand-off of the GStreamer source (gst/gstshmdatasrc.c): the shmdata
    thread lends the memory of a frame to the streaming thread and gives it up when a
    buffer has been rendered.  Frames are numbered in the order they are posted. */
module HandOff {
  /** Where the streaming thread is in `create`. */
  datatype Create = Idle | Wrapped | Flushing

  /** `posted`, `givenUp`, `taken`, `freed`, `firsts`, `sessions` and `wakeups` count or
      list events; the other components are the element's own flags. */
  datatype State = State(
    onData: bool, dataRendered: bool, firstRead: bool, unlocked: bool, stopRead: bool, reading: bool,
    waiting: bool,          // on_data is between posting and returning
    create: Create,
    posted: nat,            // frames handed over; the current one is posted - 1
    givenUp: nat,           // completed waits
    taken: seq<nat>,        // frames wrapped in buffers
    freed: set<nat>,        // frames whose buffer is no longer used
    firsts: nat, sessions: nat,
    wakeups: nat)           // flush and stop wake-ups

  datatype Label =
    | Start | StopWake | StopEnd | StopRead | Unlock | UnlockStop
    | Post | Finish
    | TakeData(copy: bool) | EndCreate | FlushDrop | FlushWake
    | Free(k: nat)

  /** The element as `init` leaves it. */
  predicate Initial(s: State) {
    && !s.onData && !s.dataRendered && s.firstRead && !s.unlocked && !s.stopRead && !s.reading && !s.waiting
    && s.create.Idle?
    && s.posted == 0 && s.givenUp == 0 && s.taken == [] && s.freed == {}
    && s.firsts == 0 && s.sessions == 0 && s.wakeups == 0
  }

  predicate Enabled(s: State, l: Label) {
    match l
    case Start => !s.reading
    case StopWake => s.reading
    case StopEnd => s.reading && !s.waiting
    case StopRead => true
    case Unlock => true
    case UnlockStop => true
    case Post => s.reading && !s.stopRead && !s.waiting && !s.create.Wrapped?
    case Finish => s.waiting && s.dataRendered
    case TakeData(copy) => s.create.Idle? && s.onData && !s.unlocked
    case EndCreate => s.create.Wrapped?
    case FlushDrop => s.create.Idle? && s.unlocked
    case FlushWake => s.create.Flushing?
    case Free(k) =>
      k in s.taken && k !in s.freed && (s.create.Wrapped? ==> k != s.taken[|s.taken| - 1])
  }

  /** The frame in `current_data`. */
  function Current(s: State): nat {
    if s.posted == 0 then 0 else s.posted - 1
  }

  function Apply(s: State, l: Label): State
    requires Enabled(s, l)
  {
    match l
    case Start => s.(reading := true, firstRead := true, sessions := s.sessions + 1)
    case StopWake => s.(dataRendered := true, wakeups := s.wakeups + 1)
    case StopEnd => s.(reading := false)
    case StopRead => s.(stopRead := true)
    case Unlock => s.(unlocked := true)
    case UnlockStop => s.(unlocked := false)
    case Post => s.(onData := true, waiting := true, posted := s.posted + 1)
    case Finish => s.(dataRendered := false, waiting := false, givenUp := s.givenUp + 1)
    case TakeData(copy) =>
      var t := s.(onData := false, create := Wrapped, taken := s.taken + [Current(s)]);
      if copy then t.(dataRendered := true, freed := s.freed + {Current(s)}) else t
    case EndCreate =>
      if s.firstRead then s.(create := Idle, dataRendered := true, firstRead := false, firsts := s.firsts + 1)
      else s.(create := Idle)
    case FlushDrop => s.(onData := false, create := Flushing)
    case FlushWake => s.(create := Idle, dataRendered := true, wakeups := s.wakeups + 1)
    case Free(k) => s.(dataRendered := true, freed := s.freed + {k})
  }

  predicate IsRun(s: State, ls: seq<Label>)
    decreases |ls|
  {
    ls == [] || (Enabled(s, ls[0]) && IsRun(Apply(s, ls[0]), ls[1..]))
  }

  function After(s: State, ls: seq<Label>): State
    requires IsRun(s, ls)
    decreases |ls|
  {
    if ls == [] then s else After(Apply(s, ls[0]), ls[1..])
  }

  // ---------------------------------------------------------------- invariant

  predicate Increasing(taken: seq<nat>) {
    forall i, j :: 0 <= i < j < |taken| ==> taken[i] < taken[j]
  }

  function Elems(taken: seq<nat>): set<nat> {
    set k | k in taken
  }

  function One(b: bool): nat {
    if b then 1 else 0
  }

  predicate CountInv(s: State) {
    && s.posted == s.givenUp + One(s.waiting)
    && s.givenUp + One(s.dataRendered) <= |s.freed| + s.firsts + s.wakeups
    && (if s.sessions == 0 then s.firsts == 0 && s.posted == 0 && !s.reading
        else s.firsts + One(s.firstRead) <= s.sessions)
    && (s.onData ==> s.posted > 0)
  }

  /** Frames taken so far, all before the frame `next`. */
  predicate TakenBefore(taken: seq<nat>, next: int) {
    Increasing(taken) && forall i :: 0 <= i < |taken| ==> taken[i] < next
  }

  predicate FreedAmong(freed: set<nat>, taken: seq<nat>) {
    forall k :: k in freed ==> k in taken
  }

  predicate FrameInv(s: State) {
    && TakenBefore(s.taken, s.posted - One(s.onData))
    && FreedAmong(s.freed, s.taken)
    && (s.create.Wrapped? ==> s.posted > 0)
  }

  predicate Inv(s: State) {
    CountInv(s) && FrameInv(s)
  }

  lemma SetGrows(freed: set<nat>, k: nat)
    requires k !in freed
    ensures |freed + {k}| == |freed| + 1
  {
  }

  lemma FlagSteps(s: State, l: Label)
    requires Inv(s) && Enabled(s, l) && (l.StopWake? || l.StopEnd? || l.StopRead? || l.Unlock? || l.UnlockStop? || l.FlushDrop? || l.FlushWake?)
    ensures Inv(Apply(s, l))
  {
  }

  lemma StartOrPost(s: State, l: Label)
    requires Inv(s) && Enabled(s, l) && (l.Start? || l.Post?)
    ensures Inv(Apply(s, l))
  {
  }

  lemma FinishStep(s: State)
    requires Inv(s) && Enabled(s, Finish)
    ensures Inv(Apply(s, Finish))
  {
  }

  lemma EndCreateCounts(s: State)
    requires CountInv(s) && s.create.Wrapped? && s.posted > 0
    ensures CountInv(Apply(s, EndCreate))
  {
  }

  lemma EndCreateStep(s: State)
    requires Inv(s) && Enabled(s, EndCreate)
    ensures Inv(Apply(s, EndCreate))
  {
    EndCreateCounts(s);
  }

  lemma TakenSnoc(taken: seq<nat>, k: nat)
    requires TakenBefore(taken, k)
    ensures TakenBefore(taken + [k], k + 1) && k !in taken
  {
  }

  lemma TakeStep(s: State, copy: bool)
    requires Inv(s) && Enabled(s, TakeData(copy))
    ensures Inv(Apply(s, TakeData(copy)))
  {
    TakenSnoc(s.taken, Current(s));
    SetGrows(s.freed, Current(s));
  }

  lemma FreeStep(s: State, k: nat)
    requires Inv(s) && Enabled(s, Free(k))
    ensures Inv(Apply(s, Free(k)))
  {
    SetGrows(s.freed, k);
  }

  lemma StepInv(s: State, l: Label)
    requires Inv(s) && Enabled(s, l)
    ensures Inv(Apply(s, l))
  {
    match l
    case TakeData(copy) => TakeStep(s, copy);
    case Free(k) => FreeStep(s, k);
    case Start => StartOrPost(s, l);
    case Post => StartOrPost(s, l);
    case Finish => FinishStep(s);
    case EndCreate => EndCreateStep(s);
    case _ => FlagSteps(s, l);
  }

  lemma {:induction false} RunInv(s: State, ls: seq<Label>)
    requires Inv(s) && IsRun(s, ls)
    ensures Inv(After(s, ls))
    decreases |ls|
  {
    if ls != [] {
      StepInv(s, ls[0]);
      RunInv(Apply(s, ls[0]), ls[1..]);
    }
  }

  /** Reached from the element's initial state over some interleaving. */
  ghost predicate Reachable(s: State) {
    exists s0, ls :: Initial(s0) && IsRun(s0, ls) && After(s0, ls) == s
  }

  lemma ReachableInv(s: State)
    requires Reachable(s)
    ensures Inv(s)
  {
    var s0, ls :| Initial(s0) && IsRun(s0, ls) && After(s0, ls) == s;
    InitInv(s0);
    RunInv(s0, ls);
  }

  lemma InitInv(s: State)
    requires Initial(s)
    ensures Inv(s)
  {
  }

  /** Slack: over all interleavings the completed waits never exceed the buffers freed,
      plus one per reading session, plus the wake-ups of flushes and stops. */
  lemma WaitsAreBounded(s: State)
    requires Reachable(s)
    ensures s.givenUp <= |s.freed| + s.sessions + s.wakeups
  {
    ReachableInv(s);
  }

  /** Without a flush, in the first session. */
  predicate Plain(s: State) {
    s.wakeups == 0 && s.sessions == 1
  }

  /** Among the frames given up all but one have had their buffer freed, in whatever
      order buffers are freed. */
  lemma AllButOneFreed(s: State)
    requires Reachable(s) && Plain(s)
    ensures s.givenUp <= |s.freed| + 1 && |s.freed| <= |s.taken| <= s.posted
  {
    ReachableInv(s);
    TakenCount(s.taken, s.posted);
    FreedCount(s.freed, s.taken);
  }

  lemma {:induction false} TakenCount(taken: seq<nat>, bound: nat)
    requires Increasing(taken) && forall k :: k in taken ==> k < bound
    ensures |taken| <= bound
    ensures forall j :: 0 <= j < |taken| ==> taken[j] >= j
    decreases |taken|
  {
    if taken != [] {
      var last := taken[|taken| - 1];
      assert last in taken;
      TakenCount(taken[..|taken| - 1], last);
    }
  }

  lemma {:induction false} FreedCount(freed: set<nat>, taken: seq<nat>)
    requires forall k :: k in freed ==> k in taken
    ensures |freed| <= |taken|
    decreases |taken|
  {
    if taken == [] {
      assert freed == {};
    } else {
      var front, last := taken[..|taken| - 1], taken[|taken| - 1];
      assert taken == front + [last];
      FreedCount(freed - {last}, front);
      assert freed <= (freed - {last}) + {last};
      if last in freed {
        assert freed == (freed - {last}) + {last};
      } else {
        assert freed == freed - {last};
      }
    }
  }

  // ---------------------------------------------------------------- buffers freed in order

  /** Downstream frees buffers in the order it received them. */
  predicate InOrder(s: State, l: Label) {
    match l
    case Free(k) => |s.freed| < |s.taken| && k == s.taken[|s.freed|]
    case TakeData(copy) => copy ==> |s.freed| == |s.taken|
    case _ => true
  }

  predicate OrderInv(s: State) {
    Inv(s) && |s.freed| <= |s.taken| && s.freed == Elems(s.taken[..|s.freed|])
  }

  predicate IsOrderedRun(s: State, ls: seq<Label>)
    decreases |ls|
  {
    ls == [] || (Enabled(s, ls[0]) && InOrder(s, ls[0]) && IsOrderedRun(Apply(s, ls[0]), ls[1..]))
  }

  lemma PrefixSnoc(taken: seq<nat>, n: nat)
    requires n < |taken| && Increasing(taken)
    ensures Elems(taken[..n + 1]) == Elems(taken[..n]) + {taken[n]}
    ensures taken[n] !in taken[..n]
  {
    assert taken[..n + 1] == taken[..n] + [taken[n]];
  }

  lemma OrderFree(s: State, k: nat)
    requires OrderInv(s) && Enabled(s, Free(k)) && InOrder(s, Free(k))
    ensures OrderInv(Apply(s, Free(k)))
  {
    StepInv(s, Free(k));
    PrefixSnoc(s.taken, |s.freed|);
    SetGrows(s.freed, k);
  }

  lemma OrderTake(s: State, copy: bool)
    requires OrderInv(s) && Enabled(s, TakeData(copy)) && InOrder(s, TakeData(copy))
    ensures OrderInv(Apply(s, TakeData(copy)))
  {
    StepInv(s, TakeData(copy));
    var t := Apply(s, TakeData(copy));
    assert t.taken[..|s.freed|] == s.taken[..|s.freed|];
    if copy {
      PrefixSnoc(t.taken, |s.freed|);
      SetGrows(s.freed, Current(s));
    }
  }

  lemma OrderOther(s: State, l: Label)
    requires OrderInv(s) && Enabled(s, l) && !l.Free? && !l.TakeData?
    ensures OrderInv(Apply(s, l))
  {
    StepInv(s, l);
    assert Apply(s, l).taken == s.taken && Apply(s, l).freed == s.freed;
  }

  lemma OrderStep(s: State, l: Label)
    requires OrderInv(s) && Enabled(s, l) && InOrder(s, l)
    ensures OrderInv(Apply(s, l))
  {
    match l
    case Free(k) => OrderFree(s, k);
    case TakeData(copy) => OrderTake(s, copy);
    case _ => OrderOther(s, l);
  }

  lemma {:induction false} OrderRun(s: State, ls: seq<Label>)
    requires OrderInv(s) && IsOrderedRun(s, ls)
    ensures IsRun(s, ls) && OrderInv(After(s, ls))
    decreases |ls|
  {
    if ls != [] {
      OrderStep(s, ls[0]);
      OrderRun(Apply(s, ls[0]), ls[1..]);
    }
  }

  /** Reached while buffers are freed in order. */
  ghost predicate ReachableInOrder(s: State) {
    exists s0, ls :: Initial(s0) && IsOrderedRun(s0, ls) && IsRun(s0, ls) && After(s0, ls) == s
  }

  lemma ReachableOrderInv(s: State)
    requires ReachableInOrder(s)
    ensures OrderInv(s)
  {
    var s0, ls :| Initial(s0) && IsOrderedRun(s0, ls) && IsRun(s0, ls) && After(s0, ls) == s;
    InitOrderInv(s0);
    OrderRun(s0, ls);
  }

  lemma InitOrderInv(s: State)
    requires Initial(s)
    ensures OrderInv(s)
  {
    InitInv(s);
    assert Elems(s.taken[..0]) == {};
  }

  /** With buffers freed in order, giving up a frame means that all earlier ones are freed
      if they were wrapped, but for one per reading session and flush or stop wake-up. */
  lemma OneFrameSlack(s: State, k: nat)
    requires ReachableInOrder(s) && k in s.taken && k + s.sessions + s.wakeups < s.givenUp
    ensures k in s.freed
  {
    ReachableOrderInv(s);
    TakenCount(s.taken, s.posted);
    var j :| 0 <= j < |s.taken| && s.taken[j] == k;
    assert s.taken[..|s.freed|][j] == k;
  }

  // ---------------------------------------------------------------- the slack, exactly

  /** Of the buffers wrapped so far, only that of the last frame given up may be in use. */
  predicate Slack(s: State) {
    FreedUpTo(s.taken, s.freed, s.givenUp)
  }

  /** The frames wrapped so far, but for the last before `bound`, are freed. */
  predicate FreedUpTo(taken: seq<nat>, freed: set<nat>, bound: nat) {
    forall k :: k in taken && k + 1 < bound ==> k in freed
  }

  /** All wrapped buffers but that of the frame posted last are freed. */
  predicate Settled(s: State) {
    FreedUpTo(s.taken, s.freed, s.posted)
  }

  /** A step keeps the slack if and only if it is not a wait ending while the buffer of an
      earlier frame is in use. */
  lemma SlackExact(s: State, l: Label)
    requires Inv(s) && Enabled(s, l) && Slack(s)
    ensures Slack(Apply(s, l)) <==> (l.Finish? ==> Settled(s))
  {
    match l
    case Finish => FinishSettles(s);
    case TakeData(copy) => SlackTake(s, copy);
    case Free(k) => SlackFree(s, k);
    case _ => SlackOther(s, l);
  }

  lemma FreedUpToKept(taken: seq<nat>, freed: set<nat>, bound: nat, k: nat)
    requires FreedUpTo(taken, freed, bound) && bound <= k + 1
    ensures FreedUpTo(taken + [k], freed, bound)
    ensures forall j :: FreedUpTo(taken, freed + {j}, bound)
    ensures FreedUpTo(taken + [k], freed + {k}, bound)
  {
  }

  lemma SlackTake(s: State, copy: bool)
    requires CountInv(s) && Enabled(s, TakeData(copy)) && Slack(s)
    ensures Slack(Apply(s, TakeData(copy)))
  {
    FreedUpToKept(s.taken, s.freed, s.givenUp, Current(s));
  }

  lemma SlackFree(s: State, k: nat)
    requires Enabled(s, Free(k)) && Slack(s)
    ensures Slack(Apply(s, Free(k)))
  {
  }

  lemma SlackOther(s: State, l: Label)
    requires Enabled(s, l) && Slack(s) && !l.Finish? && !l.TakeData? && !l.Free?
    ensures Slack(Apply(s, l))
  {
    var t := Apply(s, l);
    assert t.taken == s.taken && t.freed == s.freed && t.givenUp == s.givenUp;
  }

  lemma FinishSettles(s: State)
    requires CountInv(s) && Enabled(s, Finish)
    ensures Slack(Apply(s, Finish)) <==> Settled(s)
  {
    assert Apply(s, Finish).givenUp == s.posted;
  }

  predicate SlackAlong(s: State, ls: seq<Label>)
    requires IsRun(s, ls)
    decreases |ls|
  {
    Slack(s) && (ls == [] || SlackAlong(Apply(s, ls[0]), ls[1..]))
  }

  predicate FinishesSettled(s: State, ls: seq<Label>)
    requires IsRun(s, ls)
    decreases |ls|
  {
    ls == [] || ((ls[0].Finish? ==> Settled(s)) && FinishesSettled(Apply(s, ls[0]), ls[1..]))
  }

  /** Over any run: the slack holds throughout if and only if no wait ends while the buffer
      of an earlier frame is in use. */
  lemma {:induction false} SlackAlongExact(s: State, ls: seq<Label>)
    requires Inv(s) && Slack(s) && IsRun(s, ls)
    ensures SlackAlong(s, ls) <==> FinishesSettled(s, ls)
    decreases |ls|
  {
    if ls != [] {
      SlackExact(s, ls[0]);
      StepInv(s, ls[0]);
      if Slack(Apply(s, ls[0])) {
        SlackAlongExact(Apply(s, ls[0]), ls[1..]);
      }
    }
  }

  /** Freeing buffer k ends the current wait; the slack survives it if and only if all other
      earlier buffers are freed already, in whatever order that was. */
  lemma FreeThenFinishExact(s: State, k: nat)
    requires Inv(s) && Slack(s) && s.waiting && Enabled(s, Free(k))
    ensures Enabled(Apply(s, Free(k)), Finish)
    ensures Slack(Apply(Apply(s, Free(k)), Finish))
       <==> forall j :: j in s.taken && j != k && j + 1 < s.posted ==> j in s.freed
  {
    var t := Apply(s, Free(k));
    StepInv(s, Free(k));
    SlackExact(s, Free(k));
    SlackExact(t, Finish);
    assert t.taken == s.taken && t.posted == s.posted && t.freed == s.freed + {k};
  }

  // ---------------------------------------------------------------- wrapped too late, exactly

  /** The frame in `current_data` has been given up. */
  predicate Stale(s: State) {
    Current(s) < s.givenUp
  }

  /** Steps between posting a frame and taking it; `stops` allows the wake-up of a stop. */
  predicate Between(l: Label, stops: bool) {
    !l.Post? && !l.TakeData? && (stops || !l.StopWake?)
  }

  predicate AllBetween(ls: seq<Label>, stops: bool) {
    forall i :: 0 <= i < |ls| ==> Between(ls[i], stops)
  }

  /** Some such run leads to a `create` that wraps memory given up before. */
  ghost predicate TakesLate(s: State, stops: bool) {
    exists ls :: IsRun(s, ls) && AllBetween(ls, stops)
                 && Enabled(After(s, ls), TakeData(false)) && Stale(After(s, ls))
  }

  lemma LateNow(s: State, stops: bool)
    requires Enabled(s, TakeData(false)) && Stale(s)
    ensures TakesLate(s, stops)
  {
    assert IsRun(s, []) && AllBetween([], stops);
  }

  lemma LateAfter(s: State, l: Label, stops: bool)
    requires Enabled(s, l) && Between(l, stops) && TakesLate(Apply(s, l), stops)
    ensures TakesLate(s, stops)
  {
    var rest :| IsRun(Apply(s, l), rest) && AllBetween(rest, stops)
      && Enabled(After(Apply(s, l), rest), TakeData(false)) && Stale(After(Apply(s, l), rest));
    var ls := [l] + rest;
    assert ls[1..] == rest;
    assert AllBetween(ls, stops);
  }

  /** Nothing that could end the wait is under way, or the frame has been dropped. */
  predicate Safe(s: State) {
    Inv(s)
    && (s.onData ==>
          s.waiting && !s.dataRendered && s.create.Idle? && forall k :: k in s.taken ==> k in s.freed)
  }

  lemma SafeStep(s: State, l: Label)
    requires Safe(s) && Enabled(s, l) && Between(l, false)
    ensures Safe(Apply(s, l))
  {
    StepInv(s, l);
  }

  lemma {:induction false} SafeRun(s: State, ls: seq<Label>)
    requires Safe(s) && IsRun(s, ls) && AllBetween(ls, false)
    ensures Safe(After(s, ls))
    decreases |ls|
  {
    if ls != [] {
      assert Between(ls[0], false);
      SafeStep(s, ls[0]);
      SafeRun(Apply(s, ls[0]), ls[1..]);
    }
  }

  lemma SafeNeverLate(s: State)
    requires Safe(s)
    ensures !TakesLate(s, false)
  {
    forall ls | IsRun(s, ls) && AllBetween(ls, false) && Enabled(After(s, ls), TakeData(false))
      ensures !Stale(After(s, ls))
    {
      SafeRun(s, ls);
    }
  }

  /** The wait is over as soon as it is looked at; nothing stops `create` from coming last. */
  lemma LateOnceRendered(s: State, stops: bool)
    requires Inv(s) && s.onData && s.waiting && s.dataRendered && s.create.Idle?
    ensures TakesLate(s, stops)
  {
    StepInv(s, Finish);
    var t := Apply(s, Finish);
    if t.unlocked {
      LateNow(Apply(t, UnlockStop), stops);
      LateAfter(t, UnlockStop, stops);
    } else {
      LateNow(t, stops);
    }
    LateAfter(s, Finish, stops);
  }

  /** A frame just posted can be given up before `create` wraps it if and only if one of
      the wake-ups can come in between: the flag is up already, a flush is leaving `create`,
      the buffer of an earlier frame is in use and may be freed, or a stop may come. */
  lemma WrappedLateExact(s: State, stops: bool)
    requires Inv(s) && Enabled(s, Post)
    ensures TakesLate(Apply(s, Post), stops)
       <==> stops || s.dataRendered || s.create.Flushing? || exists k :: k in s.taken && k !in s.freed
  {
    StepInv(s, Post);
    var p := Apply(s, Post);
    if s.create.Flushing? {
      StepInv(p, FlushWake);
      LateOnceRendered(Apply(p, FlushWake), stops);
      LateAfter(p, FlushWake, stops);
    } else if s.dataRendered {
      LateOnceRendered(p, stops);
    } else if k :| k in s.taken && k !in s.freed {
      StepInv(p, Free(k));
      LateOnceRendered(Apply(p, Free(k)), stops);
      LateAfter(p, Free(k), stops);
    } else if stops {
      StepInv(p, StopWake);
      LateOnceRendered(Apply(p, StopWake), stops);
      LateAfter(p, StopWake, stops);
    } else {
      SafeNeverLate(p);
    }
  }

  predicate Wakes(l: Label) {
    l.Free? || l.StopWake? || l.FlushWake? || l.EndCreate?
  }

  predicate HasFinish(ls: seq<Label>) {
    exists i :: 0 <= i < |ls| && ls[i].Finish?
  }

  predicate HasWake(ls: seq<Label>) {
    exists i :: 0 <= i < |ls| && Wakes(ls[i])
  }

  lemma HasSplit(l: Label, rest: seq<Label>)
    ensures HasFinish([l] + rest) <==> l.Finish? || HasFinish(rest)
    ensures HasWake([l] + rest) <==> Wakes(l) || HasWake(rest)
  {
    var ls := [l] + rest;
    assert forall i :: 0 <= i < |rest| ==> rest[i] == ls[i + 1];
    assert forall i :: 0 < i < |ls| ==> ls[i] == rest[i - 1];
    assert ls[0] == l;
  }

  lemma WaitStep(s: State, l: Label)
    requires s.waiting && Enabled(s, l) && Between(l, true)
    ensures Apply(s, l).waiting <==> !l.Finish?
    ensures Apply(s, l).posted == s.posted && (l.Finish? ==> s.dataRendered)
  {
    match l
    case Finish =>
    case Free(k) =>
    case EndCreate =>
    case _ =>
  }

  lemma FlagNeedsWake(s: State, l: Label)
    requires Enabled(s, l) && !Wakes(l) && !l.TakeData?
    ensures Apply(s, l).dataRendered ==> s.dataRendered
  {
  }

  /** In a given run from the post to the taking, the frame taken was given up if and only
      if the wait ended in between, and that takes the flag or a wake-up. */
  lemma {:induction false} StaleNeedsWake(s: State, ls: seq<Label>)
    requires Inv(s) && s.waiting && IsRun(s, ls) && AllBetween(ls, true)
    ensures Stale(After(s, ls)) <==> HasFinish(ls)
    ensures Stale(After(s, ls)) ==> s.dataRendered || HasWake(ls)
    decreases |ls|
  {
    if ls != [] {
      var l, rest := ls[0], ls[1..];
      assert ls == [l] + rest && Between(l, true);
      HasSplit(l, rest);
      StepInv(s, l);
      WaitStep(s, l);
      if !Wakes(l) {
        FlagNeedsWake(s, l);
      }
      if l.Finish? {
        FinishedStays(Apply(s, l), rest);
      } else {
        StaleNeedsWake(Apply(s, l), rest);
      }
    }
  }

  lemma NotWaitingStep(s: State, l: Label)
    requires !s.waiting && Enabled(s, l) && Between(l, true)
    ensures !Apply(s, l).waiting && Apply(s, l).posted == s.posted
  {
    match l
    case Finish =>
    case Free(k) =>
    case EndCreate =>
    case _ =>
  }

  lemma {:induction false} FinishedStays(s: State, ls: seq<Label>)
    requires Inv(s) && !s.waiting && s.posted > 0 && IsRun(s, ls) && AllBetween(ls, true)
    ensures Stale(After(s, ls))
    decreases |ls|
  {
    if ls != [] {
      var l := ls[0];
      assert Between(l, true);
      StepInv(s, l);
      NotWaitingStep(s, l);
      FinishedStays(Apply(s, l), ls[1..]);
    }
  }

  // ---------------------------------------------------------------- stopping, exactly

  /** What still runs while the element goes to NULL: the shmdata thread, and downstream
      elements that free their buffers.  The streaming thread is gone. */
  predicate WhileStopping(l: Label) {
    l.Post? || l.Finish? || l.Free?
  }

  predicate AllStopping(ls: seq<Label>) {
    forall i :: 0 <= i < |ls| ==> WhileStopping(ls[i])
  }

  /** The join of the shmdata thread can still return. */
  ghost predicate CanStop(s: State) {
    exists ls :: IsRun(s, ls) && AllStopping(ls) && Enabled(After(s, ls), StopEnd)
  }

  /** The thread waits in `on_data`, and no buffer is left whose freeing would wake it. */
  predicate Stuck(s: State) {
    s.waiting && !s.dataRendered && forall k :: k in s.taken ==> k in s.freed
  }

  /** Some run leads there. */
  ghost predicate MayHang(s: State) {
    exists ls :: IsRun(s, ls) && AllStopping(ls) && Stuck(After(s, ls))
  }

  lemma StuckStep(s: State, l: Label)
    requires Stuck(s) && WhileStopping(l)
    ensures !Enabled(s, l)
  {
  }

  lemma StuckNeverStops(s: State)
    requires Stuck(s)
    ensures !CanStop(s)
  {
    forall ls | IsRun(s, ls) && AllStopping(ls) ensures ls == [] {
      if ls != [] {
        StuckStep(s, ls[0]);
      }
    }
  }

  lemma HangsAfter(s: State, l: Label)
    requires Enabled(s, l) && WhileStopping(l) && MayHang(Apply(s, l))
    ensures MayHang(s)
  {
    var rest :| IsRun(Apply(s, l), rest) && AllStopping(rest) && Stuck(After(Apply(s, l), rest));
    var ls := [l] + rest;
    assert ls[1..] == rest;
    assert AllStopping(ls);
  }

  function Unfreed(s: State): nat {
    |Elems(s.taken) - s.freed|
  }

  lemma FreeLowers(s: State, k: nat)
    requires k in s.taken && k !in s.freed
    ensures |Elems(s.taken) - (s.freed + {k})| < Unfreed(s)
  {
    assert Elems(s.taken) - s.freed == (Elems(s.taken) - (s.freed + {k})) + {k};
  }

  /** Steps of the shmdata thread until it waits with the flag down. */
  function UntilStuck(s: State): nat {
    if s.waiting then (if s.dataRendered then 2 else 0) else (if s.dataRendered then 3 else 1)
  }

  /** While frames are still taken in, the thread can run into a wait that nothing ends. */
  lemma {:induction false} HangsWhileReading(s: State)
    requires s.reading && !s.stopRead && s.create.Idle?
    ensures MayHang(s)
    decreases Unfreed(s), UntilStuck(s)
  {
    if k :| k in s.taken && k !in s.freed {
      FreeLowers(s, k);
      HangsWhileReading(Apply(s, Free(k)));
      HangsAfter(s, Free(k));
    } else if s.waiting && !s.dataRendered {
      assert IsRun(s, []) && AllStopping([]) && Stuck(After(s, []));
    } else if s.waiting {
      HangsWhileReading(Apply(s, Finish));
      HangsAfter(s, Finish);
    } else {
      HangsWhileReading(Apply(s, Post));
      HangsAfter(s, Post);
    }
  }

  /** No more frames are taken in, and a wait under way has been woken. */
  predicate LetGo(s: State) {
    s.reading && s.stopRead && (s.waiting ==> s.dataRendered)
  }

  lemma {:induction false} LetGoRun(s: State, ls: seq<Label>)
    requires LetGo(s) && IsRun(s, ls) && AllStopping(ls)
    ensures LetGo(After(s, ls))
    decreases |ls|
  {
    if ls != [] {
      assert WhileStopping(ls[0]);
      LetGoRun(Apply(s, ls[0]), ls[1..]);
    }
  }

  lemma LetGoStops(s: State)
    requires LetGo(s)
    ensures CanStop(s)
  {
    if s.waiting {
      assert [Finish][1..] == [];
      assert IsRun(s, [Finish]) && AllStopping([Finish]);
      assert Enabled(After(s, [Finish]), StopEnd);
    } else {
      assert IsRun(s, []) && AllStopping([]);
    }
  }

  /** After the one wake-up of the way to NULL the join can return from wherever the thread
      gets to, if and only if `stop_read` was set, which only the way from PAUSED does:
      otherwise a frame posted after the wake-up may wait for ever. */
  lemma StopExact(s: State)
    requires s.reading && s.create.Idle?
    ensures (forall ls :: IsRun(Apply(s, StopWake), ls) && AllStopping(ls) ==> CanStop(After(Apply(s, StopWake), ls)))
       <==> s.stopRead
  {
    var t := Apply(s, StopWake);
    if s.stopRead {
      forall ls | IsRun(t, ls) && AllStopping(ls) ensures CanStop(After(t, ls)) {
        LetGoRun(t, ls);
        LetGoStops(After(t, ls));
      }
    } else {
      HangsWhileReading(t);
      var ls :| IsRun(t, ls) && AllStopping(ls) && Stuck(After(t, ls));
      StuckNeverStops(After(t, ls));
    }
  }

  // ---------------------------------------------------------------- the slack is real

  /** A set of states closed under the steps. */
  ghost predicate Closed(R: State -> bool) {
    forall s, l :: R(s) && Enabled(s, l) ==> R(Apply(s, l))
  }

  lemma {:induction false} RunSnoc(s: State, ls: seq<Label>, l: Label)
    requires IsRun(s, ls) && Enabled(After(s, ls), l)
    ensures IsRun(s, ls + [l]) && After(s, ls + [l]) == Apply(After(s, ls), l)
    decreases |ls|
  {
    if ls == [] {
      assert [l][1..] == [];
    } else {
      RunSnoc(Apply(s, ls[0]), ls[1..], l);
      assert (ls + [l])[1..] == ls[1..] + [l];
    }
  }

  lemma ReachableIsClosed()
    ensures Closed((s: State) => Reachable(s))
    ensures forall s :: Initial(s) ==> Reachable(s)
  {
    forall s | Initial(s) ensures Reachable(s) {
      assert IsRun(s, []) && After(s, []) == s;
    }
    forall s, l | Reachable(s) && Enabled(s, l) ensures Reachable(Apply(s, l)) {
      var s0, ls :| Initial(s0) && IsRun(s0, ls) && After(s0, ls) == s;
      RunSnoc(s0, ls, l);
    }
  }

  lemma Then(R: State -> bool, s: State, l: Label, t: State)
    requires Closed(R) && R(s) && Enabled(s, l) && Apply(s, l) == t
    ensures R(t)
  {
  }

  /** Frame 0 was posted, wrapped and given up at once; its buffer is in use. */
  predicate AfterFirstFrame(s: State) {
    s == State(false, false, false, false, false, true, false, Idle, 1, 1, [0], {}, 1, 1, 0)
  }

  lemma FirstFrame(R: State -> bool) returns (s: State)
    requires Closed(R) && forall s0 :: Initial(s0) ==> R(s0)
    ensures R(s) && AfterFirstFrame(s)
  {
    var s0 := State(false, false, true, false, false, false, false, Idle, 0, 0, [], {}, 0, 0, 0);
    assert Initial(s0);
    var s1 := s0.(reading := true, sessions := 1);
    var s2 := s1.(onData := true, waiting := true, posted := 1);
    var s3 := s2.(onData := false, create := Wrapped, taken := [0]);
    var s4 := s3.(create := Idle, dataRendered := true, firstRead := false, firsts := 1);
    s := s4.(dataRendered := false, waiting := false, givenUp := 1);
    Then(R, s0, Start, s1);
    Then(R, s1, Post, s2);
    Then(R, s2, TakeData(false), s3);
    Then(R, s3, EndCreate, s4);
    Then(R, s4, Finish, s);
  }

  /** If buffers are freed out of order, frame 1 is given up while buffer 0 is in use. */
  lemma OutOfOrderFree()
    ensures exists s :: Reachable(s) && Plain(s) && s.givenUp == 2 && 0 in s.taken && 0 !in s.freed
  {
    ReachableIsClosed();
    var s := OutOfOrderRun((s: State) => Reachable(s));
  }

  lemma OutOfOrderRun(R: State -> bool) returns (s: State)
    requires Closed(R) && forall s0 :: Initial(s0) ==> R(s0)
    ensures R(s) && Plain(s) && s.givenUp == 2 && 0 in s.taken && 0 !in s.freed
  {
    var s5 := FirstFrame(R);
    var s6 := s5.(onData := true, waiting := true, posted := 2);
    var s7 := s6.(onData := false, create := Wrapped, taken := [0, 1]);
    var s8 := s7.(create := Idle);
    var s9 := s8.(dataRendered := true, freed := {1});
    s := s9.(dataRendered := false, waiting := false, givenUp := 2);
    Then(R, s5, Post, s6);
    Then(R, s6, TakeData(false), s7);
    Then(R, s7, EndCreate, s8);
    Then(R, s8, Free(1), s9);
    Then(R, s9, Finish, s);
  }

  /** A frame can be given up before it is wrapped: the wait for frame 1 ends when buffer 0
      is freed, and `create` then wraps memory that was given back. */
  lemma WrappedAfterGivenUp()
    ensures exists s :: Reachable(s) && Plain(s) && s.givenUp == 2 && !s.waiting
              && s.taken == [0, 1] && 1 !in s.freed
  {
    ReachableIsClosed();
    var s := WrapLateRun((s: State) => Reachable(s));
  }

  lemma WrapLateRun(R: State -> bool) returns (s: State)
    requires Closed(R) && forall s0 :: Initial(s0) ==> R(s0)
    ensures R(s) && Plain(s) && s.givenUp == 2 && !s.waiting && s.taken == [0, 1] && 1 !in s.freed
  {
    var s5 := FirstFrame(R);
    var s6 := s5.(onData := true, waiting := true, posted := 2);
    var s7 := s6.(dataRendered := true, freed := {0});
    var s8 := s7.(dataRendered := false, waiting := false, givenUp := 2);
    s := s8.(onData := false, create := Wrapped, taken := [0, 1]);
    Then(R, s5, Post, s6);
    Then(R, s6, Free(0), s7);
    Then(R, s7, Finish, s8);
    Then(R, s8, TakeData(false), s);
  }
}
