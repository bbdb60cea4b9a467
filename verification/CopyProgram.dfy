/** The trace that `Writer.CopyToShm` records is a run of the frame protocol, and it
    publishes the frame that was copied. */
module CopyProgram {
  import opened SysVSem
  import opened FrameProtocol
  import opened FrameInvariant
  import opened FrameCopies
  import SS = SocketServer
  import W = Writers

  /** `ls` is a run of copies from s to t. */
  predicate Leads(s: State, ls: seq<Label>, t: State) {
    IsCopyRun(s, ls) && IsRun(s, ls) && After(s, ls) == t
  }

  lemma LeadsStep(s: State, l: Label)
    requires Enabled(s, l) && CopyLabel(s, l)
    ensures Leads(s, [l], Apply(s, l))
  {
    assert [l][1..] == [];
  }

  lemma {:induction false} LeadsConcat(s: State, ls: seq<Label>, t: State, ks: seq<Label>, u: State)
    requires Leads(s, ls, t) && Leads(t, ks, u)
    ensures Leads(s, ls + ks, u)
    decreases |ls|
  {
    if ls == [] {
      assert ls + ks == ks;
    } else {
      LeadsConcat(Apply(s, ls[0]), ls[1..], t, ks, u);
      assert (ls + ks)[1..] == ls[1..] + ks;
    }
  }

  // ---------------------------------------------------------------- the parts of a copy

  function Grow(w: Id, capacity: nat, size: nat): seq<Label> {
    [LockWrite(w)] + if size > capacity then [Replace(w, size)] else []
  }

  function Tell(w: Id, size: nat, order: seq<Id>, failed: set<Id>): seq<Label> {
    ([BeginNotify(w, size)] + W.SendLabels(w, order, failed)) + [EndNotify(w), Commit(w)]
  }

  /** Same state but for the readers and the phase of w. */
  predicate SameBut(s: State, t: State, w: Id, phase: WriterPhase) {
    w in s.writers && t.writers == s.writers[w := phase] && t.sem == s.sem && t.mem == s.mem
    && t.clients == s.clients && t.owing == s.owing && t.early == s.early && t.published == s.published
  }

  /** The sends of one notification reach exactly the clients that did not fail. */
  lemma {:induction false} SendsRun(s: State, w: Id, size: nat, order: seq<Id>, done: set<Id>, failed: set<Id>)
    returns (t: State)
    requires WellFormed(s) && w in s.writers && s.writers[w] == Sending(size, SS.Elems(order), done)
    requires SS.NoDup(order) && SS.Elems(order) <= s.readers.Keys
    ensures Leads(s, W.SendLabels(w, order, failed), t)
    ensures SameBut(s, t, w, Sending(size, {}, done + (SS.Elems(order) - failed)))
    decreases |order|
  {
    if order == [] {
      t := s;
      assert SS.Elems(order) == {};
      assert done + (SS.Elems(order) - failed) == done;
      assert s.writers[w := s.writers[w]] == s.writers;
    } else {
      var r, rest := order[0], order[1..];
      assert order == [r] + rest && r !in rest;
      assert SS.Elems(order) - {r} == SS.Elems(rest);
      var l := if r in failed then SendFail(w, r) else SendOk(w, r);
      LeadsStep(s, l);
      var next := Apply(s, l);
      var done' := if r in failed then done else done + {r};
      t := SendsRun(next, w, size, rest, done', failed);
      LeadsConcat(s, [l], next, W.SendLabels(w, rest, failed), t);
      assert done' + (SS.Elems(rest) - failed) == done + (SS.Elems(order) - failed);
    }
  }

  /** Lock, and replace the segment if the frame does not fit. */
  lemma LockAndGrow(s: State, w: Id, size: nat) returns (t: State)
    requires Inv(s) && w in s.writers && s.writers[w].Outside? && s.sem.reader == 0
    ensures Leads(s, Grow(w, Capacity(s), size), t)
    ensures Inv(t) && t.sem == Sem(1, 1) && t.writers == s.writers[w := Locked(size > Capacity(s))]
    ensures t.readers == s.readers && t.clients == s.clients && t.published == s.published
    ensures t.owing == {} && t.early == {} && Capacity(t) == W.Max(Capacity(s), size)
  {
    OpsMeaning(s.sem);
    LeadsStep(s, LockWrite(w));
    LockWriteInv(s, w);
    t := Apply(s, LockWrite(w));
    if size > Capacity(s) {
      LeadsStep(t, Replace(w, size));
      ReplaceInv(t, w, size);
      LeadsConcat(s, [LockWrite(w)], t, [Replace(w, size)], Apply(t, Replace(w, size)));
      t := Apply(t, Replace(w, size));
      assert s.writers[w := Locked(false)][w := Locked(true)] == s.writers[w := Locked(true)];
    } else {
      assert [LockWrite(w)] + [] == [LockWrite(w)];
    }
  }

  lemma BeginAndSend(s: State, w: Id, size: nat, order: seq<Id>, failed: set<Id>) returns (t: State)
    requires WellFormed(s) && w in s.writers && s.writers[w].Locked? && s.clients <= s.readers.Keys
    requires size <= Capacity(s) && (s.writers[w].replaced ==> size == Capacity(s))
    requires SS.NoDup(order) && SS.Elems(order) == s.clients
    ensures Leads(s, [BeginNotify(w, size)] + W.SendLabels(w, order, failed), t)
    ensures SameBut(s, t, w, Sending(size, {}, s.clients - failed))
  {
    var s1 := Apply(s, BeginNotify(w, size));
    LeadsStep(s, BeginNotify(w, size));
    t := SendsRun(s1, w, size, order, {}, failed);
    LeadsConcat(s, [BeginNotify(w, size)], s1, W.SendLabels(w, order, failed), t);
    assert {} + (SS.Elems(order) - failed) == s.clients - failed;
    assert s.writers[w := s1.writers[w]][w := t.writers[w]] == s.writers[w := t.writers[w]];
  }

  lemma EndAndCommit(s: State, w: Id, size: nat, done: set<Id>) returns (t: State)
    requires WellFormed(s) && w in s.writers && s.writers[w] == Sending(size, {}, done)
    requires s.sem == Sem(1, 1) && s.owing == {} && s.early == {}
    ensures Leads(s, [EndNotify(w), Commit(w)], t)
    ensures t == SetWriter(s, w, Committed(size, done)).(sem := Sem(1 + |done|, 1), owing := done)
  {
    CommitMeaning(s.sem, |done|);
    LeadsStep(s, EndNotify(w));
    var next := Apply(s, EndNotify(w));
    LeadsStep(next, Commit(w));
    t := Apply(next, Commit(w));
    LeadsConcat(s, [EndNotify(w)], next, [Commit(w)], t);
    assert [EndNotify(w)] + [Commit(w)] == [EndNotify(w), Commit(w)];
    assert {} + (done - {}) == done;
    assert s.writers[w := Sent(size, done)][w := Committed(size, done)] == s.writers[w := Committed(size, done)];
  }

  lemma StoreAndRelease(s: State, w: Id, size: nat, done: set<Id>, bytes: seq<Byte>) returns (t: State)
    requires WellFormed(s) && w in s.writers && s.writers[w] == Committed(size, done)
    requires s.sem == Sem(1 + |done|, 1) && |bytes| == Capacity(s) && size <= |bytes|
    ensures Leads(s, [Store(w, bytes), Release(w)], t)
    ensures t == SetWriter(s, w, Outside).(sem := Sem(|done|, 0), mem := s.mem[|s.mem| - 1 := bytes],
                                           published := s.published + [Frame(bytes[..size], done)])
  {
    LeadsStep(s, Store(w, bytes));
    var next := Apply(s, Store(w, bytes));
    OpsMeaning(next.sem);
    LeadsStep(next, Release(w));
    t := Apply(next, Release(w));
    LeadsConcat(s, [Store(w, bytes)], next, [Release(w)], t);
    assert [Store(w, bytes)] + [Release(w)] == [Store(w, bytes), Release(w)];
  }

  /** Everything up to the commit. */
  lemma UpToCommit(s: State, w: Id, size: nat, order: seq<Id>, failed: set<Id>) returns (t: State)
    requires Inv(s) && w in s.writers && s.writers[w].Outside? && s.sem.reader == 0
    requires SS.NoDup(order) && SS.Elems(order) == s.clients
    ensures Leads(s, Grow(w, Capacity(s), size) + Tell(w, size, order, failed), t)
    ensures var done := s.clients - failed;
            t.writers == s.writers[w := Committed(size, done)] && t.sem == Sem(1 + |done|, 1)
            && t.owing == done && t.published == s.published
    ensures WellFormed(t) && Capacity(t) == W.Max(Capacity(s), size)
  {
    var done := s.clients - failed;
    var s1 := LockAndGrow(s, w, size);
    SessionIs(s1.writers, w);
    var s2 := BeginAndSend(s1, w, size, order, failed);
    t := EndAndCommit(s2, w, size, done);
    var send := [BeginNotify(w, size)] + W.SendLabels(w, order, failed);
    LeadsConcat(s1, send, s2, [EndNotify(w), Commit(w)], t);
    LeadsConcat(s, Grow(w, Capacity(s), size), s1, Tell(w, size, order, failed), t);
    assert t.writers == s.writers[w := Committed(size, done)];
  }

  lemma CopyShape(w: Id, capacity: nat, size: nat, order: seq<Id>, failed: set<Id>, bytes: seq<Byte>)
    ensures (Grow(w, capacity, size) + Tell(w, size, order, failed)) + [Store(w, bytes), Release(w)]
         == W.CopyLabels(w, capacity, size, order, failed, bytes)
  {
  }

  /** From any reachable state in which the lock is granted, the recorded trace of
      `copy_to_shm` is a run of copies; it publishes exactly the frame's bytes, to the
      clients whose send succeeded, and leaves one token for each of them. */
  lemma CopyPublishes(s: State, w: Id, data: seq<Byte>, order: seq<Id>, failed: set<Id>, bytes: seq<Byte>)
    returns (t: State)
    requires Inv(s) && w in s.writers && s.writers[w].Outside? && s.sem.reader == 0
    requires SS.NoDup(order) && SS.Elems(order) == s.clients
    requires |bytes| == W.Max(Capacity(s), |data|) && bytes[..|data|] == data
    ensures Leads(s, W.CopyLabels(w, Capacity(s), |data|, order, failed, bytes), t)
    ensures t.published == s.published + [Frame(data, s.clients - failed)]
    ensures t.sem == Sem(|s.clients - failed|, 0) && t.owing == s.clients - failed
    ensures t.writers == s.writers && WellFormed(t) && Capacity(t) == |bytes|
  {
    var size := |data|;
    var done := s.clients - failed;
    var s3 := UpToCommit(s, w, size, order, failed);
    t := StoreAndRelease(s3, w, size, done, bytes);
    CopyShape(w, Capacity(s), size, order, failed, bytes);
    LeadsConcat(s, Grow(w, Capacity(s), size) + Tell(w, size, order, failed), s3, [Store(w, bytes), Release(w)], t);
    assert s.writers[w := Committed(size, done)][w := Outside] == s.writers;
  }
}
