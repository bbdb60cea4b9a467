/** The two System V semaphores of a shmdata and the locks built on them
    (shmdata/sysv-sem.cpp).  `semop` follows IEEE Std 1003.1-2017: the array
    is one atomic step, and blocks, changing nothing, when an entry cannot
    proceed. */
module SysVSem {
  import opened Wrappers

  /** Semaphore 0 holds the tokens that keep the next write back, semaphore 1
      counts the held write locks. */
  datatype SemNum = READER | WRITER

  /** One `struct sembuf`. */
  datatype SemOp = SemOp(num: SemNum, delta: int)

  /** The two semaphore values. */
  datatype Sem = Sem(reader: nat, writer: nat)

  const FRESH_SEM := Sem(0, 0)
  const READ_START := [SemOp(WRITER, 0)]
  const READ_END := [SemOp(READER, -1)]
  const WRITE_START := [SemOp(READER, 0), SemOp(WRITER, 1), SemOp(READER, 1)]
  const WRITE_END := [SemOp(READER, -1), SemOp(WRITER, -1)]

  function CommitOps(n: int): seq<SemOp> {
    [SemOp(READER, n)]
  }

  function ValueOf(sem: Sem, num: SemNum): nat {
    if num == READER then sem.reader else sem.writer
  }

  function SetValue(sem: Sem, num: SemNum, val: nat): Sem {
    if num == READER then sem.(reader := val) else sem.(writer := val)
  }

  /** One entry: None when the caller has to wait. */
  function One(sem: Sem, op: SemOp): Option<Sem> {
    var val := ValueOf(sem, op.num);
    if op.delta == 0 then (if val == 0 then Some(sem) else None)
    else if val + op.delta >= 0 then Some(SetValue(sem, op.num, val + op.delta))
    else None
  }

  /** A whole array, entry after entry. */
  function Semop(sem: Sem, ops: seq<SemOp>): Option<Sem>
    decreases |ops|
  {
    if ops == [] then Some(sem)
    else match One(sem, ops[0])
      case None => None
      case Some(next) => Semop(next, ops[1..])
  }

  /** What each array used by the library amounts to: when it is granted, and the
      values it leaves. */
  lemma OpsMeaning(sem: Sem)
    ensures Semop(sem, READ_START) == if sem.writer == 0 then Some(sem) else None
    ensures Semop(sem, READ_END)
         == if sem.reader > 0 then Some(Sem(sem.reader - 1, sem.writer)) else None
    ensures Semop(sem, WRITE_START)
         == if sem.reader == 0 then Some(Sem(1, sem.writer + 1)) else None
    ensures Semop(sem, WRITE_END)
         == if sem.reader > 0 && sem.writer > 0 then Some(Sem(sem.reader - 1, sem.writer - 1))
            else None
  {
    forall op: SemOp {
      SemopSingle(sem, op);
    }
    SemopCons(sem, WRITE_START);
    SemopCons(sem, WRITE_END);
    if sem.reader == 0 {
      SemopCons(sem, WRITE_START[1..]);
      assert WRITE_START[1..] == [SemOp(WRITER, 1), SemOp(READER, 1)];
      SemopSingle(Sem(0, sem.writer + 1), SemOp(READER, 1));
      assert WRITE_START[1..][1..] == [SemOp(READER, 1)];
    }
    if sem.reader > 0 {
      assert WRITE_END[1..] == [SemOp(WRITER, -1)];
      SemopSingle(Sem(sem.reader - 1, sem.writer), SemOp(WRITER, -1));
    }
  }

  lemma SemopSingle(sem: Sem, op: SemOp)
    ensures Semop(sem, [op]) == One(sem, op)
  {
    assert [op][1..] == [];
  }

  lemma SemopCons(sem: Sem, ops: seq<SemOp>)
    requires ops != []
    ensures Semop(sem, ops)
         == match One(sem, ops[0]) case None => None case Some(next) => Semop(next, ops[1..])
  {
  }

  /** Committing readers: a positive count is always granted at once; a zero
      count would wait for semaphore 0 to reach zero, which the lock's own token
      prevents.  Hence the `0 < num_readers` test at both call sites. */
  lemma CommitMeaning(sem: Sem, n: int)
    ensures n > 0 ==> Semop(sem, CommitOps(n)) == Some(Sem(sem.reader + n, sem.writer))
    ensures n == 0 && sem.reader > 0 ==> Semop(sem, CommitOps(n)) == None
  {
    SemopSingle(sem, SemOp(READER, n));
  }

  /** Without the reader increment of `write_start`, a lock that was just granted
      would not keep a second one out; with it, it does. */
  lemma WriterExclusionNeedsReaderIncrement(sem: Sem)
    requires sem.reader == 0
    ensures var bare := [SemOp(READER, 0), SemOp(WRITER, 1)];
            Semop(sem, bare) == Some(Sem(0, sem.writer + 1))
            && Semop(Sem(0, sem.writer + 1), bare) == Some(Sem(0, sem.writer + 2))
    ensures Semop(sem, WRITE_START).Some?
         && Semop(Semop(sem, WRITE_START).value, WRITE_START) == None
  {
    var bare := [SemOp(READER, 0), SemOp(WRITER, 1)];
    assert bare[1..] == [SemOp(WRITER, 1)];
    forall s: Sem | s.reader == 0
      ensures Semop(s, bare) == Some(Sem(0, s.writer + 1))
    {
      SemopCons(s, bare);
      SemopSingle(s, SemOp(WRITER, 1));
    }
    OpsMeaning(sem);
    OpsMeaning(Sem(1, sem.writer + 1));
  }

  /** The semaphore set as the library's objects drive it.  A blocking call is
      one attempt: `granted` is false when the caller would have to wait. */
  class SemaphoreSet {
    var reader: nat
    var writer: nat

    function Value(): Sem
      reads this
    {
      Sem(reader, writer)
    }

    constructor ()
      ensures Value() == FRESH_SEM
    {
      reader, writer := 0, 0;
    }

    /** The kernel's walk over the array, on copies until the whole of it is granted. */
    method TrySemop(ops: seq<SemOp>) returns (granted: bool)
      modifies this
      ensures granted == Semop(old(Value()), ops).Some?
      ensures Value() == if granted then Semop(old(Value()), ops).value else old(Value())
    {
      var values := Value();
      var i := 0;
      while i < |ops|
        invariant 0 <= i <= |ops|
        invariant Semop(old(Value()), ops) == Semop(values, ops[i..])
      {
        match One(values, ops[i]) {
          case None =>
            return false;
          case Some(next) =>
            assert ops[i..][1..] == ops[i + 1..];
            values := next;
        }
        i := i + 1;
      }
      reader, writer := values.reader, values.writer;
      granted := true;
    }

    method ReadLock() returns (granted: bool)
      modifies this
      ensures granted <==> old(writer) == 0
      ensures Value() == old(Value())
    {
      OpsMeaning(Value());
      granted := TrySemop(READ_START);
    }

    method ReadUnlock() returns (granted: bool)
      modifies this
      ensures granted <==> old(reader) > 0
      ensures writer == old(writer) && reader == old(reader) - (if granted then 1 else 0)
    {
      OpsMeaning(Value());
      granted := TrySemop(READ_END);
    }

    method WriteLock() returns (granted: bool)
      modifies this
      ensures granted <==> old(reader) == 0
      ensures Value() == if granted then Sem(1, old(writer) + 1) else old(Value())
    {
      OpsMeaning(Value());
      granted := TrySemop(WRITE_START);
    }

    method CommitReaders(numReader: int) returns (granted: bool)
      requires numReader > 0
      modifies this
      ensures granted && Value() == Sem(old(reader) + numReader, old(writer))
    {
      CommitMeaning(Value(), numReader);
      granted := TrySemop(CommitOps(numReader));
    }

    method WriteUnlock() returns (granted: bool)
      modifies this
      ensures granted <==> old(reader) > 0 && old(writer) > 0
      ensures Value() == if granted then Sem(old(reader) - 1, old(writer) - 1) else old(Value())
    {
      OpsMeaning(Value());
      granted := TrySemop(WRITE_END);
    }

    method CancelCommitedReader() returns (granted: bool)
      modifies this
      ensures granted <==> old(reader) > 0
      ensures writer == old(writer) && reader == old(reader) - (if granted then 1 else 0)
    {
      granted := ReadUnlock();
    }

    /** The `SETVAL 0` of the thread that guards a waiting write lock. */
    method ResetReaders()
      modifies this
      ensures Value() == Sem(0, old(writer))
    {
      reader := 0;
    }
  }
}
