/** The Reader on its client thread (shmdata/reader.cpp): the update lambda and `on_buffer`,
    over the segments of SharedSegment and the semaphores of SysVSem. */
module ReaderThread {
  import opened Wrappers
  import opened SysVSem
  import opened FrameProtocol
  import opened SharedSegment

  class ReaderObject {
    const kernel: Kernel
    const key: Key
    const sem: SemaphoreSet
    var shm: SysVShm
    var curSize: nat                      // cur_size_
    var calls: seq<Option<seq<Byte>>>     // bytes of each data callback; None for a segment that failed

    ghost predicate Valid()
      reads this, shm, kernel
    {
      shm.kernel == kernel && shm.key == key && !shm.owner && shm.Holds()
    }

    /** Attached to the segment the key names now. */
    predicate Current()
      reads this, shm, kernel
    {
      shm.IsValid() && key in kernel.ipc.names && shm.shmid.value == kernel.ipc.names[key]
    }

    constructor (kernel: Kernel, key: Key, sem: SemaphoreSet)
      requires IpcInv(kernel.ipc)
      modifies kernel
      ensures Valid() && fresh(shm) && curSize == 0 && calls == []
      ensures this.kernel == kernel && this.key == key && this.sem == sem
      ensures Current() <==> key != -1 && key in old(kernel.ipc.names)
      ensures kernel.ipc.names == old(kernel.ipc.names) && kernel.ipc.mem == old(kernel.ipc.mem)
    {
      this.kernel, this.key, this.sem := kernel, key, sem;
      curSize, calls := 0, [];
      shm := new SysVShm(kernel, key, 0, false);
    }

    /** The test of the lambda: only a size that changed makes it look at the key again. */
    method SizeReceived(size: nat)
      requires Valid()
      modifies this`shm, this`curSize, shm, kernel
      ensures Valid() && curSize == size
      ensures kernel.ipc.names == old(kernel.ipc.names)
      ensures size == old(curSize) ==> shm == old(shm) && Current() == old(Current()) && kernel.ipc == old(kernel.ipc)
      ensures size != old(curSize) ==> fresh(shm) && (Current() <==> key != -1 && key in kernel.ipc.names)
      ensures key in kernel.ipc.names ==>
                kernel.ipc.names[key] in kernel.ipc.mem && kernel.ipc.names[key] in old(kernel.ipc.mem)
                && kernel.ipc.mem[kernel.ipc.names[key]] == old(kernel.ipc.mem[kernel.ipc.names[key]])
    {
      if size != curSize {
        var next := new SysVShm(kernel, key, 0, false);
        ghost var named := kernel.ipc.names;
        shm.Destroy();
        assert key in named ==> Named(kernel.ipc, named[key]);
        shm := next;
      }
      curSize := size;
    }

    /** `on_buffer`; `granted` is false when the read lock has to wait, or was refused. */
    method OnBuffer(size: nat) returns (granted: bool)
      requires Valid()
      modifies this`calls, sem
      ensures Valid()
      ensures granted <==> old(sem.writer) == 0
      ensures calls == old(calls) + if granted then [Seen(size)] else []
      ensures sem.writer == old(sem.writer)
      ensures sem.reader == old(sem.reader) - if granted && old(sem.reader) > 0 then 1 else 0
    {
      granted := sem.ReadLock();
      if granted {
        calls := calls + [Seen(size)];
        var unlocked := sem.ReadUnlock();
      }
    }

    function Seen(size: nat): Option<seq<Byte>>
      requires Valid()
      reads this, shm, kernel
    {
      if shm.IsValid() then Some(Take(kernel.ipc.mem[shm.shmid.value], size)) else None
    }

    /** An update taken from the socket while no write lock is held: the callback runs on the
        segment the key names whenever the reader was attached to it before or the size
        differs from the last one; one token is given back. */
    method OnUpdate(size: nat) returns (granted: bool)
      requires Valid()
      modifies this`shm, this`curSize, this`calls, shm, kernel, sem
      ensures Valid() && curSize == size && (granted <==> old(sem.writer) == 0)
      ensures granted && (old(Current()) || (size != old(curSize) && key != -1 && key in old(kernel.ipc.names)))
          ==> Current()
              && calls == old(calls) + [Some(Take(old(kernel.ipc.mem[kernel.ipc.names[key]]), size))]
      ensures granted && !old(Current()) && size == old(curSize) ==> !Current()
      ensures granted && old(sem.reader) > 0 ==> sem.reader == old(sem.reader) - 1
    {
      SizeReceived(size);
      granted := OnBuffer(size);
    }
  }

  lemma RunOne(s: State, l: Label, rest: seq<Label>)
    requires Enabled(s, l) && IsRun(Apply(s, l), rest)
    ensures IsRun(s, [l] + rest) && After(s, [l] + rest) == After(Apply(s, l), rest)
  {
    assert ([l] + rest)[1..] == rest;
  }

  lemma RunThree(s: State, l1: Label, l2: Label, l3: Label)
    requires Enabled(s, l1) && Enabled(Apply(s, l1), l2) && Enabled(Apply(Apply(s, l1), l2), l3)
    ensures IsRun(s, [l1, l2, l3]) && After(s, [l1, l2, l3]) == Apply(Apply(Apply(s, l1), l2), l3)
  {
    var s1 := Apply(s, l1);
    var s2 := Apply(s1, l2);
    RunOne(s2, l3, []);
    RunOne(s1, l2, [l3]);
    RunOne(s, l1, [l2, l3]);
    assert [l3] + [] == [l3] && [l2] + [l3] == [l2, l3] && [l1] + [l2, l3] == [l1, l2, l3];
  }

  /** The same update in the frame protocol, by generations: the three steps of the reader
      can be taken one after the other, make the same choice of segment, show the callback
      the same bytes and give back one token. */
  lemma UpdateAsRun(s: State, r: Id)
    requires WellFormed(s) && IsAlive(s, r) && s.readers[r].phase.Got? && s.sem.writer == 0 && s.sem.reader > 0
    ensures var ls := [Attach(r), BeginRead(r), EndRead(r)];
            var rd := s.readers[r];
            var size := rd.phase.msg.size;
            && IsRun(s, ls) && r in After(s, ls).readers
            && var next := After(s, ls).readers[r];
               && next.curSize == size && next.phase.Idle?
               && (next.seg == Generation(s)
                   <==> rd.seg == Generation(s) || size != rd.curSize)
               && next.observed == rd.observed + [View(s.mem, next.seg, size)]
               && (WillSeeCurrent(s, rd, size) ==> next.observed == rd.observed + [Take(s.mem[Generation(s)], size)])
               && After(s, ls).sem == Sem(s.sem.reader - 1, 0) && After(s, ls).owing == s.owing - {r}
  {
    OpsMeaning(s.sem);
    RunThree(s, Attach(r), BeginRead(r), EndRead(r));
  }
}
