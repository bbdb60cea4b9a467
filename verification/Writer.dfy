/** The Writer and its OneWriteAccess (shmdata/writer.cpp), between obtaining the
    write lock and releasing it; a lock that would have to be waited for is reported
    as not granted.  `trace` records each action as a label of the frame protocol. */
module Writers {
  import opened SysVSem
  import opened SocketServer
  import opened UnixSocketServer
  import FP = FrameProtocol

  type Byte = FP.Byte

  function Max(a: nat, b: nat): nat {
    if a < b then b else a
  }

  /** The sends of one notification, in the order of the clients. */
  function SendLabels(w: nat, order: seq<nat>, failed: set<nat>): seq<FP.Label> {
    if order == [] then []
    else [if order[0] in failed then FP.SendFail(w, order[0]) else FP.SendOk(w, order[0])]
         + SendLabels(w, order[1..], failed)
  }

  function NotifyLabels(w: nat, size: nat, order: seq<nat>, failed: set<nat>): seq<FP.Label> {
    [FP.BeginNotify(w, size)] + SendLabels(w, order, failed) + [FP.EndNotify(w), FP.Commit(w)]
  }

  /** Everything `copy_to_shm` does: `bytes` is the whole segment after the copy. */
  function CopyLabels(w: nat, capacity: nat, size: nat, order: seq<nat>, failed: set<nat>,
                      bytes: seq<Byte>): seq<FP.Label> {
    [FP.LockWrite(w)] + (if size > capacity then [FP.Replace(w, size)] else [])
    + NotifyLabels(w, size, order, failed) + [FP.Store(w, bytes), FP.Release(w)]
  }

  class Writer {
    const id: nat
    const srv: Server
    const sem: SemaphoreSet
    var shm: array<Byte>      // memory of shm_
    var connectSize: nat      // connect_data_.shm_size_
    var allocSize: nat        // alloc_size_
    ghost var trace: seq<FP.Label>

    /** The three records of the capacity agree. */
    ghost predicate Valid()
      reads this, srv
    {
      connectSize == allocSize == shm.Length && srv.Valid()
    }

    constructor (id: nat, memsize: nat, srv: Server)
      requires srv.Valid()
      ensures Valid() && allocSize == memsize && this.srv == srv && this.id == id
      ensures fresh(shm) && fresh(sem) && sem.Value() == FRESH_SEM && trace == []
      ensures forall i :: 0 <= i < memsize ==> shm[i] == 0
    {
      this.id := id;
      this.srv := srv;
      sem := new SemaphoreSet();
      shm := new Byte[memsize](_ => 0);
      connectSize, allocSize := memsize, memsize;
      trace := [];
    }

    /** Replace the segment by a zeroed one. */
    method NewSegment(size: nat)
      modifies this`shm, this`connectSize, this`allocSize, this`trace
      ensures fresh(shm) && shm.Length == connectSize == allocSize == size
      ensures forall i :: 0 <= i < size ==> shm[i] == 0
      ensures trace == old(trace) + [FP.Replace(id, size)]
    {
      shm := new Byte[size](_ => 0);
      connectSize, allocSize := size, size;
      trace := trace + [FP.Replace(id, size)];
    }

    /** A frame that does not fit gets a segment of its size. */
    method GrowFor(size: nat)
      requires connectSize == allocSize == shm.Length
      modifies this`shm, this`connectSize, this`allocSize, this`trace
      ensures connectSize == allocSize == shm.Length == Max(old(allocSize), size)
      ensures if size > old(allocSize) then fresh(shm) else shm == old(shm)
      ensures trace == old(trace) + if size > old(allocSize) then [FP.Replace(id, size)] else []
    {
      if size > connectSize {
        NewSegment(size);
      }
    }

    /** Send the update and commit one token per client that got it. */
    method Notify(size: nat, failed: set<nat>) returns (n: int)
      requires Valid()
      modifies this`trace, sem, srv`clientsNotified, srv`sent
      ensures Valid()
      ensures srv.Value() == SocketServer.Notify(old(srv.Value()), size, failed)
      ensures n == |Elems(srv.clients) - failed|
      ensures sem.Value() == Sem(old(sem.reader) + n, old(sem.writer))
      ensures trace == old(trace) + NotifyLabels(id, size, srv.clients, failed)
    {
      n := srv.NotifyUpdate(size, failed);
      Commit(n);
      trace := trace + NotifyLabels(id, size, srv.clients, failed);
    }

    /** One token per notified client, if there is any. */
    method Commit(n: int)
      requires n >= 0
      modifies sem
      ensures sem.Value() == Sem(old(sem.reader) + n, old(sem.writer))
    {
      if 0 < n {
        var committed := sem.CommitReaders(n);
      }
    }

    /** `std::memcpy` to the start of the segment. */
    method CopyBytes(data: seq<Byte>)
      requires |data| <= shm.Length
      modifies shm, this`trace
      ensures shm[..] == data + old(shm[..])[|data|..]
      ensures trace == old(trace) + [FP.Store(id, shm[..])]
    {
      forall i | 0 <= i < |data| {
        shm[i] := data[i];
      }
      trace := trace + [FP.Store(id, shm[..])];
    }

    /** A frame is copied: the capacity becomes the larger of the old one and the frame's
        size, so the copy fits; every client whose send succeeded has a token; the lock
        is released. */
    method CopyToShm(data: seq<Byte>, failed: set<nat>) returns (granted: bool)
      requires Valid()
      modifies this, shm, sem, srv`clientsNotified, srv`sent
      ensures Valid() && granted == (old(sem.reader) == 0)
      ensures !granted ==>
                sem.Value() == old(sem.Value()) && srv.Value() == old(srv.Value())
                && shm == old(shm) && shm[..] == old(shm[..]) && trace == old(trace)
      ensures granted ==>
                && allocSize == Max(old(allocSize), |data|)
                && shm[..|data|] == data
                && (if |data| > old(allocSize) then fresh(shm)
                    else shm == old(shm) && shm[|data|..] == old(shm[|data|..]))
                && srv.Value() == SocketServer.Notify(old(srv.Value()), |data|, failed)
                && sem.Value() == Sem(|Elems(srv.clients) - failed|, old(sem.writer))
                && trace == old(trace) + CopyLabels(id, old(allocSize), |data|, srv.clients, failed, shm[..])
    {
      granted := sem.WriteLock();
      if !granted {
        return;
      }
      trace := trace + [FP.LockWrite(id)];
      GrowFor(|data|);
      var n := Notify(|data|, failed);
      CopyBytes(data);
      var released := sem.WriteUnlock();
      trace := trace + [FP.Release(id)];
      assert trace == old(trace) + CopyLabels(id, old(allocSize), |data|, srv.clients, failed, shm[..]) by {
        TraceShape(old(trace), id, old(allocSize), |data|, srv.clients, failed, shm[..]);
      }
    }

    /** `get_one_write_access`: a lock on the segment as it is. */
    method GetOneWriteAccess() returns (access: OneWriteAccess?)
      requires Valid()
      modifies sem, this`trace
      ensures Valid() && (access == null <==> old(sem.reader) > 0)
      ensures sem.Value() == if access != null then Sem(1, old(sem.writer) + 1) else old(sem.Value())
      ensures access != null ==> fresh(access) && access.writer == this && access.Valid() && !access.hasNotified
      ensures shm == old(shm) && allocSize == old(allocSize)
      ensures trace == old(trace) + if access != null then [FP.LockWrite(id)] else []
    {
      var granted := sem.WriteLock();
      if !granted {
        return null;
      }
      trace := trace + [FP.LockWrite(id)];
      access := new OneWriteAccess(this, shm);
    }

    /** `get_one_write_access_resize`: the segment is replaced when its size differs. */
    method GetOneWriteAccessResize(newSize: nat) returns (access: OneWriteAccess?)
      requires Valid()
      modifies sem, this
      ensures Valid() && (access == null <==> old(sem.reader) > 0)
      ensures sem.Value() == if access != null then Sem(1, old(sem.writer) + 1) else old(sem.Value())
      ensures access == null ==> shm == old(shm) && allocSize == old(allocSize) && trace == old(trace)
      ensures access != null ==>
                fresh(access) && access.writer == this && access.Valid() && !access.hasNotified
                && allocSize == newSize && (shm == old(shm) <==> old(allocSize) == newSize)
                && trace == old(trace) + [FP.LockWrite(id)]
                            + if old(allocSize) == newSize then [] else [FP.Replace(id, newSize)]
    {
      var granted := sem.WriteLock();
      if !granted {
        return null;
      }
      trace := trace + [FP.LockWrite(id)];
      if shm.Length != newSize {
        NewSegment(newSize);
      }
      access := new OneWriteAccess(this, shm);
      connectSize, allocSize := newSize, newSize;
    }

    /** `get_one_write_access_ptr_resize`: the segment is replaced even for the same size. */
    method GetOneWriteAccessPtrResize(newSize: nat) returns (access: OneWriteAccess?)
      requires Valid()
      modifies sem, this
      ensures Valid() && (access == null <==> old(sem.reader) > 0)
      ensures sem.Value() == if access != null then Sem(1, old(sem.writer) + 1) else old(sem.Value())
      ensures access == null ==> shm == old(shm) && allocSize == old(allocSize) && trace == old(trace)
      ensures access != null ==>
                fresh(access) && access.writer == this && access.Valid() && !access.hasNotified
                && allocSize == newSize && fresh(shm)
                && trace == old(trace) + [FP.LockWrite(id), FP.Replace(id, newSize)]
    {
      var granted := sem.WriteLock();
      if !granted {
        return null;
      }
      trace := trace + [FP.LockWrite(id)];
      NewSegment(newSize);
      access := new OneWriteAccess(this, shm);
    }
  }

  lemma TraceShape(before: seq<FP.Label>, w: nat, capacity: nat, size: nat, order: seq<nat>,
                   failed: set<nat>, bytes: seq<Byte>)
    ensures var grow := if size > capacity then [FP.Replace(w, size)] else [];
            before + [FP.LockWrite(w)] + grow + NotifyLabels(w, size, order, failed)
              + [FP.Store(w, bytes)] + [FP.Release(w)]
            == before + CopyLabels(w, capacity, size, order, failed, bytes)
    ensures before + [FP.LockWrite(w)] + [] == before + [FP.LockWrite(w)]
  {
  }

  class OneWriteAccess {
    const writer: Writer
    var mem: array<Byte>
    var hasNotified: bool

    /** The access points into the writer's segment and holds its lock. */
    ghost predicate Valid()
      reads this, writer, writer.srv, writer.sem
    {
      writer.Valid() && mem == writer.shm && writer.sem.writer > 0 && writer.sem.reader > 0
    }

    constructor (writer: Writer, mem: array<Byte>)
      ensures this.writer == writer && this.mem == mem && !hasNotified
    {
      this.writer, this.mem, hasNotified := writer, mem, false;
    }

    method ShmResize(newSize: nat) returns (size: nat)
      requires Valid()
      modifies this`mem, writer
      ensures Valid() && size == newSize == writer.allocSize && fresh(mem) && hasNotified == old(hasNotified)
      ensures writer.trace == old(writer.trace) + [FP.Replace(writer.id, newSize)]
    {
      writer.NewSegment(newSize);
      mem := writer.shm;
      size := newSize;
    }

    /** Only the first notification counts. */
    method NotifyClients(size: nat, failed: set<nat>) returns (n: int)
      requires Valid()
      modifies this`hasNotified, writer`trace, writer.sem, writer.srv`clientsNotified, writer.srv`sent
      ensures Valid() && hasNotified
      ensures old(hasNotified) ==>
                n == 0 && writer.sem.Value() == old(writer.sem.Value())
                && writer.srv.Value() == old(writer.srv.Value()) && writer.trace == old(writer.trace)
      ensures !old(hasNotified) ==>
                n == |Elems(writer.srv.clients) - failed|
                && writer.sem.Value() == Sem(old(writer.sem.reader) + n, old(writer.sem.writer))
                && writer.srv.Value() == SocketServer.Notify(old(writer.srv.Value()), size, failed)
                && writer.trace == old(writer.trace) + NotifyLabels(writer.id, size, writer.srv.clients, failed)
    {
      if hasNotified {
        return 0;
      }
      hasNotified := true;
      n := writer.Notify(size, failed);
    }

    /** The destructor releases the lock, without ever waiting. */
    method Release() returns (released: bool)
      requires Valid()
      modifies writer.sem, writer`trace
      ensures released && writer.Valid()
      ensures writer.sem.Value() == Sem(old(writer.sem.reader) - 1, old(writer.sem.writer) - 1)
      ensures writer.trace == old(writer.trace) + [FP.Release(writer.id)]
    {
      released := writer.sem.WriteUnlock();
      writer.trace := writer.trace + [FP.Release(writer.id)];
    }
  }

  // ---------------------------------------------------------------- capacity over many calls

  datatype Call =
    | Copy(size: nat)                // copy_to_shm
    | Access                         // get_one_write_access
    | AccessResize(size: nat)        // get_one_write_access_resize and its pointer version
    | ShmResizeCall(size: nat)       // OneWriteAccess::shm_resize

  /** The capacity after a call, as the contracts above give it. */
  function CapacityAfter(capacity: nat, call: Call): nat {
    match call
    case Copy(size) => Max(capacity, size)
    case Access => capacity
    case AccessResize(size) => size
    case ShmResizeCall(size) => size
  }

  function CapacityAlong(capacity: nat, calls: seq<Call>): nat
    decreases |calls|
  {
    if calls == [] then capacity else CapacityAlong(CapacityAfter(capacity, calls[0]), calls[1..])
  }

  /** Over copies alone the capacity is the running maximum of the initial size and all
      frame sizes: it covers each of them and is one of them. */
  lemma {:induction false} CopiesRunningMax(capacity: nat, calls: seq<Call>)
    requires forall c :: c in calls ==> c.Copy?
    ensures var r := CapacityAlong(capacity, calls);
            capacity <= r && (forall c :: c in calls ==> c.size <= r)
            && (r == capacity || exists c :: c in calls && c.size == r)
    decreases |calls|
  {
    if calls != [] {
      CopiesRunningMax(CapacityAfter(capacity, calls[0]), calls[1..]);
      assert calls == [calls[0]] + calls[1..];
    }
  }

  /** Every other call forgets the past: after it the capacity is the size it asked for,
      then grows with the copies that follow. */
  lemma {:induction false} ResizeRestartsMax(capacity: nat, before: seq<Call>, size: nat, after: seq<Call>)
    ensures CapacityAlong(capacity, before + [AccessResize(size)] + after) == CapacityAlong(size, after)
    ensures CapacityAlong(capacity, before + [ShmResizeCall(size)] + after) == CapacityAlong(size, after)
    decreases |before|
  {
    if before == [] {
      assert ([AccessResize(size)] + after)[1..] == after;
      assert [] + [AccessResize(size)] + after == [AccessResize(size)] + after;
      assert ([ShmResizeCall(size)] + after)[1..] == after;
      assert [] + [ShmResizeCall(size)] + after == [ShmResizeCall(size)] + after;
    } else {
      ResizeRestartsMax(CapacityAfter(capacity, before[0]), before[1..], size, after);
      assert (before + [AccessResize(size)] + after)[1..] == before[1..] + [AccessResize(size)] + after;
      assert (before + [ShmResizeCall(size)] + after)[1..] == before[1..] + [ShmResizeCall(size)] + after;
    }
  }
}
