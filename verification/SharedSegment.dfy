/** Shared segments by key and the object that attaches them (shmdata/sysv-shm.cpp).  The
    kernel side follows IEEE Std 1003.1-2017 (`shmget`, `shmat`, `shmdt`, `shmctl`): removing
    a segment frees its key at once, its bytes when the last process detaches. */
module SharedSegment {
  import opened Wrappers
  import opened FrameProtocol

  type Key = int

  datatype Ipc = Ipc(names: map<Key, Id>, mem: map<Id, seq<Byte>>, count: map<Id, nat>, next: Id)

  predicate Named(k: Ipc, id: Id) {
    exists key :: key in k.names && k.names[key] == id
  }

  /** A segment lives while a key names it or somebody is attached to it. */
  ghost predicate IpcInv(k: Ipc) {
    k.count.Keys == k.mem.Keys
    && (forall key <- k.names :: k.names[key] in k.mem)
    && (forall a, b :: a in k.names && b in k.names && k.names[a] == k.names[b] ==> a == b)
    && (forall id <- k.mem :: id < k.next && (Named(k, id) || k.count[id] > 0))
  }

  function Zeros(n: nat): seq<Byte> {
    seq(n, _ => 0)
  }

  /** `memset(p, 0, n)`. */
  function Cleared(bytes: seq<Byte>, n: nat): seq<Byte>
    requires n <= |bytes|
  {
    Zeros(n) + bytes[n..]
  }

  lemma ClearedIs(bytes: seq<Byte>, n: nat)
    requires n <= |bytes|
    ensures n == 0 ==> Cleared(bytes, n) == bytes
    ensures n == |bytes| ==> Cleared(bytes, n) == Zeros(n)
  {
  }

  function Create(k: Ipc, key: Key, size: nat): Ipc {
    Ipc(k.names[key := k.next], k.mem[k.next := Zeros(size)], k.count[k.next := 0], k.next + 1)
  }

  function AttachTo(k: Ipc, id: Id): Ipc
    requires id in k.count
  {
    k.(count := k.count[id := k.count[id] + 1])
  }

  function Freed(k: Ipc, id: Id): Ipc {
    k.(mem := k.mem - {id}, count := k.count - {id})
  }

  function Detach(k: Ipc, id: Id): Ipc
    requires id in k.count && k.count[id] > 0
  {
    if k.count[id] == 1 && !Named(k, id) then Freed(k, id)
    else k.(count := k.count[id := k.count[id] - 1])
  }

  /** `IPC_RMID`. */
  function Remove(k: Ipc, id: Id): Ipc
    requires id in k.count
  {
    var unnamed := k.(names := map key | key in k.names && k.names[key] != id :: k.names[key]);
    if k.count[id] == 0 then Freed(unnamed, id) else unnamed
  }

  lemma CreateKeeps(k: Ipc, key: Key, size: nat)
    requires IpcInv(k) && key !in k.names
    ensures IpcInv(Create(k, key, size))
  {
    var k' := Create(k, key, size);
    forall id <- k'.mem ensures id < k'.next && (Named(k', id) || k'.count[id] > 0) {
      if id == k.next {
        assert k'.names[key] == id;
      } else if Named(k, id) {
        var other :| other in k.names && k.names[other] == id;
        assert k'.names[other] == id;
      }
    }
  }

  lemma AttachKeeps(k: Ipc, id: Id)
    requires IpcInv(k) && id in k.mem
    ensures IpcInv(AttachTo(k, id))
  {
    var k' := AttachTo(k, id);
    forall i <- k'.mem ensures Named(k', i) || k'.count[i] > 0 {
      if Named(k, i) {
        var key :| key in k.names && k.names[key] == i;
        assert k'.names[key] == i;
      }
    }
  }

  lemma DetachKeeps(k: Ipc, id: Id)
    requires IpcInv(k) && id in k.mem && k.count[id] > 0
    ensures IpcInv(Detach(k, id))
  {
    var k' := Detach(k, id);
    forall i <- k'.mem ensures Named(k', i) || k'.count[i] > 0 {
      if Named(k, i) {
        var key :| key in k.names && k.names[key] == i;
        assert k'.names[key] == i;
      }
    }
    forall key <- k'.names ensures k'.names[key] in k'.mem {
      assert Named(k, k.names[key]);
    }
  }

  lemma RemoveKeeps(k: Ipc, id: Id)
    requires IpcInv(k) && id in k.mem
    ensures IpcInv(Remove(k, id))
  {
    var k' := Remove(k, id);
    forall i <- k'.mem ensures Named(k', i) || k'.count[i] > 0 {
      if i != id && Named(k, i) {
        var key :| key in k.names && k.names[key] == i;
        assert k'.names[key] == i;
      }
    }
  }

  /** What the destructor leaves. */
  function Destroyed(k: Ipc, shmid: Option<Id>, valid: bool, owner: bool): Ipc
    requires valid ==> shmid.Some? && shmid.value in k.count && k.count[shmid.value] > 0
  {
    var detached := if valid then Detach(k, shmid.value) else k;
    if owner && shmid.Some? && shmid.value > 0 && shmid.value in detached.count then Remove(detached, shmid.value)
    else detached
  }

  /** Replacing a segment as the writer does, destroying its own before creating the next:
      the key is free again exactly when the identifier is not 0, and then the new segment
      is a different one, all zeros, while everybody still attached to the old one keeps
      its bytes. */
  lemma ReplaceExact(k: Ipc, key: Key, size: nat)
    requires IpcInv(k) && key in k.names && k.count[k.names[key]] > 0
    ensures var id := k.names[key];
            var gone := Destroyed(k, Some(id), true, true);
            && (key !in gone.names <==> id > 0)
            && (id > 0 ==>
                  var next := Create(gone, key, size);
                  && next.names[key] != id && next.mem[next.names[key]] == Zeros(size)
                  && (forall i <- k.mem :: i != id ==> i in next.mem && next.mem[i] == k.mem[i])
                  && (id in next.mem <==> k.count[id] > 1)
                  && (id in next.mem ==> next.mem[id] == k.mem[id]))
  {
    var id := k.names[key];
    assert Named(k, id);
    DetachKeeps(k, id);
    var detached := Detach(k, id);
    if id > 0 {
      RemoveKeeps(detached, id);
      var gone := Remove(detached, id);
      assert key !in gone.names;
      assert k.next !in k.mem;
    }
  }

  class Kernel {
    var ipc: Ipc

    constructor ()
      ensures ipc == Ipc(map[], map[], map[], 0) && IpcInv(ipc)
    {
      ipc := Ipc(map[], map[], map[], 0);
    }
  }

  class SysVShm {
    const kernel: Kernel
    const key: Key
    const size: nat
    const owner: bool
    var shmid: Option<Id>
    var attached: bool

    predicate IsValid()
      reads this
    {
      key != -1 && shmid.Some? && attached
    }

    /** What holds between the constructor and the destructor, as long as nobody else
        detaches for this object. */
    ghost predicate Holds()
      reads this, kernel
    {
      IpcInv(kernel.ipc)
      && (attached ==> shmid.Some? && shmid.value in kernel.ipc.mem && kernel.ipc.count[shmid.value] > 0)
    }

    /** An owner creates a zeroed segment, and only under a free key; anybody else attaches
        to what the key names. */
    constructor (kernel: Kernel, key: Key, size: nat, owner: bool)
      requires IpcInv(kernel.ipc)
      modifies kernel
      ensures this.kernel == kernel && this.key == key && this.size == size && this.owner == owner
      ensures Holds()
      ensures IsValid() <==> key != -1 && (if owner then key !in old(kernel.ipc.names)
                                           else key in old(kernel.ipc.names)
                                                && size <= |old(kernel.ipc.mem)[old(kernel.ipc.names)[key]]|)
      ensures IsValid() && owner ==>
                kernel.ipc == AttachTo(Create(old(kernel.ipc), key, size), old(kernel.ipc.next))
                && shmid == Some(old(kernel.ipc.next))
      ensures IsValid() && !owner ==>
                shmid == Some(old(kernel.ipc.names)[key])
                && kernel.ipc.names == old(kernel.ipc.names)
                && kernel.ipc.mem == old(kernel.ipc.mem)[shmid.value := Cleared(old(kernel.ipc.mem)[shmid.value], size)]
                && kernel.ipc.count == old(kernel.ipc.count)[shmid.value := old(kernel.ipc.count)[shmid.value] + 1]
      ensures !owner && size == 0 ==> kernel.ipc.mem == old(kernel.ipc.mem) && kernel.ipc.names == old(kernel.ipc.names)
      ensures !IsValid() && key != -1 ==> shmid.None?
      ensures !IsValid() ==>
                kernel.ipc == if key == -1 && owner && -1 !in old(kernel.ipc.names)
                              then Create(old(kernel.ipc), -1, size) else old(kernel.ipc)
    {
      this.kernel, this.key, this.size, this.owner := kernel, key, size, owner;
      shmid, attached := None, false;
      new;
      if owner {
        if key !in kernel.ipc.names {
          CreateKeeps(kernel.ipc, key, size);
          shmid := Some(kernel.ipc.next);
          kernel.ipc := Create(kernel.ipc, key, size);
        }
      } else if key in kernel.ipc.names && size <= |kernel.ipc.mem[kernel.ipc.names[key]]| {
        shmid := Some(kernel.ipc.names[key]);
      }
      if key == -1 || shmid.None? {
        return;
      }
      AttachAndClear(shmid.value);
    }

    /** `shmat`, then `memset`. */
    method AttachAndClear(id: Id)
      requires IpcInv(kernel.ipc) && shmid == Some(id) && id in kernel.ipc.mem && size <= |kernel.ipc.mem[id]|
      modifies this`attached, kernel
      ensures attached && Holds()
      ensures kernel.ipc == AttachTo(old(kernel.ipc), id).(mem := old(kernel.ipc.mem)[id := Cleared(old(kernel.ipc.mem)[id], size)])
      ensures size == 0 || old(kernel.ipc.mem)[id] == Zeros(size) ==> kernel.ipc.mem == old(kernel.ipc.mem)
    {
      AttachKeeps(kernel.ipc, id);
      kernel.ipc := AttachTo(kernel.ipc, id);
      attached := true;
      ClearKeeps(kernel.ipc, id, size);
      ClearedIs(kernel.ipc.mem[id], size);
      kernel.ipc := kernel.ipc.(mem := kernel.ipc.mem[id := Cleared(kernel.ipc.mem[id], size)]);
    }

    /** The destructor: everybody detaches, the owner removes; a segment whose identifier is
        0 passes the owner's test `0 < shmid_` by, and stays. */
    method Destroy()
      requires Holds()
      modifies this`attached, kernel
      ensures Holds() && !attached
      ensures kernel.ipc == Destroyed(old(kernel.ipc), shmid, old(IsValid()), owner)
    {
      if IsValid() {
        DetachKeeps(kernel.ipc, shmid.value);
        kernel.ipc := Detach(kernel.ipc, shmid.value);
      }
      attached := false;
      if owner && shmid.Some? && 0 < shmid.value && shmid.value in kernel.ipc.mem {
        RemoveKeeps(kernel.ipc, shmid.value);
        kernel.ipc := Remove(kernel.ipc, shmid.value);
      }
    }
  }

  lemma ClearKeeps(k: Ipc, id: Id, n: nat)
    requires IpcInv(k) && id in k.mem && n <= |k.mem[id]|
    ensures IpcInv(k.(mem := k.mem[id := Cleared(k.mem[id], n)]))
  {
    var k' := k.(mem := k.mem[id := Cleared(k.mem[id], n)]);
    forall i <- k'.mem ensures i < k'.next && (Named(k', i) || k'.count[i] > 0) {
      if Named(k, i) {
        var key :| key in k.names && k.names[key] == i;
        assert k'.names[key] == i;
      }
    }
  }
}
