/** The GStreamer source's callbacks on their flags (gst/gstshmdatasrc.c), one method
    per section between two waits or unlocks. */
module ShmdataSrc {
  import opened HandOff

  class Element {
    var onData: bool
    var dataRendered: bool
    var isFirstRead: bool
    var unlocked: bool
    var stopRead: bool
    var copyBuffers: bool
    var currentData: nat    // number of the frame in current_data
    ghost var model: State  // the hand-off as events have driven it

    /** The flags are those of the hand-off. */
    ghost predicate Valid()
      reads this
    {
      Inv(model) && currentData == Current(model)
      && onData == model.onData && dataRendered == model.dataRendered && isFirstRead == model.firstRead
      && unlocked == model.unlocked && stopRead == model.stopRead
    }

    /** `start` is an initial state of the hand-off. */
    constructor (ghost start: State)
      requires Inv(start) && start.posted == 0 && start.firstRead
      requires !start.onData && !start.dataRendered && !start.unlocked && !start.stopRead
      ensures Valid() && model == start && !copyBuffers
    {
      onData, dataRendered, isFirstRead, unlocked, stopRead, copyBuffers := false, false, true, false, false, false;
      currentData := 0;
      model := start;
    }

    ghost method Record(l: Label)
      requires Inv(model) && Enabled(model, l)
      modifies this`model
      ensures Inv(model) && model == Apply(old(model), l)
    {
      StepInv(model, l);
      model := Apply(model, l);
    }

    /** `on_data` up to its wait; nothing happens once reading was stopped. */
    method OnData(data: nat) returns (waits: bool)
      requires Valid() && model.reading && !model.waiting && !model.create.Wrapped? && data == model.posted
      modifies this
      ensures Valid() && waits == !old(stopRead)
      ensures model == if waits then Apply(old(model), Post) else old(model)
    {
      if stopRead {
        return false;
      }
      Record(Post);
      currentData := data;
      onData := true;
      waits := true;
    }

    /** The wait of `on_data`: one test of its condition, and the return when it holds. */
    method AwaitRendered() returns (returned: bool)
      requires Valid() && model.waiting
      modifies this
      ensures Valid() && returned == old(dataRendered)
      ensures model == if returned then Apply(old(model), Finish) else old(model)
    {
      if !dataRendered {
        return false;
      }
      Record(Finish);
      dataRendered := false;
      returned := true;
    }

    /** `on_data_rendered`: the buffer of frame k is freed. */
    method OnDataRendered(ghost k: nat)
      requires Valid() && Enabled(model, Free(k))
      modifies this
      ensures Valid() && model == Apply(old(model), Free(k))
    {
      Record(Free(k));
      dataRendered := true;
    }

    /** `create` once it holds the data mutex, up to waking the first read: it wraps the
        current frame, leaves for a flush, or finds nothing. */
    method CreateLocked() returns (wrapped: bool, flushing: bool, frame: nat)
      requires Valid() && model.create.Idle?
      modifies this
      ensures Valid() && flushing == old(unlocked) && wrapped == (old(onData) && !old(unlocked))
      ensures model == if flushing then Apply(old(model), FlushDrop)
                       else if wrapped then Apply(old(model), TakeData(copyBuffers))
                       else old(model)
      ensures wrapped ==> model.taken == old(model.taken) + [frame]
    {
      wrapped, flushing, frame := false, false, currentData;
      if unlocked {
        Record(FlushDrop);
        onData := false;
        flushing := true;
      } else if onData {
        Record(TakeData(copyBuffers));
        onData := false;
        if copyBuffers {
          dataRendered := true;
        }
        wrapped := true;
      }
    }

    /** The rest of `create` after wrapping: the first read of a session is let go. */
    method CreateEnd()
      requires Valid() && model.create.Wrapped?
      modifies this
      ensures Valid() && model == Apply(old(model), EndCreate)
    {
      Record(EndCreate);
      if isFirstRead {
        dataRendered := true;
        isFirstRead := false;
      }
    }

    /** `make_data_rendered` on leaving `create` for a flush. */
    method FlushRendered()
      requires Valid() && model.create.Flushing?
      modifies this
      ensures Valid() && model == Apply(old(model), FlushWake)
    {
      Record(FlushWake);
      dataRendered := true;
    }
  }
}
