/** The socket client as it runs (shmdata/unix-socket-client.cpp). */
module UnixSocketClient {
  import opened SocketServer
  import opened SocketClient

  class SocketThread {
    var quitFlag: bool      // quit_
    var connected: bool     // connected_
    var isValid: bool       // is_valid_
    var fdOpen: bool
    var quit: bool
    var quitAcked: bool
    var calls: seq<ClientCall>
    var notes: seq<Note>

    function Value(): Client
      reads this
    {
      Client(connected, isValid, fdOpen, quitFlag, quit, quitAcked, calls, notes)
    }

    constructor ()
      ensures Value() == NewClient() && ClientInv(Value())
    {
      quitFlag, connected, isValid, fdOpen := false, false, true, true;
      quit, quitAcked, calls, notes := false, false, [], [];
    }

    /** The socket failed or was closed by the server. */
    method ServerGone()
      modifies this
      ensures Value() == HangUp(old(Value()), if old(connected) then [Disconnected] else [])
    {
      if connected {
        calls := calls + [Disconnected];
      }
      fdOpen, isValid, quit, quitAcked := false, false, true, true;
    }

    method ProcessMessage(m: Msg)
      modifies this
      ensures Value() == Take(old(Value()), m)
    {
      if !connected {
        notes := notes + [AckNote];
        calls := calls + [Connected];
        connected := true;
      } else {
        match m {
          case UpdateMsg(size) =>
            calls := calls + [Updated(size)];
          case QuitMsg =>
            calls := calls + [Disconnected];
            fdOpen, isValid, quit, quitAcked := false, false, true, true;
          case ConnectMsg =>
        }
      }
    }

    /** The body of the loop. */
    method OnePass(input: Input, raised: bool)
      requires ClientInv(Value()) && Looping(Value())
      modifies this
      ensures Value() == SocketClient.Pass(Raise(old(Value()), raised), input) && ClientInv(Value())
    {
      PassKeeps(Raise(Value(), raised), input);
      if raised {
        quitFlag := true;
      }
      match input {
        case Silence =>
        case ReadFails => ServerGone();
        case ReadsEof => ServerGone();
        case Reads(m) => ProcessMessage(m);
      }
      if quitFlag {
        quit := true;
      }
    }

    /** The loop, over the passes the environment provides: it stops at the first pass
        after which both `quit` and `quit_acked` are set, and never before.  `k` passes
        were made. */
    method ServerInteraction(inputs: seq<(Input, bool)>) returns (k: nat)
      requires ClientInv(Value()) && Looping(Value())
      modifies this
      ensures k <= |inputs| && CanLoop(old(Value()), inputs[..k])
      ensures Value() == Loop(old(Value()), inputs[..k])
      ensures ClientInv(Value())
      ensures k < |inputs| ==> !Looping(Value())
    {
      k := 0;
      assert inputs[..0] == [];
      while k < |inputs| && (!quit || !quitAcked)
        invariant k <= |inputs| && CanLoop(old(Value()), inputs[..k])
        invariant Value() == Loop(old(Value()), inputs[..k]) && ClientInv(Value())
      {
        LoopSnoc(old(Value()), inputs[..k], inputs[k]);
        assert inputs[..k + 1] == inputs[..k] + [inputs[k]];
        OnePass(inputs[k].0, inputs[k].1);
        k := k + 1;
      }
    }

    /** The destructor, up to joining the thread. */
    method Destruct()
      modifies this
      ensures Value() == Destroy(old(Value()))
    {
      if isValid && fdOpen {
        notes := notes + [QuitNote];
      }
      quitFlag := true;
    }
  }
}
