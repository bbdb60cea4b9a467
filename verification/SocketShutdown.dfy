/** When a client's loop can end (shmdata/unix-socket-client.cpp, unix-socket-server.cpp):
    the destructor of the client joins the thread that runs it. */
module SocketShutdown {
  import opened SocketServer
  import opened SocketClient

  /** Steps that neither stop the server, nor end a process, nor fail a read. */
  predicate Quiet(l: ConnStep) {
    !l.ServerStops? && !l.ServerExits? && !l.ServerReadFails? && !l.ClientReadFails? && !l.ClientCrashes?
  }

  predicate AllQuiet(ls: seq<ConnStep>) {
    forall i :: 0 <= i < |ls| ==> Quiet(ls[i])
  }

  /** Some run of quiet steps ends the loop. */
  ghost predicate CanEnd(k: Conn) {
    exists ls :: IsRun(k, ls) && AllQuiet(ls) && !Looping(After(k, ls).client)
  }

  lemma EndsNow(k: Conn)
    requires !Looping(k.client)
    ensures CanEnd(k)
  {
    assert IsRun(k, []) && AllQuiet([]);
  }

  lemma EndsLater(k: Conn, l: ConnStep)
    requires Enabled(k, l) && Quiet(l) && CanEnd(Apply(k, l))
    ensures CanEnd(k)
  {
    var rest :| IsRun(Apply(k, l), rest) && AllQuiet(rest) && !Looping(After(Apply(k, l), rest).client);
    RunCons(k, l, rest);
    assert AllQuiet([l] + rest);
  }

  // ---------------------------------------------------------------- loops that end

  lemma {:induction false} ReadingIsQuiet(n: nat)
    ensures AllQuiet(Reading(n))
  {
    if n > 0 {
      ReadingIsQuiet(n - 1);
    }
  }

  lemma EndsAfterQuit(k: Conn)
    requires ConnInv(k) && !k.crashed && k.server.Quitted?
    ensures CanEnd(k)
  {
    if k.client.fdOpen {
      QuitEndsLoop(k);
      ReadingIsQuiet(|k.toClient|);
    } else {
      EndsNow(k);
    }
  }

  /** The descriptor was closed without quit: the client reads what is left, then end of
      file. */
  lemma {:induction false} EndsAfterDrop(k: Conn)
    requires ConnInv(k) && !k.crashed && k.server.Dropped?
    ensures CanEnd(k)
    decreases |k.toClient|
  {
    if !Looping(k.client) {
      EndsNow(k);
    } else if k.toClient == [] {
      EndsNow(Apply(k, ClientReadsEof));
      EndsLater(k, ClientReadsEof);
    } else {
      ConnStepKeeps(k, ClientReads(true));
      EndsAfterDrop(Apply(k, ClientReads(true)));
      EndsLater(k, ClientReads(true));
    }
  }

  /** The server reads the acknowledgement if it has not, then quit, and answers. */
  lemma {:induction false} EndsAfterNotes(k: Conn)
    requires ConnInv(k) && !k.crashed && Up(k.server) && k.told == [AckNote, QuitNote]
    ensures CanEnd(k)
    decreases k.server.Pending?
  {
    if k.server.Pending? {
      ConnStepKeeps(k, ServerReadsAck);
      EndsAfterNotes(Apply(k, ServerReadsAck));
      EndsLater(k, ServerReadsAck);
    } else {
      ConnStepKeeps(k, ServerReadsQuit(true));
      EndsAfterQuit(Apply(k, ServerReadsQuit(true)));
      EndsLater(k, ServerReadsQuit(true));
    }
  }

  // ---------------------------------------------------------------- loops that do not

  /** The client's socket is up, and the server has left it, or has not been sent both the
      acknowledgement and quit although the destructor has run. */
  predicate Abandoned(k: Conn) {
    ConnInv(k) && !k.crashed && k.client.fdOpen
    && (k.server.Left? || (Up(k.server) && k.client.quitFlag && |k.told| < 2))
  }

  lemma ReadsNoQuit(k: Conn, sent: bool)
    requires Abandoned(k) && Enabled(k, ClientReads(sent))
    ensures !k.toClient[0].QuitMsg?
  {
    QuitIsLast(k.said, k.heard, k.toClient);
    assert k.toClient == [QuitMsg] ==> k.said == k.heard + [QuitMsg];
  }

  lemma AbandonedReads(k: Conn, sent: bool)
    requires Abandoned(k) && Enabled(k, ClientReads(sent))
    ensures Abandoned(Apply(k, ClientReads(sent)))
  {
    ConnStepKeeps(k, ClientReads(sent));
    ReadsNoQuit(k, sent);
  }

  lemma AbandonedStep(k: Conn, l: ConnStep)
    requires Abandoned(k) && Enabled(k, l) && Quiet(l)
    ensures Abandoned(Apply(k, l))
  {
    if l.ClientReads? {
      AbandonedReads(k, l.sent);
    } else {
      ConnStepKeeps(k, l);
    }
  }

  lemma {:induction false} AbandonedRun(k: Conn, ls: seq<ConnStep>)
    requires Abandoned(k) && IsRun(k, ls) && AllQuiet(ls)
    ensures Looping(After(k, ls).client)
    decreases |ls|
  {
    if ls != [] {
      assert Quiet(ls[0]);
      AbandonedStep(k, ls[0]);
      AbandonedRun(Apply(k, ls[0]), ls[1..]);
    }
  }

  lemma NeverEnds(k: Conn)
    requires Abandoned(k)
    ensures !CanEnd(k)
  {
    forall ls | IsRun(k, ls) && AllQuiet(ls) ensures Looping(After(k, ls).client) {
      AbandonedRun(k, ls);
    }
  }

  // ---------------------------------------------------------------- the exact conditions

  lemma LoopEndsExact(k: Conn)
    requires ConnInv(k) && !k.crashed && (k.client.quitFlag || !Up(k.server))
    ensures CanEnd(k) <==> !k.client.fdOpen || ServerDone(k.server) || (Up(k.server) && k.told == [AckNote, QuitNote])
  {
    if !k.client.fdOpen {
      EndsNow(k);
    } else {
      match k.server
      case Quitted => EndsAfterQuit(k);
      case Dropped => EndsAfterDrop(k);
      case Left => NeverEnds(k);
      case _ =>
        if k.told == [AckNote, QuitNote] {
          EndsAfterNotes(k);
        } else {
          NeverEnds(k);
        }
    }
  }

  /** Once the destructor has raised its flag, the loop can end without further failures if
      and only if it has hung up, or the server has sent quit or closed the descriptor, or
      serves the connection and was sent both the acknowledgement and quit. */
  lemma ShutdownExact(ls: seq<ConnStep>)
    requires IsRun(Accepted(), ls)
    ensures var k := After(Accepted(), ls);
            !k.crashed && k.client.quitFlag ==>
              (CanEnd(k)
               <==> !k.client.fdOpen || ServerDone(k.server) || (Up(k.server) && k.told == [AckNote, QuitNote]))
  {
    ReachedInv(ls);
    var k := After(Accepted(), ls);
    if !k.crashed && k.client.quitFlag {
      LoopEndsExact(k);
    }
  }

  /** The same before the destructor runs: its join can return if and only if the client has
      hung up, or the server is done with the connection, or serves it, the acknowledgement
      reached it, `start` saw the connection, and the destructor's send succeeds. */
  lemma DestroyExact(k: Conn, sent: bool)
    requires ConnInv(k) && Enabled(k, ClientDestroyed(sent))
    ensures CanEnd(Apply(k, ClientDestroyed(sent)))
       <==> !k.client.fdOpen || ServerDone(k.server)
            || (Up(k.server) && k.told == [AckNote] && k.client.isValid && sent)
  {
    ConnStepKeeps(k, ClientDestroyed(sent));
    LoopEndsExact(Apply(k, ClientDestroyed(sent)));
    assert [AckNote] + [QuitNote] == [AckNote, QuitNote];
  }

  /** When the server stops and its process goes on, the loop of a live client can end if and
      only if it has hung up, or is established and the send of quit succeeds: a pending
      client gets neither quit nor end of file. */
  lemma ServerStopExact(k: Conn, sent: bool)
    requires ConnInv(k) && !k.crashed && Enabled(k, ServerStops(sent))
    ensures CanEnd(Apply(k, ServerStops(sent))) <==> !k.client.fdOpen || (k.server.Established? && sent)
  {
    ConnStepKeeps(k, ServerStops(sent));
    LoopEndsExact(Apply(k, ServerStops(sent)));
  }

  /** When a read of the server fails, the descriptor of an established client is closed, a
      pending one is forgotten with its descriptor open. */
  lemma ServerReadFailsExact(k: Conn)
    requires ConnInv(k) && !k.crashed && Enabled(k, ServerReadFails)
    ensures CanEnd(Apply(k, ServerReadFails)) <==> !k.client.fdOpen || k.server.Established?
  {
    ConnStepKeeps(k, ServerReadFails);
    LoopEndsExact(Apply(k, ServerReadFails));
  }

  /** When the server's process ends, every live client's loop can end. */
  lemma ServerExitEndsLoop(k: Conn)
    requires ConnInv(k) && !k.crashed && Enabled(k, ServerExits)
    ensures CanEnd(Apply(k, ServerExits))
  {
    ConnStepKeeps(k, ServerExits);
    EndsAfterDrop(Apply(k, ServerExits));
  }

  // ---------------------------------------------------------------- two joins that wait

  predicate Moves(k: Conn, l: ConnStep, k': Conn) {
    Enabled(k, l) && Apply(k, l) == k'
  }

  lemma RunFour(k0: Conn, l1: ConnStep, k1: Conn, l2: ConnStep, k2: Conn, l3: ConnStep, k3: Conn,
                l4: ConnStep, k4: Conn)
    requires Moves(k0, l1, k1) && Moves(k1, l2, k2) && Moves(k2, l3, k3) && Moves(k3, l4, k4)
    ensures IsRun(k0, [l1, l2, l3, l4]) && After(k0, [l1, l2, l3, l4]) == k4
  {
    RunCons(k3, l4, []);
    RunCons(k2, l3, [l4]);
    RunCons(k1, l2, [l3, l4]);
    RunCons(k0, l1, [l2, l3, l4]);
    assert [l4] + [] == [l4] && [l3] + [l4] == [l3, l4] && [l2] + [l3, l4] == [l2, l3, l4];
    assert [l1, l2, l3, l4] == [l1] + [l2, l3, l4];
  }

  /** `start` gave up, the destructor ran, and only then was the connection data read. */
  lemma LateConnectionRun() returns (k: Conn)
    ensures var ls := [StartReturns, ClientDestroyed(true), ClientReads(true), ServerReadsAck];
            IsRun(Accepted(), ls) && After(Accepted(), ls) == k
    ensures k == Conn(Established, Client(true, false, true, true, true, false, [Connected], [AckNote]), true, false,
                      [], [], [ConnectMsg], [ConnectMsg], [AckNote])
  {
    var c1 := NewClient().(isValid := false);
    var c2 := c1.(quitFlag := true);
    var c3 := c2.(connected := true, calls := [Connected], notes := [AckNote], quit := true);
    var k1 := Accepted().(started := true, client := c1);
    var k2 := k1.(client := c2);
    var k3 := k2.(client := c3, toClient := [], heard := [ConnectMsg], toServer := [AckNote], told := [AckNote]);
    k := k3.(server := Established, toServer := []);
    RunFour(Accepted(), StartReturns, k1, ClientDestroyed(true), k2, ClientReads(true), k3, ServerReadsAck, k);
  }

  /** `start` times out before the connection data is read, the client is destroyed, and
      the connection is established afterwards: no quit is ever sent, and the destructor
      waits as long as the server is up. */
  lemma TimedOutStartHangs()
    ensures var ls := [StartReturns, ClientDestroyed(true), ClientReads(true), ServerReadsAck];
            IsRun(Accepted(), ls)
            && var k := After(Accepted(), ls);
               k.server.Established? && k.client.quitFlag && k.client.quit && k.client.connected
               && k.client.notes == [AckNote] && Looping(k.client) && !CanEnd(k)
  {
    var k := LateConnectionRun();
    ShutdownExact([StartReturns, ClientDestroyed(true), ClientReads(true), ServerReadsAck]);
  }

  lemma ForgottenRun() returns (k: Conn)
    ensures var ls := [ClientReads(true), StartReturns, ServerStops(true), ClientDestroyed(true)];
            IsRun(Accepted(), ls) && After(Accepted(), ls) == k
    ensures k == Conn(Left, Client(true, true, true, true, false, false, [Connected], [AckNote, QuitNote]), true, false,
                      [], [AckNote, QuitNote], [ConnectMsg], [ConnectMsg], [AckNote, QuitNote])
  {
    var c1 := NewClient().(connected := true, calls := [Connected], notes := [AckNote]);
    var c4 := c1.(notes := [AckNote, QuitNote], quitFlag := true);
    var k1 := Accepted().(client := c1, toClient := [], heard := [ConnectMsg], toServer := [AckNote], told := [AckNote]);
    var k2 := k1.(started := true);
    var k3 := k2.(server := Left);
    k := k3.(client := c4, toServer := [AckNote, QuitNote], told := [AckNote, QuitNote]);
    assert [AckNote] + [QuitNote] == [AckNote, QuitNote];
    RunFour(Accepted(), ClientReads(true), k1, StartReturns, k2, ServerStops(true), k3, ClientDestroyed(true), k);
  }

  /** The client reads the connection data and answers, the server stops before it reads the
      answer, and the client is destroyed in good order: quit is sent, nobody will answer,
      and the destructor waits as long as the server's process lives. */
  lemma StopForgetsPending()
    ensures var ls := [ClientReads(true), StartReturns, ServerStops(true), ClientDestroyed(true)];
            IsRun(Accepted(), ls)
            && var k := After(Accepted(), ls);
               k.client.isValid && k.client.notes == [AckNote, QuitNote] && Looping(k.client) && !CanEnd(k)
  {
    var k := ForgottenRun();
    ShutdownExact([ClientReads(true), StartReturns, ServerStops(true), ClientDestroyed(true)]);
  }
}
