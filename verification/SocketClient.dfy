/** The client's side of a connection (shmdata/unix-socket-client.cpp) and the two
    ends of one connection joined by FIFO channels of whole messages. */
module SocketClient {
  import opened SocketServer

  datatype ClientCall = Connected | Updated(size: nat) | Disconnected

  /** What the client writes: its copy of the connection data, then quit. */
  datatype Note = AckNote | QuitNote

  /** What one pass of the loop finds on the socket. */
  datatype Input = Silence | ReadFails | ReadsEof | Reads(m: Msg)

  /** `quitFlag` is `quit_`; `quit` and `quitAcked` are the loop's own variables; `calls`
      and `notes` record the callbacks made and the messages written. */
  datatype Client = Client(connected: bool, isValid: bool, fdOpen: bool, quitFlag: bool,
                           quit: bool, quitAcked: bool,
                           calls: seq<ClientCall>, notes: seq<Note>)

  function NewClient(): Client {
    Client(false, true, true, false, false, false, [], [])
  }

  predicate Looping(c: Client) {
    !c.quit || !c.quitAcked
  }

  function HangUp(c: Client, calls: seq<ClientCall>): Client {
    c.(fdOpen := false, isValid := false, quit := true, quitAcked := true, calls := c.calls + calls)
  }

  function Take(c: Client, m: Msg): Client {
    if !c.connected then c.(connected := true, calls := c.calls + [Connected], notes := c.notes + [AckNote])
    else match m
      case UpdateMsg(size) => c.(calls := c.calls + [Updated(size)])
      case QuitMsg => HangUp(c, [Disconnected])
      case ConnectMsg => c
  }

  /** One pass of `server_interaction`. */
  function Pass(c: Client, i: Input): Client
    requires Looping(c) && (i.Silence? || c.fdOpen)
  {
    var d := match i
      case Silence => c
      case ReadFails => HangUp(c, if c.connected then [Disconnected] else [])
      case ReadsEof => HangUp(c, if c.connected then [Disconnected] else [])
      case Reads(m) => Take(c, m);
    if d.quitFlag then d.(quit := true) else d
  }

  /** The destructor: quit is sent while the socket is up, then the loop is told. */
  function Destroy(c: Client): Client {
    c.(notes := c.notes + (if c.isValid && c.fdOpen then [QuitNote] else []), quitFlag := true)
  }

  // ---------------------------------------------------------------- callbacks of one lifetime

  /** Nothing, or connect, then updates, then at most one disconnect last. */
  predicate IsTrace(calls: seq<ClientCall>) {
    calls == []
    || (calls[0].Connected?
        && (forall i :: 1 <= i < |calls| - 1 ==> calls[i].Updated?)
        && (|calls| > 1 ==> calls[|calls| - 1].Updated? || calls[|calls| - 1].Disconnected?))
  }

  predicate ClientInv(c: Client) {
    && IsTrace(c.calls)
    && (c.connected <==> c.calls != [])
    && (c.quitAcked <==> !c.fdOpen)
    && (c.quitAcked ==> c.quit && !c.isValid)
    && (c.calls != [] ==> (c.quitAcked <==> c.calls[|c.calls| - 1].Disconnected?))
  }

  lemma PassKeeps(c: Client, i: Input)
    requires ClientInv(c) && Looping(c) && (i.Silence? || c.fdOpen)
    ensures ClientInv(Pass(c, i))
  {
  }

  /** The passes a thread makes: each finds an input and, after it, the flag `quit_`
      possibly raised by the destructor. */
  predicate CanLoop(c: Client, inputs: seq<(Input, bool)>)
    decreases |inputs|
  {
    inputs == []
    || (Looping(c) && (inputs[0].0.Silence? || c.fdOpen)
        && CanLoop(Pass(Raise(c, inputs[0].1), inputs[0].0), inputs[1..]))
  }

  function Raise(c: Client, quits: bool): Client {
    if quits then c.(quitFlag := true) else c
  }

  function Loop(c: Client, inputs: seq<(Input, bool)>): Client
    requires CanLoop(c, inputs)
    decreases |inputs|
  {
    if inputs == [] then c else Loop(Pass(Raise(c, inputs[0].1), inputs[0].0), inputs[1..])
  }

  /** Over any number of passes the callbacks form a legal trace, and once the last
      disconnect was called the loop is over. */
  lemma {:induction false} LoopKeeps(c: Client, inputs: seq<(Input, bool)>)
    requires ClientInv(c) && CanLoop(c, inputs)
    ensures ClientInv(Loop(c, inputs))
    decreases |inputs|
  {
    if inputs != [] {
      PassKeeps(Raise(c, inputs[0].1), inputs[0].0);
      LoopKeeps(Pass(Raise(c, inputs[0].1), inputs[0].0), inputs[1..]);
    }
  }

  lemma {:induction false} LoopSnoc(c: Client, inputs: seq<(Input, bool)>, last: (Input, bool))
    requires CanLoop(c, inputs) && Looping(Loop(c, inputs))
    requires ClientInv(c) && (last.0.Silence? || Loop(c, inputs).fdOpen)
    ensures CanLoop(c, inputs + [last])
    ensures Loop(c, inputs + [last]) == Pass(Raise(Loop(c, inputs), last.1), last.0)
    decreases |inputs|
  {
    if inputs == [] {
      assert [last][1..] == [];
    } else {
      var next := Pass(Raise(c, inputs[0].1), inputs[0].0);
      PassKeeps(Raise(c, inputs[0].1), inputs[0].0);
      LoopSnoc(next, inputs[1..], last);
      assert (inputs + [last])[1..] == inputs[1..] + [last];
    }
  }

  // ---------------------------------------------------------------- one connection

  /** How the server sees the connection.  Afterwards: `Quitted` once it sent quit, `Dropped`
      when the descriptor was closed without, `Left` when it will neither speak on it nor
      close it as long as its process lives. */
  datatype ServerEnd = Pending | Established | Quitted | Dropped | Left

  /** `said` is everything the server sent, `heard` what the client read of it, `told` what
      the client sent; the client's `notes` also has the sends that failed. */
  datatype Conn = Conn(server: ServerEnd, client: Client, started: bool, crashed: bool,
                       toClient: seq<Msg>, toServer: seq<Note>,
                       said: seq<Msg>, heard: seq<Msg>, told: seq<Note>)

  /** Just accepted: the connection data is on its way. */
  function Accepted(): Conn {
    Conn(Pending, NewClient(), false, false, [ConnectMsg], [], [ConnectMsg], [], [])
  }

  /** `sent` tells whether the send of the step succeeds. */
  datatype ConnStep =
    | ServerReadsAck | ServerUpdates(size: nat, sent: bool) | ServerReadsQuit(sent: bool)
    | ServerReadsEof | ServerReadFails | ServerStops(sent: bool) | ServerExits
    | ClientReads(sent: bool) | ClientReadsEof | ClientReadFails | ClientIdles
    | StartReturns | ClientDestroyed(sent: bool) | ClientCrashes

  /** The server serves the connection. */
  predicate Up(e: ServerEnd) {
    e.Pending? || e.Established?
  }

  /** What the server did lets the client's loop end. */
  predicate ServerDone(e: ServerEnd) {
    e.Quitted? || e.Dropped?
  }

  predicate CanRead(k: Conn) {
    !k.crashed && Looping(k.client) && k.client.fdOpen
  }

  predicate Enabled(k: Conn, l: ConnStep) {
    match l
    case ServerReadsAck => k.server.Pending? && k.toServer != []
    case ServerUpdates(_, _) => k.server.Established?
    case ServerReadsQuit(_) => k.server.Established? && k.toServer != []
    case ServerReadsEof => Up(k.server) && k.toServer == [] && !k.client.fdOpen
    case ServerReadFails => Up(k.server)
    case ServerStops(_) => Up(k.server)
    case ServerExits => !ServerDone(k.server)
    case ClientReads(_) => CanRead(k) && k.toClient != []
    case ClientReadsEof => CanRead(k) && k.toClient == [] && ServerDone(k.server)
    case ClientReadFails => CanRead(k)
    case ClientIdles => !k.crashed && Looping(k.client)
    case StartReturns => !k.crashed && !k.started
    case ClientDestroyed(_) => !k.crashed && k.started && !k.client.quitFlag
    case ClientCrashes => !k.crashed
  }

  function Say(k: Conn, m: Msg, sent: bool): Conn {
    if sent then k.(toClient := k.toClient + [m], said := k.said + [m]) else k
  }

  function ClientMoves(k: Conn, c: Client, sent: bool): Conn
    requires k.client.notes <= c.notes
  {
    var added := if sent then c.notes[|k.client.notes|..] else [];
    k.(client := c, toServer := k.toServer + added, told := k.told + added)
  }

  function Apply(k: Conn, l: ConnStep): Conn
    requires Enabled(k, l)
  {
    match l
    case ServerReadsAck => k.(server := Established, toServer := k.toServer[1..])
    case ServerUpdates(size, sent) => Say(k, UpdateMsg(size), sent)
    case ServerReadsQuit(sent) =>
      // Answered or not, the descriptor is closed.
      Say(k, QuitMsg, sent).(server := if sent then Quitted else Dropped, toServer := k.toServer[1..])
    case ServerReadsEof => k.(server := Dropped)
    case ServerReadFails =>
      // Closed if established; a pending one is only forgotten.
      k.(server := if k.server.Established? then Dropped else Left)
    case ServerStops(sent) =>
      // Quit goes to established clients only, and nothing is closed.
      if k.server.Established? then Say(k, QuitMsg, sent).(server := if sent then Quitted else Left)
      else k.(server := Left)
    case ServerExits => k.(server := Dropped)
    case ClientReads(sent) =>
      ClientMoves(k, Pass(k.client, Reads(k.toClient[0])), sent)
        .(toClient := k.toClient[1..], heard := k.heard + [k.toClient[0]])
    case ClientReadsEof => k.(client := Pass(k.client, ReadsEof))
    case ClientReadFails => k.(client := Pass(k.client, ReadFails))
    case ClientIdles => k.(client := Pass(k.client, Silence))
    case StartReturns => k.(started := true, client := k.client.(isValid := k.client.isValid && k.client.connected))
    case ClientDestroyed(sent) => ClientMoves(k, Destroy(k.client), sent)
    case ClientCrashes => k.(crashed := true, client := k.client.(fdOpen := false))
  }

  /** The callback that a message stands for. */
  function CallOf(m: Msg): ClientCall {
    match m
    case ConnectMsg => Connected
    case UpdateMsg(size) => Updated(size)
    case QuitMsg => Disconnected
  }

  function CallsOf(heard: seq<Msg>): seq<ClientCall> {
    seq(|heard|, i requires 0 <= i < |heard| => CallOf(heard[i]))
  }

  predicate ChannelInv(k: Conn) {
    && k.said == k.heard + k.toClient
    && IsLog(k.said) && k.said != []
    && (k.server.Quitted? <==> k.said[|k.said| - 1].QuitMsg?)
    && (k.server.Pending? ==> k.said == [ConnectMsg])
  }

  predicate IsNotes(notes: seq<Note>) {
    notes == [] || notes == [AckNote] || notes == [AckNote, QuitNote]
  }

  /** What is left of the notes when any of the sends may have failed. */
  predicate SomeOf(told: seq<Note>, notes: seq<Note>) {
    told == [] || told == notes || (notes == [AckNote, QuitNote] && |told| == 1)
  }

  predicate NotesInv(k: Conn) {
    && IsNotes(k.client.notes) && SomeOf(k.told, k.client.notes)
    && (k.client.connected <==> k.client.notes != [])
    && (k.server.Pending? ==> k.toServer == k.told)
    && (k.server.Established? ==> k.told != [] && k.toServer == k.told[1..])
    && (QuitNote in k.client.notes ==> k.client.quitFlag)
    && (!k.started ==> !k.client.quitFlag)
    && (k.started && k.client.isValid ==> k.client.connected)
  }

  predicate CallsInv(k: Conn) {
    !k.crashed ==>
      && ClientInv(k.client)
      && (k.client.fdOpen ==> k.client.calls == CallsOf(k.heard) && QuitMsg !in k.heard)
      && (!k.client.fdOpen ==>
            k.client.calls == if k.heard == [] || QuitMsg in k.heard then CallsOf(k.heard)
                              else CallsOf(k.heard) + [Disconnected])
  }

  predicate ConnInv(k: Conn) {
    ChannelInv(k) && NotesInv(k) && CallsInv(k)
  }

  lemma CallsOfSnoc(heard: seq<Msg>, m: Msg)
    ensures CallsOf(heard + [m]) == CallsOf(heard) + [CallOf(m)]
  {
  }

  /** Where a quit can stand in a log: at its end only. */
  lemma QuitIsLast(said: seq<Msg>, heard: seq<Msg>, rest: seq<Msg>)
    requires IsLog(said) && said == heard + rest
    ensures QuitMsg in heard ==> rest == []
    ensures rest != [] && rest[0].QuitMsg? ==> rest == [QuitMsg] && heard != []
    ensures rest != [] && rest[0].ConnectMsg? <==> rest != [] && heard == []
  {
    assert forall i :: 0 <= i < |heard| ==> heard[i] == said[i];
    if rest != [] {
      assert said[|heard|] == rest[0];
    }
  }

  lemma LogSnoc(log: seq<Msg>, m: Msg)
    requires IsTalk(log) && !m.ConnectMsg?
    ensures IsLog(log + [m]) && (m.UpdateMsg? ==> IsTalk(log + [m]))
  {
    assert (log + [m])[..|log|] == log;
  }

  // ---------------------------------------------------------------- the server's steps

  /** The server says one more thing on a connection it has not quitted. */
  lemma SayKeeps(k: Conn, m: Msg, sent: bool, e: ServerEnd)
    requires ChannelInv(k) && k.server.Established? && !m.ConnectMsg? && !e.Pending?
    requires e.Quitted? <==> m.QuitMsg? && sent
    ensures ChannelInv(Say(k, m, sent).(server := e))
  {
    if sent {
      LogSnoc(k.said, m);
      assert k.said + [m] == k.heard + (k.toClient + [m]);
    }
  }

  lemma ServerChannel(k: Conn, l: ConnStep)
    requires ChannelInv(k) && Enabled(k, l)
    requires l.ServerReadsAck? || l.ServerUpdates? || l.ServerReadsQuit? || l.ServerReadsEof?
          || l.ServerReadFails? || l.ServerStops? || l.ServerExits?
    ensures ChannelInv(Apply(k, l))
  {
    match l
    case ServerUpdates(size, sent) => SayKeeps(k, UpdateMsg(size), sent, Established);
    case ServerReadsQuit(sent) => SayKeeps(k, QuitMsg, sent, if sent then Quitted else Dropped);
    case ServerStops(sent) =>
      if k.server.Established? { SayKeeps(k, QuitMsg, sent, if sent then Quitted else Left); }
    case _ =>
  }

  lemma ServerStepKeeps(k: Conn, l: ConnStep)
    requires ConnInv(k) && Enabled(k, l)
    requires l.ServerReadsAck? || l.ServerUpdates? || l.ServerReadsQuit? || l.ServerReadsEof?
          || l.ServerReadFails? || l.ServerStops? || l.ServerExits?
    ensures ConnInv(Apply(k, l))
  {
    ServerChannel(k, l);
    var k' := Apply(k, l);
    assert k'.client == k.client && k'.heard == k.heard && k'.told == k.told;
  }

  // ---------------------------------------------------------------- the client's steps

  lemma ClientReadsChannel(k: Conn, sent: bool)
    requires ChannelInv(k) && Enabled(k, ClientReads(sent))
    ensures ChannelInv(Apply(k, ClientReads(sent)))
  {
    assert k.heard + k.toClient == (k.heard + [k.toClient[0]]) + k.toClient[1..];
  }

  lemma FirstNote(k: Conn, sent: bool)
    requires NotesInv(k) && Enabled(k, ClientReads(sent)) && !k.client.connected
    ensures NotesInv(Apply(k, ClientReads(sent)))
  {
    assert k.client.notes == [] && k.told == [];
    var k' := Apply(k, ClientReads(sent));
    assert k'.client.notes == [AckNote];
    assert k'.told == if sent then [AckNote] else [];
  }

  /** A connected client writes nothing in its loop. */
  lemma PassWrites(c: Client, i: Input)
    requires Looping(c) && (i.Silence? || c.fdOpen) && (i.Reads? ==> c.connected)
    ensures var d := Pass(c, i);
            d.notes == c.notes && d.connected == c.connected && d.quitFlag == c.quitFlag && (d.isValid ==> c.isValid)
  {
  }

  lemma ClientReadsNotes(k: Conn, sent: bool)
    requires NotesInv(k) && Enabled(k, ClientReads(sent))
    ensures NotesInv(Apply(k, ClientReads(sent)))
  {
    if !k.client.connected {
      FirstNote(k, sent);
    } else {
      PassWrites(k.client, Reads(k.toClient[0]));
      var k' := Apply(k, ClientReads(sent));
      assert k'.told == k.told && k'.toServer == k.toServer;
    }
  }

  lemma ClientReadsCalls(k: Conn, sent: bool)
    requires ChannelInv(k) && CallsInv(k) && Enabled(k, ClientReads(sent))
    ensures CallsInv(Apply(k, ClientReads(sent)))
  {
    var m := k.toClient[0];
    QuitIsLast(k.said, k.heard, k.toClient);
    CallsOfSnoc(k.heard, m);
    PassKeeps(k.client, Reads(m));
    assert k.client.connected <==> k.heard != [];
  }

  lemma ClientReadsKeeps(k: Conn, sent: bool)
    requires ConnInv(k) && Enabled(k, ClientReads(sent))
    ensures ConnInv(Apply(k, ClientReads(sent)))
  {
    ClientReadsChannel(k, sent);
    ClientReadsNotes(k, sent);
    ClientReadsCalls(k, sent);
  }

  /** The loop hangs up, or finds nothing. */
  lemma ClientPassKeeps(k: Conn, i: Input)
    requires ConnInv(k) && !k.crashed && Looping(k.client) && (i.Silence? || k.client.fdOpen) && !i.Reads?
    ensures ConnInv(k.(client := Pass(k.client, i)))
  {
    PassKeeps(k.client, i);
    PassWrites(k.client, i);
    assert k.client.connected <==> k.client.calls != [];
    assert k.client.fdOpen ==> (k.client.calls != [] <==> k.heard != []);
  }

  lemma DestroyNotes(k: Conn, sent: bool)
    requires NotesInv(k) && Enabled(k, ClientDestroyed(sent))
    ensures NotesInv(Apply(k, ClientDestroyed(sent)))
  {
    var k' := Apply(k, ClientDestroyed(sent));
    if k.client.isValid && k.client.fdOpen && sent {
      assert k.client.notes == [AckNote] && k'.client.notes == [AckNote, QuitNote];
      assert k'.told == k.told + [QuitNote] && k'.toServer == k.toServer + [QuitNote];
    } else {
      assert k'.told == k.told && k'.toServer == k.toServer;
    }
  }

  lemma DestroyKeeps(k: Conn, sent: bool)
    requires ConnInv(k) && Enabled(k, ClientDestroyed(sent))
    ensures ConnInv(Apply(k, ClientDestroyed(sent)))
  {
    DestroyNotes(k, sent);
    var d := Destroy(k.client);
    assert d == k.client.(notes := d.notes, quitFlag := true);
  }

  lemma ConnStepKeeps(k: Conn, l: ConnStep)
    requires ConnInv(k) && Enabled(k, l)
    ensures ConnInv(Apply(k, l))
  {
    match l
    case ClientReads(sent) => ClientReadsKeeps(k, sent);
    case ClientReadsEof => ClientPassKeeps(k, ReadsEof);
    case ClientReadFails => ClientPassKeeps(k, ReadFails);
    case ClientIdles => ClientPassKeeps(k, Silence);
    case ClientDestroyed(sent) => DestroyKeeps(k, sent);
    case StartReturns =>
    case ClientCrashes =>
    case _ => ServerStepKeeps(k, l);
  }

  predicate IsRun(k: Conn, ls: seq<ConnStep>)
    decreases |ls|
  {
    ls == [] || (Enabled(k, ls[0]) && IsRun(Apply(k, ls[0]), ls[1..]))
  }

  function After(k: Conn, ls: seq<ConnStep>): Conn
    requires IsRun(k, ls)
    decreases |ls|
  {
    if ls == [] then k else After(Apply(k, ls[0]), ls[1..])
  }

  lemma {:induction false} ConnRunKeeps(k: Conn, ls: seq<ConnStep>)
    requires ConnInv(k) && IsRun(k, ls)
    ensures ConnInv(After(k, ls))
    decreases |ls|
  {
    if ls != [] {
      ConnStepKeeps(k, ls[0]);
      ConnRunKeeps(Apply(k, ls[0]), ls[1..]);
    }
  }

  lemma AcceptedInv()
    ensures ConnInv(Accepted())
  {
    assert Accepted().said == [] + [ConnectMsg];
  }

  lemma ReachedInv(ls: seq<ConnStep>)
    requires IsRun(Accepted(), ls)
    ensures ConnInv(After(Accepted(), ls))
  {
    AcceptedInv();
    ConnRunKeeps(Accepted(), ls);
  }

  // ---------------------------------------------------------------- the handshake

  /** Handshake: the server's first message is the connection data and later ones are
      updates, or one last quit; updates only follow something received from the client;
      the client writes its acknowledgement and at most one quit, after it. */
  lemma HandshakeTyping(ls: seq<ConnStep>)
    requires IsRun(Accepted(), ls)
    ensures var k := After(Accepted(), ls);
            && k.said != [] && IsLog(k.said) && k.said == k.heard + k.toClient
            && (k.server.Pending? ==> k.said == [ConnectMsg])
            && IsNotes(k.client.notes) && SomeOf(k.told, k.client.notes)
            && (HasUpdate(k.said) ==> k.told != [] && AckNote in k.client.notes)
  {
    ReachedInv(ls);
    AcceptedInv();
    UpdatesAfterAck(Accepted(), ls);
  }

  predicate UpdatesAcked(k: Conn) {
    HasUpdate(k.said) ==> k.told != []
  }

  lemma UpdatesComeFromTheServer(k: Conn, l: ConnStep)
    requires Enabled(k, l) && !l.ServerUpdates? && HasUpdate(Apply(k, l).said)
    ensures HasUpdate(k.said)
  {
    var said := Apply(k, l).said;
    var i :| 0 <= i < |said| && said[i].UpdateMsg?;
    assert k.said[i] == said[i];
  }

  lemma UpdateNeedsAck(k: Conn, l: ConnStep)
    requires ConnInv(k) && Enabled(k, l) && UpdatesAcked(k)
    ensures UpdatesAcked(Apply(k, l))
  {
    if !l.ServerUpdates? && HasUpdate(Apply(k, l).said) {
      UpdatesComeFromTheServer(k, l);
      assert k.told <= Apply(k, l).told;
    }
  }

  lemma {:induction false} UpdatesAfterAck(k: Conn, ls: seq<ConnStep>)
    requires ConnInv(k) && IsRun(k, ls) && UpdatesAcked(k)
    ensures UpdatesAcked(After(k, ls))
    decreases |ls|
  {
    if ls != [] {
      ConnStepKeeps(k, ls[0]);
      UpdateNeedsAck(k, ls[0]);
      UpdatesAfterAck(Apply(k, ls[0]), ls[1..]);
    }
  }

  /** The callbacks are the messages: in every run of a client that does not crash, one
      callback per message read, in order, plus one last disconnect when the socket was
      closed on a connected client without a quit. */
  lemma CallbacksAreMessages(ls: seq<ConnStep>)
    requires IsRun(Accepted(), ls)
    ensures var k := After(Accepted(), ls);
            !k.crashed ==>
              IsTrace(k.client.calls)
              && k.client.calls
                 == CallsOf(k.heard)
                    + if !k.client.fdOpen && k.heard != [] && QuitMsg !in k.heard then [Disconnected] else []
  {
    ReachedInv(ls);
    var k := After(Accepted(), ls);
    assert CallsOf(k.heard) + [] == CallsOf(k.heard);
  }

  // ---------------------------------------------------------------- how a connection ends

  /** Shutdown, safety, exactly: an established connection ends with a quit said, the first
      and only one, if and only if the server answers a message or stops and its send
      succeeds; its descriptor stays open without a word if and only if the server stops
      and the send fails. */
  lemma EstablishedEnds(ls: seq<ConnStep>, l: ConnStep)
    requires IsRun(Accepted(), ls) && After(Accepted(), ls).server.Established?
    requires Enabled(After(Accepted(), ls), l) && !Apply(After(Accepted(), ls), l).server.Established?
    ensures var k, k' := After(Accepted(), ls), Apply(After(Accepted(), ls), l);
            && QuitMsg !in k.said
            && k'.said == k.said + (if k'.server.Quitted? then [QuitMsg] else [])
            && (k'.server.Quitted? <==> (l.ServerReadsQuit? || l.ServerStops?) && l.sent)
            && (k'.server.Left? <==> l.ServerStops? && !l.sent)
  {
    ReachedInv(ls);
    var k := After(Accepted(), ls);
    assert k.said + [] == k.said;
    assert QuitMsg !in k.said by {
      assert IsTalk(k.said);
    }
  }

  /** Shutdown, progress: once quit has reached the server after the acknowledgement, the
      server has the message to read that makes it answer. */
  lemma QuitIsAnswered(ls: seq<ConnStep>, sent: bool)
    requires IsRun(Accepted(), ls)
    ensures var k := After(Accepted(), ls);
            k.told == [AckNote, QuitNote] && k.server.Established? ==>
              Enabled(k, ServerReadsQuit(sent))
              && Apply(k, ServerReadsQuit(sent)).server == if sent then Quitted else Dropped
  {
    ReachedInv(ls);
  }

  /** Quitted, and the client is still to hear of it, or has. */
  predicate Hearing(k: Conn) {
    ConnInv(k) && !k.crashed && k.server.Quitted? && (k.client.fdOpen || QuitMsg in k.heard)
  }

  lemma AllHeard(k: Conn)
    requires Hearing(k) && k.toClient == []
    ensures k.heard == k.said && !Looping(k.client) && k.client.calls == CallsOf(k.said)
  {
    assert k.heard + [] == k.heard;
    assert k.said[|k.said| - 1] == QuitMsg;
  }

  lemma ReadsOn(k: Conn)
    requires Hearing(k) && k.toClient != []
    ensures Enabled(k, ClientReads(true))
    ensures var next := Apply(k, ClientReads(true));
            Hearing(next) && next.said == k.said && |next.toClient| == |k.toClient| - 1
  {
    QuitIsLast(k.said, k.heard, k.toClient);
    ConnStepKeeps(k, ClientReads(true));
  }

  lemma RunCons(k: Conn, l: ConnStep, rest: seq<ConnStep>)
    requires Enabled(k, l) && IsRun(Apply(k, l), rest)
    ensures IsRun(k, [l] + rest) && After(k, [l] + rest) == After(Apply(k, l), rest)
  {
    assert ([l] + rest)[1..] == rest;
  }

  function Reading(n: nat): seq<ConnStep> {
    if n == 0 then [] else [ClientReads(true)] + Reading(n - 1)
  }

  /** Shutdown, termination: when the server has sent quit, reading what is in the
      channel ends the client's loop: all its callbacks are made, disconnect last. */
  lemma {:induction false} QuitEndsLoop(k: Conn)
    requires Hearing(k)
    ensures IsRun(k, Reading(|k.toClient|))
    ensures var end := After(k, Reading(|k.toClient|));
            !Looping(end.client) && end.client.calls == CallsOf(k.said)
            && CallsOf(k.said)[|k.said| - 1].Disconnected?
    decreases |k.toClient|
  {
    assert k.said[|k.said| - 1] == QuitMsg;
    if k.toClient == [] {
      AllHeard(k);
    } else {
      ReadsOn(k);
      var next := Apply(k, ClientReads(true));
      QuitEndsLoop(next);
      RunCons(k, ClientReads(true), Reading(|next.toClient|));
    }
  }
}
