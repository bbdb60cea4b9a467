/** The bookkeeping of the socket server (shmdata/unix-socket-server.cpp): which
    descriptors are pending, established and selected on, and what each of them
    has been sent.  Reads and sends are decided by the environment. */
module SocketServer {
  const FD_SETSIZE: int := 1024

  datatype Msg = ConnectMsg | UpdateMsg(size: nat) | QuitMsg

  /** Result of one `read` on a descriptor that `select` reported. */
  datatype ReadOutcome = ReadError | ReadEof | ReadData

  datatype Callback = OnConnect(fd: nat) | OnDisconnect(fd: nat) | OnClientError(fd: nat)

  /** The server's fields; `open` (descriptors not closed), `acked` (latest connection
      acknowledged) and `sent` (messages sent on the latest connection) are history. */
  datatype Book = Book(sock: nat, clients: seq<nat>, pending: set<nat>, notified: set<nat>,
                       allset: set<nat>, maxfd: nat,
                       open: set<nat>, acked: set<nat>, sent: map<nat, seq<Msg>>)

  // ---------------------------------------------------------------- vocabulary

  function Elems(s: seq<nat>): set<nat> {
    set x | x in s
  }

  predicate NoDup(s: seq<nat>) {
    forall i, j :: 0 <= i < j < |s| ==> s[i] != s[j]
  }

  function Without(s: seq<nat>, gone: set<nat>): (r: seq<nat>)
    ensures forall x :: x in r <==> x in s && x !in gone
    ensures NoDup(s) ==> NoDup(r)
  {
    if s == [] then []
    else
      var r := Without(s[1..], gone);
      assert s == [s[0]] + s[1..];
      assert NoDup(s) ==> NoDup(s[1..]) && s[0] !in s[1..];
      if s[0] in gone then r else [s[0]] + r
  }

  predicate IsLeast(x: nat, s: set<nat>) {
    x in s && forall y :: y in s ==> x <= y
  }

  lemma {:induction false} LeastExists(s: set<nat>)
    requires s != {}
    ensures exists x :: IsLeast(x, s)
    decreases |s|
  {
    var x :| x in s;
    if s - {x} == {} {
      assert forall y :: y in s ==> y == x || y in s - {x};
      assert IsLeast(x, s);
    } else {
      LeastExists(s - {x});
      var y :| IsLeast(y, s - {x});
      var z := if x < y then x else y;
      forall v | v in s ensures z <= v {
        assert v == x || v in s - {x};
      }
      assert IsLeast(z, s);
    }
  }

  /** The elements in ascending order, as a `std::set` is walked. */
  ghost function Ascending(s: set<nat>): (r: seq<nat>)
    ensures Elems(r) == s && NoDup(r)
  {
    if s == {} then []
    else
      LeastExists(s);
      var x :| IsLeast(x, s);
      var r := Ascending(s - {x});
      assert Elems([x] + r) == {x} + Elems(r);
      assert x !in r by { assert x !in Elems(r); }
      [x] + r
  }

  lemma AscendingLeast(s: set<nat>, x: nat)
    requires IsLeast(x, s)
    ensures Ascending(s) == [x] + Ascending(s - {x})
  {
    LeastExists(s);
  }

  /** The connection data, then updates. */
  predicate IsTalk(log: seq<Msg>) {
    log != [] && log[0].ConnectMsg? && forall i :: 1 <= i < |log| ==> log[i].UpdateMsg?
  }

  /** Nothing, or a talk, or a talk closed by one quit. */
  predicate IsLog(log: seq<Msg>) {
    log == [] || IsTalk(log) || (log[|log| - 1].QuitMsg? && IsTalk(log[..|log| - 1]))
  }

  function LogOf(sent: map<nat, seq<Msg>>, fd: nat): seq<Msg> {
    if fd in sent then sent[fd] else []
  }

  function Sent(b: Book, fd: nat): seq<Msg> {
    LogOf(b.sent, fd)
  }

  /** `m` sent on each of `fds`. */
  function Tell(sent: map<nat, seq<Msg>>, fds: set<nat>, m: Msg): map<nat, seq<Msg>> {
    sent + map c | c in fds :: LogOf(sent, c) + [m]
  }

  lemma TellOne(sent: map<nat, seq<Msg>>, fds: set<nat>, c: nat, m: Msg)
    requires c !in fds
    ensures LogOf(Tell(sent, fds, m), c) == LogOf(sent, c)
    ensures Tell(sent, fds + {c}, m) == Tell(sent, fds, m)[c := LogOf(sent, c) + [m]]
  {
  }

  function ToShort(n: int): int {
    (n + 0x8000) % 0x1_0000 - 0x8000
  }

  // ---------------------------------------------------------------- what the steps do

  function InitBook(sock: nat): Book {
    Book(sock, [], {}, {}, {sock}, sock, {sock}, {}, map[])
  }

  /** A connection request: `fd` is what `accept` returned. */
  function Accept(b: Book, fd: int, sendOk: bool): Book {
    if fd < 0 then b
    else if !sendOk then b.(open := b.open + {fd}, acked := b.acked - {fd}, sent := b.sent[fd := []])
    else b.(maxfd := if fd > b.maxfd then fd else b.maxfd,
            allset := b.allset + {fd},
            pending := b.pending + {fd},
            open := b.open + {fd},
            acked := b.acked - {fd},
            sent := b.sent[fd := [ConnectMsg]])
  }

  function Ready(clients: seq<nat>, rset: set<nat>): set<nat> {
    set c | c in clients && c in rset
  }

  function WithOutcome(fds: set<nat>, outcomes: map<nat, ReadOutcome>, outcome: ReadOutcome): set<nat>
  {
    set p | p in fds && p in outcomes && outcomes[p] == outcome
  }

  /** Established clients with something to read are all removed; one that sent data is
      answered with quit. */
  function Disconnect(b: Book, rset: set<nat>, outcomes: map<nat, ReadOutcome>, failed: set<nat>): Book
    requires rset <= outcomes.Keys
  {
    var gone := Ready(b.clients, rset);
    b.(clients := Without(b.clients, gone),
       allset := b.allset - gone,
       open := b.open - gone,
       sent := Tell(b.sent, WithOutcome(gone, outcomes, ReadData) - failed, QuitMsg))
  }

  /** Pending clients with something to read stop pending; an acknowledgement
      establishes them.  A read error leaves the descriptor selected and open. */
  ghost function Acknowledge(b: Book, rset: set<nat>, outcomes: map<nat, ReadOutcome>): Book
  {
    var ready := b.pending * rset;
    b.(clients := b.clients + Ascending(WithOutcome(ready, outcomes, ReadData)),
       pending := b.pending - ready,
       allset := b.allset - WithOutcome(ready, outcomes, ReadEof),
       open := b.open - WithOutcome(ready, outcomes, ReadEof),
       acked := b.acked + WithOutcome(ready, outcomes, ReadData))
  }

  /** One update per client; the ones whose send succeeded are the notified ones. */
  function Notify(b: Book, size: nat, failed: set<nat>): Book {
    var ok := Elems(b.clients) - failed;
    b.(notified := ok, sent := Tell(b.sent, ok, UpdateMsg(size)))
  }

  /** Quit to every established client, at destruction. */
  function QuitAll(b: Book, failed: set<nat>): Book {
    b.(sent := Tell(b.sent, Elems(b.clients) - failed, QuitMsg))
  }

  /** One pass of the server's loop. */
  ghost function Pass(b: Book, fd: int, sendOk: bool, rset: set<nat>, outcomes: map<nat, ReadOutcome>,
                      failed: set<nat>): Book
    requires rset <= outcomes.Keys
  {
    if b.sock in rset then Accept(b, fd, sendOk)
    else Acknowledge(Disconnect(b, rset, outcomes, failed), rset, outcomes)
  }

  // ---------------------------------------------------------------- what they keep

  predicate HasUpdate(log: seq<Msg>) {
    exists i :: 0 <= i < |log| && log[i].UpdateMsg?
  }

  predicate BookInv(b: Book) {
    && NoDup(b.clients)
    && (forall c :: c in b.clients ==>
          c in b.allset && c !in b.pending && c != b.sock && c in b.acked && IsTalk(Sent(b, c)))
    && (forall p :: p in b.pending ==> p in b.allset && p != b.sock && Sent(b, p) == [ConnectMsg])
    && (forall fd :: fd in b.sent ==> IsLog(b.sent[fd]) && (HasUpdate(b.sent[fd]) ==> fd in b.acked))
    && b.sock in b.allset
    && b.allset <= b.open
    && (forall x :: x in b.allset ==> 0 <= x <= b.maxfd && x < FD_SETSIZE)
  }

  datatype Event =
    | PassEvent(fd: int, sendOk: bool, rset: set<nat>, outcomes: map<nat, ReadOutcome>, failed: set<nat>)
    | NotifyEvent(size: nat, lost: set<nat>)

  /** `select` reports selected descriptors, and `accept` returns a descriptor that is not
      open, or fails: so far the kernel.  That descriptors stay below FD_SETSIZE is assumed;
      the server never tests it. */
  predicate Possible(b: Book, e: Event) {
    match e
    case PassEvent(fd, sendOk, rset, outcomes, failed) =>
      rset <= b.allset && rset <= outcomes.Keys && (fd >= 0 ==> fd !in b.open && fd < FD_SETSIZE)
    case NotifyEvent(_, _) => true
  }

  ghost function Step(b: Book, e: Event): Book
    requires Possible(b, e)
  {
    match e
    case PassEvent(fd, sendOk, rset, outcomes, failed) => Pass(b, fd, sendOk, rset, outcomes, failed)
    case NotifyEvent(size, lost) => Notify(b, size, lost)
  }

  lemma AcceptKeeps(b: Book, fd: int, sendOk: bool)
    requires BookInv(b) && (fd >= 0 ==> fd !in b.open && fd < FD_SETSIZE)
    ensures BookInv(Accept(b, fd, sendOk))
  {
  }

  lemma DisconnectKeeps(b: Book, rset: set<nat>, outcomes: map<nat, ReadOutcome>, failed: set<nat>)
    requires BookInv(b) && rset <= outcomes.Keys && b.sock !in rset
    ensures BookInv(Disconnect(b, rset, outcomes, failed))
  {
    var after := Disconnect(b, rset, outcomes, failed);
    forall c | c in after.clients || c in after.pending
      ensures Sent(after, c) == Sent(b, c) && c in after.allset
    {
    }
  }

  lemma AcknowledgeKeeps(b: Book, rset: set<nat>, outcomes: map<nat, ReadOutcome>)
    requires BookInv(b) && b.sock !in rset
    ensures BookInv(Acknowledge(b, rset, outcomes))
  {
    var acked := Ascending(WithOutcome(b.pending * rset, outcomes, ReadData));
    var after := Acknowledge(b, rset, outcomes);
    forall i, j | 0 <= i < j < |after.clients|
      ensures after.clients[i] != after.clients[j]
    {
      if i < |b.clients| <= j {
        assert after.clients[j] in Elems(acked);
      }
    }
    forall c | c in after.clients
      ensures c in after.allset && c !in after.pending && c != b.sock && IsTalk(Sent(after, c))
    {
      if c !in b.clients {
        assert c in Elems(acked);
      }
    }
  }

  /** Established and pending clients stay apart and duplicate-free, all within the
      selected set and at most `maxfd`; a pending client has been sent the connection
      data only, an established one that and updates. */
  lemma StepKeeps(b: Book, e: Event)
    requires BookInv(b) && Possible(b, e)
    ensures BookInv(Step(b, e))
  {
    match e
    case PassEvent(fd, sendOk, rset, outcomes, failed) =>
      if b.sock in rset {
        AcceptKeeps(b, fd, sendOk);
      } else {
        DisconnectKeeps(b, rset, outcomes, failed);
        AcknowledgeKeeps(Disconnect(b, rset, outcomes, failed), rset, outcomes);
      }
    case NotifyEvent(size, lost) =>
  }

  ghost predicate IsHistory(b: Book, es: seq<Event>)
    decreases |es|
  {
    es == [] || (Possible(b, es[0]) && IsHistory(Step(b, es[0]), es[1..]))
  }

  ghost function Replay(b: Book, es: seq<Event>): Book
    requires IsHistory(b, es)
    decreases |es|
  {
    if es == [] then b else Replay(Step(b, es[0]), es[1..])
  }

  lemma {:induction false} HistoryKeeps(b: Book, es: seq<Event>)
    requires BookInv(b) && IsHistory(b, es)
    ensures BookInv(Replay(b, es))
    decreases |es|
  {
    if es != [] {
      StepKeeps(b, es[0]);
      HistoryKeeps(Step(b, es[0]), es[1..]);
    }
  }

  lemma InitKeeps(sock: nat)
    requires sock < FD_SETSIZE
    ensures BookInv(InitBook(sock))
  {
  }

  /** From the server's start, whatever its clients do. */
  lemma HistoryFromStart(sock: nat, es: seq<Event>)
    requires sock < FD_SETSIZE && IsHistory(InitBook(sock), es)
    ensures BookInv(Replay(InitBook(sock), es))
  {
    InitKeeps(sock);
    HistoryKeeps(InitBook(sock), es);
  }

  // ---------------------------------------------------------------- consequences

  /** The cast to `short` never loses a client: descriptors fit an `fd_set`. */
  lemma {:induction false} CountFits(fds: set<nat>, bound: nat)
    requires forall x :: x in fds ==> 0 <= x < bound
    ensures |fds| <= bound
    decreases bound
  {
    if bound == 0 {
      assert forall x :: x !in fds;
      assert fds == {};
    } else {
      CountFits(fds - {bound - 1}, bound - 1);
      assert fds <= (fds - {bound - 1}) + {bound - 1};
      SubsetLe(fds, (fds - {bound - 1}) + {bound - 1});
    }
  }

  lemma SubsetLe(a: set<nat>, b: set<nat>)
    requires a <= b
    ensures |a| <= |b|
  {
    assert b == a + (b - a);
  }

  lemma NotifiedFits(b: Book, size: nat, failed: set<nat>)
    requires BookInv(b)
    ensures var n := |Notify(b, size, failed).notified|;
            n <= FD_SETSIZE && ToShort(n) == n
  {
    CountFits(Notify(b, size, failed).notified, FD_SETSIZE);
  }

  // ---------------------------------------------------------------- what is selected

  /** The descriptors selected on are those of the listening socket and the clients. */
  predicate Watched(b: Book) {
    b.allset == {b.sock} + Elems(b.clients) + b.pending
  }

  /** The read of a pending client fails in this step. */
  predicate PendingReadFails(b: Book, e: Event) {
    e.PassEvent? && b.sock !in e.rset && WithOutcome(b.pending * e.rset, e.outcomes, ReadError) != {}
  }

  lemma DisconnectWatched(b: Book, rset: set<nat>, outcomes: map<nat, ReadOutcome>, failed: set<nat>)
    requires BookInv(b) && Watched(b) && rset <= outcomes.Keys && b.sock !in rset
    ensures Watched(Disconnect(b, rset, outcomes, failed))
  {
    var gone := Ready(b.clients, rset);
    assert Elems(Without(b.clients, gone)) == Elems(b.clients) - gone;
    assert forall c :: c in gone ==> c !in b.pending && c != b.sock;
  }

  lemma OutcomeParts(fds: set<nat>, outcomes: map<nat, ReadOutcome>)
    requires fds <= outcomes.Keys
    ensures fds == WithOutcome(fds, outcomes, ReadData) + WithOutcome(fds, outcomes, ReadEof)
                   + WithOutcome(fds, outcomes, ReadError)
    ensures WithOutcome(fds, outcomes, ReadEof) !! WithOutcome(fds, outcomes, ReadError) + WithOutcome(fds, outcomes, ReadData)
    ensures WithOutcome(fds, outcomes, ReadError) !! WithOutcome(fds, outcomes, ReadData)
  {
  }

  /** What is left selected when data is established, eof closed and bad only forgotten. */
  lemma SelectedLeft(clients: set<nat>, pending: set<nat>, data: set<nat>, eof: set<nat>, bad: set<nat>, sock: nat)
    requires data + eof + bad <= pending && clients !! pending && sock !in clients && sock !in pending
    requires eof !! bad + data && bad !! data
    ensures ({sock} + clients + pending) - eof == {sock} + (clients + data) + (pending - (data + eof + bad)) <==> bad == {}
  {
    if bad != {} {
      var p :| p in bad;
      assert p in ({sock} + clients + pending) - eof;
      assert p !in {sock} + (clients + data) + (pending - (data + eof + bad));
    }
  }

  lemma ElemsConcat(a: seq<nat>, b: seq<nat>)
    ensures Elems(a + b) == Elems(a) + Elems(b)
  {
  }

  lemma AcknowledgeWatched(b: Book, rset: set<nat>, outcomes: map<nat, ReadOutcome>)
    requires BookInv(b) && Watched(b) && b.sock !in rset && rset <= outcomes.Keys
    ensures Watched(Acknowledge(b, rset, outcomes)) <==> WithOutcome(b.pending * rset, outcomes, ReadError) == {}
  {
    var ready := b.pending * rset;
    OutcomeParts(ready, outcomes);
    var data, eof, bad := WithOutcome(ready, outcomes, ReadData), WithOutcome(ready, outcomes, ReadEof),
                          WithOutcome(ready, outcomes, ReadError);
    ElemsConcat(b.clients, Ascending(data));
    SelectedLeft(Elems(b.clients), b.pending, data, eof, bad, b.sock);
  }

  /** A step keeps the selected descriptors those of the clients if and only if no read of
      a pending client fails. */
  lemma WatchedExact(b: Book, e: Event)
    requires BookInv(b) && Watched(b) && Possible(b, e)
    ensures Watched(Step(b, e)) <==> !PendingReadFails(b, e)
  {
    match e
    case NotifyEvent(size, lost) =>
    case PassEvent(fd, sendOk, rset, outcomes, failed) =>
      if b.sock !in rset {
        DisconnectKeeps(b, rset, outcomes, failed);
        DisconnectWatched(b, rset, outcomes, failed);
        AcknowledgeWatched(Disconnect(b, rset, outcomes, failed), rset, outcomes);
      }
  }

  /** Selected and open, but nobody's. */
  predicate Forgotten(b: Book, p: nat) {
    p in b.allset && p != b.sock && p !in b.clients && p !in b.pending
  }

  lemma ForgottenStep(b: Book, e: Event, p: nat)
    requires BookInv(b) && Forgotten(b, p) && Possible(b, e)
    ensures Forgotten(Step(b, e), p)
  {
    match e
    case NotifyEvent(size, lost) =>
    case PassEvent(fd, sendOk, rset, outcomes, failed) =>
      if b.sock !in rset {
        var mid := Disconnect(b, rset, outcomes, failed);
        var acked := Ascending(WithOutcome(mid.pending * rset, outcomes, ReadData));
        assert forall c :: c in acked ==> c in Elems(acked);
        assert Forgotten(mid, p);
      }
  }

  /** Such a descriptor is never read, closed or used again, while `select` goes on
      reporting it. */
  lemma {:induction false} ForgottenForEver(b: Book, es: seq<Event>, p: nat)
    requires BookInv(b) && Forgotten(b, p) && IsHistory(b, es)
    ensures Forgotten(Replay(b, es), p) && p in Replay(b, es).open
    decreases |es|
  {
    if es != [] {
      ForgottenStep(b, es[0], p);
      StepKeeps(b, es[0]);
      ForgottenForEver(Step(b, es[0]), es[1..], p);
    }
  }

  // ---------------------------------------------------------------- who counts as notified

  /** Every connected client that counts as notified has been sent an update. */
  predicate Told(b: Book) {
    forall c :: c in b.notified && (c in b.clients || c in b.pending) ==> HasUpdate(Sent(b, c))
  }

  /** A connection is accepted on a descriptor that still counts as notified. */
  predicate Recycles(b: Book, e: Event) {
    e.PassEvent? && b.sock in e.rset && e.fd >= 0 && e.sendOk && e.fd in b.notified
  }

  lemma UpdateLast(log: seq<Msg>, size: nat)
    ensures HasUpdate(log + [UpdateMsg(size)])
  {
    assert (log + [UpdateMsg(size)])[|log|].UpdateMsg?;
  }

  lemma NotifyTells(b: Book, size: nat, lost: set<nat>)
    requires BookInv(b)
    ensures Told(Notify(b, size, lost))
  {
    var after := Notify(b, size, lost);
    forall c | c in after.notified ensures HasUpdate(Sent(after, c)) {
      UpdateLast(Sent(b, c), size);
      assert Sent(after, c) == Sent(b, c) + [UpdateMsg(size)];
    }
  }

  lemma AcceptToldExact(b: Book, fd: int, sendOk: bool)
    requires BookInv(b) && Told(b) && (fd >= 0 ==> fd !in b.open && fd < FD_SETSIZE)
    ensures Told(Accept(b, fd, sendOk)) <==> !(fd >= 0 && sendOk && fd in b.notified)
  {
    var after := Accept(b, fd, sendOk);
    if fd >= 0 {
      forall c | c in b.notified && (c in b.clients || c in b.pending) ensures Sent(after, c) == Sent(b, c) {
        assert c in b.open;
      }
      if sendOk {
        assert Sent(after, fd) == [ConnectMsg] && !HasUpdate([ConnectMsg]);
      }
    }
  }

  lemma DisconnectTells(b: Book, rset: set<nat>, outcomes: map<nat, ReadOutcome>, failed: set<nat>)
    requires BookInv(b) && Told(b) && rset <= outcomes.Keys && b.sock !in rset
    ensures Told(Disconnect(b, rset, outcomes, failed))
  {
    var after := Disconnect(b, rset, outcomes, failed);
    forall c | c in after.clients || c in after.pending ensures Sent(after, c) == Sent(b, c) {
    }
  }

  lemma AcknowledgeTells(b: Book, rset: set<nat>, outcomes: map<nat, ReadOutcome>)
    requires BookInv(b) && Told(b)
    ensures Told(Acknowledge(b, rset, outcomes))
  {
    var acked := Ascending(WithOutcome(b.pending * rset, outcomes, ReadData));
    var after := Acknowledge(b, rset, outcomes);
    forall c | c in after.clients ensures c in b.clients || c in b.pending {
      if c !in b.clients {
        assert c in Elems(acked);
      }
    }
  }

  /** A step makes a client count as notified without an update if and only if it accepts
      a connection on a descriptor in `clients_notified_`. */
  lemma ToldExact(b: Book, e: Event)
    requires BookInv(b) && Told(b) && Possible(b, e)
    ensures Told(Step(b, e)) <==> !Recycles(b, e)
  {
    match e
    case NotifyEvent(size, lost) => NotifyTells(b, size, lost);
    case PassEvent(fd, sendOk, rset, outcomes, failed) =>
      if b.sock in rset {
        AcceptToldExact(b, fd, sendOk);
      } else {
        DisconnectTells(b, rset, outcomes, failed);
        DisconnectKeeps(b, rset, outcomes, failed);
        AcknowledgeTells(Disconnect(b, rset, outcomes, failed), rset, outcomes);
      }
  }

  /** No step of the history recycles such a descriptor. */
  ghost predicate NeverRecycles(b: Book, es: seq<Event>)
    requires IsHistory(b, es)
    decreases |es|
  {
    es == [] || (!Recycles(b, es[0]) && NeverRecycles(Step(b, es[0]), es[1..]))
  }

  /** Every book along the history is told. */
  ghost predicate AlwaysTold(b: Book, es: seq<Event>)
    requires IsHistory(b, es)
    decreases |es|
  {
    Told(b) && (es == [] || AlwaysTold(Step(b, es[0]), es[1..]))
  }

  /** Over whole histories: a client counts as notified without an update at some point if
      and only if such a descriptor is recycled at some point. */
  lemma {:induction false} AlwaysToldExact(b: Book, es: seq<Event>)
    requires BookInv(b) && Told(b) && IsHistory(b, es)
    ensures AlwaysTold(b, es) <==> NeverRecycles(b, es)
    decreases |es|
  {
    if es != [] {
      ToldExact(b, es[0]);
      StepKeeps(b, es[0]);
      if Told(Step(b, es[0])) {
        AlwaysToldExact(Step(b, es[0]), es[1..]);
      }
    }
  }

  /** A set of books closed under the server's steps. */
  ghost predicate Closed(R: Book -> bool) {
    forall b, e :: R(b) && Possible(b, e) ==> R(Step(b, e))
  }

  ghost predicate Reaches(b0: Book, b: Book) {
    exists es :: IsHistory(b0, es) && Replay(b0, es) == b
  }

  lemma {:induction false} HistorySnoc(b: Book, es: seq<Event>, e: Event)
    requires IsHistory(b, es) && Possible(Replay(b, es), e)
    ensures IsHistory(b, es + [e]) && Replay(b, es + [e]) == Step(Replay(b, es), e)
    decreases |es|
  {
    if es == [] {
      assert [e][1..] == [];
    } else {
      HistorySnoc(Step(b, es[0]), es[1..], e);
      assert (es + [e])[1..] == es[1..] + [e];
    }
  }

  lemma ReachesIsClosed(b0: Book)
    ensures Closed((b: Book) => Reaches(b0, b)) && Reaches(b0, b0)
  {
    assert IsHistory(b0, []);
    forall b, e | Reaches(b0, b) && Possible(b, e) ensures Reaches(b0, Step(b, e)) {
      var es :| IsHistory(b0, es) && Replay(b0, es) == b;
      HistorySnoc(b0, es, e);
    }
  }

  /** A client on the free descriptor 4 connects and acknowledges. */
  lemma ClientArrives(R: Book -> bool, notified: set<nat>, maxfd: nat, acked: set<nat>, sent: map<nat, seq<Msg>>)
    requires Closed(R) && R(Book(3, [], {}, notified, {3}, maxfd, {3}, acked, sent)) && maxfd <= 4
    ensures R(Book(3, [4], {}, notified, {3, 4}, 4, {3, 4}, acked + {4}, sent[4 := [ConnectMsg]]))
  {
    var b := Book(3, [], {}, notified, {3}, maxfd, {3}, acked, sent);
    var hello := PassEvent(4, true, {3}, map[3 := ReadData], {});
    var b1 := Book(3, [], {4}, notified, {3, 4}, 4, {3, 4}, acked - {4}, sent[4 := [ConnectMsg]]);
    assert Step(b, hello) == b1;
    var data := PassEvent(-1, true, {4}, map[4 := ReadData], {});
    AscendingOne(4);
    assert WithOutcome({4}, map[4 := ReadData], ReadData) == {4};
    assert WithOutcome({4}, map[4 := ReadData], ReadEof) == {};
    assert b1.pending * {4} == {4} && Ready([], {4}) == {};
    assert acked - {4} + {4} == acked + {4};
    assert Step(b1, data) == Book(3, [4], {}, notified, {3, 4}, 4, {3, 4}, acked + {4}, sent[4 := [ConnectMsg]]);
  }

  lemma ClientNotified(R: Book -> bool)
    requires Closed(R) && R(Book(3, [4], {}, {}, {3, 4}, 4, {3, 4}, {4}, map[4 := [ConnectMsg]]))
    ensures R(Book(3, [4], {}, {4}, {3, 4}, 4, {3, 4}, {4}, map[4 := [ConnectMsg, UpdateMsg(1)]]))
  {
    var b2 := Book(3, [4], {}, {}, {3, 4}, 4, {3, 4}, {4}, map[4 := [ConnectMsg]]);
    assert Elems([4]) == {4};
    assert [ConnectMsg] + [UpdateMsg(1)] == [ConnectMsg, UpdateMsg(1)];
    assert {4} - {} == {4};
    assert Step(b2, NotifyEvent(1, {}))
        == Book(3, [4], {}, {4}, {3, 4}, 4, {3, 4}, {4}, map[4 := [ConnectMsg, UpdateMsg(1)]]);
  }

  lemma ClientGone(b: Book, log: seq<Msg>)
    requires b == Book(3, [4], {}, {4}, {3, 4}, 4, {3, 4}, {4}, map[4 := log])
    ensures Disconnect(b, {4}, map[4 := ReadData], {})
         == Book(3, [], {}, {4}, {3}, 4, {3}, {4}, map[4 := log + [QuitMsg]])
  {
    assert Ready([4], {4}) == {4};
    assert WithOutcome({4}, map[4 := ReadData], ReadData) - {} == {4};
    assert Without([4], {4}) == [];
    assert Tell(map[4 := log], {4}, QuitMsg) == map[4 := log + [QuitMsg]];
  }

  lemma NobodyAcks(b: Book, rset: set<nat>, outcomes: map<nat, ReadOutcome>)
    requires b.pending == {}
    ensures Acknowledge(b, rset, outcomes) == b
  {
    assert b.pending * rset == {};
    assert WithOutcome({}, outcomes, ReadData) == {} && WithOutcome({}, outcomes, ReadEof) == {};
    assert Ascending({}) == [] && b.clients + [] == b.clients;
  }

  lemma Takes(R: Book -> bool, b: Book, e: Event, after: Book)
    requires Closed(R) && R(b) && Possible(b, e) && Step(b, e) == after
    ensures R(after)
  {
  }

  lemma PassGone(b: Book, log: seq<Msg>)
    requires b == Book(3, [4], {}, {4}, {3, 4}, 4, {3, 4}, {4}, map[4 := log])
    ensures Pass(b, -1, true, {4}, map[4 := ReadData], {})
         == Book(3, [], {}, {4}, {3}, 4, {3}, {4}, map[4 := log + [QuitMsg]])
  {
    ClientGone(b, log);
    NobodyAcks(Disconnect(b, {4}, map[4 := ReadData], {}), {4}, map[4 := ReadData]);
  }

  /** It is notified, then quits. */
  lemma ClientLeaves(R: Book -> bool)
    requires Closed(R) && R(Book(3, [4], {}, {}, {3, 4}, 4, {3, 4}, {4}, map[4 := [ConnectMsg]]))
    ensures R(Book(3, [], {}, {4}, {3}, 4, {3}, {4}, map[4 := [ConnectMsg, UpdateMsg(1)] + [QuitMsg]]))
  {
    ClientNotified(R);
    var log := [ConnectMsg, UpdateMsg(1)];
    var b3 := Book(3, [4], {}, {4}, {3, 4}, 4, {3, 4}, {4}, map[4 := log]);
    PassGone(b3, log);
    Takes(R, b3, PassEvent(-1, true, {4}, map[4 := ReadData], {}),
          Book(3, [], {}, {4}, {3}, 4, {3}, {4}, map[4 := log + [QuitMsg]]));
  }

  /** `clients_notified_` is not cleaned when a client leaves: once its descriptor is
      reused, a client that was never notified is in it, and a read error on it would
      cancel a token it does not owe. */
  lemma NotifiedOutlivesClient()
    ensures exists b, fd :: Reaches(InitBook(3), b) && fd in b.clients && fd in b.notified
              && Sent(b, fd) == [ConnectMsg]
  {
    ReachesIsClosed(InitBook(3));
    var R := (b: Book) => Reaches(InitBook(3), b);
    ClientArrives(R, {}, 3, {}, map[]);
    assert {} + {4} == {4};
    ClientLeaves(R);
    ClientArrives(R, {4}, 4, {4}, map[4 := [ConnectMsg, UpdateMsg(1)] + [QuitMsg]]);
    var b := Book(3, [4], {}, {4}, {3, 4}, 4, {3, 4}, {4} + {4},
                  map[4 := [ConnectMsg, UpdateMsg(1)] + [QuitMsg]][4 := [ConnectMsg]]);
    assert Reaches(InitBook(3), b) && 4 in b.clients;
  }

  lemma AscendingOne(x: nat)
    ensures Ascending({x}) == [x]
  {
    AscendingLeast({x}, x);
    assert {x} - {x} == {};
  }
}
