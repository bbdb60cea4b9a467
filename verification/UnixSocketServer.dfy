/** The socket server as it runs (shmdata/unix-socket-server.cpp): loops over its
    client vectors and sets, each proved against the bookkeeping of `SocketServer`. */
module UnixSocketServer {
  import opened SocketServer

  // ---------------------------------------------------------------- callbacks, in call order

  /** What the walk over the established clients calls. */
  function DisconnectCalls(clients: seq<nat>, rset: set<nat>, outcomes: map<nat, ReadOutcome>,
                           notified: set<nat>): seq<Callback>
    requires rset <= outcomes.Keys
  {
    if clients == [] then []
    else
      var c := clients[|clients| - 1];
      DisconnectCalls(clients[..|clients| - 1], rset, outcomes, notified)
      + if c in rset then CallsFor(c, outcomes[c], notified) else []
  }

  function CallsFor(c: nat, outcome: ReadOutcome, notified: set<nat>): seq<Callback> {
    match outcome
    case ReadError => if c in notified then [OnClientError(c)] else []
    case ReadEof => []
    case ReadData => [OnDisconnect(c)]
  }

  function ConnectCalls(acked: seq<nat>): seq<Callback> {
    seq(|acked|, i requires 0 <= i < |acked| => OnConnect(acked[i]))
  }

  /** The error callback is for notified clients whose read failed, and for nobody else. */
  lemma {:induction false} ErrorCallsExact(clients: seq<nat>, rset: set<nat>, outcomes: map<nat, ReadOutcome>,
                                           notified: set<nat>, fd: nat)
    requires rset <= outcomes.Keys
    ensures OnClientError(fd) in DisconnectCalls(clients, rset, outcomes, notified)
            <==> fd in clients && fd in rset && outcomes[fd] == ReadError && fd in notified
    decreases |clients|
  {
    if clients != [] {
      var front := clients[..|clients| - 1];
      ErrorCallsExact(front, rset, outcomes, notified, fd);
      assert clients == front + [clients[|clients| - 1]];
    }
  }

  // ---------------------------------------------------------------- removal from a vector

  lemma {:induction false} WithoutAbsent(s: seq<nat>, gone: set<nat>)
    requires forall x :: x in s ==> x !in gone
    ensures Without(s, gone) == s
    decreases |s|
  {
    if s != [] {
      WithoutAbsent(s[1..], gone);
      assert s == [s[0]] + s[1..];
    }
  }

  lemma {:induction false} WithoutAt(s: seq<nat>, k: nat)
    requires NoDup(s) && k < |s|
    ensures Without(s, {s[k]}) == s[..k] + s[k + 1..]
    decreases k
  {
    var rest := s[1..];
    if k == 0 {
      WithoutAbsent(rest, {s[0]});
    } else {
      WithoutAt(rest, k - 1);
      assert rest[..k - 1] == s[1..k] && rest[k..] == s[k + 1..];
      assert [s[0]] + s[1..k] == s[..k];
    }
  }

  lemma {:induction false} WithoutTwice(s: seq<nat>, a: set<nat>, b: set<nat>)
    ensures Without(Without(s, a), b) == Without(s, a + b)
    decreases |s|
  {
    if s != [] {
      WithoutTwice(s[1..], a, b);
      var r := Without(s[1..], a);
      assert s[0] !in a ==> ([s[0]] + r)[1..] == r;
    }
  }

  // ---------------------------------------------------------------- one more element

  lemma OutcomeSnoc(fds: set<nat>, it: nat, outcomes: map<nat, ReadOutcome>, o: ReadOutcome)
    requires it in outcomes
    ensures WithOutcome(fds + {it}, outcomes, o)
         == WithOutcome(fds, outcomes, o) + if outcomes[it] == o then {it} else {}
  {
  }

  lemma SplitAgain<T>(a: seq<T>, b: seq<T>, c: seq<T>)
    ensures a + (b + c) == a + b + c
  {
  }

  lemma ConnectCallsSnoc(acked: seq<nat>, it: nat)
    ensures ConnectCalls(acked + [it]) == ConnectCalls(acked) + [OnConnect(it)]
  {
  }

  lemma OutcomeRest(todo: set<nat>, rset: set<nat>, it: nat, outcomes: map<nat, ReadOutcome>)
    requires IsLeast(it, todo) && rset <= outcomes.Keys
    ensures var left := WithOutcome(todo * rset, outcomes, ReadData);
            Ascending(left)
            == var rest := Ascending(WithOutcome((todo - {it}) * rset, outcomes, ReadData));
               if it in rset && outcomes[it].ReadData? then [it] + rest else rest
  {
    var left := WithOutcome(todo * rset, outcomes, ReadData);
    var rest := WithOutcome((todo - {it}) * rset, outcomes, ReadData);
    if it in rset && outcomes[it].ReadData? {
      assert rest == left - {it};
      AscendingLeast(left, it);
    } else {
      assert rest == left;
    }
  }

  /** Half-way through the pending clients: `todo` is left, `added` were established. */
  ghost predicate WalkInv(pending: set<nat>, rset: set<nat>, outcomes: map<nat, ReadOutcome>, todo: set<nat>,
                          toRemove: set<nat>, added: seq<nat>)
  {
    todo <= pending && toRemove == (pending - todo) * rset
    && added + Ascending(WithOutcome(todo * rset, outcomes, ReadData))
       == Ascending(WithOutcome(pending * rset, outcomes, ReadData))
  }

  lemma WalkStep(pending: set<nat>, rset: set<nat>, outcomes: map<nat, ReadOutcome>, todo: set<nat>,
                 toRemove: set<nat>, added: seq<nat>, it: nat)
    requires WalkInv(pending, rset, outcomes, todo, toRemove, added)
    requires IsLeast(it, todo) && rset <= outcomes.Keys
    ensures WalkInv(pending, rset, outcomes, todo - {it},
                    if it in rset then toRemove + {it} else toRemove,
                    if it in rset && outcomes[it].ReadData? then added + [it] else added)
  {
    OutcomeRest(todo, rset, it, outcomes);
    SplitAgain(added, [it], Ascending(WithOutcome((todo - {it}) * rset, outcomes, ReadData)));
    assert (pending - (todo - {it})) * rset == (pending - todo) * rset + ({it} * rset);
  }

  lemma WalkEnd(pending: set<nat>, rset: set<nat>, outcomes: map<nat, ReadOutcome>,
                toRemove: set<nat>, added: seq<nat>)
    requires WalkInv(pending, rset, outcomes, {}, toRemove, added)
    ensures toRemove == pending * rset && added == Ascending(WithOutcome(toRemove, outcomes, ReadData))
  {
    assert WithOutcome({} * rset, outcomes, ReadData) == {};
  }

  /** What the walk over the pending clients changes. */
  datatype AckEffects = AckEffects(clients: seq<nat>, allset: set<nat>, callbacks: seq<Callback>)

  function AfterAck(e: AckEffects, it: nat, outcome: ReadOutcome): AckEffects {
    match outcome
    case ReadError => e
    case ReadEof => e.(allset := e.allset - {it})
    case ReadData => e.(clients := e.clients + [it], callbacks := e.callbacks + [OnConnect(it)])
  }

  function AfterAcks(e: AckEffects, walked: set<nat>, added: seq<nat>, outcomes: map<nat, ReadOutcome>): AckEffects {
    AckEffects(e.clients + added, e.allset - WithOutcome(walked, outcomes, ReadEof), e.callbacks + ConnectCalls(added))
  }

  lemma AfterNoAcks(e: AckEffects, outcomes: map<nat, ReadOutcome>)
    ensures AfterAcks(e, {}, [], outcomes) == e
  {
    assert WithOutcome({}, outcomes, ReadEof) == {};
    assert e.clients + [] == e.clients && e.callbacks + [] == e.callbacks;
  }

  lemma AfterAcksStep(e: AckEffects, walked: set<nat>, added: seq<nat>, it: nat, outcomes: map<nat, ReadOutcome>)
    requires it in outcomes
    ensures AfterAcks(e, walked + {it}, if outcomes[it].ReadData? then added + [it] else added, outcomes)
         == AfterAck(AfterAcks(e, walked, added, outcomes), it, outcomes[it])
  {
    OutcomeSnoc(walked, it, outcomes, ReadEof);
    ConnectCallsSnoc(added, it);
    SplitAgain(e.clients, added, [it]);
    SplitAgain(e.callbacks, ConnectCalls(added), [OnConnect(it)]);
  }

  // ---------------------------------------------------------------- the server

  lemma RemoveStep(order: seq<nat>, toRemove: seq<nat>, k: nat)
    requires k < |toRemove|
    ensures Without(Without(order, Elems(toRemove[..k])), {toRemove[k]}) == Without(order, Elems(toRemove[..k + 1]))
  {
    WithoutTwice(order, Elems(toRemove[..k]), {toRemove[k]});
    assert toRemove[..k + 1] == toRemove[..k] + [toRemove[k]];
    assert Elems(toRemove[..k + 1]) == Elems(toRemove[..k]) + {toRemove[k]};
  }

  // ---------------------------------------------------------------- the walk over the clients

  /** What the walk over the established clients changes. */
  datatype Effects = Effects(allset: set<nat>, open: set<nat>, sent: map<nat, seq<Msg>>, callbacks: seq<Callback>)

  function AfterReady(e: Effects, it: nat, outcome: ReadOutcome, failed: set<nat>, notified: set<nat>): Effects {
    Effects(e.allset - {it}, e.open - {it},
            if outcome.ReadData? && it !in failed then e.sent[it := LogOf(e.sent, it) + [QuitMsg]] else e.sent,
            e.callbacks + CallsFor(it, outcome, notified))
  }

  function AfterWalk(e: Effects, clients: seq<nat>, rset: set<nat>, outcomes: map<nat, ReadOutcome>,
                     failed: set<nat>, notified: set<nat>): Effects
    requires rset <= outcomes.Keys
  {
    var gone := Ready(clients, rset);
    Effects(e.allset - gone, e.open - gone,
            Tell(e.sent, WithOutcome(gone, outcomes, ReadData) - failed, QuitMsg),
            e.callbacks + DisconnectCalls(clients, rset, outcomes, notified))
  }

  /** One more client. */
  lemma ReadyStep(clients: seq<nat>, i: nat, rset: set<nat>)
    requires i < |clients| && NoDup(clients)
    ensures clients[i] !in Ready(clients[..i], rset)
    ensures Ready(clients[..i + 1], rset) == Ready(clients[..i], rset) + (if clients[i] in rset then {clients[i]} else {})
  {
    assert clients[..i + 1] == clients[..i] + [clients[i]];
    assert clients[i] !in clients[..i];
  }

  lemma CallsStep(clients: seq<nat>, i: nat, rset: set<nat>, outcomes: map<nat, ReadOutcome>, notified: set<nat>)
    requires i < |clients| && rset <= outcomes.Keys
    ensures DisconnectCalls(clients[..i + 1], rset, outcomes, notified)
         == DisconnectCalls(clients[..i], rset, outcomes, notified)
            + if clients[i] in rset then CallsFor(clients[i], outcomes[clients[i]], notified) else []
  {
    assert clients[..i + 1][..i] == clients[..i];
  }

  lemma TellStep(sent: map<nat, seq<Msg>>, gone: set<nat>, it: nat, outcomes: map<nat, ReadOutcome>, failed: set<nat>)
    requires it !in gone && it in outcomes
    ensures var told := Tell(sent, WithOutcome(gone, outcomes, ReadData) - failed, QuitMsg);
            Tell(sent, WithOutcome(gone + {it}, outcomes, ReadData) - failed, QuitMsg)
            == if outcomes[it].ReadData? && it !in failed then told[it := LogOf(told, it) + [QuitMsg]] else told
  {
    OutcomeSnoc(gone, it, outcomes, ReadData);
    var fds := WithOutcome(gone, outcomes, ReadData) - failed;
    var more := WithOutcome(gone + {it}, outcomes, ReadData) - failed;
    if outcomes[it].ReadData? && it !in failed {
      TellOne(sent, fds, it, QuitMsg);
      assert more == fds + {it};
    } else {
      assert more == fds;
    }
  }

  lemma AfterWalkStep(e: Effects, clients: seq<nat>, i: nat, rset: set<nat>, outcomes: map<nat, ReadOutcome>,
                      failed: set<nat>, notified: set<nat>)
    requires i < |clients| && NoDup(clients) && rset <= outcomes.Keys
    ensures var before := AfterWalk(e, clients[..i], rset, outcomes, failed, notified);
            AfterWalk(e, clients[..i + 1], rset, outcomes, failed, notified)
            == if clients[i] in rset then AfterReady(before, clients[i], outcomes[clients[i]], failed, notified)
               else before
  {
    ReadyStep(clients, i, rset);
    CallsStep(clients, i, rset, outcomes, notified);
    var it, gone := clients[i], Ready(clients[..i], rset);
    if it in rset {
      TellStep(e.sent, gone, it, outcomes, failed);
      SplitAgain(e.callbacks, DisconnectCalls(clients[..i], rset, outcomes, notified), CallsFor(it, outcomes[it], notified));
      assert e.allset - (gone + {it}) == e.allset - gone - {it};
      assert e.open - (gone + {it}) == e.open - gone - {it};
    } else {
      assert gone + {} == gone;
      assert DisconnectCalls(clients[..i], rset, outcomes, notified) + [] == DisconnectCalls(clients[..i], rset, outcomes, notified);
    }
  }

  // ---------------------------------------------------------------- the server

  class Server {
    const sock: nat
    var clients: seq<nat>
    var pendingClients: set<nat>
    var clientsNotified: set<nat>
    var allset: set<nat>
    var maxfd: nat
    var callbacks: seq<Callback>
    ghost var open: set<nat>
    ghost var acked: set<nat>
    ghost var sent: map<nat, seq<Msg>>

    ghost function Value(): Book
      reads this
    {
      Book(sock, clients, pendingClients, clientsNotified, allset, maxfd, open, acked, sent)
    }

    ghost predicate Valid()
      reads this
    {
      BookInv(Value())
    }

    constructor (sock: nat)
      requires sock < FD_SETSIZE
      ensures Valid() && Value() == InitBook(sock) && callbacks == []
    {
      this.sock := sock;
      clients, pendingClients, clientsNotified, callbacks := [], {}, {}, [];
      allset, maxfd, open, acked, sent := {sock}, sock, {sock}, {}, map[];
    }

    /** The sends of `notify_update`. */
    method SendUpdates(size: nat, failed: set<nat>)
      requires NoDup(clients)
      modifies this`clientsNotified, this`sent
      ensures clientsNotified == Elems(clients) - failed
      ensures sent == Tell(old(sent), clientsNotified, UpdateMsg(size))
    {
      clientsNotified := {};
      var i := 0;
      while i < |clients|
        invariant 0 <= i <= |clients|
        invariant clientsNotified == Elems(clients[..i]) - failed
        invariant sent == Tell(old(sent), clientsNotified, UpdateMsg(size))
      {
        var it := clients[i];
        assert clients[..i + 1] == clients[..i] + [it];
        assert it !in clients[..i];
        if it !in failed {
          TellOne(old(sent), clientsNotified, it, UpdateMsg(size));
          sent := sent[it := LogOf(sent, it) + [UpdateMsg(size)]];
          clientsNotified := clientsNotified + {it};
        }
        i := i + 1;
      }
      assert clients[..i] == clients;
    }

    /** Returns the number of clients the update was sent to: exactly the successful
        sends, in spite of the cast to `short`. */
    method NotifyUpdate(size: nat, failed: set<nat>) returns (n: int)
      requires Valid()
      modifies this`clientsNotified, this`sent
      ensures Valid() && Value() == Notify(old(Value()), size, failed)
      ensures n == |Elems(clients) - failed| == |clientsNotified|
    {
      StepKeeps(Value(), NotifyEvent(size, failed));
      NotifiedFits(Value(), size, failed);
      SendUpdates(size, failed);
      n := ToShort(|clientsNotified|);
    }

    /** The branch of the loop that accepts a client. */
    method AcceptClient(clifd: int, sendOk: bool)
      requires Valid() && (clifd >= 0 ==> clifd !in open && clifd < FD_SETSIZE)
      modifies this`pendingClients, this`allset, this`maxfd, this`open, this`acked, this`sent
      ensures Valid() && Value() == Accept(old(Value()), clifd, sendOk)
    {
      AcceptKeeps(Value(), clifd, sendOk);
      if clifd >= 0 {
        open, acked := open + {clifd}, acked - {clifd};
        sent := sent[clifd := if sendOk then [ConnectMsg] else []];
        if sendOk {
          if clifd > maxfd {
            maxfd := clifd;
          }
          allset := allset + {clifd};
          pendingClients := pendingClients + {clifd};
        }
      }
    }

    /** `std::find` then `erase`: the element is always there. */
    method EraseClient(it: nat)
      requires it in clients && NoDup(clients)
      modifies this`clients
      ensures clients == Without(old(clients), {it}) && NoDup(clients)
    {
      var k := 0;
      while clients[k] != it
        invariant 0 <= k < |clients| && it !in clients[..k]
        invariant it in clients[k..]
        decreases |clients| - k
      {
        assert clients[k..] == [clients[k]] + clients[k + 1..];
        k := k + 1;
      }
      WithoutAt(clients, k);
      clients := clients[..k] + clients[k + 1..];
    }

    /** One established client with something to read. */
    method HandleReady(it: nat, outcome: ReadOutcome, failed: set<nat>)
      modifies this`allset, this`open, this`sent, this`callbacks
      ensures allset == old(allset) - {it} && open == old(open) - {it}
      ensures sent == if outcome.ReadData? && it !in failed
                      then old(sent)[it := LogOf(old(sent), it) + [QuitMsg]] else old(sent)
      ensures callbacks == old(callbacks) + CallsFor(it, outcome, clientsNotified)
    {
      match outcome {
        case ReadError =>
          if it in clientsNotified {
            callbacks := callbacks + [OnClientError(it)];
          }
        case ReadEof =>
        case ReadData =>
          if it !in failed {
            sent := sent[it := LogOf(sent, it) + [QuitMsg]];
          }
          callbacks := callbacks + [OnDisconnect(it)];
      }
      allset, open := allset - {it}, open - {it};
    }

    /** The walk over the established clients. */
    method WalkClients(rset: set<nat>, outcomes: map<nat, ReadOutcome>, failed: set<nat>)
      returns (toRemove: seq<nat>)
      requires NoDup(clients) && rset <= outcomes.Keys
      modifies this`allset, this`open, this`sent, this`callbacks
      ensures NoDup(toRemove) && Elems(toRemove) == Ready(clients, rset)
      ensures allset == old(allset) - Elems(toRemove) && open == old(open) - Elems(toRemove)
      ensures sent == Tell(old(sent), WithOutcome(Elems(toRemove), outcomes, ReadData) - failed, QuitMsg)
      ensures callbacks == old(callbacks) + DisconnectCalls(clients, rset, outcomes, clientsNotified)
    {
      toRemove := [];
      ghost var before := Effects(allset, open, sent, callbacks);
      var i := 0;
      while i < |clients|
        invariant 0 <= i <= |clients|
        invariant NoDup(toRemove) && Elems(toRemove) == Ready(clients[..i], rset)
        invariant Effects(allset, open, sent, callbacks)
               == AfterWalk(before, clients[..i], rset, outcomes, failed, clientsNotified)
      {
        var it := clients[i];
        ReadyStep(clients, i, rset);
        AfterWalkStep(before, clients, i, rset, outcomes, failed, clientsNotified);
        if it in rset {
          HandleReady(it, outcomes[it], failed);
          assert Elems(toRemove + [it]) == Elems(toRemove) + {it};
          toRemove := toRemove + [it];
        }
        i := i + 1;
      }
      assert clients[..i] == clients;
    }

    /** Established clients with something to read are handled, then removed. */
    method CheckDisconnections(rset: set<nat>, outcomes: map<nat, ReadOutcome>, failed: set<nat>)
      requires Valid() && rset <= outcomes.Keys && sock !in rset
      modifies this`clients, this`allset, this`open, this`sent, this`callbacks
      ensures Valid() && Value() == Disconnect(old(Value()), rset, outcomes, failed)
      ensures callbacks == old(callbacks) + DisconnectCalls(old(clients), rset, outcomes, clientsNotified)
    {
      DisconnectKeeps(Value(), rset, outcomes, failed);
      var toRemove := WalkClients(rset, outcomes, failed);
      RemoveAll(toRemove);
    }

    method RemoveAll(toRemove: seq<nat>)
      requires NoDup(toRemove) && NoDup(clients) && Elems(toRemove) <= Elems(clients)
      modifies this`clients
      ensures clients == Without(old(clients), Elems(toRemove))
    {
      var k := 0;
      WithoutAbsent(clients, {});
      assert Elems(toRemove[..0]) == {};
      while k < |toRemove|
        invariant 0 <= k <= |toRemove|
        invariant clients == Without(old(clients), Elems(toRemove[..k])) && NoDup(clients)
      {
        var it := toRemove[k];
        assert it in Elems(toRemove) && it !in toRemove[..k];
        EraseClient(it);
        RemoveStep(old(clients), toRemove, k);
        k := k + 1;
      }
      assert toRemove[..k] == toRemove;
    }

    /** One pending client with something to read. */
    method HandleAck(it: nat, outcome: ReadOutcome)
      modifies this`clients, this`allset, this`callbacks
      ensures clients == if outcome.ReadData? then old(clients) + [it] else old(clients)
      ensures callbacks == if outcome.ReadData? then old(callbacks) + [OnConnect(it)] else old(callbacks)
      ensures allset == if outcome.ReadEof? then old(allset) - {it} else old(allset)
    {
      match outcome {
        case ReadError =>
        case ReadEof =>
          allset := allset - {it};
        case ReadData =>
          clients := clients + [it];
          callbacks := callbacks + [OnConnect(it)];
      }
    }

    /** The walk over the pending clients, in the order of the set. */
    method WalkPending(rset: set<nat>, outcomes: map<nat, ReadOutcome>) returns (toRemove: set<nat>)
      requires rset <= outcomes.Keys
      modifies this`clients, this`allset, this`callbacks
      ensures toRemove == pendingClients * rset
      ensures var added := WithOutcome(toRemove, outcomes, ReadData);
              clients == old(clients) + Ascending(added)
              && callbacks == old(callbacks) + ConnectCalls(Ascending(added))
      ensures allset == old(allset) - WithOutcome(toRemove, outcomes, ReadEof)
    {
      var todo := pendingClients;
      toRemove := {};
      ghost var added: seq<nat> := [];
      ghost var before := AckEffects(clients, allset, callbacks);
      AfterNoAcks(before, outcomes);
      while todo != {}
        invariant WalkInv(pendingClients, rset, outcomes, todo, toRemove, added)
        invariant AckEffects(clients, allset, callbacks) == AfterAcks(before, toRemove, added, outcomes)
        decreases todo
      {
        LeastExists(todo);
        var it :| IsLeast(it, todo);
        WalkStep(pendingClients, rset, outcomes, todo, toRemove, added, it);
        if it in rset {
          HandleAck(it, outcomes[it]);
          AfterAcksStep(before, toRemove, added, it, outcomes);
          added := if outcomes[it].ReadData? then added + [it] else added;
          toRemove := toRemove + {it};
        }
        todo := todo - {it};
      }
      WalkEnd(pendingClients, rset, outcomes, toRemove, added);
    }

    /** Acknowledgements are read, and clients stop pending. */
    method CheckAcks(rset: set<nat>, outcomes: map<nat, ReadOutcome>)
      requires Valid() && rset <= outcomes.Keys && sock !in rset
      modifies this`clients, this`pendingClients, this`allset, this`open, this`acked, this`callbacks
      ensures Valid() && Value() == Acknowledge(old(Value()), rset, outcomes)
      ensures callbacks
           == old(callbacks) + ConnectCalls(Ascending(WithOutcome(old(pendingClients) * rset, outcomes, ReadData)))
    {
      AcknowledgeKeeps(Value(), rset, outcomes);
      var toRemove := WalkPending(rset, outcomes);
      pendingClients := pendingClients - toRemove;
      open := open - WithOutcome(toRemove, outcomes, ReadEof);
      acked := acked + WithOutcome(toRemove, outcomes, ReadData);
    }

    /** One pass of `client_interaction`. */
    method ClientInteraction(clifd: int, sendOk: bool, rset: set<nat>, outcomes: map<nat, ReadOutcome>,
                             failed: set<nat>)
      requires Valid() && Possible(Value(), PassEvent(clifd, sendOk, rset, outcomes, failed))
      modifies this
      ensures Valid() && Value() == Step(old(Value()), PassEvent(clifd, sendOk, rset, outcomes, failed))
    {
      if sock in rset {
        AcceptClient(clifd, sendOk);
      } else {
        CheckDisconnections(rset, outcomes, failed);
        CheckAcks(rset, outcomes);
      }
    }

    /** The destructor's last words: one quit to every established client. */
    method SendQuit(failed: set<nat>)
      requires Valid()
      modifies this`sent
      ensures Value() == QuitAll(old(Value()), failed)
      ensures forall fd :: fd in clients && fd !in failed ==>
                Sent(Value(), fd) == Sent(old(Value()), fd) + [QuitMsg] && IsTalk(Sent(old(Value()), fd))
    {
      ghost var told: set<nat> := {};
      var i := 0;
      while i < |clients|
        invariant 0 <= i <= |clients|
        invariant told == Elems(clients[..i]) - failed && sent == Tell(old(sent), told, QuitMsg)
      {
        var it := clients[i];
        assert clients[..i + 1] == clients[..i] + [it];
        assert it !in clients[..i];
        assert Elems(clients[..i + 1]) == Elems(clients[..i]) + {it};
        if it !in failed {
          TellOne(old(sent), told, it, QuitMsg);
          sent := sent[it := LogOf(sent, it) + [QuitMsg]];
          told := told + {it};
        }
        i := i + 1;
      }
      assert clients[..i] == clients;
    }
  }
}
