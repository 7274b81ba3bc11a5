/**
 * The server loop of the chat demo (`RunServer`): the connection list it keeps
 * (listening socket first, accepted peers appended in acceptance order, a peer
 * erased when it sends the single-null-byte disconnect signal) and the way one
 * readiness cycle services the sockets the poller reported.
 *
 * Sockets are integer handles. The results of the foreign calls made for a
 * ready socket (`Accept` on the listening socket, `Recieve` on a peer) are
 * inputs; the bytes the server sends and the diagnostic lines it prints are
 * recorded as a trace of events.
 */
module ServerLoop {
  import opened Wire
  import opened Sequences

  type Handle = int

  /** What the foreign call made for one ready socket returned. */
  datatype Outcome =
    | Accepted(peer: Handle)
      // `listenSocket->Accept(addr)`: the new peer's handle
    | Received(count: int, written: seq<byte>)
      // `socket->Recieve(segment, BUFFER_SIZE)`: its return value and the bytes it wrote

  /** An observable effect of servicing a socket. */
  datatype Event =
    | NewConnection(peer: Handle)               // "New connection from: ..." diagnostic
    | Greeted(to: Handle, payload: seq<byte>)   // `Send` of the greeting to a new peer
    | Logged(from: Handle, bytes: seq<byte>)    // "Recieved Bytes: ..." diagnostic
    | Disconnected(peer: Handle)                // "Client Disconnected!" diagnostic

  /** What the server does with the result of one read. */
  datatype ReadAction = Disconnect | Log(bytes: seq<byte>) | Quiet

  /** The connection list (`readableBlockingSockets`) and the events emitted so far. */
  datatype ServerState = ServerState(conns: seq<Handle>, trace: seq<Event>)

  /** The connection-list invariant: the listening socket in front, no handle twice. */
  predicate Inv(listen: Handle, conns: seq<Handle>)
  {
    |conns| > 0 && conns[0] == listen && NoDup(conns)
  }

  /**
   * `o` is a result the foreign call made for `sock` can return: the server
   * accepts on its listening socket and reads from every other one, and a read
   * asks for at most `BufferSize` bytes.
   */
  predicate Answers(listen: Handle, sock: Handle, o: Outcome)
  {
    (sock == listen <==> o.Accepted?) &&
    (o.Received? ==> |o.written| <= BufferSize && o.count <= BufferSize)
  }

  /** Every ready socket comes with a result of the call made for it. */
  predicate Matched(listen: Handle, ready: seq<Handle>, outs: seq<Outcome>)
  {
    |ready| == |outs| && forall i :: 0 <= i < |ready| ==> Answers(listen, ready[i], outs[i])
  }

  /**
   * The decision taken on a read that returned `count` after writing `written`
   * into a zeroed buffer of `BufferSize + 1` bytes.
   */
  function Classify(count: int, written: seq<byte>): (a: ReadAction)
    requires |written| <= BufferSize && count <= BufferSize
    ensures a == Disconnect <==> count == 1 && (written == [] || written[0] == 0)
    ensures a == Quiet <==> count <= 0
    ensures a.Log? ==> |a.bytes| == count
    ensures a.Log? ==> forall k :: 0 <= k < count ==> a.bytes[k] == if k < |written| then written[k] else 0
  {
    var segment := Segment(written);
    if count == 1 && segment[0] == 0 then Disconnect
    else if count > 0 then Log(segment[..count])
    else Quiet
  }

  /** Servicing one ready socket. */
  function Step(st: ServerState, listen: Handle, sock: Handle, o: Outcome): (r: ServerState)
    requires Answers(listen, sock, o)
  {
    if sock == listen then
      ServerState(st.conns + [o.peer],
                  st.trace + [NewConnection(o.peer), Greeted(o.peer, Greeting)])
    else
      match Classify(o.count, o.written)
      case Disconnect =>
        ServerState(RemoveFirst(st.conns, sock),
                    if sock in st.conns then st.trace + [Disconnected(sock)] else st.trace)
      case Log(bytes) => ServerState(st.conns, st.trace + [Logged(sock, bytes)])
      case Quiet => st
  }

  /** Servicing the ready sockets of one cycle, in the order of the snapshot. */
  function Run(st: ServerState, listen: Handle, ready: seq<Handle>, outs: seq<Outcome>): (r: ServerState)
    requires Matched(listen, ready, outs)
    decreases |ready|
  {
    if ready == [] then st
    else
      var n := |ready| - 1;
      Step(Run(st, listen, ready[..n], outs[..n]), listen, ready[n], outs[n])
  }

  /** The handle one outcome adds to the list. */
  function AcceptOf(o: Outcome): (r: seq<Handle>)
  {
    if o.Accepted? then [o.peer] else []
  }

  /** The handle one serviced socket removes from the list. */
  function GoneOf(sock: Handle, o: Outcome): (g: set<Handle>)
    requires o.Received? ==> |o.written| <= BufferSize && o.count <= BufferSize
  {
    if o.Received? && Classify(o.count, o.written) == Disconnect then {sock} else {}
  }

  /** The handles accepted during a cycle, in acceptance order. */
  function Accepts(outs: seq<Outcome>): (r: seq<Handle>)
    ensures forall h :: h in r <==> Accepted(h) in outs
    decreases |outs|
  {
    if outs == [] then []
    else
      var n := |outs| - 1;
      assert forall i :: 0 <= i < n ==> outs[..n][i] == outs[i];
      Accepts(outs[..n]) + AcceptOf(outs[n])
  }

  /** The peers that sent the disconnect signal during a cycle. */
  function Gone(listen: Handle, ready: seq<Handle>, outs: seq<Outcome>): (g: set<Handle>)
    requires Matched(listen, ready, outs)
    ensures listen !in g
    ensures forall h :: h in g ==> h in ready
    decreases |ready|
  {
    if ready == [] then {}
    else
      var n := |ready| - 1;
      var o := outs[n];
      assert forall i :: 0 <= i < n ==> ready[..n][i] == ready[i];
      Gone(listen, ready[..n], outs[..n]) + GoneOf(ready[n], o)
  }

  /** A read outcome that is the disconnect signal: one byte, and that byte 0. */
  predicate IsDisconnectSignal(o: Outcome)
  {
    o.Received? && o.count == 1 && (o.written == [] || o.written[0] == 0)
  }

  /**
   * A handle is gone after a cycle exactly when some entry of the snapshot
   * equal to it got the disconnect signal.
   */
  lemma {:induction false} GoneSpec(listen: Handle, ready: seq<Handle>, outs: seq<Outcome>, h: Handle)
    requires Matched(listen, ready, outs)
    ensures h in Gone(listen, ready, outs) <==>
      exists i :: 0 <= i < |ready| && ready[i] == h && IsDisconnectSignal(outs[i])
    decreases |ready|
  {
    if ready != [] {
      var n := |ready| - 1;
      var r', o' := ready[..n], outs[..n];
      assert forall i :: 0 <= i < n ==> r'[i] == ready[i] && o'[i] == outs[i];
      GoneSpec(listen, r', o', h);
      if h in Gone(listen, ready, outs) && h !in Gone(listen, r', o') {
        assert ready[n] == h && IsDisconnectSignal(outs[n]);
      }
      if h !in Gone(listen, ready, outs) {
        forall i | 0 <= i < |ready| && ready[i] == h ensures !IsDisconnectSignal(outs[i]) {
          if i < n {
            assert r'[i] == h && o'[i] == outs[i];
          }
        }
      }
    }
  }

  lemma AcceptsAppend(a: seq<Outcome>, b: seq<Outcome>)
    ensures Accepts(a + b) == Accepts(a) + Accepts(b)
    decreases |b|
  {
    if b != [] {
      var n := |b| - 1;
      assert (a + b)[..|a| + n] == a + b[..n];
      AcceptsAppend(a, b[..n]);
    } else {
      assert a + b == a;
    }
  }

  lemma AcceptsSingle(o: Outcome)
    ensures Accepts([o]) == AcceptOf(o)
  {
    assert [o][..0] == [];
  }

  lemma AcceptsFrom(outs: seq<Outcome>, i: nat)
    requires i < |outs|
    ensures Accepts(outs[i..]) == AcceptOf(outs[i]) + Accepts(outs[i + 1..])
  {
    var head, rest := [outs[i]], outs[i + 1..];
    assert outs[i..] == head + rest;
    AcceptsAppend(head, rest);
    AcceptsSingle(outs[i]);
  }

  lemma RunPrefix(st: ServerState, listen: Handle, ready: seq<Handle>, outs: seq<Outcome>, i: nat)
    requires Matched(listen, ready, outs) && i < |ready|
    ensures Run(st, listen, ready[..i + 1], outs[..i + 1]) ==
      Step(Run(st, listen, ready[..i], outs[..i]), listen, ready[i], outs[i])
  {
    assert ready[..i + 1][..i] == ready[..i] && outs[..i + 1][..i] == outs[..i];
  }

  /** A step adds no handle other than the accepted one. */
  lemma StepAddsOnlyAccepted(st: ServerState, listen: Handle, sock: Handle, o: Outcome, h: Handle)
    requires Answers(listen, sock, o)
    requires h in Step(st, listen, sock, o).conns
    ensures h in st.conns || h in AcceptOf(o)
  {
  }

  /**
   * Servicing the listening socket appends exactly the accepted handle at the
   * end of the list, after logging the new connection and sending it the
   * 10-byte greeting "Connected!".
   */
  lemma StepAccept(st: ServerState, listen: Handle, peer: Handle)
    ensures var r := Step(st, listen, listen, Accepted(peer));
      |r.conns| == |st.conns| + 1 && r.conns[..|st.conns|] == st.conns &&
      r.conns[|st.conns|] == peer &&
      r.trace == st.trace + [NewConnection(peer), Greeted(peer, Greeting)]
    ensures |Greeting| == 10 && Greeting == Ascii("Connected!")
  {
  }

  /**
   * A single null byte erases the first entry equal to the socket and nothing
   * else; when the socket is not in the list the state is unchanged.
   */
  lemma StepDisconnect(st: ServerState, listen: Handle, sock: Handle, written: seq<byte>)
    requires sock != listen && |written| <= BufferSize
    requires written == [] || written[0] == 0
    ensures var r := Step(st, listen, sock, Received(1, written));
      (sock !in st.conns ==> r == st) &&
      (sock in st.conns ==>
        var j := FirstIndex(st.conns, sock);
        r.conns == st.conns[..j] + st.conns[j + 1..] &&
        |r.conns| == |st.conns| - 1 &&
        r.trace == st.trace + [Disconnected(sock)])
  {
    if sock in st.conns {
      RemoveFirstAt(st.conns, sock, FirstIndex(st.conns, sock));
    }
  }

  /** Disconnecting the same peer twice has the effect of disconnecting it once. */
  lemma DisconnectTwice(st: ServerState, listen: Handle, sock: Handle, written: seq<byte>)
    requires sock != listen && |written| <= BufferSize
    requires written == [] || written[0] == 0
    requires NoDup(st.conns)
    ensures var o := Received(1, written);
      Step(Step(st, listen, sock, o), listen, sock, o) == Step(st, listen, sock, o)
  {
    RemoveFirstUnique(st.conns, sock);
  }

  /**
   * Every other read leaves the connection list alone; a positive count logs
   * exactly that many bytes of the buffer, and nothing else is emitted.
   */
  lemma StepOtherRead(st: ServerState, listen: Handle, sock: Handle, count: int, written: seq<byte>)
    requires sock != listen && |written| <= BufferSize && count <= BufferSize
    requires !(count == 1 && (written == [] || written[0] == 0))
    ensures var r := Step(st, listen, sock, Received(count, written));
      r.conns == st.conns &&
      (count <= 0 ==> r.trace == st.trace) &&
      (count > 0 ==> exists bytes :: |bytes| == count && r.trace == st.trace + [Logged(sock, bytes)])
  {
  }

  /**
   * One step keeps the listening socket in front, never removes it, and keeps
   * handles unique when the accepted handle is fresh.
   */
  lemma StepPreservesInv(st: ServerState, listen: Handle, sock: Handle, o: Outcome)
    requires Answers(listen, sock, o) && Inv(listen, st.conns)
    requires o.Accepted? ==> o.peer !in st.conns
    ensures Inv(listen, Step(st, listen, sock, o).conns)
    ensures listen in Step(st, listen, sock, o).conns
  {
    var r := Step(st, listen, sock, o);
    if sock == listen {
      NoDupAppend(st.conns, [o.peer]);
    } else if Classify(o.count, o.written) == Disconnect {
      RemoveFirstUnique(st.conns, sock);
      WithoutKeepsHead(st.conns, {sock});
    }
  }

  /** The shape of the list after a cycle satisfies the invariant. */
  lemma ShapeInv(listen: Handle, base: seq<Handle>, g: set<Handle>, a: seq<Handle>)
    requires Inv(listen, base) && listen !in g && NoDup(a)
    requires forall h :: h in a ==> h !in base
    ensures Inv(listen, Without(base, g) + a)
  {
    var kept := Without(base, g);
    WithoutNoDup(base, g);
    WithoutKeepsHead(base, g);
    assert forall h :: h in kept ==> h in base;
    NoDupAppend(kept, a);
  }

  /** The disconnect step on a list of that shape removes the peer from its first part. */
  lemma ShapeDisconnect(listen: Handle, base: seq<Handle>, g: set<Handle>, a: seq<Handle>, p: Handle)
    requires Inv(listen, base) && listen !in g && NoDup(a) && p != listen
    requires forall h :: h in a ==> h !in base
    requires p in base
    ensures RemoveFirst(Without(base, g) + a, p) == Without(base, g + {p}) + a
  {
    ShapeInv(listen, base, g, a);
    RemoveFirstUnique(Without(base, g) + a, p);
    WithoutAppend(Without(base, g), a, {p});
    WithoutTwice(base, g, {p});
    WithoutNothing(a, {p});
  }

  /** One step on a list of that shape keeps the shape. */
  lemma StepShape(prev: ServerState, listen: Handle, base: seq<Handle>, g: set<Handle>, a: seq<Handle>, p: Handle, o: Outcome)
    requires Answers(listen, p, o) && Inv(listen, base) && listen !in g
    requires prev.conns == Without(base, g) + a
    requires NoDup(a + AcceptOf(o)) && forall h :: h in a + AcceptOf(o) ==> h !in base
    requires p in base
    ensures Step(prev, listen, p, o).conns == Without(base, g + GoneOf(p, o)) + (a + AcceptOf(o))
  {
    var next := Step(prev, listen, p, o);
    NoDupPrefix(a, AcceptOf(o));
    if p == listen {
      assert next.conns == prev.conns + [o.peer];
      assert g + GoneOf(p, o) == g;
    } else if Classify(o.count, o.written) == Disconnect {
      ShapeDisconnect(listen, base, g, a, p);
      assert a + AcceptOf(o) == a;
    } else {
      assert g + GoneOf(p, o) == g;
      assert a + AcceptOf(o) == a;
    }
  }

  /**
   * The connection list after a cycle holds exactly the entries of the list
   * before it minus the peers that sent the disconnect signal, in their
   * original order, followed by the peers accepted during the cycle in
   * acceptance order. Assumed of the foreign calls: the poller reports only
   * members of the list, and `Accept` yields handles not yet in use.
   */
  lemma {:induction false} RunConnections(st: ServerState, listen: Handle, ready: seq<Handle>, outs: seq<Outcome>)
    requires Matched(listen, ready, outs) && Inv(listen, st.conns)
    requires forall i :: 0 <= i < |ready| ==> ready[i] in st.conns
    requires NoDup(Accepts(outs)) && forall h :: h in Accepts(outs) ==> h !in st.conns
    ensures Run(st, listen, ready, outs).conns ==
      Without(st.conns, Gone(listen, ready, outs)) + Accepts(outs)
    ensures Inv(listen, Run(st, listen, ready, outs).conns)
    decreases |ready|
  {
    if ready == [] {
      WithoutNothing(st.conns, {});
      assert st.conns + [] == st.conns;
    } else {
      var n := |ready| - 1;
      NoDupPrefix(Accepts(outs[..n]), AcceptOf(outs[n]));
      assert forall i :: 0 <= i < n ==> ready[..n][i] == ready[i];
      RunConnections(st, listen, ready[..n], outs[..n]);
      StepShape(Run(st, listen, ready[..n], outs[..n]), listen, st.conns,
                Gone(listen, ready[..n], outs[..n]), Accepts(outs[..n]), ready[n], outs[n]);
    }
    ShapeInv(listen, st.conns, Gone(listen, ready, outs), Accepts(outs));
  }

  /**
   * After a cycle a handle is in the list exactly when it was there before and
   * did not send the disconnect signal, or was accepted during the cycle; the
   * listening socket is still entry 0.
   */
  lemma RunMembers(st: ServerState, listen: Handle, ready: seq<Handle>, outs: seq<Outcome>, h: Handle)
    requires Matched(listen, ready, outs) && Inv(listen, st.conns)
    requires forall i :: 0 <= i < |ready| ==> ready[i] in st.conns
    requires NoDup(Accepts(outs)) && forall h :: h in Accepts(outs) ==> h !in st.conns
    ensures var c := Run(st, listen, ready, outs).conns;
      (h in c <==> (h in st.conns && h !in Gone(listen, ready, outs)) || h in Accepts(outs)) &&
      |c| > 0 && c[0] == listen
  {
    RunConnections(st, listen, ready, outs);
  }

  /** The server: its listening socket, its connection list and what it has emitted. */
  class Server {
    const listen: Handle
    const port: nat
    var conns: seq<Handle>
    var trace: seq<Event>

    ghost predicate Valid()
      reads this
    {
      Inv(listen, conns)
    }

    function State(): (s: ServerState)
      reads this
    {
      ServerState(conns, trace)
    }

    /**
     * The server once bound to `ServerPort` on every interface and listening:
     * the listening socket is pushed first.
     */
    constructor (listenSocket: Handle)
      ensures Valid()
      ensures listen == listenSocket && port == ServerPort == 27015
      ensures conns == [listenSocket] && trace == []
    {
      listen := listenSocket;
      port := ServerPort;
      conns := [listenSocket];
      trace := [];
    }

    /** The search loop that erases the first entry equal to `sock`. */
    method DisconnectPeer(sock: Handle)
      modifies this
      ensures conns == RemoveFirst(old(conns), sock)
      ensures trace == old(trace) + if sock in old(conns) then [Disconnected(sock)] else []
    {
      var j := 0;
      while j < |conns|
        invariant 0 <= j <= |conns|
        invariant conns == old(conns) && trace == old(trace)
        invariant forall k :: 0 <= k < j ==> conns[k] != sock
      {
        if conns[j] == sock {
          RemoveFirstAt(conns, sock, j);
          conns := conns[..j] + conns[j + 1..];
          trace := trace + [Disconnected(sock)];
          break;
        }
        j := j + 1;
      }
    }

    /** Services one socket the poller reported ready. */
    method Service(sock: Handle, o: Outcome)
      requires Valid() && Answers(listen, sock, o)
      requires o.Accepted? ==> o.peer !in conns
      modifies this
      ensures Valid()
      ensures State() == Step(old(State()), listen, sock, o)
    {
      ghost var before := State();
      if sock == listen {
        var peer := o.peer;
        trace := trace + [NewConnection(peer)];
        trace := trace + [Greeted(peer, Greeting)];
        conns := conns + [peer];
      } else {
        var segment := new byte[BufferSize + 1](k => if 0 <= k < |o.written| then o.written[k] else 0);
        assert segment[..] == Segment(o.written);
        var dataReceived := o.count;
        if dataReceived == 1 && segment[0] == 0 {
          DisconnectPeer(sock);
        } else if dataReceived > 0 {
          trace := trace + [Logged(sock, segment[..dataReceived])];
        }
      }
      StepPreservesInv(before, listen, sock, o);
    }

    /**
     * One poll cycle: services the ready snapshot in order. The snapshot is a
     * value, so erasing from the connection list does not change it.
     */
    method Cycle(ready: seq<Handle>, outs: seq<Outcome>)
      requires Valid() && Matched(listen, ready, outs)
      requires NoDup(Accepts(outs)) && forall h :: h in Accepts(outs) ==> h !in conns
      modifies this
      ensures Valid()
      ensures State() == Run(old(State()), listen, ready, outs)
    {
      for i := 0 to |ready|
        invariant Valid()
        invariant State() == Run(old(State()), listen, ready[..i], outs[..i])
        invariant NoDup(Accepts(outs[i..])) && forall h :: h in Accepts(outs[i..]) ==> h !in conns
      {
        RunPrefix(old(State()), listen, ready, outs, i);
        AcceptsFrom(outs, i);
        NoDupPrefix(AcceptOf(outs[i]), Accepts(outs[i + 1..]));
        ghost var before := State();
        Service(ready[i], outs[i]);
        forall h | h in Accepts(outs[i + 1..]) ensures h !in conns {
          if h in conns {
            StepAddsOnlyAccepted(before, listen, ready[i], outs[i], h);
          }
        }
      }
      assert ready[..|ready|] == ready && outs[..|outs|] == outs;
    }
  }
}
