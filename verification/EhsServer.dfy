/**
 * The objects of ehs.cpp outside the reading path: queues, counters and replies of a connection, and the
 * server's walks over the connection list, each called by the one thread that holds the lock it needs.
 */
module EhsServer {
  import opened Bytes
  import opened EhsConnectionState
  import opened Lists

  // ----- replies

  /**
   * A generic response is sent as it is and not counted. Of an HTTP response `head` is the status line with
   * all headers, and `contentLength` the number read from its header of that name.
   */
  datatype Response =
    | Generic(body: seq<byte>)
    | Http(code: nat, head: seq<byte>, content: seq<byte>, contentLength: int, connectionClose: bool)

  /** One transmission: bytes of the response, and how many bytes of memory behind its body follow them. */
  datatype Packet = Packet(bytes: seq<byte>, beyond: nat)

  /** The declared length decides how much is sent, whatever the length of the body. */
  function BodyPacket(content: seq<byte>, length: nat): Packet {
    if length <= |content| then Packet(content[..length], 0) else Packet(content, length - |content|)
  }

  const SWITCHING: nat := 101

  /** A connection as replies see it; `sent` is everything handed to the socket, `raw` the switched protocol. */
  datatype Side = Side(conn: Conn, sent: seq<Packet>, raw: bool)

  /** What is handed to the socket for a response when the first transmission does or does not succeed. */
  function Packets(r: Response, ok: bool): seq<Packet> {
    match r
    case Generic(body) => if body == [] then [] else [Packet(body, 0)]
    case Http(code, head, content, length, _) =>
      [Packet(head, 0)] + if ok && code != SWITCHING && length > 0 then [BodyPacket(content, length)] else []
  }

  /** Whether a response ends the connection. A failure to send the body does not: its result is dropped. */
  predicate Closes(r: Response, ok: bool) {
    match r
    case Generic(body) => body == [] || !ok
    case Http(code, _, _, _, close) => !ok || (close && code != SWITCHING)
  }

  function Sent(s: Side, r: Response, ok: bool): Side {
    if s.conn.disconnected then
      if r.Http? then s.(conn := Responded(s.conn, false)) else s
    else
      Side(if r.Http? then Responded(s.conn, Closes(r, ok))
           else if Closes(r, ok) then DoneReading(s.conn, false) else s.conn,
           s.sent + Packets(r, ok),
           s.raw || (ok && r.Http? && r.code == SWITCHING))
  }

  /** The response queue drained from the front. */
  function SentAll(s: Side, q: seq<Response>, ok: seq<bool>): Side
    requires |ok| == |q|
    decreases |q|
  {
    if q == [] then s else SentAll(Sent(s, q[0], ok[0]), q[1..], ok[1..])
  }

  function Answers(q: seq<Response>): nat {
    if q == [] then 0 else (if q[0].Http? then 1 else 0) + Answers(q[1..])
  }

  function AllPackets(q: seq<Response>, ok: seq<bool>): seq<Packet>
    requires |ok| == |q|
  {
    if q == [] then [] else Packets(q[0], ok[0]) + AllPackets(q[1..], ok[1..])
  }

  /**
   * Every HTTP response answers exactly one request, whether it could be sent or not: with `n` requests
   * with threads before, `n` less the number of such responses are afterwards, and the conservation law holds.
   */
  lemma {:induction false} RepliesConserve(s: Side, q: seq<Response>, ok: seq<bool>, n: nat)
    requires |ok| == |q| && Counts(s.conn, n) && Answers(q) <= n
    ensures Counts(SentAll(s, q, ok).conn, n - Answers(q))
    decreases |q|
  {
    if q != [] {
      RepliesConserve(Sent(s, q[0], ok[0]), q[1..], ok[1..], n - if q[0].Http? then 1 else 0);
    }
  }

  /**
   * What is transmitted of one response: of a generic one its body, if it has any; of an HTTP response the status
   * line and headers first, and then, only if that worked out, the protocol is not switched and a positive
   * length is declared, so many bytes of the body.
   */
  predicate Delivers(r: Response, ok: bool, ps: seq<Packet>) {
    match r
    case Generic(body) => ps == if body == [] then [] else [Packet(body, 0)]
    case Http(code, head, content, length, _) =>
      && |ps| == (if ok && code != 101 && length > 0 then 2 else 1)
      && ps[0] == Packet(head, 0)
      && (|ps| == 2 ==> ps[1].bytes == content[..Min(length, |content|)] && |ps[1].bytes| + ps[1].beyond == length)
  }

  /** Whether reading ends with the response: its first transmission failed, or it asks for it. */
  predicate GivesUp(r: Response, ok: bool) {
    !ok || match r case Generic(body) => body == [] case Http(code, _, _, _, close) => close && code != 101
  }

  lemma {:induction false} AllDelivered(q: seq<Response>, ok: seq<bool>) returns (parts: seq<seq<Packet>>)
    requires |ok| == |q|
    ensures |parts| == |q| && (forall i | 0 <= i < |q| :: Delivers(q[i], ok[i], parts[i]))
    ensures AllPackets(q, ok) == Concat(parts)
    decreases |q|
  {
    parts := [];
    if q != [] {
      var rest := AllDelivered(q[1..], ok[1..]);
      parts := [Packets(q[0], ok[0])] + rest;
      assert parts[1..] == rest;
    }
  }

  /** Reading ends with the first response that gives up; every HTTP response is counted. */
  lemma {:induction false} SentAllFlags(s: Side, q: seq<Response>, ok: seq<bool>)
    requires |ok| == |q|
    ensures var r := SentAll(s, q, ok);
            && (r.conn.doneReading <==>
                  s.conn.doneReading || (!s.conn.disconnected && exists i | 0 <= i < |q| :: GivesUp(q[i], ok[i])))
            && r.conn.responses == s.conn.responses + Answers(q) && r.conn.active == s.conn.active - Answers(q)
    decreases |q|
  {
    hide Packets;
    if q != [] {
      SentAllFlags(Sent(s, q[0], ok[0]), q[1..], ok[1..]);
      assert forall i | 1 <= i < |q| :: q[i] == q[1..][i - 1] && ok[i] == ok[1..][i - 1];
      assert forall i | 0 <= i < |q| - 1 :: q[1..][i] == q[i + 1] && ok[1..][i] == ok[i + 1];
    }
  }

  lemma {:induction false} PacketsInOrder(s: Side, q: seq<Response>, ok: seq<bool>)
    requires |ok| == |q|
    ensures var r := SentAll(s, q, ok);
            && r.sent == s.sent + (if s.conn.disconnected then [] else AllPackets(q, ok))
            && r.conn.disconnected == s.conn.disconnected
            && r.conn.queue == s.conn.queue && r.conn.requests == s.conn.requests
    decreases |q|
  {
    hide Packets, Closes;
    if q != [] {
      PacketsInOrder(Sent(s, q[0], ok[0]), q[1..], ok[1..]);
    }
  }

  /** Responses go out whole and in queue order, and none of them to a client that has disconnected. */
  lemma RepliesInOrder(s: Side, q: seq<Response>, ok: seq<bool>) returns (parts: seq<seq<Packet>>)
    requires |ok| == |q|
    ensures |parts| == |q| && (forall i | 0 <= i < |q| :: Delivers(q[i], ok[i], parts[i]))
    ensures SentAll(s, q, ok).sent == s.sent + (if s.conn.disconnected then [] else Concat(parts))
    ensures SentAll(s, q, ok).conn.disconnected == s.conn.disconnected
    ensures SentAll(s, q, ok).conn.queue == s.conn.queue && SentAll(s, q, ok).conn.requests == s.conn.requests
  {
    PacketsInOrder(s, q, ok);
    parts := AllDelivered(q, ok);
  }

  /** The reply is sent with memory behind its body. */
  predicate OverReads(r: Response, ok: bool) {
    r.Http? && ok && r.code != SWITCHING && r.contentLength > |r.content|
  }

  /**
   * A queue of responses goes out as the bytes of these responses and no others, if and only if no
   * transmitted body is shorter than its declared length.
   */
  lemma {:induction false} OwnBytesExactly(q: seq<Response>, ok: seq<bool>)
    requires |ok| == |q|
    ensures (forall p | p in AllPackets(q, ok) :: p.beyond == 0) <==> forall i | 0 <= i < |q| :: !OverReads(q[i], ok[i])
    decreases |q|
  {
    if q != [] {
      OwnBytesExactly(q[1..], ok[1..]);
      var first, rest := Packets(q[0], ok[0]), AllPackets(q[1..], ok[1..]);
      assert forall p :: p in first + rest <==> p in first || p in rest;
      OwnBytes(q[0], ok[0]);
      assert forall i | 1 <= i < |q| :: q[i] == q[1..][i - 1] && ok[i] == ok[1..][i - 1];
      assert forall i | 0 <= i < |q| - 1 :: q[1..][i] == q[i + 1] && ok[1..][i] == ok[i + 1];
    }
  }

  lemma OwnBytes(r: Response, ok: bool)
    ensures (forall p | p in Packets(r, ok) :: p.beyond == 0) <==> !OverReads(r, ok)
  {
    if OverReads(r, ok) {
      assert Packets(r, ok)[1] == Packet(r.content, r.contentLength - |r.content|);
    }
  }

  /** For example a two-byte body declared as three bytes long. */
  lemma OverReadsOne()
    ensures Packets(Http(200, [], [0x68, 0x69], 3, false), true) == [Packet([], 0), Packet([0x68, 0x69], 1)]
  {}

  // ----- idle connections

  /**
   * What one call removes, exactly: a connection to which no immediate error reply was sent goes when
   * nothing of it is queued, with a thread or abandoned, and it was closed for reading or has timed out.
   */
  lemma RemovedExactly(c: Conn, n: nat, idle: bool)
    requires Counts(c, n) && !c.handedOver && c.immediate == 0
    ensures CheckDone(Aged(c, idle)) <==> (c.doneReading || idle) && c.queue == [] && n == 0 && c.abandoned == 0
  {
    CheckDoneExact(Aged(c, idle), n);
  }

  // ----- the connection

  datatype Request = Request(conn: EHSConnection, id: nat)

  class EHSConnection {
    var requestList: seq<nat>        // the ids of completed requests
    var nRequests: nat
    var nResponses: nat
    var nActiveRequests: int
    var isDoneReading: bool
    var isDisconnected: bool
    var rawMode: bool
    var idleHandling: bool
    var lastActivity: int
    var responseQueue: seq<Response>
    var sent: seq<Packet>
    ghost var immediate: nat
    ghost var abandoned: nat

    ghost function View(): Conn
      reads this
    {
      Conn(requestList, nRequests, nResponses, nActiveRequests, isDoneReading, isDisconnected, false,
           immediate, abandoned)
    }

    ghost function AsSide(): Side
      reads this
    {
      Side(View(), sent, rawMode)
    }

    constructor (now: int)
      ensures AsSide() == Side(NEW, [], false) && responseQueue == [] && idleHandling && lastActivity == now
    {
      requestList, nRequests, nResponses, nActiveRequests := [], 0, 0, 0;
      isDoneReading, isDisconnected, rawMode, idleHandling := false, false, false, true;
      lastActivity, responseQueue, sent, immediate, abandoned := now, [], [], 0, 0;
    }

    method MarkDoneReading(disconnected: bool)
      modifies this`isDoneReading, this`isDisconnected
      ensures isDoneReading && isDisconnected == disconnected
      ensures View() == DoneReading(old(View()), disconnected)
    {
      isDoneReading := true;
      isDisconnected := disconnected;
    }

    method GetNextRequest() returns (r: Option<nat>)
      modifies this`requestList, this`nActiveRequests
      ensures r.None? <==> old(requestList) == []
      ensures r.None? ==> unchanged(this)
      ensures r.Some? ==> old(requestList) == [r.value] + requestList && nActiveRequests == old(nActiveRequests) + 1
      ensures r.Some? ==> View() == Popped(old(View()))
    {
      r := None;
      if requestList != [] {
        r := Some(requestList[0]);
        nActiveRequests := nActiveRequests + 1;
        requestList := requestList[1..];
      }
    }

    /** Second result: whether the socket is closed now. */
    method TestDone() returns (done: bool, close: bool)
      ensures done == CheckDone(View()) == (isDoneReading && nRequests - 1 <= nResponses)
      ensures close == (done && !isDisconnected)
    {
      done, close := false, false;
      if isDoneReading {
        if nRequests - 1 <= nResponses {
          close := !isDisconnected;
          done := true;
        }
      }
    }

    method CountAnswer()
      modifies this`nActiveRequests, this`nResponses
      ensures View() == Responded(old(View()), false)
    {
      nActiveRequests := nActiveRequests - 1;
      nResponses := nResponses + 1;
    }

    /** `ok`: whether the first transmission succeeds. */
    method SendResponse(r: Response, ok: bool)
      modifies this
      ensures AsSide() == Sent(old(AsSide()), r, ok)
      ensures old(isDisconnected) ==> sent == old(sent) && isDoneReading == old(isDoneReading)
      ensures !old(isDisconnected) && r.Generic? ==>
                && sent == old(sent) + (if r.body == [] then [] else [Packet(r.body, 0)])
                && (isDoneReading <==> old(isDoneReading) || !ok || r.body == [])
      ensures !old(isDisconnected) && r.Http? ==>
                && |sent| >= |old(sent)| + 1 && sent[..|old(sent)| + 1] == old(sent) + [Packet(r.head, 0)]
                && (|sent| == |old(sent)| + 2 <==> ok && r.code != 101 && r.contentLength > 0)
                && |sent| <= |old(sent)| + 2
                && (|sent| == |old(sent)| + 2 ==>
                      && sent[|old(sent)| + 1].bytes == r.content[..Min(r.contentLength, |r.content|)]
                      && |sent[|old(sent)| + 1].bytes| + sent[|old(sent)| + 1].beyond == r.contentLength)
                && (isDoneReading <==> old(isDoneReading) || !ok || (r.connectionClose && r.code != 101))
      ensures isDisconnected == old(isDisconnected)
      ensures rawMode <==> old(rawMode) || (!old(isDisconnected) && ok && r.Http? && r.code == 101)
      ensures responseQueue == old(responseQueue) && idleHandling == old(idleHandling)
      ensures lastActivity == old(lastActivity)
    {
      if isDisconnected {
        if r.Http? {
          CountAnswer();
        }
        return;
      }
      var forceClose := false;
      var failed := false;
      match r {
        case Generic(body) =>
          if 0 < |body| {
            sent := sent + [Packet(body, 0)];
            failed := !ok;
          } else {
            MarkDoneReading(false);
          }
        case Http(code, head, content, length, close) =>
          forceClose := close && code != SWITCHING;
          sent := sent + [Packet(head, 0)];
          failed := !ok;
          if ok {
            if code == SWITCHING {
              rawMode := true;
              CountAnswer();
              return;
            }
            if length > 0 {
              sent := sent + [BodyPacket(content, length)];
            }
          }
      }
      if forceClose || failed {
        MarkDoneReading(false);
      }
      if r.Http? {
        CountAnswer();
      }
    }

    /** `net` and `clock`: the outcome of each transmission, and the time after it. */
    method AddResponse(r: Response, net: seq<bool>, clock: seq<int>)
      requires |net| == |clock| == |responseQueue| + 1
      modifies this
      ensures AsSide() == SentAll(old(AsSide()), old(responseQueue) + [r], net)
      ensures old(isDisconnected) ==> sent == old(sent)
      ensures var q := old(responseQueue) + [r];
              && (!old(isDisconnected) ==>
                    exists parts :: && |parts| == |q| && (forall i | 0 <= i < |q| :: Delivers(q[i], net[i], parts[i]))
                                    && sent == old(sent) + Concat(parts))
              && (isDoneReading <==>
                    old(isDoneReading) || (!old(isDisconnected) && exists i | 0 <= i < |q| :: GivesUp(q[i], net[i])))
      ensures responseQueue == [] && lastActivity == clock[|clock| - 1]
    {
      responseQueue := responseQueue + [r];
      ghost var all := responseQueue;
      ghost var i := 0;
      var n, c := net, clock;
      while responseQueue != []
        invariant |n| == |c| == |responseQueue|
        invariant SentAll(old(AsSide()), all, net) == SentAll(AsSide(), responseQueue, n)
        invariant if responseQueue == [] then lastActivity == clock[|clock| - 1] else c[|c| - 1] == clock[|clock| - 1]
        decreases |responseQueue|
      {
        var next := responseQueue[0];
        responseQueue := responseQueue[1..];
        SendResponse(next, n[0]);
        lastActivity := c[0];
        n, c := n[1..], c[1..];
      }
      ghost var parts := RepliesInOrder(old(AsSide()), all, net);
      SentAllFlags(old(AsSide()), all, net);
    }

    /** The error replies of `CheckClientSockets`. */
    method ReplyAtOnce(r: Response, ok: bool)
      requires r.Http?
      modifies this
      ensures View() == Replied(old(View()))
    {
      SendResponse(r, ok);
      MarkDoneReading(false);
      immediate := immediate + 1;
    }

    /** Whether the last activity is too long ago at time `now`; never, when idle handling is off. */
    predicate IdleFor(now: int, timeout: nat)
      reads this
    {
      now - (if idleHandling then lastActivity else now) > timeout
    }

    predicate RequestsPending()
      reads this
      ensures RequestsPending() == HasPending(View())
    {
      nActiveRequests != 0 || requestList != []
    }
  }

  // ----- lists of connections

  ghost function Live(cs: seq<EHSConnection>): seq<EHSConnection>
    reads cs
  {
    if cs == [] then [] else (if CheckDone(cs[0].View()) then [] else [cs[0]]) + Live(cs[1..])
  }

  /** The connections whose socket is closed when they are removed. */
  ghost function Closing(cs: seq<EHSConnection>): seq<EHSConnection>
    reads cs
  {
    if cs == [] then []
    else (if CheckDone(cs[0].View()) && !cs[0].isDisconnected then [cs[0]] else []) + Closing(cs[1..])
  }

  lemma {:induction false} LiveWhenNoneDone(cs: seq<EHSConnection>)
    requires forall c | c in cs :: !CheckDone(c.View())
    ensures Live(cs) == cs && Closing(cs) == []
  {
    if cs != [] {
      LiveWhenNoneDone(cs[1..]);
    }
  }

  /** Who stays, and whose socket is closed. */
  lemma {:induction false} LiveSays(cs: seq<EHSConnection>)
    ensures forall c :: c in Live(cs) <==> c in cs && !(c.isDoneReading && c.nRequests - 1 <= c.nResponses)
    ensures forall c :: c in Closing(cs) <==>
              c in cs && c.isDoneReading && c.nRequests - 1 <= c.nResponses && !c.isDisconnected
  {
    if cs != [] {
      LiveSays(cs[1..]);
      assert cs == [cs[0]] + cs[1..];
    }
  }

  /** They stay in the order of the list: where each of them was. */
  lemma {:induction false} LiveInOrder(cs: seq<EHSConnection>) returns (at: seq<nat>)
    ensures |at| == |Live(cs)| && forall a | 0 <= a < |at| :: at[a] < |cs| && cs[at[a]] == Live(cs)[a]
    ensures forall a, b | 0 <= a < b < |at| :: at[a] < at[b]
  {
    at := [];
    if cs != [] {
      var rest := LiveInOrder(cs[1..]);
      var shifted := seq(|rest|, i requires 0 <= i < |rest| => rest[i] + 1);
      at := if CheckDone(cs[0].View()) then shifted else [0] + shifted;
    }
  }

  /** Erasing the first connection that is done. */
  lemma {:induction false} FirstDone(cs: seq<EHSConnection>, i: nat)
    requires i < |cs| && CheckDone(cs[i].View()) && forall j | 0 <= j < i :: !CheckDone(cs[j].View())
    ensures Live(Without(cs, i)) == Live(cs)
    ensures Closing(cs) == (if cs[i].isDisconnected then [] else [cs[i]]) + Closing(Without(cs, i))
  {
    if i == 0 {
      assert Without(cs, 0) == cs[1..];
    } else {
      assert Without(cs, i)[1..] == Without(cs[1..], i - 1) && Without(cs, i)[0] == cs[0];
      FirstDone(cs[1..], i - 1);
    }
  }

  // ----- the circular scan

  /** Position `k` of the walk that starts at `start` and goes round a list of length `n`. */
  function Around(start: nat, k: nat, n: nat): (i: nat)
    requires start < n && k <= n
    ensures i < n
  {
    if start + k < n then start + k else start + k - n
  }

  /** The walk comes by every position once before it is back at its start. */
  lemma AroundCovers(start: nat, n: nat, i: nat) returns (k: nat)
    requires start < n && i < n
    ensures k < n && Around(start, k, n) == i
    ensures forall m: nat | m < n && Around(start, m, n) == i :: m == k
  {
    k := if start <= i then i - start else i + n - start;
  }

  /** The request comes from the head of the first queue on the walk that is not empty, and nothing else changes. */
  twostate predicate TakenAt(cs: seq<EHSConnection>, start: nat, k: nat, new r: Request)
    requires start < |cs| && k < |cs|
    reads cs
  {
    var c := cs[Around(start, k, |cs|)];
    && (forall j: nat | j < k :: old(cs[Around(start, j, |cs|)].requestList) == [])
    && r.conn == c && old(c.requestList) == [r.id] + c.requestList
    && c.nActiveRequests == old(c.nActiveRequests) + 1 && c.View() == Popped(old(c.View()))
    && (forall d | d in cs && d != c :: unchanged(d))
  }

  datatype Outcome = Done | InvalidArgument | SecondElement

  class EHSServer {
    var conns: seq<EHSConnection>
    var pending: int
    var closed: seq<EHSConnection>   // sockets closed by CheckDone
    const idleTimeout: nat

    constructor (timeout: nat)
      ensures conns == [] && pending == 0 && closed == [] && idleTimeout == timeout
    {
      conns, pending, closed, idleTimeout := [], 0, [], timeout;
    }

    /** `start`: the random position. */
    method GetNextRequest(start: nat) returns (r: Option<Request>)
      requires conns != [] ==> start < |conns|
      modifies this`pending, conns
      ensures r.None? <==> forall c | c in conns :: old(c.requestList) == []
      ensures r.None? ==> pending == old(pending) && forall c | c in conns :: unchanged(c)
      ensures r.Some? ==>
                pending == old(pending) - 1 && exists k: nat | k < |conns| :: TakenAt(conns, start, k, r.value)
    {
      r := None;
      if conns == [] {
        return;
      }
      var i := start;
      var first := true;
      ghost var k: nat := 0;
      while r.None? && !(i == start && !first)
        invariant conns == old(conns) && start < |conns| && k <= |conns|
        invariant forall j: nat | j < k :: old(conns[Around(start, j, |conns|)].requestList) == []
        invariant r.None? ==> i == Around(start, k, |conns|) && (first <==> k == 0)
        invariant r.None? ==> pending == old(pending) && forall c | c in conns :: unchanged(c)
        invariant r.Some? ==> k < |conns| && pending == old(pending) - 1 && TakenAt(conns, start, k, r.value)
        decreases r.None?, |conns| - k
      {
        var c := conns[i];
        assert c in conns && unchanged(c);
        var id := c.GetNextRequest();
        if id.Some? {
          r := Some(Request(c, id.value));
          pending := pending - 1;
        } else {
          k := k + 1;
        }
        i := if i + 1 == |conns| then 0 else i + 1;
        first := false;
      }
      if r.None? {
        forall c | c in conns ensures old(c.requestList) == [] {
          var j :| 0 <= j < |conns| && conns[j] == c;
          var m := AroundCovers(start, |conns|, j);
          assert m < k;
        }
      }
    }

    /** Erases every occurrence, unless there is a second one: that is an error, raised after the first was erased. */
    method RemoveEHSConnection(c: EHSConnection?) returns (r: Outcome)
      modifies this`conns
      ensures r.InvalidArgument? <==> c == null
      ensures c == null ==> conns == old(conns)
      ensures c != null && r.Done? ==> conns == Except<EHSConnection>(old(conns), c) && |conns| >= |old(conns)| - 1
      ensures c != null && r.SecondElement? ==>
                exists i, j | 0 <= i < j < |old(conns)| ::
                  old(conns)[i] == old(conns)[j] == c && c !in old(conns)[..i] && conns == Without(old(conns), i)
    {
      if c == null {
        return InvalidArgument;
      }
      var removed := false;
      var i := 0;
      ghost var p := 0;
      while i < |conns|
        invariant 0 <= i <= |conns| && c !in conns[..i]
        invariant !removed ==> conns == old(conns)
        invariant removed ==> p < |old(conns)| && p <= i && old(conns)[p] == c && conns == Without(old(conns), p)
        decreases |conns| - i
      {
        if conns[i] == c {
          if removed {
            assert old(conns)[i + 1] == c && old(conns)[..p] == conns[..i][..p];
            return SecondElement;
          }
          removed := true;
          p := i;
          conns := conns[..i] + conns[i + 1..];
        } else {
          assert conns[..i + 1] == conns[..i] + [conns[i]];
          i := i + 1;
        }
      }
      assert conns[..i] == conns;
      if removed {
        assert old(conns)[..p] == conns[..p] && old(conns)[p + 1..] == conns[p..];
        ExceptOnce<EHSConnection>(old(conns), p);
      } else {
        ExceptNone<EHSConnection>(conns, c);
      }
      r := Done;
    }

    /** Exactly the connections that are done go, and each is closed once unless its client had disconnected. */
    method RemoveFinishedConnections()
      requires Distinct(conns)
      modifies this`conns, this`closed
      ensures conns == Live(old(conns)) && Distinct(conns)
      ensures closed == old(closed) + Closing(old(conns))
      ensures forall c :: c in conns <==> c in old(conns) && !(c.isDoneReading && c.nRequests - 1 <= c.nResponses)
    {
      hide CheckDone, Distinct, Without, Except, Live, Closing;
      var i := 0;
      while i < |conns|
        invariant 0 <= i <= |conns| && Distinct(conns) && Live(conns) == Live(old(conns))
        invariant closed + Closing(conns) == old(closed) + Closing(old(conns))
        invariant forall j | 0 <= j < i :: !CheckDone(conns[j].View())
        decreases |conns|, |conns| - i
      {
        var done, close := conns[i].TestDone();
        if done {
          FirstDone(conns, i);
          if close {
            closed := closed + [conns[i]];
          }
          EraseDistinct(conns, i);
          ghost var rest, live, closing := Without(conns, i), Live(Without(conns, i)), Closing(Without(conns, i));
          var r := RemoveEHSConnection(conns[i]);
          assert conns == rest && Live(rest) == live && Closing(rest) == closing;
          i := 0;
        } else {
          i := i + 1;
        }
      }
      LiveWhenNoneDone(conns);
      LiveSays(old(conns));
    }

    /** `clock`: the time read at each connection. */
    method ClearIdleConnections(clock: seq<int>)
      requires Distinct(conns) && |clock| == |conns|
      modifies this`conns, this`closed, conns
      ensures forall i | 0 <= i < |clock| ::
                var c := old(conns)[i]; c.View() == Aged(old(c.View()), old(c.IdleFor(clock[i], idleTimeout)))
      ensures forall i | 0 <= i < |clock| ::
                var c := old(conns)[i];
                c.isDoneReading <==>
                  old(c.isDoneReading)
                  || (&& old(c.idleHandling) && clock[i] - old(c.lastActivity) > idleTimeout
                      && old(c.nActiveRequests) == 0 && old(c.requestList) == [])
      ensures conns == Live(old(conns)) && closed == old(closed) + Closing(old(conns))
      ensures forall c :: c in conns <==> c in old(conns) && !(c.isDoneReading && c.nRequests - 1 <= c.nResponses)
    {
      var i := 0;
      while i < |conns|
        invariant 0 <= i <= |conns| && conns == old(conns) && closed == old(closed)
        invariant forall j | 0 <= j < i ::
                    var c := conns[j]; c.View() == Aged(old(c.View()), old(c.IdleFor(clock[j], idleTimeout)))
        invariant forall j | i <= j < |conns| :: unchanged(conns[j])
      {
        var c := conns[i];
        if !c.isDoneReading && c.IdleFor(clock[i], idleTimeout) && !c.RequestsPending() {
          c.MarkDoneReading(false);
        }
        i := i + 1;
      }
      RemoveFinishedConnections();
    }
  }
}
