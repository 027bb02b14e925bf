/** The counters of `EHSConnection` (ehs.cpp) and what each operation does to them. */
module EhsConnectionState {
  import opened Lists

  /**
   * `requests`, `responses` and `active` are `m_nRequests`, `m_nResponses` and `m_nActiveRequests`; the
   * last one is signed. `handedOver` holds while the current request is already in the queue and no new
   * one has been created. `immediate` and `abandoned` count error replies sent by the reading thread
   * itself and requests whose handler threw without giving a response; the source does not store them.
   */
  datatype Conn = Conn(queue: seq<nat>, requests: nat, responses: nat, active: int,
                       doneReading: bool, disconnected: bool, handedOver: bool,
                       immediate: nat, abandoned: nat)

  const NEW: Conn := Conn([], 0, 0, 0, false, false, false, 0, 0)

  /** `new HttpRequest(++m_nRequests, ...)`, for the first request or after one was handed over. */
  function Renewed(c: Conn): Conn { c.(requests := c.requests + 1, handedOver := false) }

  /** The completed current request goes to the end of the queue. */
  function Pushed(c: Conn): Conn { c.(queue := c.queue + [c.requests], handedOver := true) }

  /** `GetNextRequest` on a queue that is not empty. */
  function Popped(c: Conn): Conn
    requires c.queue != []
  {
    c.(queue := c.queue[1..], active := c.active + 1)
  }

  /** What `SendResponse` counts for an HTTP response; `close` when the connection is to be given up. */
  function Responded(c: Conn, close: bool): Conn {
    c.(active := c.active - 1, responses := c.responses + 1,
       doneReading := c.doneReading || close, disconnected := if close then false else c.disconnected)
  }

  function DoneReading(c: Conn, disconnected: bool): Conn {
    c.(doneReading := true, disconnected := disconnected)
  }

  /** An immediate error reply: `SendResponse`, then `DoneReading(false)`. */
  function Replied(c: Conn): Conn {
    DoneReading(Responded(c, false), false).(immediate := c.immediate + 1)
  }

  /** `RequestsPending`. */
  predicate HasPending(c: Conn) { c.active != 0 || c.queue != [] }

  /** `ClearIdleConnections` on one connection, with the outcome of its time test. */
  function Aged(c: Conn, idle: bool): Conn {
    if idle && !c.doneReading && !HasPending(c) then DoneReading(c, false) else c
  }

  /** `CheckDone`, with the signed subtraction of the source. */
  predicate CheckDone(c: Conn) { c.doneReading && c.requests - 1 <= c.responses }

  function Max0(n: int): nat { if n < 0 then 0 else n }

  /** Conservation: every request that was handed over is queued, active or answered. */
  predicate Conserved(c: Conn) {
    |c.queue| + c.active + c.responses == Max0(c.requests - 1) + (if c.handedOver then 1 else 0)
  }

  /** The counters of a connection of which `inFlight` requests are with threads. */
  predicate Counts(c: Conn, inFlight: nat) {
    && Conserved(c)
    && c.active == inFlight + c.abandoned - c.immediate
    && c.immediate <= c.responses
    && (c.handedOver ==> c.requests > 0)
  }

  /**
   * What `CheckDone` finds out, exactly: reading has ended, and no more requests are queued, with a
   * thread or abandoned than immediate replies were sent.
   */
  lemma CheckDoneExact(c: Conn, inFlight: nat)
    requires Counts(c, inFlight) && !c.handedOver
    ensures CheckDone(c) <==> c.doneReading && |c.queue| + inFlight + c.abandoned <= c.immediate
  {}

  /** Hence without immediate replies a connection is given up only when nothing is outstanding. */
  lemma NothingOutstanding(c: Conn, inFlight: nat)
    requires Counts(c, inFlight) && !c.handedOver && c.immediate == 0 && CheckDone(c)
    ensures c.queue == [] && inFlight == 0 && c.abandoned == 0
  {}
}
