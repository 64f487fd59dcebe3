/**
 * The client's session channel (frontend/src/utils/websocket.ts): one
 * nullable transport handle and an ordered list of message handlers.
 *
 * The browser transport is abstracted to a `Socket` object holding its
 * ready state, the frames written to it, and the settlement of the promise
 * that the `connect` call which created it returned. Transport events
 * (open, error, close, message) are the methods `OnOpen`, `OnError`,
 * `OnClose` and `OnMessage`, which run the callbacks `connect` installs.
 * Handlers are identified by `HandlerId`, standing for JavaScript function
 * identity.
 */
module Session {
  import opened ClientTypes

  datatype ReadyState = Connecting | Open | Closing | Closed

  /** State of the promise returned by `connect`. */
  datatype Settlement = Pending | Resolved | Rejected

  type HandlerId = nat

  /** One call of one handler with one parsed frame. */
  datatype Delivery = Delivery(handler: HandlerId, message: Inbound)

  /** The path part of the connect target; neither argument is encoded. */
  function ConnectPath(roomCode: string, nickname: string): string {
    "/ws/" + roomCode + "/" + nickname
  }

  /** `WebSocket.close()`: an opening or open transport starts closing; otherwise nothing happens. */
  function AfterClose(r: ReadyState): ReadyState {
    if r == Connecting || r == Open then Closing else r
  }

  /**
   * `handlers.filter((h) => h !== handler)`: every occurrence of `h` goes and
   * every other entry stays, as often as before.
   */
  function Without(hs: seq<HandlerId>, h: HandlerId): (r: seq<HandlerId>)
    ensures h !in r
    ensures forall x :: x != h ==> multiset(r)[x] == multiset(hs)[x]
  {
    if hs == [] then []
    else
      assert hs == [hs[0]] + hs[1..];
      if hs[0] == h then Without(hs[1..], h) else [hs[0]] + Without(hs[1..], h)
  }

  /** Filtering keeps the relative order of what stays: it distributes over concatenation. */
  lemma {:induction false} WithoutAppend(a: seq<HandlerId>, b: seq<HandlerId>, h: HandlerId)
    ensures Without(a + b, h) == Without(a, h) + Without(b, h)
  {
    if a != [] {
      assert (a + b)[1..] == a[1..] + b;
      WithoutAppend(a[1..], b, h);
    } else {
      assert a + b == b;
    }
  }

  /** Removing a handler that is not registered changes nothing. */
  lemma {:induction false} WithoutAbsent(hs: seq<HandlerId>, h: HandlerId)
    requires h !in hs
    ensures Without(hs, h) == hs
  {
    if hs != [] {
      WithoutAbsent(hs[1..], h);
    }
  }

  /** The unsubscribe closure is idempotent. */
  lemma WithoutIdempotent(hs: seq<HandlerId>, h: HandlerId)
    ensures Without(Without(hs, h), h) == Without(hs, h)
  {
    WithoutAbsent(Without(hs, h), h);
  }

  /** Unsubscribing a freshly added handler restores the previous list. */
  lemma AddThenRemove(hs: seq<HandlerId>, h: HandlerId)
    requires h !in hs
    ensures Without(hs + [h], h) == hs
  {
    WithoutAppend(hs, [h], h);
    WithoutAbsent(hs, h);
    assert Without([h], h) == [];
  }

  /** Two unsubscribe closures give the same list whichever runs first. */
  lemma {:induction false} WithoutCommutes(hs: seq<HandlerId>, a: HandlerId, b: HandlerId)
    ensures Without(Without(hs, a), b) == Without(Without(hs, b), a)
  {
    if hs != [] {
      WithoutCommutes(hs[1..], a, b);
    }
  }

  /** The transport handle. */
  class Socket {
    const url: string
    var readyState: ReadyState
    /** Frames written with `send`, oldest first. */
    var sent: seq<Outbound>
    /** The promise of the `connect` call that created this transport. */
    var opening: Settlement

    constructor (url: string)
      ensures this.url == url && readyState == Connecting && sent == [] && opening == Pending
    {
      this.url := url;
      readyState := Connecting;
      sent := [];
      opening := Pending;
    }

    method Send(m: Outbound)
      modifies this
      ensures sent == old(sent) + [m]
      ensures readyState == old(readyState) && opening == old(opening)
    {
      sent := sent + [m];
    }

    method Close()
      modifies this
      ensures readyState == AfterClose(old(readyState))
      ensures sent == old(sent) && opening == old(opening)
    {
      readyState := AfterClose(readyState);
    }
  }

  class GameWebSocket {
    const baseUrl: string
    var ws: Socket?
    var handlers: seq<HandlerId>

    constructor (baseUrl: string)
      ensures this.baseUrl == baseUrl && ws == null && handlers == []
    {
      this.baseUrl := baseUrl;
      ws := null;
      handlers := [];
    }

    /**
     * Opens a fresh transport to `baseUrl + "/ws/" + roomCode + "/" + nickname`
     * and stores it as the handle, overwriting any previous handle without
     * closing it. When the transport constructor throws, nothing is stored
     * and the returned promise is already rejected (modelled as a null result).
     */
    method Connect(roomCode: string, nickname: string, constructorThrows: bool) returns (attempt: Socket?)
      modifies this
      ensures handlers == old(handlers)
      ensures constructorThrows ==> attempt == null && ws == old(ws)
      ensures !constructorThrows ==>
        && attempt != null && fresh(attempt) && ws == attempt
        && attempt.url == baseUrl + ConnectPath(roomCode, nickname)
        && attempt.readyState == Connecting && attempt.sent == [] && attempt.opening == Pending
    {
      if constructorThrows {
        attempt := null;
      } else {
        attempt := new Socket(baseUrl + ConnectPath(roomCode, nickname));
        ws := attempt;
      }
    }

    /** `onopen`: the promise resolves unless it has already settled. */
    method OnOpen(s: Socket)
      modifies s
      ensures s.readyState == Open && s.sent == old(s.sent)
      ensures s.opening == if old(s.opening) == Pending then Resolved else old(s.opening)
    {
      s.readyState := Open;
      if s.opening == Pending {
        s.opening := Resolved;
      }
    }

    /** `onerror`: the promise rejects unless it has already settled; the handle stays. */
    method OnError(s: Socket)
      modifies s
      ensures s.readyState == old(s.readyState) && s.sent == old(s.sent)
      ensures s.opening == if old(s.opening) == Pending then Rejected else old(s.opening)
    {
      if s.opening == Pending {
        s.opening := Rejected;
      }
    }

    /**
     * `onclose` as written: the handle is cleared whichever transport closed,
     * so a later `Connect` starts afresh. Handlers are not notified.
     */
    method OnClose(s: Socket)
      modifies this, s
      ensures ws == null && handlers == old(handlers)
      ensures s.readyState == Closed && s.sent == old(s.sent) && s.opening == old(s.opening)
    {
      s.readyState := Closed;
      ws := null;
    }

    /** `onclose` clearing the handle only when it is the transport that closed. */
    method OnCloseOwnHandle(s: Socket)
      modifies this, s
      ensures ws == if old(ws) == s then null else old(ws)
      ensures handlers == old(handlers)
      ensures s.readyState == Closed && s.sent == old(s.sent) && s.opening == old(s.opening)
    {
      s.readyState := Closed;
      if ws == s {
        ws := null;
      }
    }

    /** `onmessage`: every registered handler gets the parsed frame, in registration order. */
    method OnMessage(msg: Inbound) returns (deliveries: seq<Delivery>)
      ensures |deliveries| == |handlers|
      ensures forall i :: 0 <= i < |handlers| ==> deliveries[i] == Delivery(handlers[i], msg)
    {
      deliveries := [];
      for i := 0 to |handlers|
        invariant |deliveries| == i
        invariant forall k :: 0 <= k < i ==> deliveries[k] == Delivery(handlers[k], msg)
      {
        deliveries := deliveries + [Delivery(handlers[i], msg)];
      }
    }

    /** Closes and forgets the handle when there is one; otherwise does nothing. */
    method Disconnect()
      modifies this, ws
      ensures ws == null && handlers == old(handlers)
      ensures old(ws) == null ==> unchanged(this)
      ensures old(ws) != null ==>
        && old(ws).readyState == AfterClose(old(ws.readyState))
        && old(ws).sent == old(ws.sent) && old(ws).opening == old(ws.opening)
    {
      if ws != null {
        ws.Close();
        ws := null;
      }
    }

    /** Registers `h` at the end of the handler list. */
    method AddMessageHandler(h: HandlerId)
      modifies this
      ensures handlers == old(handlers) + [h] && ws == old(ws)
    {
      handlers := handlers + [h];
    }

    /** The closure `addMessageHandler` returns: drops every registration of `h`. */
    method RemoveMessageHandler(h: HandlerId)
      modifies this
      ensures handlers == Without(old(handlers), h) && ws == old(ws)
    {
      handlers := Without(handlers, h);
    }

    method StartGame()
      modifies ws
      ensures ws != null ==> ws.sent == old(ws.sent) + (if old(ws.readyState) == Open then [Outbound.StartGame] else [])
      ensures ws != null ==> ws.readyState == old(ws.readyState) && ws.opening == old(ws.opening)
    {
      SendMessage(Outbound.StartGame);
    }

    /** Sends the domain text exactly as given. */
    method SubmitDomain(domain: string)
      modifies ws
      ensures ws != null ==> ws.sent == old(ws.sent) + (if old(ws.readyState) == Open then [Outbound.SubmitDomain(domain)] else [])
      ensures ws != null ==> ws.readyState == old(ws.readyState) && ws.opening == old(ws.opening)
    {
      SendMessage(Outbound.SubmitDomain(domain));
    }

    /** Writes the frame only when there is a handle and it is open; otherwise drops it silently. */
    method SendMessage(m: Outbound)
      modifies ws
      ensures ws != null ==> ws.sent == old(ws.sent) + (if old(ws.readyState) == Open then [m] else [])
      ensures ws != null ==> ws.readyState == old(ws.readyState) && ws.opening == old(ws.opening)
    {
      if ws != null && ws.readyState == Open {
        ws.Send(m);
      }
    }
  }

  /**
   * Reconnecting after a disconnect, when the first transport's close event
   * arrives only after the second has opened: as written, that event clears
   * the handle to the second, open transport and the next start command is
   * dropped.
   */
  method LateCloseDropsStart() returns (sent: seq<Outbound>)
    ensures sent == []
  {
    var channel := new GameWebSocket("ws://localhost:8000");
    var first := channel.Connect("AB12CD", "ann", false);
    channel.OnOpen(first);
    channel.Disconnect();
    var second := channel.Connect("AB12CD", "ann", false);
    channel.OnOpen(second);
    channel.OnClose(first);
    channel.StartGame();
    sent := second.sent;
  }

  /** The same sequence with the close event guarded by transport identity delivers the command. */
  method LateCloseKeepsHandle() returns (sent: seq<Outbound>)
    ensures sent == [Outbound.StartGame]
  {
    var channel := new GameWebSocket("ws://localhost:8000");
    var first := channel.Connect("AB12CD", "ann", false);
    channel.OnOpen(first);
    channel.Disconnect();
    var second := channel.Connect("AB12CD", "ann", false);
    channel.OnOpen(second);
    channel.OnCloseOwnHandle(first);
    channel.StartGame();
    sent := second.sent;
  }
}
