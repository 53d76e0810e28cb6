/** The accept loop, its client turns and its broadcasts, acting on the WebSocket lists in place. */
module HttpServer {
  import opened Octets
  import opened Domain
  import opened RequestReader
  import opened Responses
  import opened Sending
  import opened WebSocketFrame
  import opened Descriptors
  import opened Ownership

  class HttpServer {
    var running: bool
    var telemetryWsClients: seq<int>
    var alertWsClients: seq<int>
    ghost var trace: seq<Event>

    ghost function Model(): State
      reads this
    {
      State(running, telemetryWsClients, alertWsClients, trace)
    }

    constructor ()
      ensures Model() == State(false, [], [], []) && Owned(Model())
    {
      running, telemetryWsClients, alertWsClients := false, [], [];
      trace := [];
      new;
      NoClientsAreOwned(false);
    }

    method Close(fd: int)
      modifies this
      ensures Model() == Log(old(Model()), Closed(fd))
    {
      trace := trace + [Closed(fd)];
    }

    method Send(fd: int, payload: seq<byte>, outcomes: seq<SendOutcome>) returns (ok: bool)
      modifies this
      ensures Model() == Log(old(Model()), Sent(fd, Delivered(outcomes, payload)))
      ensures ok == Delivers(outcomes, payload)
    {
      var delivered;
      ok, delivered := SendAll(outcomes, payload);
      trace := trace + [Sent(fd, delivered)];
    }

    method BroadcastMessage(payload: seq<byte>, channel: Channel, sends: Sends)
      modifies this
      ensures Model() == AfterBroadcast(old(Model()), channel, payload, sends)
    {
      hide Frame, Deliveries, Kept;
      trace := trace + [Announced(channel, payload)];
      var clients := if channel == Telemetry then telemetryWsClients else alertWsClients;
      var frame := BuildWebSocketFrame(payload);
      var active := ServeAll(clients, frame, sends);
      if channel == Telemetry {
        telemetryWsClients := active;
      } else {
        alertWsClients := active;
      }
    }

    /** The loop of a broadcast: who is kept, and every call made on a descriptor. */
    method ServeAll(clients: seq<int>, frame: seq<byte>, sends: Sends) returns (active: seq<int>)
      modifies this
      ensures active == Kept(clients, frame, sends)
      ensures Model() == old(Model()).(trace := old(trace) + Deliveries(clients, frame, sends))
    {
      hide Delivers, Delivery;
      active := [];
      for i := 0 to |clients|
        invariant active == Kept(clients[..i], frame, sends)
        invariant Model() == old(Model()).(trace := old(trace) + Deliveries(clients[..i], frame, sends))
      {
        assert clients[..i + 1][..i] == clients[..i];
        var ok := SendOrClose(clients[i], frame, sends);
        if ok {
          active := active + [clients[i]];
        }
      }
      assert clients[..|clients|] == clients;
    }

    /** One client of a broadcast. */
    method SendOrClose(fd: int, frame: seq<byte>, sends: Sends) returns (ok: bool)
      modifies this
      ensures Model() == old(Model()).(trace := old(trace) + Delivery(fd, frame, sends))
      ensures ok == Delivers(sends(fd), frame)
    {
      hide Delivers, Delivered;
      ok := Send(fd, frame, sends(fd));
      if !ok {
        Close(fd);
      }
    }

    method BroadcastIngestEvent(packet: TelemetryPacket, result: IngestResult, sends: Sends)
      modifies this
      ensures Model() == AfterEvent(old(Model()), packet, result, sends)
    {
      hide EventText, AfterBroadcast;
      var body := EventToJson(packet, result);
      if result.accepted {
        BroadcastMessage(Bytes(body), Telemetry, sends);
      } else {
        BroadcastMessage(Bytes(body), Alerts, sends);
      }
    }

    method TryUpgradeWebSocket(clientFd: int, request: HttpRequest, channel: Channel, turn: Turn) returns (keepOpen: bool)
      modifies this
      ensures
        var kind := Upgrade(channel, request.verb == "GET", UpgradeKey(request.headers));
        Model() == AfterHandling(old(Model()), clientFd, kind, turn) && keepOpen == Upgrades(kind, turn)
    {
      hide Delivers, Delivered, HeaderValue, RawResponse, SwitchingProtocols, UpgradeKey, WithClients, Bytes;
      if request.verb != "GET" {
        return false;
      }
      var key := ReadUpgradeKey(request.headers);
      if key.None? {
        var _ := Send(clientFd, Bytes(RawResponse(INVALID_UPGRADE)), turn.toClient);
        return false;
      }
      var response := AnswerUpgrade(key.value);
      var ok := Send(clientFd, Bytes(response), turn.toClient);
      if !ok {
        return false;
      }
      AddToList(clientFd, channel);
      return true;
    }

    method AddToList(clientFd: int, channel: Channel)
      modifies this
      ensures Model() == WithClients(Log(old(Model()), Listed(clientFd, channel)), channel, Clients(old(Model()), channel) + [clientFd])
    {
      trace := trace + [Listed(clientFd, channel)];
      if channel == Telemetry {
        telemetryWsClients := telemetryWsClients + [clientFd];
      } else {
        alertWsClients := alertWsClients + [clientFd];
      }
    }

    method HandleClient(clientFd: int, connection: Connection, turn: Turn) returns (keepOpen: bool)
      requires connection.pending == turn.chunks && Received(turn.chunks)
      modifies this, connection
      ensures
        var kind := Classify(Request(turn.chunks));
        Model() == AfterHandling(old(Model()), clientFd, kind, turn) && keepOpen == Upgrades(kind, turn)
    {
      hide RequestReader.Request, ParseHttpRequest, StripQuery, UpgradeKey, AfterEvent, Delivers, Delivered, RawResponse;
      var rawRequest := ReadHttpRequest(connection);
      if rawRequest == "" {
        return false;
      }
      var request := ParseHttpRequest(rawRequest);
      if request.None? {
        var _ := Send(clientFd, Bytes(RawResponse(INVALID_REQUEST)), turn.toClient);
        return false;
      }
      var path := StripQuery(request.value.path);
      if path == "/ws/telemetry" {
        keepOpen := TryUpgradeWebSocket(clientFd, request.value, Telemetry, turn);
        return;
      }
      if path == "/ws/alerts" {
        keepOpen := TryUpgradeWebSocket(clientFd, request.value, Alerts, turn);
        return;
      }
      if turn.routed.event.Some? {
        var (packet, result) := turn.routed.event.value;
        BroadcastIngestEvent(packet, result, turn.toListed);
      }
      var _ := Send(clientFd, Bytes(RawResponse(turn.routed.response)), turn.toClient);
      return false;
    }

    method Stop()
      modifies this
      ensures Model() == AfterStop(old(Model()))
    {
      running := false;
      CloseAll(telemetryWsClients);
      CloseAll(alertWsClients);
      telemetryWsClients, alertWsClients := [], [];
    }

    method CloseAll(clients: seq<int>)
      modifies this
      ensures Model() == old(Model()).(trace := old(trace) + Closings(clients))
    {
      for i := 0 to |clients|
        invariant Model() == old(Model()).(trace := old(trace) + Closings(clients[..i]))
      {
        assert clients[..i + 1][..i] == clients[..i];
        Close(clients[i]);
      }
      assert clients[..|clients|] == clients;
    }

    /** The accept loop; steps are what accept returns and when Stop is called. */
    method Start(steps: seq<Step>)
      requires forall i :: 0 <= i < |steps| && steps[i].Client? ==> Received(steps[i].turn.chunks)
      modifies this
      ensures Model() == AfterRun(old(Model()).(running := true), steps)
      ensures Owned(old(Model())) && PossibleRun(old(Model()).(running := true), steps) ==> Owned(Model())
    {
      hide Owned, AfterHandling, AfterStop, Request, Classify, Received, Upgrades;
      running := true;
      ghost var start := Model();
      var i := 0;
      while running && i < |steps|
        invariant 0 <= i <= |steps|
        invariant AfterRun(Model(), steps[i..]) == AfterRun(start, steps)
      {
        assert steps[i..][1..] == steps[i + 1..];
        match steps[i] {
          case AcceptFailed =>
          case StopCalled =>
            Stop();
          case Client(clientFd, turn) =>
            trace := trace + [Accepted(clientFd)];
            var connection := new Connection(turn.chunks);
            var keepOpen := HandleClient(clientFd, connection, turn);
            if !keepOpen {
              Close(clientFd);
            }
        }
        i := i + 1;
      }
      OwnedFromTheStart(old(Model()), steps);
    }
  }

  lemma OwnedFromTheStart(s: State, steps: seq<Step>)
    ensures
      Owned(s) && PossibleRun(s.(running := true), steps) ==> Owned(AfterRun(s.(running := true), steps))
  {
    var start := s.(running := true);
    assert Owned(s) ==> Owned(start);
    if Owned(s) && PossibleRun(start, steps) { RunKeepsOwned(start, steps); }
  }
}
