/**
  Who owns the client descriptors. A trace lists the calls made on descriptors, and the server's
  WebSocket lists are compared with what the trace has left open.
 */
module Descriptors {
  import opened Domain
  import opened Octets
  import opened RequestReader
  import opened Sending
  import opened WebSocketFrame
  import opened Responses

  datatype Channel = Telemetry | Alerts

  datatype Event =
    | Accepted(fd: int)
    | Sent(fd: int, bytes: seq<byte>)
    | Closed(fd: int)
    | Listed(fd: int, channel: Channel)
    | Announced(channel: Channel, payload: seq<byte>)

  /** The open descriptors behind a trace; none when something was sent on, listed or closed while not open. */
  function OpenAfter(trace: seq<Event>): Option<set<int>> {
    if trace == [] then Some({}) else
    var before := OpenAfter(trace[..|trace| - 1]);
    if before.None? then None else
    match trace[|trace| - 1]
    case Accepted(fd) => if fd in before.value then None else Some(before.value + {fd})
    case Sent(fd, _) => if fd in before.value then before else None
    case Closed(fd) => if fd in before.value then Some(before.value - {fd}) else None
    case Listed(fd, _) => if fd in before.value then before else None
    case Announced(_, _) => before
  }

  /** The octets sent to a descriptor since it was listed. */
  function Stream(trace: seq<Event>, fd: int): seq<byte> {
    if trace == [] then [] else
    var before := Stream(trace[..|trace| - 1], fd);
    match trace[|trace| - 1]
    case Sent(f, bytes) => if f == fd then before + bytes else before
    case Listed(f, _) => if f == fd then [] else before
    case _ => before
  }

  /** The messages announced on a channel since a descriptor was listed. */
  function Heard(trace: seq<Event>, fd: int, channel: Channel): seq<seq<byte>> {
    if trace == [] then [] else
    var before := Heard(trace[..|trace| - 1], fd, channel);
    match trace[|trace| - 1]
    case Announced(c, payload) => if c == channel then before + [payload] else before
    case Listed(f, _) => if f == fd then [] else before
    case _ => before
  }

  lemma LastEvent(trace: seq<Event>, event: Event)
    ensures (trace + [event])[..|trace|] == trace && (trace + [event])[|trace|] == event
  {
  }

  // ---------- The server's state and turns ----------

  datatype State = State(running: bool, telemetry: seq<int>, alerts: seq<int>, trace: seq<Event>)

  function Clients(s: State, channel: Channel): seq<int> {
    if channel == Telemetry then s.telemetry else s.alerts
  }

  function WithClients(s: State, channel: Channel, clients: seq<int>): State {
    if channel == Telemetry then s.(telemetry := clients) else s.(alerts := clients)
  }

  function Log(s: State, event: Event): State {
    s.(trace := s.trace + [event])
  }

  /** How the send calls to each descriptor fare. */
  type Sends = int -> seq<SendOutcome>

  /** The clients a frame reaches in full, in their order. */
  function Kept(clients: seq<int>, frame: seq<byte>, sends: Sends): seq<int> {
    if clients == [] then [] else
    var last := clients[|clients| - 1];
    Kept(clients[..|clients| - 1], frame, sends) + (if Delivers(sends(last), frame) then [last] else [])
  }

  function Delivery(fd: int, frame: seq<byte>, sends: Sends): seq<Event> {
    [Sent(fd, Delivered(sends(fd), frame))] + (if Delivers(sends(fd), frame) then [] else [Closed(fd)])
  }

  function Deliveries(clients: seq<int>, frame: seq<byte>, sends: Sends): seq<Event> {
    if clients == [] then []
    else Deliveries(clients[..|clients| - 1], frame, sends) + Delivery(clients[|clients| - 1], frame, sends)
  }

  function AfterBroadcast(s: State, channel: Channel, payload: seq<byte>, sends: Sends): State {
    var clients := Clients(s, channel);
    WithClients(s.(trace := s.trace + [Announced(channel, payload)] + Deliveries(clients, Frame(payload), sends)),
                channel, Kept(clients, Frame(payload), sends))
  }

  /** What a request asks for. */
  datatype Kind =
    | Nothing
    | Unparsed
    | Upgrade(channel: Channel, isGet: bool, key: Option<string>)
    | Other

  /** What routing makes of any other request: its answer and, behind an ingest, the call to announce. */
  datatype Routed = Routed(response: HttpResponse, event: Option<(TelemetryPacket, IngestResult)>)

  /** One client's turn: what it sends, what routing makes of it, and how sending fares. */
  datatype Turn = Turn(chunks: seq<string>, routed: Routed, toClient: seq<SendOutcome>, toListed: Sends)

  function StripQuery(path: string): string {
    match PacketParser.IndexOf(path, "?")
    case None => path
    case Some(k) => path[..k]
  }

  function Classify(raw: string): Kind {
    if raw == "" then Nothing else
    match ParseHttpRequest(raw)
    case None => Unparsed
    case Some(request) =>
      var path := StripQuery(request.path);
      if path == "/ws/telemetry" then Upgrade(Telemetry, request.verb == "GET", UpgradeKey(request.headers))
      else if path == "/ws/alerts" then Upgrade(Alerts, request.verb == "GET", UpgradeKey(request.headers))
      else Other
  }

  /** The answer to a request that gets one. */
  function Reply(kind: Kind, turn: Turn): seq<byte> {
    match kind
    case Upgrade(_, _, Some(key)) => Bytes(SwitchingProtocols(key))
    case Upgrade(_, _, None) => Bytes(RawResponse(INVALID_UPGRADE))
    case Other => Bytes(RawResponse(turn.routed.response))
    case _ => Bytes(RawResponse(INVALID_REQUEST))
  }

  function AfterReply(s: State, fd: int, kind: Kind, turn: Turn): State {
    Log(s, Sent(fd, Delivered(turn.toClient, Reply(kind, turn))))
  }

  /** Accepted calls are announced on one channel, rejected ones on the other. */
  function AfterEvent(s: State, packet: TelemetryPacket, result: IngestResult, sends: Sends): State {
    AfterBroadcast(s, if result.accepted then Telemetry else Alerts, Bytes(EventText(packet, result)), sends)
  }

  /** Whether a turn ends with the descriptor listed. */
  predicate Upgrades(kind: Kind, turn: Turn) {
    kind.Upgrade? && kind.isGet && kind.key.Some? && Delivers(turn.toClient, Reply(kind, turn))
  }

  /** HandleClient, from an accepted descriptor on. */
  function AfterHandling(s: State, fd: int, kind: Kind, turn: Turn): State {
    match kind
    case Nothing => s
    case Unparsed => AfterReply(s, fd, kind, turn)
    case Upgrade(channel, isGet, _) =>
      if !isGet then s
      else if !Upgrades(kind, turn) then AfterReply(s, fd, kind, turn)
      else WithClients(Log(AfterReply(s, fd, kind, turn), Listed(fd, channel)), channel, Clients(s, channel) + [fd])
    case Other =>
      if turn.routed.event.None? then AfterReply(s, fd, kind, turn)
      else
        var (packet, result) := turn.routed.event.value;
        AfterReply(AfterEvent(s, packet, result, turn.toListed), fd, kind, turn)
  }

  /** From accept to the end of the turn. */
  function AfterClient(s: State, fd: int, turn: Turn): State {
    var kind := Classify(Request(turn.chunks));
    var handled := AfterHandling(Log(s, Accepted(fd)), fd, kind, turn);
    if Upgrades(kind, turn) then handled else Log(handled, Closed(fd))
  }

  function Closings(clients: seq<int>): seq<Event> {
    if clients == [] then [] else Closings(clients[..|clients| - 1]) + [Closed(clients[|clients| - 1])]
  }

  function AfterStop(s: State): State {
    State(false, [], [], s.trace + Closings(s.telemetry) + Closings(s.alerts))
  }

  /** What happens between two rounds of the accept loop. */
  datatype Step = AcceptFailed | Client(fd: int, turn: Turn) | StopCalled

  function AfterStep(s: State, step: Step): State {
    match step
    case AcceptFailed => s
    case Client(fd, turn) => AfterClient(s, fd, turn)
    case StopCalled => AfterStop(s)
  }

  /** The accept loop over as many steps as there are or until it is stopped. */
  function AfterRun(s: State, steps: seq<Step>): State
    decreases |steps|
  {
    if steps == [] || !s.running then s else AfterRun(AfterStep(s, steps[0]), steps[1..])
  }

  // ---------- Ownership ----------

  ghost predicate Distinct(clients: seq<int>) {
    forall i, j :: 0 <= i < j < |clients| ==> clients[i] != clients[j]
  }

  ghost function InLists(s: State): set<int> {
    set fd | fd in s.telemetry + s.alerts
  }

  /**
    Every open client descriptor is in exactly one list exactly once, every listed descriptor is open,
    and each listed client was sent whole frames of exactly the messages of its channel since it joined.
   */
  ghost predicate Owned(s: State) {
    && Distinct(s.telemetry + s.alerts)
    && OpenAfter(s.trace) == Some(InLists(s))
    && (forall fd :: fd in s.telemetry ==> Stream(s.trace, fd) == Frames(Heard(s.trace, fd, Telemetry)))
    && (forall fd :: fd in s.alerts ==> Stream(s.trace, fd) == Frames(Heard(s.trace, fd, Alerts)))
  }

  /** accept returns a descriptor that is not open. */
  ghost predicate Possible(s: State, step: Step) {
    step.Client? ==> OpenAfter(s.trace).Some? && step.fd !in OpenAfter(s.trace).value
  }

  ghost predicate PossibleRun(s: State, steps: seq<Step>)
    decreases |steps|
  {
    steps == [] || !s.running || (Possible(s, steps[0]) && PossibleRun(AfterStep(s, steps[0]), steps[1..]))
  }
}
