/** No descriptor leaks, none is closed twice, and listed clients hear exactly their channel. */
module Ownership {
  import opened Domain
  import opened Octets
  import opened Sending
  import opened Responses
  import opened WebSocketFrame
  import opened Descriptors

  /** Ownership in the middle of a turn, with some open descriptors outside the lists. */
  ghost predicate OwnedWith(s: State, others: set<int>) {
    && Distinct(s.telemetry + s.alerts)
    && OpenAfter(s.trace) == Some(InLists(s) + others) && InLists(s) !! others
    && HearsChannel(s.telemetry, s.trace, Telemetry) && HearsChannel(s.alerts, s.trace, Alerts)
  }

  ghost predicate HearsChannel(clients: seq<int>, trace: seq<Event>, channel: Channel) {
    forall fd :: fd in clients ==> Stream(trace, fd) == Frames(Heard(trace, fd, channel))
  }

  // ---------- Lists ----------

  lemma DistinctParts(a: seq<int>, b: seq<int>)
    ensures Distinct(a + b) <==> Distinct(a) && Distinct(b) && forall fd :: fd in a ==> fd !in b
  {
    var whole := a + b;
    if Distinct(whole) {
      forall i, j | 0 <= i < j < |a| ensures a[i] != a[j] { assert whole[i] != whole[j]; }
      forall i, j | 0 <= i < j < |b| ensures b[i] != b[j] { assert whole[|a| + i] != whole[|a| + j]; }
      forall fd | fd in a ensures fd !in b {
        var i :| 0 <= i < |a| && a[i] == fd;
        forall j | 0 <= j < |b| ensures b[j] != fd { assert whole[i] != whole[|a| + j]; }
      }
    }
    if Distinct(a) && Distinct(b) && forall fd :: fd in a ==> fd !in b {
      forall i, j | 0 <= i < j < |whole| ensures whole[i] != whole[j] {
        assert i < |a| <= j ==> whole[i] in a && whole[j] in b;
      }
    }
  }

  lemma ShortIsDistinct(clients: seq<int>)
    requires |clients| <= 1
    ensures Distinct(clients)
  {
  }

  /** Broadcasting keeps exactly the clients that took the whole frame, still without duplicates. */
  lemma {:induction false} KeptMembers(clients: seq<int>, frame: seq<byte>, sends: Sends)
    ensures forall fd :: fd in Kept(clients, frame, sends) <==> fd in clients && Delivers(sends(fd), frame)
    ensures Distinct(clients) ==> Distinct(Kept(clients, frame, sends))
  {
    hide Delivers;
    if clients == [] {
    } else {
      var init, last := clients[..|clients| - 1], clients[|clients| - 1];
      KeptMembers(init, frame, sends);
      assert clients == init + [last];
      DistinctParts(init, [last]);
      DistinctParts(Kept(init, frame, sends), [last]);
    }
  }

  /** ... in the order they were in: cutting the list anywhere cuts the kept list. */
  lemma {:induction false} KeptInOrder(before: seq<int>, behind: seq<int>, frame: seq<byte>, sends: Sends)
    ensures Kept(before + behind, frame, sends) == Kept(before, frame, sends) + Kept(behind, frame, sends)
    decreases |behind|
  {
    if behind == [] {
      assert before + behind == before;
    } else {
      var init, last := behind[..|behind| - 1], behind[|behind| - 1];
      KeptInOrder(before, init, frame, sends);
      KeptNext(before + init, last, frame, sends);
      KeptNext(init, last, frame, sends);
      hide Kept, Delivers;
      assert before + behind == before + init + [last] && behind == init + [last];
    }
  }

  lemma KeptNext(clients: seq<int>, fd: int, frame: seq<byte>, sends: Sends)
    ensures Kept(clients + [fd], frame, sends) ==
            Kept(clients, frame, sends) + if Delivers(sends(fd), frame) then [fd] else []
  {
    hide Delivers;
    assert (clients + [fd])[..|clients|] == clients;
  }

  // ---------- Traces ----------

  lemma OneDelivery(trace: seq<Event>, fd: int, frame: seq<byte>, sends: Sends, client: int, channel: Channel)
    requires OpenAfter(trace).Some? && fd in OpenAfter(trace).value
    ensures
      var after := trace + Delivery(fd, frame, sends);
      && OpenAfter(after) == Some(if Delivers(sends(fd), frame) then OpenAfter(trace).value else OpenAfter(trace).value - {fd})
      && Stream(after, client) ==
         (if client == fd then Stream(trace, client) + Delivered(sends(fd), frame) else Stream(trace, client))
      && Heard(after, client, channel) == Heard(trace, client, channel)
  {
    hide Delivers, Delivered;
    var sent := Sent(fd, Delivered(sends(fd), frame));
    LastEvent(trace, sent);
    LastEvent(trace + [sent], Closed(fd));
    assert Delivers(sends(fd), frame) ==> trace + Delivery(fd, frame, sends) == trace + [sent];
    assert !Delivers(sends(fd), frame) ==> trace + Delivery(fd, frame, sends) == trace + [sent] + [Closed(fd)];
  }

  lemma {:induction false} DeliveriesTraced(
    trace: seq<Event>, clients: seq<int>, frame: seq<byte>, sends: Sends, client: int, channel: Channel)
    requires Distinct(clients)
    requires OpenAfter(trace).Some? && forall fd :: fd in clients ==> fd in OpenAfter(trace).value
    ensures
      var after := trace + Deliveries(clients, frame, sends);
      && OpenAfter(after) ==
         Some(set fd | fd in OpenAfter(trace).value && (fd in clients ==> Delivers(sends(fd), frame)))
      && Stream(after, client) ==
         (if client in clients then Stream(trace, client) + Delivered(sends(client), frame) else Stream(trace, client))
      && Heard(after, client, channel) == Heard(trace, client, channel)
    decreases |clients|
  {
    hide Delivers, Delivered, Stream, Heard, OpenAfter, Delivery;
    var open := OpenAfter(trace).value;
    if clients == [] {
      assert trace + Deliveries(clients, frame, sends) == trace;
      assert open == set fd | fd in open && (fd in clients ==> Delivers(sends(fd), frame));
    } else {
      var init, last := clients[..|clients| - 1], clients[|clients| - 1];
      assert clients == init + [last];
      DistinctParts(init, [last]);
      DeliveriesTraced(trace, init, frame, sends, client, channel);
      var middle := trace + Deliveries(init, frame, sends);
      assert last in clients && last !in init;
      OneDelivery(middle, last, frame, sends, client, channel);
      assert trace + Deliveries(clients, frame, sends) == middle + Delivery(last, frame, sends);
      OpenAfterNext(open, init, last, frame, sends);
    }
  }

  /** Serving one more client takes it out of the open descriptors when it failed. */
  lemma OpenAfterNext(open: set<int>, init: seq<int>, last: int, frame: seq<byte>, sends: Sends)
    requires last in open && last !in init
    ensures
      var before := set fd | fd in open && (fd in init ==> Delivers(sends(fd), frame));
      last in before &&
      (set fd | fd in open && (fd in init + [last] ==> Delivers(sends(fd), frame)))
      == (if Delivers(sends(last), frame) then before else before - {last})
  {
    hide Delivers;
  }

  lemma {:induction false} FramesLonger(payloads: seq<seq<byte>>, payload: seq<byte>)
    ensures Frames(payloads + [payload]) == Frames(payloads) + Frame(payload)
  {
    hide Frame;
    if payloads == [] {
      assert (payloads + [payload])[1..] == [];
    } else {
      FramesLonger(payloads[1..], payload);
      assert (payloads + [payload])[1..] == payloads[1..] + [payload];
    }
  }

  // ---------- Steps of a turn ----------

  /** Announcing, delivering and dropping the clients that failed. */
  lemma BroadcastKeepsOwned(s: State, channel: Channel, payload: seq<byte>, sends: Sends, others: set<int>)
    requires OwnedWith(s, others)
    ensures OwnedWith(AfterBroadcast(s, channel, payload, sends), others)
  {
    hide Stream, Heard, OpenAfter, Deliveries, Frame, Frames, Delivers, Delivered, Kept, Distinct;
    var clients, frame, other := Clients(s, channel), Frame(payload), if channel == Telemetry then Alerts else Telemetry;
    var after := AfterBroadcast(s, channel, payload, sends);
    DistinctParts(s.telemetry, s.alerts);
    DistinctParts(after.telemetry, after.alerts);
    KeptMembers(clients, frame, sends);
    BroadcastTraced(s, channel, payload, sends, others, 0, channel);
    forall fd | fd in Clients(after, channel)
      ensures Stream(after.trace, fd) == Frames(Heard(after.trace, fd, channel))
    {
      BroadcastTraced(s, channel, payload, sends, others, fd, channel);
    }
    forall fd | fd in Clients(after, other)
      ensures Stream(after.trace, fd) == Frames(Heard(after.trace, fd, other))
    {
      assert fd in Clients(s, other) && fd !in clients;
      BroadcastTraced(s, channel, payload, sends, others, fd, other);
    }
    var left := set fd | fd in OpenAfter(s.trace).value && (fd in clients ==> Delivers(sends(fd), frame));
    var right := InLists(after);
    forall fd
      ensures fd in left <==> fd in right + others
      ensures fd in right ==> fd in InLists(s)
    {
      assert fd in right ==> fd in Clients(s, channel) || fd in Clients(s, other);
      assert fd in Clients(s, other) ==> fd !in clients;
      assert fd in right <==> fd in Clients(after, channel) || fd in Clients(after, other);
    }
    assert left == right + others;
  }

  /** What a broadcast does to the descriptors, and to one client's stream and messages. */
  lemma BroadcastTraced(
    s: State, channel: Channel, payload: seq<byte>, sends: Sends, others: set<int>, client: int, of: Channel)
    requires OwnedWith(s, others)
    ensures
      var clients, frame, after := Clients(s, channel), Frame(payload), AfterBroadcast(s, channel, payload, sends).trace;
      && OpenAfter(after) ==
         Some(set fd | fd in OpenAfter(s.trace).value && (fd in clients ==> Delivers(sends(fd), frame)))
      && (client in clients && Delivers(sends(client), frame) ==>
            Stream(after, client) == Stream(s.trace, client) + frame)
      && (client !in clients ==> Stream(after, client) == Stream(s.trace, client))
      && Heard(after, client, of) ==
         (if of == channel then Heard(s.trace, client, of) + [payload] else Heard(s.trace, client, of))
      && Frames(Heard(s.trace, client, of) + [payload]) == Frames(Heard(s.trace, client, of)) + frame
  {
    hide Deliveries, Frame, Frames, Delivers, Distinct;
    var clients := Clients(s, channel);
    DistinctParts(s.telemetry, s.alerts);
    LastEvent(s.trace, Announced(channel, payload));
    DeliveriesTraced(s.trace + [Announced(channel, payload)], clients, Frame(payload), sends, client, of);
    FramesLonger(Heard(s.trace, client, of), payload);
  }

  /** An event about a descriptor outside the lists, or one not accepted before, leaves every listed client as it was. */
  lemma EventKeepsHears(s: State, event: Event, fd: int)
    requires event == Accepted(fd) || event == Closed(fd) || (event.Sent? && event.fd == fd)
    requires fd !in InLists(s)
    ensures HearsChannel(s.telemetry, s.trace, Telemetry) ==> HearsChannel(s.telemetry, s.trace + [event], Telemetry)
    ensures HearsChannel(s.alerts, s.trace, Alerts) ==> HearsChannel(s.alerts, s.trace + [event], Alerts)
  {
    hide Frames;
    LastEvent(s.trace, event);
  }

  lemma AcceptKeepsOwned(s: State, fd: int)
    requires Owned(s) && fd !in InLists(s)
    ensures OwnedWith(Log(s, Accepted(fd)), {fd})
  {
    hide Frames, Distinct, Stream, Heard;
    EventKeepsHears(s, Accepted(fd), fd);
    LastEvent(s.trace, Accepted(fd));
  }

  lemma ReplyKeepsOwned(s: State, fd: int, kind: Kind, turn: Turn)
    requires OwnedWith(s, {fd})
    ensures OwnedWith(AfterReply(s, fd, kind, turn), {fd})
  {
    hide Frames, Distinct, Stream, Heard, Delivered, Reply;
    var sent := Sent(fd, Delivered(turn.toClient, Reply(kind, turn)));
    EventKeepsHears(s, sent, fd);
    LastEvent(s.trace, sent);
  }

  lemma CloseKeepsOwned(s: State, fd: int)
    requires OwnedWith(s, {fd})
    ensures Owned(Log(s, Closed(fd)))
  {
    hide Frames, Distinct, Stream, Heard;
    EventKeepsHears(s, Closed(fd), fd);
    LastEvent(s.trace, Closed(fd));
    assert InLists(s) + {fd} - {fd} == InLists(s);
  }

  lemma ListingKeepsOwned(s: State, fd: int, channel: Channel)
    requires OwnedWith(s, {fd})
    ensures Owned(WithClients(Log(s, Listed(fd, channel)), channel, Clients(s, channel) + [fd]))
  {
    hide Distinct, OpenAfter, HearsChannel;
    var after := WithClients(Log(s, Listed(fd, channel)), channel, Clients(s, channel) + [fd]);
    ListingIsOpen(s.trace, fd, channel);
    ListingIsDistinct(s, fd, channel);
    ListingIsHeard(s.telemetry, s.trace, fd, channel, Telemetry);
    ListingIsHeard(s.alerts, s.trace, fd, channel, Alerts);
    HearsMeans(after);
  }

  lemma ListingIsOpen(trace: seq<Event>, fd: int, channel: Channel)
    requires OpenAfter(trace).Some? && fd in OpenAfter(trace).value
    ensures OpenAfter(trace + [Listed(fd, channel)]) == OpenAfter(trace)
  {
    LastEvent(trace, Listed(fd, channel));
  }

  lemma ListingIsDistinct(s: State, fd: int, channel: Channel)
    requires Distinct(s.telemetry + s.alerts) && fd !in InLists(s)
    ensures
      var after := WithClients(s, channel, Clients(s, channel) + [fd]);
      Distinct(after.telemetry + after.alerts) && InLists(after) == InLists(s) + {fd}
  {
    hide Distinct;
    var after := WithClients(s, channel, Clients(s, channel) + [fd]);
    DistinctParts(s.telemetry, s.alerts);
    DistinctParts(Clients(s, channel), [fd]);
    DistinctParts(after.telemetry, after.alerts);
    ShortIsDistinct([fd]);
  }

  /** A new client starts with nothing sent and nothing heard; the others stay as they were. */
  lemma ListingIsHeard(clients: seq<int>, trace: seq<Event>, fd: int, channel: Channel, of: Channel)
    requires HearsChannel(clients, trace, of) && fd !in clients
    ensures HearsChannel(clients, trace + [Listed(fd, channel)], of)
    ensures HearsChannel(clients + [fd], trace + [Listed(fd, channel)], of)
  {
    LastEvent(trace, Listed(fd, channel));
  }

  lemma HearsMeans(s: State)
    requires HearsChannel(s.telemetry, s.trace, Telemetry) && HearsChannel(s.alerts, s.trace, Alerts)
    ensures forall fd :: fd in s.telemetry ==> Stream(s.trace, fd) == Frames(Heard(s.trace, fd, Telemetry))
    ensures forall fd :: fd in s.alerts ==> Stream(s.trace, fd) == Frames(Heard(s.trace, fd, Alerts))
  {
  }

  /** A whole client turn, however it ends. */
  lemma ClientKeepsOwned(s: State, fd: int, turn: Turn)
    requires Owned(s) && fd !in InLists(s)
    ensures Owned(AfterClient(s, fd, turn))
  {
    hide Owned, OwnedWith, Classify, RequestReader.Request, AfterEvent, WithClients, Reply, Delivered, Upgrades;
    var kind := Classify(RequestReader.Request(turn.chunks));
    var accepted := Log(s, Accepted(fd));
    AcceptKeepsOwned(s, fd);
    ReplyKeepsOwned(accepted, fd, kind, turn);
    CloseKeepsOwned(accepted, fd);
    CloseKeepsOwned(AfterReply(accepted, fd, kind, turn), fd);
    match kind
    case Upgrade(channel, _, _) =>
      UpgradesMeans(kind, turn);
      ListingKeepsOwned(AfterReply(accepted, fd, kind, turn), fd, channel);
    case Other =>
      UpgradesMeans(kind, turn);
      if turn.routed.event.Some? {
        var (packet, result) := turn.routed.event.value;
        EventKeepsOwned(accepted, packet, result, turn.toListed, {fd});
        var announced := AfterEvent(accepted, packet, result, turn.toListed);
        ReplyKeepsOwned(announced, fd, kind, turn);
        CloseKeepsOwned(AfterReply(announced, fd, kind, turn), fd);
      }
    case _ => UpgradesMeans(kind, turn);
  }

  lemma UpgradesMeans(kind: Kind, turn: Turn)
    ensures Upgrades(kind, turn) ==> kind.Upgrade? && kind.isGet
  {
  }

  lemma EventKeepsOwned(s: State, packet: TelemetryPacket, result: IngestResult, sends: Sends, others: set<int>)
    requires OwnedWith(s, others)
    ensures OwnedWith(AfterEvent(s, packet, result, sends), others)
  {
    hide OwnedWith, AfterBroadcast, EventText;
    BroadcastKeepsOwned(s, if result.accepted then Telemetry else Alerts, Bytes(EventText(packet, result)), sends, others);
  }

  // ---------- Stopping ----------

  lemma {:induction false} ClosingsTraced(trace: seq<Event>, clients: seq<int>)
    requires Distinct(clients)
    requires OpenAfter(trace).Some? && forall fd :: fd in clients ==> fd in OpenAfter(trace).value
    ensures OpenAfter(trace + Closings(clients)) == Some(set fd | fd in OpenAfter(trace).value && fd !in clients)
    decreases |clients|
  {
    var open := OpenAfter(trace).value;
    if clients == [] {
      assert trace + Closings(clients) == trace;
      assert open == set fd | fd in open && fd !in clients;
    } else {
      var init, last := clients[..|clients| - 1], clients[|clients| - 1];
      assert clients == init + [last];
      DistinctParts(init, [last]);
      ClosingsTraced(trace, init);
      LastEvent(trace + Closings(init), Closed(last));
      assert trace + Closings(clients) == trace + Closings(init) + [Closed(last)];
      assert last in clients && last !in init;
      assert (set fd | fd in open && fd !in clients) == (set fd | fd in open && fd !in init) - {last};
    }
  }

  /** Stop closes every client that is still open, each once. */
  lemma StopClosesEverything(s: State)
    requires Owned(s)
    ensures Owned(AfterStop(s)) && OpenAfter(AfterStop(s).trace) == Some({})
  {
    hide OpenAfter, Distinct, Closings, Frames, Stream, Heard;
    DistinctParts(s.telemetry, s.alerts);
    ClosingsTraced(s.trace, s.telemetry);
    ClosingsTraced(s.trace + Closings(s.telemetry), s.alerts);
    ShortIsDistinct([]);
    assert OpenAfter(AfterStop(s).trace).value == {};
    assert AfterStop(s).telemetry + AfterStop(s).alerts == [] && InLists(AfterStop(s)) == {};
  }

  // ---------- Whole runs ----------

  lemma StepKeepsOwned(s: State, step: Step)
    requires Owned(s) && Possible(s, step)
    ensures Owned(AfterStep(s, step))
  {
    hide Distinct, Frames, Stream, Heard;
    match step
    case AcceptFailed =>
    case Client(fd, turn) => ClientKeepsOwned(s, fd, turn);
    case StopCalled => StopClosesEverything(s);
  }

  /** Between any two client turns of any run the lists own exactly the open descriptors. */
  lemma {:induction false} RunKeepsOwned(s: State, steps: seq<Step>)
    requires Owned(s) && PossibleRun(s, steps)
    ensures Owned(AfterRun(s, steps))
    decreases |steps|
  {
    hide Owned, AfterStep;
    if steps == [] || !s.running {
    } else {
      StepKeepsOwned(s, steps[0]);
      RunKeepsOwned(AfterStep(s, steps[0]), steps[1..]);
    }
  }

  /** A server that has no clients and made no calls owns what it should. */
  lemma NoClientsAreOwned(running: bool)
    ensures Owned(State(running, [], [], []))
  {
    ShortIsDistinct([]);
    var s := State(running, [], [], []);
    assert s.telemetry + s.alerts == [] && InLists(s) == {};
  }

  lemma {:induction false} PossiblePrefix(s: State, steps: seq<Step>, k: nat)
    requires PossibleRun(s, steps) && k <= |steps|
    ensures PossibleRun(s, steps[..k])
    decreases k
  {
    hide AfterStep, Possible;
    if k == 0 || !s.running {
    } else {
      assert steps[..k][1..] == steps[1..][..k - 1];
      PossiblePrefix(AfterStep(s, steps[0]), steps[1..], k - 1);
    }
  }

  /** Starting from no clients, ownership holds between any two turns of any run. */
  lemma EveryPrefixIsOwned(steps: seq<Step>, k: nat)
    requires PossibleRun(State(true, [], [], []), steps) && k <= |steps|
    ensures Owned(AfterRun(State(true, [], [], []), steps[..k]))
  {
    hide Owned, PossibleRun;
    NoClientsAreOwned(true);
    PossiblePrefix(State(true, [], [], []), steps, k);
    RunKeepsOwned(State(true, [], [], []), steps[..k]);
  }

  /** A reader of the frames a listed client was sent finds exactly what its channel announced since it joined. */
  lemma ListedClientReadsItsChannel(s: State, fd: int, channel: Channel)
    requires Owned(s) && fd in Clients(s, channel)
    requires forall i :: 0 <= i < |Heard(s.trace, fd, channel)| ==> |Heard(s.trace, fd, channel)[i]| < TWO_TO_THE_63
    ensures ReadFrames(Stream(s.trace, fd)) == Some(Heard(s.trace, fd, channel))
  {
    hide Stream, Heard, ReadFrames, Frames, Distinct;
    FrameStreamIsRead(Heard(s.trace, fd, channel));
  }

  /**
    A call's event reaches, as one whole frame, exactly the listeners of its channel that take it, who
    stay listed; nobody else is sent anything, and the other list stays as it was.
   */
  lemma EventReachesItsChannel(
    s: State, packet: TelemetryPacket, result: IngestResult, sends: Sends, others: set<int>, client: int)
    requires OwnedWith(s, others)
    ensures
      var after, frame := AfterEvent(s, packet, result, sends), Frame(Bytes(EventText(packet, result)));
      var listeners, kept := if result.accepted then s.telemetry else s.alerts, if result.accepted then after.telemetry else after.alerts;
      && (client in kept <==> client in listeners && Delivers(sends(client), frame))
      && (client in kept ==> Stream(after.trace, client) == Stream(s.trace, client) + frame)
      && (client !in listeners ==> Stream(after.trace, client) == Stream(s.trace, client))
      && (if result.accepted then after.alerts == s.alerts else after.telemetry == s.telemetry)
  {
    hide Stream, Heard, OpenAfter, Deliveries, Frame, Frames, Delivers, Delivered, Kept, Distinct, EventText, Bytes, OwnedWith;
    var channel, payload := if result.accepted then Telemetry else Alerts, Bytes(EventText(packet, result));
    KeptMembers(Clients(s, channel), Frame(payload), sends);
    BroadcastTraced(s, channel, payload, sends, others, client, channel);
  }

  lemma {:induction false} OpenOfPrefix(trace: seq<Event>, k: nat)
    requires OpenAfter(trace).Some? && k <= |trace|
    ensures OpenAfter(trace[..k]).Some?
    decreases |trace|
  {
    if k < |trace| {
      var front := trace[..|trace| - 1];
      assert front[..k] == trace[..k];
      OpenOfPrefix(front, k);
    } else {
      assert trace[..k] == trace;
    }
  }

  /** Once closed, a descriptor is not closed, written to or listed again before accept has returned it anew. */
  lemma {:induction false} ClosedStaysClosed(trace: seq<Event>, i: nat, j: nat, fd: int)
    requires OpenAfter(trace).Some? && i < j < |trace| && trace[i] == Closed(fd)
    requires forall k :: i < k < j ==> trace[k] != Accepted(fd)
    ensures OpenAfter(trace[..j]).Some? && fd !in OpenAfter(trace[..j]).value
    ensures !(trace[j].Closed? || trace[j].Sent? || trace[j].Listed?) || trace[j].fd != fd
    decreases j
  {
    hide OpenAfter;
    OpenOfPrefix(trace, j);
    OpenOfPrefix(trace, j + 1);
    OpenOfPrefix(trace, j - 1);
    OpenOfNext(trace, j - 1);
    OpenOfNext(trace, j);
    if i == j - 1 {
    } else {
      ClosedStaysClosed(trace, i, j - 1, fd);
    }
  }

  /** One event's share of OpenAfter. */
  lemma OpenOfNext(trace: seq<Event>, k: nat)
    requires k < |trace| && OpenAfter(trace[..k + 1]).Some?
    ensures OpenAfter(trace[..k]).Some?
    ensures trace[k].Accepted? ==> OpenAfter(trace[..k + 1]).value == OpenAfter(trace[..k]).value + {trace[k].fd}
    ensures trace[k].Closed? ==> OpenAfter(trace[..k + 1]).value == OpenAfter(trace[..k]).value - {trace[k].fd}
    ensures !trace[k].Accepted? && !trace[k].Closed? ==> OpenAfter(trace[..k + 1]) == OpenAfter(trace[..k])
    ensures trace[k].Closed? || trace[k].Sent? || trace[k].Listed? ==> trace[k].fd in OpenAfter(trace[..k]).value
  {
    assert trace[..k + 1][..k] == trace[..k];
  }
}
