/**
 * The broadcast hub of the chat server: a registry from connections to
 * display names, the `/ws` request handler (admission, receive loop,
 * cleanup) and the fan-out of every message to the registered connections
 * that are open.
 *
 * Sockets are identified by `ConnId`. Sending a frame is appending the text
 * to that connection's `outbox`; receiving is taking the next `Frame` of an
 * input sequence. Every step runs atomically, one after another.
 */
module BroadcastHub {
  import Text
  import Wire
  import Registry

  type ConnId = nat

  /** The states of a server-side socket (`WebSocketState`) after the handshake. */
  datatype WsState = Connecting | Open | CloseSent | CloseReceived | Closed | Aborted

  /** What one `ReceiveAsync` delivers. */
  datatype Frame = TextFrame(payload: string) | BinaryFrame | CloseFrame

  /** The outcome of a request to `/ws`: status 400, or an upgraded connection. */
  datatype Status = BadRequest | Upgraded(ws: ConnId, userName: string)

  /**
   * The string a query parameter converts to: its non-empty values joined
   * by commas, empty when the parameter is absent or every value is empty.
   */
  function QueryValue(values: seq<string>): (r: string)
    ensures r == "" <==> forall v :: v in values ==> v == ""
    ensures |values| == 1 ==> r == values[0]
  {
    var parts := NonEmptyValues(values);
    assert parts != [] ==> parts[0] in parts;
    assert |values| == 1 ==> values[1..] == [] && NonEmptyValues(values[1..]) == [];
    assert |values| == 1 ==> parts == (if values[0] == "" then [] else [values[0]]) + [];
    Text.Join(parts, ",")
  }

  /** The values that are not empty, in their order. */
  function NonEmptyValues(values: seq<string>): (r: seq<string>)
    ensures forall v :: v in r ==> v != "" && v in values
    ensures forall v :: v in values && v != "" ==> v in r
  {
    if values == [] then []
    else (if values[0] == "" then [] else [values[0]]) + NonEmptyValues(values[1..])
  }

  /** Every non-empty value is kept as often as it is given, and no empty one is. */
  lemma {:induction false} NonEmptyValuesCounts(values: seq<string>)
    ensures multiset(NonEmptyValues(values)) == multiset(values)["" := 0]
  {
    if values != [] {
      NonEmptyValuesCounts(values[1..]);
      assert values == [values[0]] + values[1..];
    }
  }

  /** Empty values of a query parameter, wherever they stand, do not change what it converts to. */
  lemma {:induction false} QueryValueIgnoresEmpty(before: seq<string>, after: seq<string>)
    ensures QueryValue(before + [""] + after) == QueryValue(before + after)
  {
    var rest := [""] + after;
    NonEmptyValuesConcat(before, rest);
    NonEmptyValuesConcat(before, after);
    assert rest[1..] == after;
    assert NonEmptyValues(rest) == [] + NonEmptyValues(after) == NonEmptyValues(after);
    assert before + [""] + after == before + rest;
  }

  /** Filtering a concatenation filters each part. */
  lemma {:induction false} NonEmptyValuesConcat(a: seq<string>, b: seq<string>)
    ensures NonEmptyValues(a + b) == NonEmptyValues(a) + NonEmptyValues(b)
  {
    if a == [] {
      assert a + b == b;
    } else {
      var head := if a[0] == "" then [] else [a[0]];
      NonEmptyValuesConcat(a[1..], b);
      assert (a + b)[0] == a[0];
      assert (a + b)[1..] == a[1..] + b;
      calc {
        NonEmptyValues(a + b);
        head + NonEmptyValues(a[1..] + b);
        head + (NonEmptyValues(a[1..]) + NonEmptyValues(b));
        (head + NonEmptyValues(a[1..])) + NonEmptyValues(b);
      }
    }
  }

  /** The connections a broadcast reaches: registered and in state Open. */
  function OpenMembers(clients: map<ConnId, string>, state: map<ConnId, WsState>): (r: set<ConnId>)
    ensures forall c :: c in r <==> c in clients && c in state && state[c] == Open
    ensures clients == map[] ==> r == {}
  {
    set c | c in clients && c in state && state[c] == Open
  }

  /** A newly registered, open connection joins the broadcast targets. */
  lemma OpenMembersAdmit(clients: map<ConnId, string>, state: map<ConnId, WsState>, ws: ConnId, name: string)
    ensures OpenMembers(clients[ws := name], state[ws := Open]) == OpenMembers(clients, state) + {ws}
  {
  }

  /**
   * Unregistering a socket whose state has left Open removes exactly that
   * socket from the broadcast targets.
   */
  lemma OpenMembersRemove(clients: map<ConnId, string>, state: map<ConnId, WsState>, ws: ConnId, s: WsState)
    requires s != Open
    ensures OpenMembers(clients - {ws}, state[ws := s]) == OpenMembers(clients, state) - {ws}
  {
  }

  /** The later of two state changes of one connection is the one that remains. */
  lemma OverwriteTwice(state: map<ConnId, WsState>, ws: ConnId, first: WsState, second: WsState)
    ensures state[ws := first][ws := second] == state[ws := second]
  {
  }

  /** Every target's outbox gains exactly one copy of `msg` at its end; no other outbox changes. */
  function AppendTo(outbox: map<ConnId, seq<string>>, targets: set<ConnId>, msg: string): (r: map<ConnId, seq<string>>)
    ensures r.Keys == outbox.Keys
    ensures forall c :: c in r && c in targets ==> r[c] == outbox[c] + [msg]
    ensures forall c :: c in r && c !in targets ==> r[c] == outbox[c]
  {
    map c | c in outbox :: if c in targets then outbox[c] + [msg] else outbox[c]
  }

  /** A message with no targets leaves every outbox as it was. */
  lemma AppendToNobody(outbox: map<ConnId, seq<string>>, msg: string)
    ensures AppendTo(outbox, {}, msg) == outbox
  {
  }

  /** Outboxes that agree with a broadcast connection by connection are that broadcast. */
  lemma AppendToPointwise(outbox: map<ConnId, seq<string>>, targets: set<ConnId>, msg: string, r: map<ConnId, seq<string>>)
    requires r.Keys == outbox.Keys
    requires forall c :: c in r ==> r[c] == if c in targets then outbox[c] + [msg] else outbox[c]
    ensures r == AppendTo(outbox, targets, msg)
  {
  }

  /**
   * The `foreach` over the registry that sends `msg` to every registered
   * connection whose socket is Open, visiting them in any order.
   */
  method SendToOpen(clients: map<ConnId, string>, state: map<ConnId, WsState>,
                    outbox: map<ConnId, seq<string>>, msg: string) returns (r: map<ConnId, seq<string>>)
    requires clients.Keys <= state.Keys && state.Keys == outbox.Keys
    ensures r == AppendTo(outbox, OpenMembers(clients, state), msg)
  {
    ghost var members := OpenMembers(clients, state);
    r := outbox;
    var pending := clients.Keys;
    while pending != {}
      invariant pending <= clients.Keys
      invariant r.Keys == outbox.Keys
      invariant forall c :: c in r ==> r[c] == if c in members && c !in pending then outbox[c] + [msg] else outbox[c]
      decreases pending
    {
      var c :| c in pending;
      if state[c] == Open {
        r := r[c := r[c] + [msg]];
      }
      pending := pending - {c};
    }
    AppendToPointwise(outbox, members, msg, r);
  }

  /**
   * The receive loop of `ws` over the registry, socket states and outboxes
   * it reads and writes; the registry does not change while it runs.
   */
  method ReceiveLoop(clients: map<ConnId, string>, state: map<ConnId, WsState>, outbox: map<ConnId, seq<string>>,
                     ws: ConnId, userName: string, frames: seq<Frame>)
    returns (states: map<ConnId, WsState>, boxes: map<ConnId, seq<string>>)
    requires clients.Keys <= state.Keys && state.Keys == outbox.Keys && ws in state
    ensures state[ws] != Open ==> states == state && boxes == outbox
    ensures state[ws] == Open ==>
      && states == state[ws := if CloseIndex(frames) < |frames| then CloseReceived else Aborted]
      && boxes == AppendAll(outbox, OpenMembers(clients, state), ChatLines(userName, frames, CloseIndex(frames)))
  {
    states, boxes := state, outbox;
    if state[ws] != Open {
      return;
    }
    var i;
    i, boxes := DeliverUntilClose(clients, state, outbox, userName, frames);
    // A close frame moves the socket to CloseReceived; when the frames run
    // out the peer is gone, the receive faults and the socket is aborted.
    states := state[ws := if i < |frames| then CloseReceived else Aborted];
  }

  /**
   * The receive loop proper: each frame before the first close frame is
   * handled in turn. It returns how many frames it handled.
   */
  method DeliverUntilClose(clients: map<ConnId, string>, state: map<ConnId, WsState>, outbox: map<ConnId, seq<string>>,
                           userName: string, frames: seq<Frame>)
    returns (i: nat, boxes: map<ConnId, seq<string>>)
    requires clients.Keys <= state.Keys && state.Keys == outbox.Keys
    ensures i == CloseIndex(frames)
    ensures boxes == AppendAll(outbox, OpenMembers(clients, state), ChatLines(userName, frames, i))
  {
    ghost var targets := OpenMembers(clients, state);
    i, boxes := 0, outbox;
    while i < |frames| && !frames[i].CloseFrame?
      invariant i <= CloseIndex(frames)
      invariant boxes == AppendAll(outbox, targets, ChatLines(userName, frames, i))
      decreases |frames| - i
    {
      boxes := DeliverFrame(clients, state, outbox, userName, frames, i, boxes);
      i := i + 1;
    }
  }

  /**
   * One turn of the receive loop: a text frame is broadcast as a chat line
   * to the open members, any other frame is ignored. The outboxes then hold
   * the chat lines of the first `i + 1` frames.
   */
  method DeliverFrame(clients: map<ConnId, string>, state: map<ConnId, WsState>, outbox: map<ConnId, seq<string>>,
                      userName: string, frames: seq<Frame>, i: nat, boxes: map<ConnId, seq<string>>)
    returns (after: map<ConnId, seq<string>>)
    requires clients.Keys <= state.Keys && state.Keys == boxes.Keys
    requires i < |frames|
    requires boxes == AppendAll(outbox, OpenMembers(clients, state), ChatLines(userName, frames, i))
    ensures after == AppendAll(outbox, OpenMembers(clients, state), ChatLines(userName, frames, i + 1))
  {
    after := boxes;
    if frames[i].TextFrame? {
      after := SendToOpen(clients, state, boxes, Wire.ChatLine(userName, frames[i].payload));
    }
    DeliveryStep(outbox, OpenMembers(clients, state), userName, frames, i, boxes, after);
  }

  /** The outboxes after broadcasting each of `msgs` in turn to the same targets. */
  function AppendAll(outbox: map<ConnId, seq<string>>, targets: set<ConnId>, msgs: seq<string>): (r: map<ConnId, seq<string>>)
    ensures r.Keys == outbox.Keys
    ensures forall c :: c in r && c in targets ==> r[c] == outbox[c] + msgs
    ensures forall c :: c in r && c !in targets ==> r[c] == outbox[c]
  {
    if msgs == [] then outbox
    else
      var init, last := msgs[..|msgs| - 1], msgs[|msgs| - 1];
      assert msgs == init + [last];
      AppendTo(AppendAll(outbox, targets, init), targets, last)
  }

  /** Broadcasting one more message extends the run of broadcasts. */
  lemma AppendAllSnoc(outbox: map<ConnId, seq<string>>, targets: set<ConnId>, msgs: seq<string>, msg: string)
    ensures AppendAll(outbox, targets, msgs + [msg]) == AppendTo(AppendAll(outbox, targets, msgs), targets, msg)
  {
    assert (msgs + [msg])[..|msgs|] == msgs;
  }

  /**
   * What connection `c` has heard by the end of a session of `ws`: the join
   * announcement goes to the others open and to `ws` itself, then the chat
   * lines to the same, then the leave announcement to the others only. So
   * the newcomer hears its own announcement and chat lines but not its
   * departure, every other open participant hears all of it in order, and
   * nobody else hears anything.
   */
  lemma SessionDelivery(outbox: map<ConnId, seq<string>>, others: set<ConnId>, ws: ConnId,
                        join: string, lines: seq<string>, leave: string, c: ConnId)
    requires ws !in others && ws !in outbox
    requires c in outbox || c == ws
    ensures var r := AppendTo(AppendAll(AppendTo(outbox[ws := []], others + {ws}, join), others + {ws}, lines),
                              others, leave);
      && c in r
      && r[c] == if c == ws then [join] + lines
                 else if c in others then outbox[c] + [join] + lines + [leave]
                 else outbox[c]
  {
    var joined := AppendTo(outbox[ws := []], others + {ws}, join);
    assert joined[c] == if c == ws then [join] else if c in others then outbox[c] + [join] else outbox[c];
  }

  /** The chat lines the first `n` frames of `frames` produce, in arrival order. */
  function ChatLines(userName: string, frames: seq<Frame>, n: nat): (r: seq<string>)
    requires n <= |frames|
    ensures |r| <= n
    ensures (forall j :: 0 <= j < n ==> !frames[j].TextFrame?) ==> r == []
  {
    if n == 0 then []
    else
      ChatLines(userName, frames, n - 1)
        + (if frames[n - 1].TextFrame? then [Wire.ChatLine(userName, frames[n - 1].payload)] else [])
  }

  /**
   * The receive loop's bookkeeping: after frame `i` is handled, the outboxes
   * hold the chat lines of the first `i + 1` frames.
   */
  lemma DeliveryStep(outbox: map<ConnId, seq<string>>, targets: set<ConnId>, userName: string,
                     frames: seq<Frame>, i: nat, before: map<ConnId, seq<string>>, after: map<ConnId, seq<string>>)
    requires i < |frames|
    requires before == AppendAll(outbox, targets, ChatLines(userName, frames, i))
    requires after == if frames[i].TextFrame?
      then AppendTo(before, targets, Wire.ChatLine(userName, frames[i].payload))
      else before
    ensures after == AppendAll(outbox, targets, ChatLines(userName, frames, i + 1))
  {
    if frames[i].TextFrame? {
      AppendAllSnoc(outbox, targets, ChatLines(userName, frames, i), Wire.ChatLine(userName, frames[i].payload));
    } else {
      var lines := ChatLines(userName, frames, i);
      assert ChatLines(userName, frames, i + 1) == lines + [];
      assert lines + [] == lines;
    }
  }

  /** The index of the first Close frame, or the length when there is none. */
  function CloseIndex(frames: seq<Frame>): (k: nat)
    ensures k <= |frames|
    ensures k < |frames| ==> frames[k].CloseFrame?
    ensures forall j :: 0 <= j < k ==> !frames[j].CloseFrame?
  {
    CloseIndexFrom(frames, 0)
  }

  /** An index before which no frame closes and at which the frames close or end is the close index. */
  lemma CloseIndexIs(frames: seq<Frame>, i: nat)
    requires i <= |frames|
    requires forall j :: 0 <= j < i ==> !frames[j].CloseFrame?
    requires i == |frames| || frames[i].CloseFrame?
    ensures CloseIndex(frames) == i
  {
  }

  /** The index of the first Close frame at or after `from`, or the length when there is none. */
  function CloseIndexFrom(frames: seq<Frame>, from: nat): (k: nat)
    requires from <= |frames|
    ensures from <= k <= |frames|
    ensures k < |frames| ==> frames[k].CloseFrame?
    ensures forall j :: from <= j < k ==> !frames[j].CloseFrame?
    decreases |frames| - from
  {
    if from == |frames| || frames[from].CloseFrame? then from else CloseIndexFrom(frames, from + 1)
  }

  class Hub {
    /** The registry: each registered connection and its display name. */
    var clients: map<ConnId, string>
    /** The state of every connection accepted so far. */
    var state: map<ConnId, WsState>
    /** The text frames sent to each connection accepted so far, oldest first. */
    var outbox: map<ConnId, seq<string>>
    /** The next identity an accepted socket gets. */
    var nextId: ConnId

    ghost predicate Valid()
      reads this
    {
      && clients.Keys <= state.Keys
      && state.Keys == outbox.Keys
      && forall c :: c in state ==> c < nextId
    }

    constructor ()
      ensures Valid()
      ensures clients == map[] && state == map[] && outbox == map[]
    {
      clients, state, outbox, nextId := map[], map[], map[], 0;
    }

    /** Sends `message` to every registered connection that is Open, in any order. */
    method Broadcast(message: string)
      requires Valid()
      modifies this
      ensures Valid()
      ensures clients == old(clients) && state == old(state) && nextId == old(nextId)
      ensures outbox == AppendTo(old(outbox), OpenMembers(clients, state), message)
      ensures clients == map[] ==> outbox == old(outbox)
    {
      if clients == map[] {
        assert OpenMembers(clients, state) == {};
        AppendToNobody(outbox, message);
      }
      outbox := SendToOpen(clients, state, outbox, message);
    }

    /**
     * A request to `/ws`: reject it with status 400 unless it is a WebSocket
     * request with a non-empty `name`; otherwise accept the socket, register
     * it and announce the new participant count to everyone, the newcomer
     * included.
     */
    method Admit(isWebSocketRequest: bool, nameValues: seq<string>) returns (status: Status)
      requires Valid()
      modifies this
      ensures Valid()
      ensures status.BadRequest? <==> !isWebSocketRequest || QueryValue(nameValues) == ""
      ensures status.BadRequest? ==>
        clients == old(clients) && state == old(state) && outbox == old(outbox) && nextId == old(nextId)
      ensures status.Upgraded? ==>
        && status.ws == old(nextId) && status.ws !in old(state)
        && status.userName == QueryValue(nameValues)
        && nextId == old(nextId) + 1
        && clients == old(clients)[status.ws := status.userName]
        && |clients| == |old(clients)| + 1
        && state == old(state)[status.ws := Open]
        && outbox == AppendTo(old(outbox)[status.ws := []], OpenMembers(clients, state),
                              Wire.JoinAnnouncement(status.userName, |clients|))
    {
      if !isWebSocketRequest {
        return BadRequest;
      }
      var userName := QueryValue(nameValues);
      if userName == "" {
        return BadRequest;
      }
      // Accepting the upgrade yields a new socket in state Open.
      var ws := nextId;
      nextId := nextId + 1;
      state := state[ws := Open];
      outbox := outbox[ws := []];
      // The result of TryAdd is ignored.
      clients := Registry.TryAdd(clients, ws, userName).0;
      Broadcast(Wire.JoinAnnouncement(userName, |clients|));
      status := Upgraded(ws, userName);
    }

    /**
     * The receive loop of `ws`, fed with the frames its peer sends. It runs
     * while the socket is Open and stops at the first close frame; when the
     * frames run out the peer is gone, the receive faults and the socket is
     * Aborted.
     */
    method ReceiveMessages(ws: ConnId, userName: string, frames: seq<Frame>)
      requires Valid() && ws in state
      modifies this
      ensures Valid()
      ensures clients == old(clients) && nextId == old(nextId)
      ensures old(state)[ws] != Open ==> state == old(state) && outbox == old(outbox)
      ensures old(state)[ws] == Open ==>
        && state == old(state)[ws := if CloseIndex(frames) < |frames| then CloseReceived else Aborted]
        && outbox == AppendAll(old(outbox), OpenMembers(old(clients), old(state)),
                               ChatLines(userName, frames, CloseIndex(frames)))
    {
      state, outbox := ReceiveLoop(clients, state, outbox, ws, userName, frames);
    }

    /**
     * The `finally` block of the handler: unregister `ws` (a no-op when it
     * is absent) and announce the new count to those who remain.
     */
    method Cleanup(ws: ConnId, userName: string)
      requires Valid()
      modifies this
      ensures Valid()
      ensures state == old(state) && nextId == old(nextId)
      ensures clients == old(clients) - {ws}
      ensures |clients| == |old(clients)| - (if ws in old(clients) then 1 else 0)
      ensures outbox == AppendTo(old(outbox), OpenMembers(clients, state),
                                 Wire.LeaveAnnouncement(userName, |clients|))
      ensures ws in outbox ==> outbox[ws] == old(outbox)[ws]
    {
      clients := Registry.TryRemove(clients, ws).0;
      Broadcast(Wire.LeaveAnnouncement(userName, |clients|));
    }

    /**
     * The `try`/`finally` part of the handler for a registered, open `ws`:
     * run its receive loop over `frames`, then clean up whichever way the
     * loop ended.
     */
    method Serve(ws: ConnId, userName: string, frames: seq<Frame>)
      requires Valid() && ws in clients && state[ws] == Open
      modifies this
      ensures Valid()
      ensures nextId == old(nextId)
      ensures clients == old(clients) - {ws}
      ensures state == old(state)[ws := if CloseIndex(frames) < |frames| then CloseReceived else Aborted]
      ensures var targets := OpenMembers(old(clients), old(state));
        outbox == AppendTo(AppendAll(old(outbox), targets, ChatLines(userName, frames, CloseIndex(frames))),
                           targets - {ws}, Wire.LeaveAnnouncement(userName, |old(clients)| - 1))
    {
      ReceiveMessages(ws, userName, frames);
      Cleanup(ws, userName);
      OpenMembersRemove(old(clients), old(state), ws, state[ws]);
    }

    /**
     * The whole handler for one request, when no other connection acts
     * while it runs: admission, then `Serve`. The newcomer hears its own
     * announcement and its own chat lines but not its departure; every
     * participant that was already open hears all three, in order.
     */
    method Handle(isWebSocketRequest: bool, nameValues: seq<string>, frames: seq<Frame>) returns (status: Status)
      requires Valid()
      modifies this
      ensures Valid()
      ensures status.BadRequest? <==> !isWebSocketRequest || QueryValue(nameValues) == ""
      ensures status.BadRequest? ==>
        clients == old(clients) && state == old(state) && outbox == old(outbox) && nextId == old(nextId)
      ensures nextId == old(nextId) + if status.Upgraded? then 1 else 0
      ensures status.Upgraded? ==>
        var ws, name, n, k := status.ws, status.userName, |old(clients)|, CloseIndex(frames);
        && ws !in old(state) && ws in outbox
        && clients == old(clients)
        && state == old(state)[ws := if k < |frames| then CloseReceived else Aborted]
        && outbox[ws] == [Wire.JoinAnnouncement(name, n + 1)] + ChatLines(name, frames, k)
        && (forall c :: c in OpenMembers(old(clients), old(state)) ==>
              outbox[c] == old(outbox)[c] + [Wire.JoinAnnouncement(name, n + 1)]
                           + ChatLines(name, frames, k) + [Wire.LeaveAnnouncement(name, n)])
        && (forall c :: c in old(outbox) && c !in OpenMembers(old(clients), old(state)) ==>
              outbox[c] == old(outbox)[c])
    {
      ghost var before := OpenMembers(clients, state);
      ghost var n := |clients|;
      status := Admit(isWebSocketRequest, nameValues);
      if status.Upgraded? {
        var ws, name := status.ws, status.userName;
        OpenMembersAdmit(old(clients), old(state), ws, name);
        assert OpenMembers(clients, state) - {ws} == before;
        Registry.TryAddThenRemove(old(clients), ws, name);
        ghost var accepted := state;
        Serve(ws, name, frames);
        OverwriteTwice(old(state), ws, Open, state[ws]);
        ghost var join, leave := Wire.JoinAnnouncement(name, n + 1), Wire.LeaveAnnouncement(name, n);
        ghost var lines := ChatLines(name, frames, CloseIndex(frames));
        SessionDelivery(old(outbox), before, ws, join, lines, leave, ws);
        forall c | c in old(outbox)
          ensures outbox[c] == if c in before then old(outbox)[c] + [join] + lines + [leave] else old(outbox)[c]
        {
          SessionDelivery(old(outbox), before, ws, join, lines, leave, c);
        }
      }
    }
  }
}
