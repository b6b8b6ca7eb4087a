/**
 * The chat room page of the client, without its rendering: how a received
 * message updates the participant count and the message log, which
 * messages are shown as notifications, and the guards around connecting,
 * reconnecting and sending.
 */
module ChatRoom {
  import opened Wrappers
  import opened Text
  import opened JsText
  import Wire

  /**
   * The count a received message carries, if any: the message must include
   * the count label, and the piece after the first separator (up to the
   * next one) must start, after white space and a sign, with a digit. With
   * no such piece `parseInt` reads the text "undefined".
   */
  function ExtractCount(message: string): (r: Option<int>)
    ensures r.Some? ==> Contains(message, Wire.CountLabel) && Contains(message, Wire.CountSeparator)
  {
    if Contains(message, Wire.CountLabel) then
      var pieces := Split(message, Wire.CountSeparator);
      SplitMoreThanOne(message, Wire.CountSeparator);
      ParseIntUndefined();
      ParseInt(if |pieces| > 1 then pieces[1] else "undefined")
    else None
  }

  /** A message with the marker and a second piece yields that piece, parsed. */
  lemma ExtractSecondPiece(message: string)
    requires Contains(message, Wire.CountLabel)
    requires |Split(message, Wire.CountSeparator)| > 1
    ensures ExtractCount(message) == ParseInt(Split(message, Wire.CountSeparator)[1])
  {
  }

  /** The participant count after `message` arrives when it was `current`. */
  function NextUserCount(current: int, message: string): (r: int)
    ensures r != current ==> ExtractCount(message) == Some(r)
    ensures ExtractCount(message).Some? ==> r == ExtractCount(message).value
    ensures !Contains(message, Wire.CountSeparator) ==> r == current
  {
    match ExtractCount(message)
    case Some(n) => n
    case None => current
  }

  /** A message is styled as a notification when it mentions joining or leaving. */
  predicate IsNotification(message: string)
    ensures IsNotification(message) <==> exists i :: OccursAt(message, "joined", i) || OccursAt(message, "left", i)
  {
    ContainsIff(message, "joined");
    ContainsIff(message, "left");
    Contains(message, "joined") || Contains(message, "left")
  }

  /** `readyState` of a browser WebSocket. */
  datatype ReadyState = Connecting | Open | Closing | Closed

  /** The socket reference: empty, or a socket in some state. */
  datatype SocketRef = NoSocket | Socket(readyState: ReadyState)

  class ChatClient {
    var userName: string
    /** Every message received, oldest first. */
    var messages: seq<string>
    var inputMessage: string
    var isConnected: bool
    var userCount: int
    /** The current socket. */
    var socket: SocketRef
    /** How many sockets have been created. */
    var socketsCreated: nat
    /** The reconnect timer reference holds a handle. */
    var timerHandleSet: bool
    /** The reconnect timer is scheduled and has neither fired nor been cleared. */
    var timerPending: bool
    /** The frames handed to the socket's `send`, oldest first. */
    var sent: seq<string>
    /** How many reconnects have ever been scheduled. */
    ghost var reconnectsScheduled: nat

    ghost predicate Valid()
      reads this
    {
      && (timerPending ==> timerHandleSet)
      && reconnectsScheduled == (if timerHandleSet then 1 else 0)
      && (isConnected ==> socket == Socket(Open))
    }

    /** The initial state of the page. */
    constructor ()
      ensures Valid()
      ensures userName == "" && messages == [] && inputMessage == "" && !isConnected && userCount == 0
      ensures socket == NoSocket && socketsCreated == 0 && !timerHandleSet && !timerPending && sent == []
      ensures reconnectsScheduled == 0
    {
      userName, messages, inputMessage, isConnected, userCount := "", [], "", false, 0;
      socket, socketsCreated, timerHandleSet, timerPending, sent := NoSocket, 0, false, false, [];
      reconnectsScheduled := 0;
    }

    /** Typing in the name box. */
    method SetUserName(name: string)
      modifies this`userName
      ensures userName == name
    {
      userName := name;
    }

    /** Typing in the message box. */
    method SetInputMessage(text: string)
      modifies this`inputMessage
      ensures inputMessage == text
    {
      inputMessage := text;
    }

    /**
     * Opens a new socket, unless there is no user name yet or the current
     * socket is already open; any other current socket is replaced.
     */
    method ConnectWebSocket()
      requires Valid()
      modifies this`socket, this`socketsCreated
      ensures Valid()
      ensures if old(userName) == "" || old(socket) == Socket(Open)
        then socket == old(socket) && socketsCreated == old(socketsCreated)
        else socket == Socket(Connecting) && socketsCreated == old(socketsCreated) + 1
    {
      if userName == "" {
        return;
      }
      if socket.Socket? && socket.readyState == Open {
        return;
      }
      socket := Socket(Connecting);
      socketsCreated := socketsCreated + 1;
    }

    /** The socket's `open` event: connected, and a pending reconnect is cancelled. */
    method OnOpen()
      requires Valid() && socket == Socket(Connecting)
      modifies this`socket, this`isConnected, this`timerPending
      ensures Valid()
      ensures socket == Socket(Open) && isConnected && !timerPending
    {
      socket := Socket(Open);
      isConnected := true;
      timerPending := false;
    }

    /** The socket's `message` event: maybe a new count, and the message is logged. */
    method OnMessage(message: string)
      modifies this`userCount, this`messages
      ensures userCount == NextUserCount(old(userCount), message)
      ensures messages == old(messages) + [message]
    {
      var count := ExtractCount(message);
      if count.Some? {
        userCount := count.value;
      }
      messages := messages + [message];
    }

    /**
     * The socket's `close` event: disconnected, and a reconnect is scheduled
     * only if the timer reference has never held a handle.
     */
    method OnClose()
      requires Valid() && socket.Socket?
      modifies this`socket, this`isConnected, this`timerHandleSet, this`timerPending, this`reconnectsScheduled
      ensures Valid()
      ensures socket == Socket(Closed) && !isConnected && timerHandleSet
      ensures timerPending <==> old(timerPending) || !old(timerHandleSet)
      ensures reconnectsScheduled <= 1
      ensures old(timerHandleSet) ==> reconnectsScheduled == old(reconnectsScheduled)
    {
      socket := Socket(Closed);
      isConnected := false;
      if !timerHandleSet {
        timerHandleSet := true;
        timerPending := true;
        reconnectsScheduled := reconnectsScheduled + 1;
      }
    }

    /** The scheduled reconnect runs: it tries to connect again. */
    method ReconnectTimerFires()
      requires Valid() && timerPending
      modifies this`timerPending, this`socket, this`socketsCreated
      ensures Valid()
      ensures !timerPending
      ensures if userName == "" || old(socket) == Socket(Open)
        then socket == old(socket) && socketsCreated == old(socketsCreated)
        else socket == Socket(Connecting) && socketsCreated == old(socketsCreated) + 1
    {
      timerPending := false;
      ConnectWebSocket();
    }

    /** Sends the typed message and clears the box, only while connected. */
    method SendMessage()
      requires Valid()
      modifies this`sent, this`inputMessage
      ensures Valid()
      ensures if old(socket).Socket? && isConnected
        then socket == Socket(Open) && sent == old(sent) + [old(inputMessage)] && inputMessage == ""
        else sent == old(sent) && inputMessage == old(inputMessage)
    {
      if socket.Socket? && isConnected {
        sent := sent + [inputMessage];
        inputMessage := "";
      }
    }
  }
}
