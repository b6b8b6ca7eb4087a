/**
 * The application messages the hub puts on the wire. They are plain text
 * with no envelope; the client recognises them only by substrings.
 */
module Wire {
  import Decimal

  /** The marker the client searches for (`includes`). */
  const CountLabel := "Users online:"
  /** The separator the client splits on: the marker and one space. */
  const CountSeparator := "Users online: "

  /** Sent to everyone after a participant is registered. */
  function JoinAnnouncement(name: string, count: nat): (r: string)
    ensures |name| < |r| && r[..|name|] == name
    ensures var tail := CountSeparator + Decimal.Format(count);
      |tail| < |r| && r[|r| - |tail|..] == tail
  {
    name + " joined the chat. " + CountSeparator + Decimal.Format(count)
  }

  /** Sent to everyone left after a participant is removed. */
  function LeaveAnnouncement(name: string, count: nat): (r: string)
    ensures |name| < |r| && r[..|name|] == name
    ensures var tail := CountSeparator + Decimal.Format(count);
      |tail| < |r| && r[|r| - |tail|..] == tail
  {
    name + " left the chat. " + CountSeparator + Decimal.Format(count)
  }

  /** A text frame from `name`, relayed to everyone. */
  function ChatLine(name: string, payload: string): (r: string)
    ensures |r| == |name| + 2 + |payload|
    ensures r[..|name|] == name && r[|name| + 2..] == payload
  {
    name + ": " + payload
  }
}
