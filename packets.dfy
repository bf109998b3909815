/** The packet dictionary the radio library hands to the receive callback, and the
    spreadsheet row the callback builds from it (receiver/receiver.py, `on_message`). */
module Packets {
  import opened Wrappers

  /** The value under a packet's `decoded` key: a dictionary that may carry `text`,
      or a value without a `get` method (such as `None`). */
  datatype Decoded = Fields(text: Option<string>) | NotADict

  /** The keys of the packet dictionary that the callback reads; `None` means the key is absent. */
  datatype Packet = Packet(id: Option<int>, decoded: Option<Decoded>, from: Option<int>, to: Option<int>)

  /** A `from` or `to` column: the node number from the packet, or a fallback label. */
  datatype Addr = Node(num: int) | Label(name: string)

  /** One row of the spreadsheet: the columns `timestamp`, `text`, `from`, `to`. */
  datatype Record = Record(timestamp: string, text: string, from: Addr, to: Addr)

  const UnknownSender: Addr := Label("unknown")
  const Broadcast: Addr := Label("broadcast")

  /** The dictionary literal built by the callback, with `now` the formatted local time.
      `None` stands for the AttributeError raised when `decoded` is present but not a
      dictionary: the callback's handler catches it and no row is built. */
  function Project(p: Packet, now: string): (r: Option<Record>)
    ensures r.None? <==> p.decoded == Some(NotADict)
    ensures r.Some? ==> r.value.timestamp == now
    ensures r.Some? && p.decoded.Some? && p.decoded.value.Fields? && p.decoded.value.text.Some? ==>
              r.value.text == p.decoded.value.text.value
    ensures r.Some? && (p.decoded.None? || p.decoded.value.text.None?) ==> r.value.text == ""
    ensures r.Some? ==> r.value.from == (if p.from.Some? then Node(p.from.value) else UnknownSender)
    ensures r.Some? ==> r.value.to == (if p.to.Some? then Node(p.to.value) else Broadcast)
  {
    var text :=
      match p.decoded
      case None => Some("")
      case Some(NotADict) => None
      case Some(Fields(t)) => Some(if t.Some? then t.value else "");
    if text.None? then None
    else
      var from := if p.from.Some? then Node(p.from.value) else UnknownSender;
      var to := if p.to.Some? then Node(p.to.value) else Broadcast;
      Some(Record(now, text.value, from, to))
  }
}
