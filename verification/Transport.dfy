/** The byte stream to the broker, seen from the client: every call may move fewer bytes than asked. */
module Transport {
  import opened Bytes

  datatype ReadResult = Read(bytes: seq<Byte>) | TimedOut | Broken

  class Transport {
    /** Everything written so far. */
    ghost var sent: seq<Byte>
    /** How many writes moved nothing. */
    ghost var refused: nat
    /** Everything the broker is still going to deliver. */
    var incoming: seq<Byte>
    /** How many reads brought less than they asked for. */
    ghost var short: nat
    /** Did a read fail otherwise than by a timeout? */
    ghost var broken: bool

    /** esp_transport_write: a count, zero for a timeout, negative for an error. */
    method Write(bytes: seq<Byte>) returns (wlen: int)
      modifies this`sent, this`refused
      ensures -1 <= wlen <= |bytes|
      ensures sent == old(sent) + bytes[..if wlen > 0 then wlen else 0]
      ensures refused == old(refused) + if wlen > 0 then 0 else 1
    {
      wlen :| -1 <= wlen <= |bytes|;
      sent := sent + bytes[..if wlen > 0 then wlen else 0];
      refused := refused + if wlen > 0 then 0 else 1;
    }

    /** esp_transport_read of at most `max` bytes. */
    method Receive(max: nat) returns (r: ReadResult)
      requires max > 0
      modifies this`incoming, this`short, this`broken
      ensures r.Read? ==> 0 < |r.bytes| <= max && r.bytes + incoming == old(incoming)
      ensures !r.Read? ==> incoming == old(incoming)
      ensures short == old(short) + if r.Read? && |r.bytes| == max then 0 else 1
      ensures broken == (old(broken) || r.Broken?)
    {
      var n: int :| -1 <= n <= max;
      if 0 < n <= |incoming| {
        r := Read(incoming[..n]);
        incoming := incoming[n..];
      } else {
        r := if n == 0 then TimedOut else Broken;
        broken := broken || n != 0;
      }
      short := short + if r.Read? && |r.bytes| == max then 0 else 1;
    }
  }
}
