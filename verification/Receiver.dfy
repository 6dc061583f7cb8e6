/** The incremental receiver of mqtt_client.c: mqtt_message_receive, and deliver_publish for payloads larger than
    the in-buffer. */
module Receiver {
  import opened Bytes
  import opened MqttMsg
  import opened MqttParse
  import opened Framing
  import Transport

  /** The least in-buffer that the reads of the fixed header and of the topic length stay inside. */
  const MIN_BUFFER := 9

  class Receiver {
    const inBuffer: array<Byte>
    const transport: Transport.Transport
    var readLen: nat
    var messageLength: nat

    constructor (bufferSize: nat, transport: Transport.Transport)
      requires bufferSize >= MIN_BUFFER
      ensures fresh(inBuffer) && inBuffer.Length == bufferSize && this.transport == transport
      ensures Valid() && readLen == 0
    {
      inBuffer := new Byte[bufferSize];
      this.transport := transport;
      readLen, messageLength := 0, 0;
    }

    ghost predicate Valid()
      reads this
    {
      MIN_BUFFER <= inBuffer.Length && readLen <= inBuffer.Length
    }

    function Buffered(): seq<Byte>
      requires readLen <= inBuffer.Length
      reads this, inBuffer
    {
      inBuffer[..readLen]
    }

    /** What is buffered and what is still to come. */
    ghost function Stream(): seq<Byte>
      requires readLen <= inBuffer.Length
      reads this, inBuffer, transport
    {
      Buffered() + transport.incoming
    }

    /** esp_transport_read to the end of what is buffered, and esp_mqtt_handle_transport_read_error:
        a positive count, 0 for a timeout, -2 for an error. */
    method ReadMore(max: nat) returns (n: int)
      requires Valid() && 0 < max && readLen + max <= inBuffer.Length
      modifies this`readLen, inBuffer, transport`incoming, transport`short, transport`broken
      ensures Valid() && Stream() == old(Stream())
      ensures n == 0 || n == -2 || 0 < n <= max
      ensures readLen == old(readLen) + if n > 0 then n else 0
      ensures transport.broken == (old(transport.broken) || n == -2)
      ensures transport.short == old(transport.short) + if n == max then 0 else 1
    {
      var r := transport.Receive(max);
      match r
      case Read(bytes) =>
        forall i | 0 <= i < |bytes| {
          inBuffer[readLen + i] := bytes[i];
        }
        readLen := readLen + |bytes|;
        n := |bytes|;
        assert Buffered() == old(Buffered()) + bytes;
      case TimedOut => n := 0;
      case Broken => n := -2;
    }

    /** The loop that reads the remaining length: 1 when it ends, -1 for a timeout, -2 for an error. */
    method ReadLength() returns (code: int)
      requires Valid() && 1 <= readLen < 6
      modifies this`readLen, inBuffer, transport`incoming, transport`short, transport`broken
      ensures Valid() && Stream() == old(Stream()) && old(readLen) <= readLen <= 6
      ensures code in {1, -1, -2}
      ensures code == 1 ==> readLen > old(readLen) && (readLen == 6 || Stream()[readLen - 1] < 128)
      ensures code == -1 ==> readLen < 6 && (readLen > old(readLen) ==> Stream()[readLen - 1] >= 128)
      ensures forall i :: old(readLen) <= i < readLen - 1 ==> Stream()[i] >= 128
      ensures transport.broken == (old(transport.broken) || code == -2)
      ensures transport.short == old(transport.short) + if code == 1 then 0 else 1
    {
      var more := true;
      while more
        invariant Valid() && Stream() == old(Stream()) && old(readLen) <= readLen <= 6
        invariant forall i :: old(readLen) <= i < readLen - 1 ==> Stream()[i] >= 128
        invariant more ==> readLen < 6 && (readLen > old(readLen) ==> Stream()[readLen - 1] >= 128)
        invariant !more ==> readLen > old(readLen) && (readLen == 6 || Stream()[readLen - 1] < 128)
        invariant transport.broken == old(transport.broken) && transport.short == old(transport.short)
        decreases 7 - readLen, more
      {
        var n := ReadMore(1);
        if n <= 0 {
          return if n == 0 then -1 else -2;
        }
        more := readLen < 6 && inBuffer[readLen - 1] >= 128;
      }
      code := 1;
    }

    /** For a PUBLISH larger than the in-buffer: its variable header must fit, then the buffer is filled.
        1 to go on reading up to `target`, or the code to return. */
    method TargetOfLarge(fixedLen: nat, ghost packet: seq<Byte>) returns (code: int, target: nat)
      requires Valid() && WellFormed(packet) && packet <= Stream() && inBuffer.Length < |packet|
      requires fixedLen == HeaderLength(packet) <= readLen
      modifies this`readLen, inBuffer, transport`incoming, transport`short, transport`broken
      ensures Valid() && Stream() == old(Stream()) && readLen >= old(readLen)
      ensures code in {1, 0, -1, -2} && (code == 1 ==> target == inBuffer.Length)
      ensures code == 1 ==> GetType(packet[0]) == PUBLISH && fixedLen + 2 <= |packet| && PayloadStart(packet) - 2 <= inBuffer.Length
      ensures code in {0, -1} ==> readLen < inBuffer.Length && transport.short > old(transport.short)
      ensures transport.short >= old(transport.short)
      ensures code == 0 ==> readLen > old(readLen)
      ensures code == -2 ==> transport.broken || Unreceivable(packet, inBuffer.Length)
      ensures transport.broken ==> old(transport.broken) || code == -2
    {
      target := inBuffer.Length;
      if GetType(inBuffer[0]) != PUBLISH {
        return -2, target;
      }
      HeaderBytes(packet);
      if readLen < fixedLen + 2 {
        var n := ReadMore(readLen - fixedLen + 2);
        if n <= 0 {
          return (if n == 0 then -1 else -2), target;
        }
        if readLen < fixedLen + 2 {
          return 0, target;
        }
      }
      assert inBuffer[fixedLen] == Stream()[fixedLen] && inBuffer[fixedLen + 1] == Stream()[fixedLen + 1];
      var topicLen := FromBe16(inBuffer[fixedLen], inBuffer[fixedLen + 1]);
      var needed := fixedLen + topicLen + if GetQos(inBuffer[0]) > 0 then 2 else 0;
      code := if inBuffer.Length < needed then -2 else 1;
    }

    /** The last part of mqtt_message_receive: one read of what is missing up to `target`. */
    method ReadRest(target: nat) returns (code: int)
      requires Valid() && target <= inBuffer.Length
      modifies this`readLen, inBuffer, transport`incoming, transport`short, transport`broken
      ensures Valid() && Stream() == old(Stream()) && readLen >= old(readLen)
      ensures code in {1, 0, -1, -2} && transport.broken == (old(transport.broken) || code == -2)
      ensures code == 1 ==> readLen == if old(readLen) > target then old(readLen) else target
      ensures code in {0, -1} ==> readLen < target && transport.short > old(transport.short)
      ensures transport.short >= old(transport.short)
      ensures code == 0 ==> readLen > old(readLen)
    {
      if readLen < target {
        var n := ReadMore(target - readLen);
        if n <= 0 {
          return if n == 0 then -1 else -2;
        }
        if readLen < target {
          return 0;
        }
      }
      code := 1;
    }

    /** The first part of mqtt_message_receive: until the fixed header is there. 1 to go on, or the code to return. */
    method ReadFixedHeader(ghost packet: seq<Byte>) returns (code: int)
      requires Valid() && WellFormed(packet) && packet <= Stream() && readLen < |packet|
      modifies this`readLen, inBuffer, transport`incoming, transport`short, transport`broken
      ensures Valid() && Stream() == old(Stream())
      ensures code in {1, 0, -1, -2} && transport.broken == (old(transport.broken) || code == -2)
      ensures code == 1 ==> HeaderLength(packet) <= readLen
      ensures code == 1 ==> (readLen <= |packet| <==> ResumeSafe(packet, old(readLen)))
      ensures code in {0, -1} && ResumeSafe(packet, old(readLen)) ==> readLen < |packet| && readLen < inBuffer.Length
      ensures transport.short == old(transport.short) + if code == 1 then 0 else 1
      ensures if code == 0 then old(readLen) == readLen == 0 else code != -2 ==> 0 < readLen && old(readLen) <= readLen
    {
      HeaderBytes(packet);
      if readLen == 0 {
        var n := ReadMore(1);
        if n <= 0 {
          return n;
        }
        assert inBuffer[0] == Stream()[0];
        if !ValidFirstByte(inBuffer[0]) {
          return -2;
        }
      }
      assert inBuffer[readLen - 1] == Stream()[readLen - 1];
      ghost var k := readLen;
      if readLen == 1 || (readLen < 6 && inBuffer[readLen - 1] >= 128) {
        code := ReadLength();
        if code != 1 {
          if code == -1 {
            LengthPending(packet, Stream(), k, readLen);
          }
          return;
        }
        LengthRead(packet, Stream(), k, readLen);
      } else {
        NotInLength(packet, k);
      }
      code := 1;
    }

    /** The second part: the total length is read off the header, and the rest of the packet, or of what the buffer
        holds of it, is awaited. */
    method ReceiveBody(ghost packet: seq<Byte>) returns (r: int)
      requires Valid() && WellFormed(packet) && packet <= Stream() && HeaderLength(packet) <= readLen
      modifies this, inBuffer, transport`incoming, transport`short, transport`broken
      ensures Valid() && Stream() == old(Stream()) && readLen >= old(readLen)
      ensures r in {1, 0, -1, -2}
      ensures r == 1 ==> messageLength == |packet|
      ensures r == 1 && old(readLen) <= |packet| ==> readLen == Portion(packet, inBuffer.Length)
      ensures r == 1 ==> Portion(packet, inBuffer.Length) <= readLen && (old(readLen) > |packet| ==> readLen > |packet|)
      ensures r == 1 && inBuffer.Length < |packet| ==> !Unreceivable(packet, inBuffer.Length)
      ensures r in {0, -1} ==> readLen < Portion(packet, inBuffer.Length) && transport.short > old(transport.short)
      ensures transport.short >= old(transport.short)
      ensures r == 0 ==> readLen > old(readLen)
      ensures r == -2 ==> transport.broken || Unreceivable(packet, inBuffer.Length)
      ensures transport.broken ==> old(transport.broken) || r == -2
    {
      assert SharesHeader(packet, Buffered());
      HeaderDecides(packet, Buffered());
      var totalLen, fixedLen := GetTotalLength(inBuffer[..readLen], readLen);
      assert inBuffer[..readLen][..readLen] == Buffered();
      messageLength := totalLen;
      if inBuffer.Length < totalLen {
        r, totalLen := TargetOfLarge(fixedLen, packet);
        if r != 1 {
          return;
        }
      }
      r := ReadRest(totalLen);
    }

    /** mqtt_message_receive. `packet` is the one the stream goes on with. However the transport cuts the stream up:
        1 leaves exactly the packet in the buffer (of a larger PUBLISH, its beginning) if and only if the resumption
        was safe; 0 and -1 leave less than that, because a read brought less than it asked for; -2 means that the transport
        failed or the packet is too large. */
    method MessageReceive(ghost packet: seq<Byte>) returns (r: int)
      requires Valid() && WellFormed(packet) && packet <= Stream() && readLen < |packet|
      modifies this, inBuffer, transport`incoming, transport`short, transport`broken
      ensures Valid() && Stream() == old(Stream())
      ensures r in {1, 0, -1, -2}
      ensures r == 1 ==> messageLength == |packet| && packet[..Portion(packet, inBuffer.Length)] <= Buffered()
      ensures r == 1 ==> (Buffered() == packet[..Portion(packet, inBuffer.Length)] <==> ResumeSafe(packet, old(readLen)))
      ensures r == 1 && inBuffer.Length < |packet| ==> !Unreceivable(packet, inBuffer.Length)
      ensures r in {0, -1} && ResumeSafe(packet, old(readLen)) ==>
                readLen < Portion(packet, inBuffer.Length) && Buffered() == packet[..readLen]
      ensures r in {0, -1} ==> transport.short > old(transport.short)
      ensures r == 0 ==> old(readLen) == readLen == 0 || readLen > old(readLen)
      ensures r == -1 ==> readLen > 0
      ensures transport.short >= old(transport.short)
      ensures r == -2 ==> transport.broken || Unreceivable(packet, inBuffer.Length)
      ensures transport.broken ==> old(transport.broken) || r == -2
    {
      messageLength := 0;
      r := ReadFixedHeader(packet);
      if r != 1 {
        return;
      }
      r := ReceiveBody(packet);
    }

    /** The topic and the payload bytes that are in the buffer, or nothing if the topic is not all there. */
    method FirstData(ghost packet: seq<Byte>) returns (topic: Option<seq<Byte>>, data: seq<Byte>)
      requires Valid() && ValidPublish(packet) && HeaderLength(packet) + 2 < readLen <= |packet|
      requires Buffered() == packet[..readLen]
      ensures PayloadStart(packet) <= readLen ==> topic == Some(TopicBytes(packet)) && data == packet[PayloadStart(packet)..readLen]
      ensures PayloadStart(packet) > readLen ==> data == []
    {
      FirstFields(packet, Buffered());
      topic, data := None, [];
      var name := GetPublishTopic(inBuffer[..readLen]);
      if name.Some? {
        topic := Some(At(inBuffer[..readLen], name.value));
        var payload := GetPublishData(inBuffer[..readLen]);
        if payload.Some? {
          data := At(inBuffer[..readLen], payload.value);
        }
      }
    }

    /** The head of deliver_publish: the first event, or nothing if the topic is not all in the buffer. */
    method FirstEvent(ghost packet: seq<Byte>) returns (event: Option<DataEvent>)
      requires Valid() && ValidPublish(packet) && readLen == Portion(packet, inBuffer.Length)
      requires Buffered() == packet[..readLen] && messageLength == |packet| && HeaderLength(packet) + 2 < readLen
      ensures PayloadStart(packet) <= readLen ==>
                event == Some(DataEvent(Some(TopicBytes(packet)), packet[PayloadStart(packet)..readLen], 0,
                                        |packet| - PayloadStart(packet), PublishId(packet), GetQos(packet[0]),
                                        GetDup(packet[0]), GetRetain(packet[0])))
      ensures PayloadStart(packet) > readLen && event.Some? ==> event.value.total == |packet| - readLen && event.value.data == []
    {
      var topic, data := FirstData(packet);
      if topic == None {
        return None;
      }
      var id := GetId(inBuffer[..readLen], readLen);
      if PayloadStart(packet) <= readLen {
        FirstId(packet, Buffered());
      }
      assert inBuffer[0] == Buffered()[0];
      event := Some(DataEvent(topic, data, 0, |data| + messageLength - readLen, id,
                              GetQos(inBuffer[0]), GetDup(inBuffer[0]), GetRetain(inBuffer[0])));
    }

    /** deliver_publish: one DATA event for what is buffered, then one for every read until the packet is done.
        `complete` is false when a read failed; a timeout then still counts as success. */
    method DeliverPublish(ghost packet: seq<Byte>) returns (ok: bool, complete: bool, events: seq<DataEvent>, ghost n: nat)
      requires Valid() && ValidPublish(packet) && readLen == Portion(packet, inBuffer.Length)
      requires Buffered() == packet[..readLen] && messageLength == |packet| && packet <= Stream() && HeaderLength(packet) + 2 < readLen
      modifies inBuffer, transport`incoming, transport`short, transport`broken
      ensures complete ==> ok && transport.incoming == old(Stream())[|packet|..]
      ensures transport.short >= old(transport.short) && (ok && !complete ==> transport.short > old(transport.short))
      ensures transport.broken ==> old(transport.broken) || !ok
      ensures PayloadStart(packet) <= readLen ==>
                && n <= |packet| - PayloadStart(packet)
                && Delivered(packet, events, n)
                && (complete <==> n == |packet| - PayloadStart(packet))
                && transport.incoming == old(Stream())[PayloadStart(packet) + n..]
                && (!ok ==> transport.broken)
      ensures PayloadStart(packet) > readLen ==> forall m :: !Delivered(packet, events, m)
    {
      ok, complete, events, n := true, false, [], 0;
      ghost var stream := Stream();
      var msgReadLen := readLen;
      var first := FirstEvent(packet);
      if first == None {
        return false, false, [], 0;
      }
      events := [first.value];
      var offset := |first.value.data|;
      n := offset;
      ghost var good := PayloadStart(packet) <= readLen;
      if good {
        FirstDelivered(packet, first.value, n);
      }
      while msgReadLen < messageLength
        invariant readLen <= msgReadLen <= messageLength == |packet| == old(messageLength)
        invariant transport.incoming == stream[msgReadLen..] && n == offset
        invariant transport.broken == old(transport.broken) && transport.short >= old(transport.short)
        invariant events != [] && events[0] == first.value
        invariant good ==> Delivered(packet, events, n) && PayloadStart(packet) + n == msgReadLen
        decreases messageLength - msgReadLen
      {
        var r;
        r, events := DeliverNext(events, offset, msgReadLen, packet, stream, good);
        if !r.Read? {
          ok := r.TimedOut?;
          WrongTotal(packet, events);
          return;
        }
        msgReadLen := msgReadLen + |r.bytes|;
        offset := offset + |r.bytes|;
        n := offset;
      }
      WrongTotal(packet, events);
      complete := true;
    }

    /** One round of its loop: a read, and an event for what it brought. */
    method DeliverNext(events: seq<DataEvent>, offset: nat, at: nat, ghost packet: seq<Byte>, ghost stream: seq<Byte>, ghost good: bool)
      returns (r: Transport.ReadResult, more: seq<DataEvent>)
      requires Valid() && ValidPublish(packet) && at < messageLength == |packet| && packet <= stream && transport.incoming == stream[at..]
      requires events != [] && (good ==> Delivered(packet, events, offset) && PayloadStart(packet) + offset == at)
      modifies inBuffer, transport`incoming, transport`short, transport`broken
      ensures r.Read? ==> 0 < |r.bytes| <= messageLength - at && transport.incoming == stream[at + |r.bytes|..]
      ensures r.Read? ==> more == events + [events[0].(topic := None, data := r.bytes, offset := offset)]
      ensures r.Read? && good ==> Delivered(packet, more, offset + |r.bytes|)
      ensures !r.Read? ==> more == events && transport.incoming == stream[at..] && transport.short > old(transport.short)
      ensures transport.broken == (old(transport.broken) || r.Broken?) && transport.short >= old(transport.short)
    {
      r := ReadChunk(messageLength - at, stream, at);
      more := events;
      if r.Read? {
        assert r.bytes == packet[at..at + |r.bytes|];
        if good {
          NextDelivered(packet, events, offset, r.bytes);
        }
        more := events + [events[0].(topic := None, data := r.bytes, offset := offset)];
      }
    }

    /** The read in the loop of deliver_publish: the next stretch of the payload, from the start of the in-buffer. */
    method ReadChunk(missing: nat, ghost stream: seq<Byte>, ghost at: nat) returns (r: Transport.ReadResult)
      requires Valid() && missing > 0 && at <= |stream| && transport.incoming == stream[at..]
      modifies inBuffer, transport`incoming, transport`short, transport`broken
      ensures r.Read? ==> 0 < |r.bytes| <= missing && at + |r.bytes| <= |stream|
      ensures r.Read? ==> r.bytes == stream[at..at + |r.bytes|] && transport.incoming == stream[at + |r.bytes|..]
      ensures r.Read? ==> |r.bytes| <= inBuffer.Length && inBuffer[..|r.bytes|] == r.bytes
      ensures !r.Read? ==> transport.incoming == stream[at..] && transport.short > old(transport.short)
      ensures transport.broken == (old(transport.broken) || r.Broken?) && transport.short >= old(transport.short)
    {
      r := transport.Receive(if missing > inBuffer.Length then inBuffer.Length else missing);
      if r.Read? {
        forall i | 0 <= i < |r.bytes| {
          inBuffer[i] := r.bytes[i];
        }
        assert stream[at..] == r.bytes + transport.incoming;
      }
    }

    /** The head of mqtt_process_receive, for packets of any size: type, QoS and id are read off the buffer, a PUBLISH is
        delivered, and the buffer is emptied. It fails if the transport does, or if a pass in mid-packet brings nothing at all.
        `lost` says that a timeout cut the delivery short, which counts as success. */
    method ProcessReceive(ghost packet: seq<Byte>, ghost rest: seq<Byte>) returns (arrival: Option<Arrival>, failed: bool, lost: bool)
      requires Valid() && Receivable(packet, inBuffer.Length) && readLen < Portion(packet, inBuffer.Length)
      requires Stream() == packet + rest && !transport.broken
      modifies this, inBuffer, transport`incoming, transport`short, transport`broken
      ensures Valid() && (lost ==> arrival.Some?)
      ensures failed <==> arrival.None? && (transport.broken || (old(readLen) > 0 && readLen == old(readLen)))
      ensures (arrival.None? && !transport.broken) || lost ==> transport.short > old(transport.short)
      ensures transport.short >= old(transport.short)
      ensures arrival.Some? ==> (arrival.value.delivered <==> !transport.broken)
      ensures arrival.Some? ==> readLen == 0 && if ResumeSafe(packet, old(readLen)) then ArrivalOf(arrival.value, packet, inBuffer.Length)
                                                else Overrun(arrival.value, packet)
      ensures arrival.Some? && !lost && arrival.value.delivered && ResumeSafe(packet, old(readLen)) ==>
                transport.incoming == rest && Delivers(arrival.value, packet)
      ensures arrival.Some? && !ResumeSafe(packet, old(readLen)) ==> |transport.incoming| < |rest|
      ensures arrival.None? && !failed && ResumeSafe(packet, old(readLen)) ==>
                Stream() == packet + rest && readLen < Portion(packet, inBuffer.Length)
    {
      arrival, lost := None, false;
      var previous := readLen;
      var recv := MessageReceive(packet);
      failed := recv == -2 || (recv == -1 && previous == readLen);
      if recv == 1 {
        arrival, lost := TakeOut(packet, rest, previous);
      }
    }

    /** Its rest, once a packet is in the buffer. */
    method TakeOut(ghost packet: seq<Byte>, ghost rest: seq<Byte>, ghost previous: nat) returns (arrival: Option<Arrival>, lost: bool)
      requires Valid() && Receivable(packet, inBuffer.Length) && previous < |packet| && Stream() == packet + rest && !transport.broken
      requires messageLength == |packet| && packet[..Portion(packet, inBuffer.Length)] <= Buffered()
      requires Buffered() == packet[..Portion(packet, inBuffer.Length)] <==> ResumeSafe(packet, previous)
      modifies this, inBuffer, transport`incoming, transport`short, transport`broken
      ensures Valid() && readLen == 0 && arrival.Some?
      ensures if ResumeSafe(packet, previous) then ArrivalOf(arrival.value, packet, inBuffer.Length) else Overrun(arrival.value, packet)
      ensures arrival.value.delivered <==> !transport.broken
      ensures transport.short >= old(transport.short) && (lost ==> transport.short > old(transport.short))
      ensures !lost && arrival.value.delivered && ResumeSafe(packet, previous) ==>
                transport.incoming == rest && Delivers(arrival.value, packet)
      ensures !ResumeSafe(packet, previous) ==> |transport.incoming| < |rest|
    {
      assert inBuffer[0] == Buffered()[0] == packet[..Portion(packet, inBuffer.Length)][0];
      PacketId(packet, Buffered());
      var typ, qos := GetType(inBuffer[0]), GetQos(inBuffer[0]);
      var id := GetId(inBuffer[..readLen], messageLength);
      var excerpt, delivered, events := inBuffer[..readLen], true, [];
      lost := false;
      if typ == PUBLISH {
        PublishIsSafe(packet, previous);
        delivered, lost, events := TakePublish(packet, rest);
      } else {
        BeyondPacket(Buffered(), transport.incoming, packet, rest);
      }
      readLen := 0;
      arrival := Some(Arrival(excerpt, typ, qos, id, delivered, events));
    }

    /** The PUBLISH case. */
    method TakePublish(ghost packet: seq<Byte>, ghost rest: seq<Byte>) returns (delivered: bool, lost: bool, events: seq<DataEvent>)
      requires Valid() && ValidPublish(packet) && readLen == Portion(packet, inBuffer.Length) && PayloadStart(packet) <= readLen
      requires Buffered() == packet[..readLen] && messageLength == |packet| && Stream() == packet + rest && !transport.broken
      modifies inBuffer, transport`incoming, transport`short, transport`broken
      ensures exists n :: Delivered(packet, events, n)
      ensures delivered <==> !transport.broken
      ensures transport.short >= old(transport.short) && (lost ==> transport.short > old(transport.short))
      ensures !lost && delivered ==> transport.incoming == rest && Delivered(packet, events, |packet| - PayloadStart(packet))
    {
      HeaderBytes(packet);
      var complete;
      ghost var n;
      delivered, complete, events, n := DeliverPublish(packet);
      assert Delivered(packet, events, n) && (packet + rest)[|packet|..] == rest;
      lost := delivered && !complete;
    }

    /** The stream goes on with the k-th packet, part of which may be in the buffer. */
    ghost predicate AtPacket(packets: seq<seq<Byte>>, k: nat)
      requires readLen <= inBuffer.Length
      reads this, inBuffer, transport
    {
      k <= |packets| && Stream() == Flat(packets[k..]) && (k < |packets| ==> readLen < Portion(packets[k], inBuffer.Length))
    }

    /** One round, with a safe resumption. It fails if the transport does, or if it brings nothing in mid-packet. */
    method ReceiveRound(ghost packets: seq<seq<Byte>>, ghost k: nat) returns (arrival: Option<Arrival>, failed: bool, lost: bool)
      requires Valid() && AllReceivable(packets, inBuffer.Length) && k < |packets| && AtPacket(packets, k) && !transport.broken
      requires Receivable(packets[k], inBuffer.Length) && ResumeSafe(packets[k], readLen)
      modifies this, inBuffer, transport`incoming, transport`short, transport`broken
      ensures Valid()
      ensures failed <==> transport.broken || (arrival.None? && old(readLen) > 0 && readLen == old(readLen))
      ensures arrival.Some? ==> ArrivalOf(arrival.value, packets[k], inBuffer.Length) && (failed <==> !arrival.value.delivered)
      ensures (arrival.None? && !transport.broken) || lost ==> transport.short > old(transport.short)
      ensures transport.short >= old(transport.short)
      ensures !failed && !lost ==> AtPacket(packets, if arrival.Some? then k + 1 else k)
      ensures arrival.Some? && !failed && !lost ==> Delivers(arrival.value, packets[k])
    {
      FlatFrom(packets, k);
      arrival, failed, lost := ProcessReceive(packets[k], Flat(packets[k + 1..]));
      if arrival.Some? {
        failed := !arrival.value.delivered;
        if k + 1 < |packets| {
          SomeLeft(packets, k + 1, inBuffer.Length);
        }
        assert Stream() == transport.incoming;
      }
    }

    /** The same, counting what has arrived. */
    method ReceiveNext(ghost packets: seq<seq<Byte>>, arrivals: seq<Arrival>) returns (more: seq<Arrival>, failed: bool, lost: bool)
      requires Valid() && AllReceivable(packets, inBuffer.Length) && AllArrived(arrivals, packets, inBuffer.Length, |arrivals|)
      requires |arrivals| < |packets| && AtPacket(packets, |arrivals|) && SafeAt(packets[|arrivals|], readLen) && !transport.broken
      modifies this, inBuffer, transport`incoming, transport`short, transport`broken
      ensures Valid() && |arrivals| <= |more| <= |arrivals| + 1
      ensures failed <==> transport.broken || (|more| == |arrivals| && old(readLen) > 0 && readLen == old(readLen))
      ensures AllArrived(more, packets, inBuffer.Length, if lost || failed then |more| - 1 else |more|)
      ensures !failed && !lost ==> AtPacket(packets, |more|)
      ensures transport.short >= old(transport.short) + if (|more| == |arrivals| && !transport.broken) || lost then 1 else 0
    {
      var arrival;
      arrival, failed, lost := ReceiveRound(packets, |arrivals|);
      ArrivesOrNot(arrivals, packets, inBuffer.Length, arrival, !failed && !lost);
      more := if arrival.Some? then arrivals + [arrival.value] else arrivals;
    }

    /** Up to `passes` rounds of mqtt_process_receive, or until `packets` are in: however the transport cuts the stream up
        and however often it times out between packets, they arrive one by one, whole, in order and exactly once, large ones
        in fragments, and the rest is still to come. Every round brings a packet but for those in which a read brought less
        than it asked for; only a failure of the transport, or a round in mid-packet that brings nothing, is one of the
        receiver. `safe` turns false where the next resumption would be unsafe, which no immune packet allows, `lost` where
        a timeout cut a delivery short. */
    method ReceiveAll(passes: nat, packets: seq<seq<Byte>>) returns (arrivals: seq<Arrival>, failed: bool, safe: bool, lost: bool)
      requires Valid() && AllReceivable(packets, inBuffer.Length) && AtPacket(packets, 0) && !transport.broken
      modifies this, inBuffer, transport`incoming, transport`short, transport`broken
      ensures Valid() && AllArrived(arrivals, packets, inBuffer.Length, if lost || failed then |arrivals| - 1 else |arrivals|)
      ensures !lost && !failed ==> AtPacket(packets, |arrivals|)
      ensures !safe ==> !lost && !failed && |arrivals| < |packets| && !SafeAt(packets[|arrivals|], readLen)
      ensures (forall p :: p in packets ==> Immune(p)) ==> safe
      ensures transport.broken ==> failed
      ensures failed && !transport.broken ==> readLen > 0 && |arrivals| < |packets|
      ensures lost || (failed && !transport.broken) ==> transport.short > old(transport.short)
      ensures !failed && !lost && safe && |arrivals| < |packets| ==> passes <= |arrivals| + transport.short - old(transport.short)
    {
      arrivals, failed, safe, lost := [], false, true, false;
      for pass := 0 to passes
        invariant Valid() && !transport.broken && !failed && safe && !lost
        invariant AllArrived(arrivals, packets, inBuffer.Length, |arrivals|) && AtPacket(packets, |arrivals|)
        invariant pass <= |arrivals| + transport.short - old(transport.short) && transport.short >= old(transport.short)
        modifies this, inBuffer, transport`incoming, transport`short, transport`broken
      {
        if |arrivals| == |packets| {
          return;
        }
        assert Receivable(packets[|arrivals|], inBuffer.Length);
        SafeIfImmune(packets, |arrivals|, readLen);
        if !SafeAt(packets[|arrivals|], readLen) {
          safe := false;
          return;
        }
        arrivals, failed, lost := ReceiveNext(packets, arrivals);
        if failed || lost {
          return;
        }
      }
    }
  }

  predicate SafeAt(p: seq<Byte>, k: nat) {
    WellFormed(p) && k < |p| && ResumeSafe(p, k)
  }

  lemma SafeIfImmune(packets: seq<seq<Byte>>, i: nat, k: nat)
    requires i < |packets| && WellFormed(packets[i]) && k < |packets[i]|
    ensures (forall p :: p in packets ==> Immune(p)) ==> SafeAt(packets[i], k)
  {
    ImmuneExactly(packets[i]);
  }

  predicate AllReceivable(packets: seq<seq<Byte>>, capacity: nat) {
    forall k :: 0 <= k < |packets| ==> Receivable(packets[k], capacity)
  }

  /** The arrivals are those of the first packets, in order; of the first `whole` everything was delivered. */
  ghost predicate AllArrived(arrivals: seq<Arrival>, packets: seq<seq<Byte>>, capacity: nat, whole: int)
    requires AllReceivable(packets, capacity)
  {
    && |arrivals| <= |packets|
    && forall k :: 0 <= k < |arrivals| ==> ArrivalOf(arrivals[k], packets[k], capacity) && (k < whole ==> Delivers(arrivals[k], packets[k]))
  }

  lemma ArrivesNext(arrivals: seq<Arrival>, packets: seq<seq<Byte>>, capacity: nat, a: Arrival)
    requires AllReceivable(packets, capacity) && AllArrived(arrivals, packets, capacity, |arrivals|) && |arrivals| < |packets|
    requires ArrivalOf(a, packets[|arrivals|], capacity)
    ensures AllArrived(arrivals + [a], packets, capacity, |arrivals|)
    ensures Delivers(a, packets[|arrivals|]) ==> AllArrived(arrivals + [a], packets, capacity, |arrivals| + 1)
  {
  }

  lemma ArrivesOrNot(arrivals: seq<Arrival>, packets: seq<seq<Byte>>, capacity: nat, arrival: Option<Arrival>, whole: bool)
    requires AllReceivable(packets, capacity) && AllArrived(arrivals, packets, capacity, |arrivals|) && |arrivals| < |packets|
    requires arrival.Some? ==> ArrivalOf(arrival.value, packets[|arrivals|], capacity)
    requires arrival.Some? && whole ==> Delivers(arrival.value, packets[|arrivals|])
    ensures var more := if arrival.Some? then arrivals + [arrival.value] else arrivals;
            AllArrived(more, packets, capacity, if whole then |more| else |more| - 1)
  {
    if arrival.Some? {
      ArrivesNext(arrivals, packets, capacity, arrival.value);
    }
  }

  lemma SomeLeft(packets: seq<seq<Byte>>, k: nat, capacity: nat)
    requires AllReceivable(packets, capacity) && capacity > 0 && k < |packets|
    ensures Portion(packets[k], capacity) > 0
  {
  }

  lemma SameFront(front: seq<Byte>, a: seq<Byte>, b: seq<Byte>)
    requires front + a == front + b
    ensures a == b
  {
    assert a == (front + a)[|front|..] && b == (front + b)[|front|..];
  }

  /** What mqtt_process_receive hands to its switch: what stands in the buffer, the fields read off it, and what was
      delivered. */
  datatype Arrival = Arrival(excerpt: seq<Byte>, typ: nat, qos: nat, id: nat, delivered: bool, events: seq<DataEvent>)

  /** A packet that fits the in-buffer, or a PUBLISH whose header does. */
  predicate Receivable(p: seq<Byte>, capacity: nat) {
    && WellFormed(p) && (GetType(p[0]) == PUBLISH ==> ValidPublish(p))
    && (|p| <= capacity || (GetType(p[0]) == PUBLISH && PayloadStart(p) <= capacity))
  }

  /** Type, QoS and id are those of the packet. */
  predicate FieldsOf(a: Arrival, p: seq<Byte>)
    requires WellFormed(p)
  {
    a.typ == GetType(p[0]) && a.qos == GetQos(p[0]) && a.id == IdOf(p, |p|)
  }

  /** The packet as far as the buffer holds it, its fields, and events that are a beginning of its payload. */
  ghost predicate ArrivalOf(a: Arrival, p: seq<Byte>, capacity: nat)
    requires Receivable(p, capacity)
  {
    && a.excerpt == p[..Portion(p, capacity)] && FieldsOf(a, p)
    && if a.typ == PUBLISH then exists n :: Delivered(p, a.events, n) else a.delivered && a.events == []
  }

  /** The packet with bytes of the next one behind it; the fields are still right. */
  predicate Overrun(a: Arrival, p: seq<Byte>)
    requires WellFormed(p)
  {
    p <= a.excerpt && p != a.excerpt && FieldsOf(a, p) && a.delivered && a.events == []
  }

  /** Its events are the whole payload. */
  predicate Delivers(a: Arrival, p: seq<Byte>)
    requires WellFormed(p) && (GetType(p[0]) == PUBLISH ==> ValidPublish(p))
  {
    GetType(p[0]) == PUBLISH ==> Delivered(p, a.events, |p| - PayloadStart(p))
  }

  /** A PUBLISH is never misread: its topic length has a byte below 128 next to last, or it is longer than five bytes. */
  lemma PublishIsSafe(p: seq<Byte>, k: nat)
    requires ValidPublish(p) && k < |p|
    ensures ResumeSafe(p, k)
  {
    HeaderBytes(p);
    ImmuneExactly(p);
  }

  /** What was read beyond the packet is missing from what is to come. */
  lemma BeyondPacket(buffer: seq<Byte>, incoming: seq<Byte>, packet: seq<Byte>, rest: seq<Byte>)
    requires buffer + incoming == packet + rest && packet <= buffer
    ensures if buffer == packet then incoming == rest else |incoming| < |rest|
  {
    assert |buffer + incoming| == |packet + rest|;
    if buffer == packet {
      SameFront(packet, incoming, rest);
    }
  }

  /** The id of the packet, read off what the buffer holds of it. */
  lemma PacketId(packet: seq<Byte>, buffer: seq<Byte>)
    requires WellFormed(packet) && (GetType(packet[0]) == PUBLISH ==> ValidPublish(packet))
    requires if |packet| <= |buffer| then packet <= buffer
             else GetType(packet[0]) == PUBLISH && buffer <= packet && PayloadStart(packet) <= |buffer|
    ensures IdReadable(buffer, |packet|) && IdOf(buffer, |packet|) == IdOf(packet, |packet|)
  {
    HeaderBytes(packet);
    assert packet[..|packet|] == packet;
    if |packet| <= |buffer| {
      assert buffer[..|packet|] == packet;
    } else {
      ExcerptId(packet, buffer);
    }
  }

  lemma ExcerptId(packet: seq<Byte>, buffer: seq<Byte>)
    requires ValidPublish(packet) && buffer <= packet && PayloadStart(packet) <= |buffer| < |packet|
    ensures IdReadable(buffer, |packet|) && IdOf(buffer, |packet|) == IdOf(packet, |packet|)
  {
    HeaderBytes(packet);
    assert packet[..|packet|] == packet;
    assert SharesHeader(packet, buffer);
    HeaderDecides(packet, buffer);
    var h := HeaderLength(packet);
    assert buffer[h] == packet[h] && buffer[h + 1] == packet[h + 1];
  }

  function Flat(packets: seq<seq<Byte>>): seq<Byte> {
    if packets == [] then [] else packets[0] + Flat(packets[1..])
  }

  lemma FlatFrom(packets: seq<seq<Byte>>, k: nat)
    requires k < |packets|
    ensures Flat(packets[k..]) == packets[k] + Flat(packets[k + 1..]) && packets[k] in packets
  {
  }

  /** What the readers see in the beginning of a PUBLISH. */
  lemma FirstFields(packet: seq<Byte>, buffer: seq<Byte>)
    requires ValidPublish(packet) && buffer <= packet && HeaderLength(packet) + 2 < |buffer|
    ensures buffer[0] == packet[0]
    ensures PayloadStart(packet) <= |buffer| ==> TopicOf(buffer).Some? && At(buffer, TopicOf(buffer).value) == TopicBytes(packet)
    ensures PayloadStart(packet) < |buffer| ==> DataOf(buffer) == Some(Slice(PayloadStart(packet), |buffer| - PayloadStart(packet)))
    ensures PayloadStart(packet) >= |buffer| ==> DataOf(buffer) == None
  {
    HeaderBytes(packet);
    assert SharesHeader(packet, buffer);
    HeaderDecides(packet, buffer);
    var h := HeaderLength(packet);
    assert buffer[h] == packet[h] && buffer[h + 1] == packet[h + 1];
  }

  lemma FirstId(packet: seq<Byte>, buffer: seq<Byte>)
    requires ValidPublish(packet) && buffer <= packet && HeaderLength(packet) + 2 < |buffer| && PayloadStart(packet) <= |buffer|
    ensures IdOf(buffer, |buffer|) == PublishId(packet)
  {
    HeaderBytes(packet);
    assert SharesHeader(packet, buffer) && buffer[..|buffer|] == buffer;
    HeaderDecides(packet, buffer);
    var h := HeaderLength(packet);
    assert buffer[h] == packet[h] && buffer[h + 1] == packet[h + 1];
  }

  /** MQTT_EVENT_DATA. */
  datatype DataEvent = DataEvent(topic: Option<seq<Byte>>, data: seq<Byte>, offset: nat, total: int, id: nat, qos: nat, dup: nat,
                                 retain: nat)

  function TopicBytes(p: seq<Byte>): seq<Byte>
    requires ValidPublish(p)
  {
    p[HeaderLength(p) + 2..HeaderLength(p) + 2 + FromBe16(p[HeaderLength(p)], p[HeaderLength(p) + 1])]
  }

  /** The id of a PUBLISH stands between its topic and its payload; QoS 0 has none. */
  function PublishId(p: seq<Byte>): nat
    requires ValidPublish(p)
  {
    if GetQos(p[0]) > 0 then FromBe16(p[PayloadStart(p) - 2], p[PayloadStart(p) - 1]) else 0
  }

  /** The bytes of the events, one after the other. */
  function Joined(events: seq<DataEvent>): seq<Byte> {
    if events == [] then [] else Joined(events[..|events| - 1]) + events[|events| - 1].data
  }

  /** The events carry the first `n` bytes of the packet's payload: in order, each at the offset of what came before,
      all with the same total and the packet's id, only the first with the topic. */
  predicate Delivered(packet: seq<Byte>, events: seq<DataEvent>, n: nat)
    requires ValidPublish(packet)
  {
    && events != []
    && n <= |packet| - PayloadStart(packet)
    && Joined(events) == packet[PayloadStart(packet)..PayloadStart(packet) + n]
    && forall k :: 0 <= k < |events| ==> EventInPlace(packet, events, k)
  }

  predicate EventInPlace(packet: seq<Byte>, events: seq<DataEvent>, k: nat)
    requires ValidPublish(packet) && k < |events|
  {
    var e := events[k];
    && e.offset == |Joined(events[..k])|
    && e.total == |packet| - PayloadStart(packet)
    && e.topic == (if k == 0 then Some(TopicBytes(packet)) else None)
    && e.id == PublishId(packet) && e.qos == GetQos(packet[0]) && e.dup == GetDup(packet[0]) && e.retain == GetRetain(packet[0])
  }

  lemma WrongTotal(packet: seq<Byte>, events: seq<DataEvent>)
    requires ValidPublish(packet) && events != []
    ensures events[0].total != |packet| - PayloadStart(packet) ==> forall m :: !Delivered(packet, events, m)
  {
    assert EventInPlace(packet, events, 0) ==> events[0].total == |packet| - PayloadStart(packet);
  }

  lemma FirstDelivered(packet: seq<Byte>, e: DataEvent, n: nat)
    requires ValidPublish(packet) && PayloadStart(packet) + n <= |packet|
    requires e == DataEvent(Some(TopicBytes(packet)), packet[PayloadStart(packet)..PayloadStart(packet) + n], 0,
                            |packet| - PayloadStart(packet), PublishId(packet), GetQos(packet[0]), GetDup(packet[0]),
                            GetRetain(packet[0]))
    ensures Delivered(packet, [e], n)
  {
  }

  lemma NextDelivered(packet: seq<Byte>, events: seq<DataEvent>, n: nat, bytes: seq<Byte>)
    requires ValidPublish(packet) && Delivered(packet, events, n)
    requires PayloadStart(packet) + n + |bytes| <= |packet|
    requires bytes == packet[PayloadStart(packet) + n..PayloadStart(packet) + n + |bytes|]
    ensures var e := events[0].(topic := None, data := bytes, offset := n);
            Delivered(packet, events + [e], n + |bytes|)
  {
    var e := events[0].(topic := None, data := bytes, offset := n);
    var more := events + [e];
    assert more[..|events|] == events;
    assert EventInPlace(packet, events, 0);
    forall k | 0 <= k < |more|
      ensures EventInPlace(packet, more, k)
    {
      if k < |events| {
        assert EventInPlace(packet, events, k);
        assert more[..k] == events[..k];
      }
    }
  }

  /** How much of a packet the in-buffer takes. */
  function Portion(packet: seq<Byte>, capacity: nat): (n: nat)
    ensures n <= |packet|
  {
    if |packet| <= capacity then |packet| else capacity
  }

  /** Larger than the buffer and not a PUBLISH whose topic (with the id, but counted without the two bytes of the
      topic length) fits in it. */
  predicate Unreceivable(packet: seq<Byte>, capacity: nat)
    requires packet != []
  {
    && capacity < |packet|
    && (GetType(packet[0]) == PUBLISH && HeaderLength(packet) + 2 <= |packet| ==> PayloadStart(packet) - 2 > capacity)
  }

  /** What the length loop has read once it ends, from `k` bytes to `k2`. */
  lemma LengthRead(p: seq<Byte>, stream: seq<Byte>, k: nat, k2: nat)
    requires WellFormed(p) && p <= stream && 1 <= k < |p| && k < k2 <= 6 && k2 <= |stream|
    requires k == 1 || stream[k - 1] >= 128
    requires forall i :: k <= i < k2 - 1 ==> stream[i] >= 128
    requires k2 == 6 || stream[k2 - 1] < 128
    ensures HeaderLength(p) <= k2
    ensures k2 <= |p| <==> ResumeSafe(p, k)
  {
    HeaderBytes(p);
    assert forall i :: 0 <= i < |p| ==> stream[i] == p[i];
    var h := HeaderLength(p);
    if k < h {
      assert stream[h - 1] < 128;
      assert k2 == h;
    } else if |p| < 6 {
      assert k2 <= |p| ==> p[k2 - 1] < 128;
    }
  }

  lemma LengthPending(p: seq<Byte>, stream: seq<Byte>, k: nat, k2: nat)
    requires WellFormed(p) && p <= stream && 1 <= k < |p| && k <= k2 < 6 && k2 <= |stream|
    requires k == 1 || stream[k - 1] >= 128
    requires forall i :: k <= i < k2 ==> stream[i] >= 128
    ensures ResumeSafe(p, k) ==> k2 < |p|
  {
    HeaderBytes(p);
    assert forall i :: 0 <= i < |p| ==> stream[i] == p[i];
    assert stream[HeaderLength(p) - 1] < 128;
  }

  lemma NotInLength(p: seq<Byte>, k: nat)
    requires WellFormed(p) && 1 < k < |p| && (k >= 6 || p[k - 1] < 128)
    ensures HeaderLength(p) <= k && ResumeSafe(p, k)
  {
    HeaderBytes(p);
  }
}
