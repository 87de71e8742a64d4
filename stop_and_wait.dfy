/**
 * Stop-and-Wait with an alternating bit: `ReliableSender` keeps one packet
 * in flight, `ReliableReceiver` accepts the sequence bits 0 and 1 in turn.
 */
module StopAndWait {
  import opened Basics
  import opened Packets
  import opened Payload
  import opened Channel

  /**
   * The packets the sender builds: packet `i` carries the bit `i % 2` and the
   * payload of packet `i`.
   */
  function AlternatingPackets(total: nat, size: int): (ps: seq<Packet>)
    ensures |ps| == total
    ensures forall i :: 0 <= i < total ==>
      ps[i].sequence == i % 2 && ps[i].content == CreatePayload(i, size) &&
      !ps[i].acknowledgment && !IsDamaged(ps[i]) && Bumpable(ps[i])
    ensures forall i :: 0 <= i < total - 1 ==> ps[i].sequence != ps[i + 1].sequence
  {
    seq(total, i requires 0 <= i < total => NewPacket(i % 2, CreatePayload(i, size), false))
  }

  class ReliableSender {
    const channel: NetworkChannel
    const totalPackets: nat
    const timeoutDuration: int
    const packets: seq<Packet>
    var baseSequence: nat
    var timer: Option<int>

    /** The sender's invariant: the base stays in range, and a timer runs only for a packet that exists. */
    ghost predicate Valid()
      reads this
    {
      && |packets| == totalPackets
      && (forall i :: 0 <= i < |packets| ==> Bumpable(packets[i]))
      && baseSequence <= totalPackets
      && (timer.Some? ==> baseSequence < totalPackets)
    }

    constructor (channel: NetworkChannel, totalPackets: nat, packetSize: int, timeout: int)
      ensures Valid()
      ensures this.channel == channel && this.totalPackets == totalPackets && timeoutDuration == timeout
      ensures packets == AlternatingPackets(totalPackets, packetSize)
      ensures baseSequence == 0 && timer == None
    {
      this.channel := channel;
      this.totalPackets := totalPackets;
      timeoutDuration := timeout;
      packets := AlternatingPackets(totalPackets, packetSize);
      baseSequence := 0;
      timer := None;
    }

    /** `begin_transmission`: send the base packet when nothing is in flight and packets remain. */
    method BeginTransmission(now: int, fate: Fate)
      requires Valid()
      modifies this, channel
      ensures Valid() && baseSequence == old(baseSequence)
      ensures if old(baseSequence < totalPackets && timer.None?) then
          timer == Some(now) &&
          channel.inTransit == old(channel.inTransit) + Scheduled(packets[baseSequence], true, now, fate, channel.maxDelay)
        else
          timer == old(timer) && channel.inTransit == old(channel.inTransit)
    {
      if baseSequence < totalPackets && timer.None? {
        TransmitPacket(baseSequence, now, fate);
      }
    }

    /** `transmit_packet`: send one packet and (re)start the timer. */
    method TransmitPacket(packetNumber: nat, now: int, fate: Fate)
      requires Valid() && packetNumber < totalPackets && baseSequence < totalPackets
      modifies this, channel
      ensures Valid() && baseSequence == old(baseSequence)
      ensures timer == Some(now)
      ensures channel.inTransit == old(channel.inTransit) + Scheduled(packets[packetNumber], true, now, fate, channel.maxDelay)
    {
      channel.Transmit(packets[packetNumber], true, now, fate);
      timer := Some(now);
    }

    /**
     * `process_acknowledgment`, as written. A damaged acknowledgment is
     * ignored. Otherwise the sequence bit of `packets[base]` is read, which
     * raises `IndexError` once every packet is acknowledged: `indexError`
     * reports that outcome, and nothing changes. An acknowledgment carrying
     * the expected bit advances the base by one and sends the next packet, if
     * any; any other acknowledgment is ignored.
     */
    method ProcessAcknowledgment(ack: Packet, now: int, fate: Fate) returns (indexError: bool)
      requires Valid()
      modifies this, channel
      ensures Valid()
      ensures indexError <==> !IsDamaged(ack) && old(baseSequence) == totalPackets
      ensures if !IsDamaged(ack) && old(baseSequence) < totalPackets
                 && ack.acknowledgment && ack.sequence == packets[old(baseSequence)].sequence then
          && baseSequence == old(baseSequence) + 1
          && (if baseSequence < totalPackets then
                timer == Some(now) &&
                channel.inTransit == old(channel.inTransit) + Scheduled(packets[baseSequence], true, now, fate, channel.maxDelay)
              else
                timer == None && channel.inTransit == old(channel.inTransit))
        else
          baseSequence == old(baseSequence) && timer == old(timer) && channel.inTransit == old(channel.inTransit)
    {
      indexError := false;
      if IsDamaged(ack) {
        return;
      }
      if baseSequence == totalPackets {
        indexError := true;
        return;
      }
      var expected := packets[baseSequence].sequence;
      if ack.acknowledgment && ack.sequence == expected {
        baseSequence := baseSequence + 1;
        timer := None;
        BeginTransmission(now, fate);
      }
    }

    /**
     * `process_acknowledgment` with the missing bounds check added: once
     * every packet is acknowledged, further acknowledgments are ignored.
     */
    method ProcessAcknowledgmentChecked(ack: Packet, now: int, fate: Fate)
      requires Valid()
      modifies this, channel
      ensures Valid()
      ensures old(baseSequence) == totalPackets ==>
        baseSequence == totalPackets && timer == old(timer) && channel.inTransit == old(channel.inTransit)
      ensures if !IsDamaged(ack) && old(baseSequence) < totalPackets
                 && ack.acknowledgment && ack.sequence == packets[old(baseSequence)].sequence then
          && baseSequence == old(baseSequence) + 1
          && (if baseSequence < totalPackets then
                timer == Some(now) &&
                channel.inTransit == old(channel.inTransit) + Scheduled(packets[baseSequence], true, now, fate, channel.maxDelay)
              else
                timer == None && channel.inTransit == old(channel.inTransit))
        else
          baseSequence == old(baseSequence) && timer == old(timer) && channel.inTransit == old(channel.inTransit)
    {
      if IsDamaged(ack) || baseSequence == totalPackets {
        return;
      }
      var expected := packets[baseSequence].sequence;
      if ack.acknowledgment && ack.sequence == expected {
        baseSequence := baseSequence + 1;
        timer := None;
        BeginTransmission(now, fate);
      }
    }

    /** `check_for_timeout`: once the running timer is older than the timeout, resend the base packet. */
    method CheckForTimeout(now: int, fate: Fate)
      requires Valid()
      modifies this, channel
      ensures Valid() && baseSequence == old(baseSequence)
      ensures if old(timer).Some? && now - old(timer).value > timeoutDuration then
          timer == Some(now) &&
          channel.inTransit == old(channel.inTransit) + Scheduled(packets[baseSequence], true, now, fate, channel.maxDelay)
        else
          timer == old(timer) && channel.inTransit == old(channel.inTransit)
    {
      if timer.Some? && now - timer.value > timeoutDuration {
        TransmitPacket(baseSequence, now, fate);
      }
    }
  }

  /** The receiver's state: the bit it expects next and the payloads accepted so far. */
  datatype ReceiverState = ReceiverState(expected: int, data: seq<Text>)

  /** The bit is 0 or 1. */
  predicate WellFormed(s: ReceiverState) {
    s.expected == 0 || s.expected == 1
  }

  /**
   * The state after `receive_packet`: an intact packet carrying the expected
   * bit is accepted and the bit flips; anything else changes nothing.
   */
  function Receive(s: ReceiverState, p: Packet): (r: ReceiverState)
    requires WellFormed(s)
    ensures WellFormed(r)
    ensures |s.data| <= |r.data| <= |s.data| + 1
    ensures r.data[..|s.data|] == s.data
    ensures |r.data| == |s.data| + 1 <==> !IsDamaged(p) && p.sequence == s.expected
    ensures |r.data| == |s.data| + 1 ==> r.data[|s.data|] == p.content && r.expected == 1 - s.expected
    ensures |r.data| == |s.data| ==> r == s
  {
    if IsDamaged(p) then s
    else if p.sequence == s.expected then ReceiverState(1 - s.expected, s.data + [p.content])
    else s
  }

  /**
   * The sequence number of the acknowledgment `receive_packet` sends: the
   * packet's own for an intact packet, duplicates included; the complement
   * of the expected bit for a damaged one.
   */
  function AckSequence(s: ReceiverState, p: Packet): (a: int)
    requires WellFormed(s)
    ensures !IsDamaged(p) ==> a == p.sequence
    ensures IsDamaged(p) ==> a == 1 - s.expected && a != s.expected && (a == 0 || a == 1)
  {
    if IsDamaged(p) then 1 - s.expected else p.sequence
  }

  /** Delivering the same intact packet twice in a row delivers its payload once. */
  lemma ImmediateDuplicateIgnored(s: ReceiverState, p: Packet)
    requires WellFormed(s)
    ensures Receive(Receive(s, p), p) == Receive(s, p)
  {
  }

  /**
   * The receiver's state after a run of deliveries: the data only grows at
   * its end, by at most one payload per delivery.
   */
  function ReceiveAll(s: ReceiverState, ps: seq<Packet>): (r: ReceiverState)
    requires WellFormed(s)
    ensures WellFormed(r)
    ensures |s.data| <= |r.data| <= |s.data| + |ps| && r.data[..|s.data|] == s.data
  {
    if ps == [] then s else Receive(ReceiveAll(s, ps[..|ps| - 1]), ps[|ps| - 1])
  }

  /**
   * The alternating bit does not survive reordering: when an old copy of
   * packet 0 arrives after packet 1 (a delay the channel may impose), the
   * receiver takes it for packet 2 and delivers payload 0 a second time.
   */
  lemma ReorderedCopyDeliveredTwice(size: int)
    ensures var ps := AlternatingPackets(3, size);
      ReceiveAll(ReceiverState(0, []), [ps[0], ps[1], ps[0]]).data
        == [CreatePayload(0, size), CreatePayload(1, size), CreatePayload(0, size)]
  {
    var ps := AlternatingPackets(3, size);
    var s0 := ReceiverState(0, []);
    var run := [ps[0], ps[1], ps[0]];
    assert run[..2] == [ps[0], ps[1]] && run[..2][..1] == [ps[0]] && run[..2][..1][..0] == [];
    var s1 := Receive(s0, ps[0]);
    assert s1 == ReceiverState(1, [ps[0].content]);
    var s2 := Receive(s1, ps[1]);
    assert s2 == ReceiverState(0, [ps[0].content, ps[1].content]);
    assert ReceiveAll(s0, run[..2][..1]) == s1;
    assert ReceiveAll(s0, run[..2]) == s2;
  }

  class ReliableReceiver {
    const channel: NetworkChannel
    var expectedSequence: int
    var receivedData: seq<Text>

    function State(): ReceiverState
      reads this
    {
      ReceiverState(expectedSequence, receivedData)
    }

    ghost predicate Valid()
      reads this
    {
      WellFormed(State())
    }

    constructor (channel: NetworkChannel)
      ensures Valid() && this.channel == channel
      ensures expectedSequence == 0 && receivedData == []
    {
      this.channel := channel;
      expectedSequence := 0;
      receivedData := [];
    }

    /** `receive_packet`: update the state as `Receive` says and send one acknowledgment. */
    method ReceivePacket(packet: Packet, now: int, fate: Fate)
      requires Valid()
      modifies this, channel
      ensures Valid()
      ensures State() == Receive(old(State()), packet)
      ensures channel.inTransit ==
        old(channel.inTransit) + Scheduled(NewAck(AckSequence(old(State()), packet)), false, now, fate, channel.maxDelay)
    {
      if IsDamaged(packet) {
        channel.Transmit(NewAck(1 - expectedSequence), false, now, fate);
        return;
      }
      if packet.sequence == expectedSequence {
        receivedData := receivedData + [packet.content];
        expectedSequence := 1 - expectedSequence;
      }
      channel.Transmit(NewAck(packet.sequence), false, now, fate);
    }
  }

  /** A poll at which two items are both due hands out both, in order, and leaves nothing. */
  lemma BothDue(e0: Entry, e1: Entry, now: int, forRecipient: bool)
    requires Ready(e0, now, forRecipient) && Ready(e1, now, forRecipient)
    ensures PacketsOf(ReadyEntries([e0, e1], now, forRecipient)) == [e0.packet, e1.packet]
    ensures Remaining([e0, e1], now, forRecipient) == []
  {
    assert [e0, e1][..1] == [e0] && [e0][..0] == [];
    assert ReadyEntries([e0, e1], now, forRecipient) == [e0, e1];
    assert [e0, e1][..1] == [e0];
  }

  /** The start of the run below: one packet is sent at time 0 and resent by a timeout at time 3. */
  method SentTwice() returns (link: NetworkChannel, sender: ReliableSender)
    ensures fresh(link) && fresh(sender)
    ensures sender.Valid() && sender.channel == link && sender.totalPackets == 1 && sender.baseSequence == 0
    ensures sender.packets[0] == NewPacket(0, CreatePayload(0, 5), false)
    ensures link.inTransit == [Entry(sender.packets[0], 0, true), Entry(sender.packets[0], 3, true)]
  {
    link := new NetworkChannel(3);
    sender := new ReliableSender(link, 1, 5, 2);
    var clean := Fate(false, false, 0, false, 0);
    sender.BeginTransmission(0, clean);
    assert link.inTransit == [Entry(sender.packets[0], 0, true)];
    sender.CheckForTimeout(3, clean);
  }

  /** The run goes on: both copies reach the receiver at time 3, which acknowledges each. */
  method ResentAndAcknowledged() returns (link: NetworkChannel, sender: ReliableSender)
    ensures fresh(link) && fresh(sender)
    ensures sender.Valid() && sender.channel == link && sender.totalPackets == 1 && sender.baseSequence == 0
    ensures sender.packets[0].sequence == 0
    ensures link.inTransit == [Entry(NewAck(0), 3, false), Entry(NewAck(0), 3, false)]
  {
    link, sender := SentTwice();
    var p0 := sender.packets[0];
    var receiver := new ReliableReceiver(link);
    var clean := Fate(false, false, 0, false, 0);
    BothDue(Entry(p0, 0, true), Entry(p0, 3, true), 3, true);
    var copies := link.DeliverPackets(3, true);
    assert copies == [p0, p0] && link.inTransit == [];
    receiver.ReceivePacket(copies[0], 3, clean);
    assert receiver.expectedSequence == 1;
    receiver.ReceivePacket(copies[1], 3, clean);
  }

  /**
   * The out-of-range read, exhibited on a real run: one packet, sent, resent
   * on a timeout, and both copies acknowledged; when the two acknowledgments
   * are handed to the sender in the same poll, the second one reads
   * `packets[1]` of a one-packet list.
   */
  method DuplicateFinalAckFails() returns (indexError: bool)
    ensures indexError
  {
    var link, sender := ResentAndAcknowledged();
    var clean := Fate(false, false, 0, false, 0);
    var a0 := NewAck(0);
    BothDue(Entry(a0, 3, false), Entry(a0, 3, false), 3, false);
    var acks := link.DeliverPackets(3, false);
    assert acks == [a0, a0];
    var first := sender.ProcessAcknowledgment(acks[0], 3, clean);
    assert !first && sender.baseSequence == 1;
    indexError := sender.ProcessAcknowledgment(acks[1], 3, clean);
  }
}
