/**
 * Go-Back-N: `WindowedSender` keeps up to a window of packets in flight
 * under one timer and takes cumulative acknowledgments; `WindowedReceiver`
 * accepts packets strictly in order and acknowledges the last one accepted.
 */
module GoBackN {
  import opened Basics
  import opened Packets
  import opened Payload
  import opened Channel

  class WindowedSender {
    const channel: NetworkChannel
    const totalPackets: nat
    const windowSize: nat
    const timeoutDuration: int
    const packets: seq<Packet>
    var baseSequence: nat
    var nextSequence: nat
    var timer: Option<int>

    /** The shape every method keeps, even between the steps of one call. */
    ghost predicate Coherent()
      reads this
    {
      && |packets| == totalPackets
      && (forall i :: 0 <= i < |packets| ==> Bumpable(packets[i]))
      && baseSequence <= totalPackets
      && nextSequence <= totalPackets
    }

    /**
     * The sender's invariant: the packets sent but not yet acknowledged are
     * `[base, next)`, at most a window of them, and the timer runs whenever
     * there is one.
     */
    ghost predicate Valid()
      reads this
    {
      && Coherent()
      && baseSequence <= nextSequence <= Min(baseSequence + windowSize, totalPackets)
      && (baseSequence < nextSequence ==> timer.Some?)
    }

    constructor (channel: NetworkChannel, totalPackets: nat, windowSize: nat, packetSize: int, timeout: int)
      ensures Valid()
      ensures this.channel == channel && this.totalPackets == totalPackets && this.windowSize == windowSize
      ensures timeoutDuration == timeout && packets == NumberedPackets(totalPackets, packetSize)
      ensures baseSequence == 0 && nextSequence == 0 && timer == None
    {
      this.channel := channel;
      this.totalPackets := totalPackets;
      this.windowSize := windowSize;
      timeoutDuration := timeout;
      packets := NumberedPackets(totalPackets, packetSize);
      baseSequence := 0;
      nextSequence := 0;
      timer := None;
    }

    /**
     * `begin_transmission`: send every packet from `next` up to the end of
     * the window, in order (`fates[k]` is the channel's outcome for packet
     * `k`), then start the timer if it is not running and something is
     * outstanding.
     */
    method BeginTransmission(now: int, fates: seq<Fate>)
      requires Coherent() && |fates| == totalPackets
      requires nextSequence <= Min(baseSequence + windowSize, totalPackets)
      modifies this, channel
      ensures Valid()
      ensures baseSequence == old(baseSequence)
      ensures nextSequence == Min(baseSequence + windowSize, totalPackets)
      ensures channel.inTransit == old(channel.inTransit)
        + Burst(packets, fates, AllChosen(totalPackets), old(nextSequence), nextSequence, now, channel.maxDelay)
      ensures timer == if old(timer).None? && baseSequence < nextSequence then Some(now) else old(timer)
    {
      var chosen := AllChosen(totalPackets);
      while nextSequence < Min(baseSequence + windowSize, totalPackets)
        invariant Coherent() && baseSequence == old(baseSequence) && timer == old(timer)
        invariant old(nextSequence) <= nextSequence <= Min(baseSequence + windowSize, totalPackets)
        invariant channel.inTransit == old(channel.inTransit)
          + Burst(packets, fates, chosen, old(nextSequence), nextSequence, now, channel.maxDelay)
        decreases totalPackets - nextSequence
      {
        BurstStep(old(channel.inTransit), packets, fates, chosen, old(nextSequence), nextSequence, now, channel.maxDelay);
        channel.Transmit(packets[nextSequence], true, now, fates[nextSequence]);
        nextSequence := nextSequence + 1;
      }
      if timer.None? && baseSequence < nextSequence {
        timer := Some(now);
      }
    }

    /**
     * `process_acknowledgment`: a damaged acknowledgment is ignored; one for
     * a sequence number in `[base, total)` acknowledges everything up to it,
     * stops or restarts the timer, and refills the window; any other is
     * ignored.
     */
    method ProcessAcknowledgment(ack: Packet, now: int, fates: seq<Fate>)
      requires Valid() && |fates| == totalPackets
      modifies this, channel
      ensures Valid()
      ensures old(baseSequence) <= baseSequence
      ensures if !IsDamaged(ack) && old(baseSequence) <= ack.sequence < totalPackets then
          && baseSequence == ack.sequence + 1
          && nextSequence == Min(baseSequence + windowSize, totalPackets)
          && channel.inTransit == old(channel.inTransit)
            + Burst(packets, fates, AllChosen(totalPackets), old(nextSequence), nextSequence, now, channel.maxDelay)
          && timer == if baseSequence == old(nextSequence) && baseSequence == nextSequence then None else Some(now)
        else
          && baseSequence == old(baseSequence) && nextSequence == old(nextSequence)
          && timer == old(timer) && channel.inTransit == old(channel.inTransit)
    {
      if IsDamaged(ack) {
        return;
      }
      if baseSequence <= ack.sequence < totalPackets {
        baseSequence := ack.sequence + 1;
        if baseSequence == nextSequence {
          timer := None;
        } else {
          timer := Some(now);
        }
        BeginTransmission(now, fates);
      }
    }

    /**
     * `check_for_timeout`, as written: once the timer is older than the
     * timeout, go back to the base and resend the window. The timer is not
     * restarted.
     */
    method CheckForTimeout(now: int, fates: seq<Fate>)
      requires Valid() && |fates| == totalPackets
      modifies this, channel
      ensures Valid()
      ensures baseSequence == old(baseSequence) && timer == old(timer)
      ensures if old(timer).Some? && now - old(timer).value > timeoutDuration then
          && nextSequence == Min(baseSequence + windowSize, totalPackets)
          && channel.inTransit == old(channel.inTransit)
            + Burst(packets, fates, AllChosen(totalPackets), baseSequence, nextSequence, now, channel.maxDelay)
        else
          nextSequence == old(nextSequence) && channel.inTransit == old(channel.inTransit)
    {
      if timer.Some? && now - timer.value > timeoutDuration {
        nextSequence := baseSequence;
        BeginTransmission(now, fates);
      }
    }

    /**
     * `check_for_timeout` with the timer restarted on a resend, as the other
     * two senders do: after a resend, the next one waits for a full timeout.
     */
    method CheckForTimeoutRestarting(now: int, fates: seq<Fate>)
      requires Valid() && |fates| == totalPackets
      modifies this, channel
      ensures Valid()
      ensures baseSequence == old(baseSequence)
      ensures if old(timer).Some? && now - old(timer).value > timeoutDuration then
          && timer == Some(now)
          && nextSequence == Min(baseSequence + windowSize, totalPackets)
          && channel.inTransit == old(channel.inTransit)
            + Burst(packets, fates, AllChosen(totalPackets), baseSequence, nextSequence, now, channel.maxDelay)
        else
          timer == old(timer) && nextSequence == old(nextSequence) && channel.inTransit == old(channel.inTransit)
    {
      if timer.Some? && now - timer.value > timeoutDuration {
        nextSequence := baseSequence;
        timer := Some(now);
        BeginTransmission(now, fates);
      }
    }
  }

  /**
   * The missing restart, exhibited: with a timeout of 2, a window of one
   * packet sent at time 0 is resent by a check at time 3 and again by a
   * second check at the same time 3.
   */
  method RepeatedTimeoutResends() returns (copies: nat)
    ensures copies == 3
  {
    var link := new NetworkChannel(3);
    var sender := new WindowedSender(link, 1, 1, 5, 2);
    var clean := [Fate(false, false, 0, false, 0)];
    sender.BeginTransmission(0, clean);
    sender.CheckForTimeout(3, clean);
    sender.CheckForTimeout(3, clean);
    copies := |link.inTransit|;
  }

  /** With the restart, the second check at time 3 sends nothing. */
  method RestartedTimeoutWaits() returns (copies: nat)
    ensures copies == 2
  {
    var link := new NetworkChannel(3);
    var sender := new WindowedSender(link, 1, 1, 5, 2);
    var clean := [Fate(false, false, 0, false, 0)];
    sender.BeginTransmission(0, clean);
    sender.CheckForTimeoutRestarting(3, clean);
    sender.CheckForTimeoutRestarting(3, clean);
    copies := |link.inTransit|;
  }

  /** The receiver's state: the sequence number it expects next and the payloads accepted so far. */
  datatype ReceiverState = ReceiverState(expected: nat, data: seq<Text>)

  /** One payload has been accepted for each sequence number below the expected one. */
  predicate WellFormed(s: ReceiverState) {
    |s.data| == s.expected
  }

  /**
   * The state after `receive_packet`: only an intact packet carrying the
   * expected sequence number is accepted; anything else, out-of-order
   * packets included, is dropped without being buffered.
   */
  function Receive(s: ReceiverState, p: Packet): (r: ReceiverState)
    requires WellFormed(s)
    ensures WellFormed(r)
    ensures r.expected == s.expected + 1 <==> !IsDamaged(p) && p.sequence == s.expected
    ensures r.expected == s.expected + 1 ==> r.data == s.data + [p.content]
    ensures r.expected != s.expected + 1 ==> r == s
  {
    if IsDamaged(p) then s
    else if p.sequence == s.expected then ReceiverState(s.expected + 1, s.data + [p.content])
    else s
  }

  /**
   * The acknowledgment `receive_packet` sends, damaged packet or not: the
   * sequence number of the last packet accepted (`-1` before the first).
   */
  function AckSequence(s: ReceiverState, p: Packet): (a: int)
    requires WellFormed(s)
    ensures a == |Receive(s, p).data| - 1
    ensures a == s.expected - 1 || a == s.expected
  {
    if !IsDamaged(p) && p.sequence == s.expected then s.expected else s.expected - 1
  }

  /** The receiver's state after a run of deliveries, in order. */
  function ReceiveAll(s: ReceiverState, ps: seq<Packet>): (r: ReceiverState)
    requires WellFormed(s)
    ensures WellFormed(r)
  {
    if ps == [] then s else Receive(ReceiveAll(s, ps[..|ps| - 1]), ps[|ps| - 1])
  }

  /**
   * Whatever the order, the losses and the duplicates, as long as every
   * intact packet is genuine the delivered data is always the intended data
   * up to the expected sequence number: an in-order prefix without gaps.
   */
  lemma {:induction false} ReceiveAllInOrder(s: ReceiverState, ps: seq<Packet>, intended: seq<Text>)
    requires WellFormed(s) && s.expected <= |intended| && s.data == intended[..s.expected]
    requires forall i :: 0 <= i < |ps| ==> Genuine(ps[i], intended)
    ensures ReceiveAll(s, ps).expected <= |intended|
    ensures ReceiveAll(s, ps).data == intended[..ReceiveAll(s, ps).expected]
  {
    if ps != [] {
      var init := ps[..|ps| - 1];
      ReceiveAllInOrder(s, init, intended);
      var mid := ReceiveAll(s, init);
      var p := ps[|ps| - 1];
      if !IsDamaged(p) && p.sequence == mid.expected {
        assert intended[..mid.expected + 1] == intended[..mid.expected] + [intended[mid.expected]];
      }
    }
  }

  /**
   * Starting from a fresh receiver, delivering genuine packets of the
   * sender's payloads never delivers a payload twice.
   */
  lemma NoDuplicateDelivery(total: nat, size: int, ps: seq<Packet>)
    requires forall i :: 0 <= i < |ps| ==> Genuine(ps[i], Intended(total, size))
    ensures var data := ReceiveAll(ReceiverState(0, []), ps).data;
      forall i, j :: 0 <= i < j < |data| ==> data[i] != data[j]
  {
    ReceiveAllInOrder(ReceiverState(0, []), ps, Intended(total, size));
    IntendedDistinct(total, size);
  }

  /**
   * As written, corruption reaches the delivered data: a first packet with
   * one character raised passes the checksum and is accepted in place of
   * the intended payload.
   */
  lemma CorruptedPacketDelivered(size: int)
    ensures var p := ModifyPacket(NumberedPackets(1, size)[0], 0);
      Receive(ReceiverState(0, []), p).data == [p.content] && p.content != CreatePayload(0, size)
  {
    var q := NumberedPackets(1, size)[0];
    assert q.content[0] == 'D' as int;
    CorruptionUndetected(q, 0);
  }

  class WindowedReceiver {
    const channel: NetworkChannel
    var expectedSequence: nat
    var receivedData: seq<Text>

    function State(): ReceiverState
      reads this
    {
      ReceiverState(expectedSequence, receivedData)
    }

    ghost predicate Valid()
      reads this
    {
      WellFormed(State())
    }

    constructor (channel: NetworkChannel)
      ensures Valid() && this.channel == channel
      ensures expectedSequence == 0 && receivedData == []
    {
      this.channel := channel;
      expectedSequence := 0;
      receivedData := [];
    }

    /** `receive_packet`: update the state as `Receive` says and send the cumulative acknowledgment. */
    method ReceivePacket(packet: Packet, now: int, fate: Fate)
      requires Valid()
      modifies this, channel
      ensures Valid()
      ensures State() == Receive(old(State()), packet)
      ensures channel.inTransit ==
        old(channel.inTransit) + Scheduled(NewAck(AckSequence(old(State()), packet)), false, now, fate, channel.maxDelay)
    {
      if IsDamaged(packet) {
        channel.Transmit(NewAck(expectedSequence - 1), false, now, fate);
        return;
      }
      if packet.sequence == expectedSequence {
        receivedData := receivedData + [packet.content];
        expectedSequence := expectedSequence + 1;
      }
      channel.Transmit(NewAck(expectedSequence - 1), false, now, fate);
    }
  }
}
