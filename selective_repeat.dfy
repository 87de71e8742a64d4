/**
 * Selective-Repeat: `SelectiveSender` keeps one acknowledgment flag and one
 * timer per packet and resends only the packets whose own timer expired;
 * `SelectiveReceiver` buffers out-of-order packets inside its window and
 * hands them on in order.
 */
module SelectiveRepeat {
  import opened Basics
  import opened Packets
  import opened Payload
  import opened Channel

  /**
   * The base after sliding past acknowledged packets: the first index at or
   * after `base` that is not acknowledged, or the number of packets.
   */
  function SlideBase(acked: seq<bool>, base: nat): (r: nat)
    requires base <= |acked|
    ensures base <= r <= |acked|
    ensures forall i :: base <= i < r ==> acked[i]
    ensures r == |acked| || !acked[r]
    decreases |acked| - base
  {
    if base < |acked| && acked[base] then SlideBase(acked, base + 1) else base
  }

  /** The packets `begin_transmission` may send: not acknowledged, and no timer running. */
  function Unsent(acked: seq<bool>, timers: seq<Option<int>>): (r: seq<bool>)
    requires |acked| == |timers|
    ensures |r| == |acked|
    ensures forall k :: 0 <= k < |r| ==> (r[k] <==> !acked[k] && timers[k].None?)
  {
    seq(|acked|, k requires 0 <= k < |acked| => !acked[k] && timers[k].None?)
  }

  /** The packets `check_for_timeout` resends: not acknowledged, with a timer older than the timeout. */
  function Expired(acked: seq<bool>, timers: seq<Option<int>>, now: int, timeout: int): (r: seq<bool>)
    requires |acked| == |timers|
    ensures |r| == |acked|
    ensures forall k :: 0 <= k < |r| ==>
      (r[k] <==> !acked[k] && timers[k].Some? && now - timers[k].value > timeout)
  {
    seq(|acked|, k requires 0 <= k < |acked| => !acked[k] && timers[k].Some? && now - timers[k].value > timeout)
  }

  /** The timers after the chosen packets of `[lo, hi)` are sent at `now`; the others keep theirs. */
  function Restarted(timers: seq<Option<int>>, chosen: seq<bool>, lo: nat, hi: nat, now: int): (r: seq<Option<int>>)
    requires |chosen| == |timers|
    ensures |r| == |timers|
    ensures forall k :: 0 <= k < |r| ==> r[k] == if lo <= k < hi && chosen[k] then Some(now) else timers[k]
  {
    seq(|timers|, k requires 0 <= k < |timers| => if lo <= k < hi && chosen[k] then Some(now) else timers[k])
  }

  /** Restarting the timers of `[lo, k + 1)` is restarting those of `[lo, k)`, then the one of `k` if chosen. */
  lemma RestartedStep(timers: seq<Option<int>>, chosen: seq<bool>, lo: nat, k: nat, now: int)
    requires |chosen| == |timers| && lo <= k < |timers|
    ensures Restarted(timers, chosen, lo, k + 1, now) ==
      if chosen[k] then Restarted(timers, chosen, lo, k, now)[k := Some(now)] else Restarted(timers, chosen, lo, k, now)
  {
  }

  /** No acknowledged packet has a timer running. */
  predicate IdleWhenAcknowledged(acked: seq<bool>, timers: seq<Option<int>>)
    requires |acked| == |timers|
  {
    forall k :: 0 <= k < |acked| && acked[k] ==> timers[k].None?
  }

  /** Restarting only timers of unacknowledged packets keeps acknowledged packets idle. */
  lemma RestartedIdle(acked: seq<bool>, timers: seq<Option<int>>, chosen: seq<bool>, lo: nat, hi: nat, now: int)
    requires |acked| == |timers| == |chosen| && IdleWhenAcknowledged(acked, timers)
    requires forall k :: 0 <= k < |chosen| && chosen[k] ==> !acked[k]
    ensures IdleWhenAcknowledged(acked, Restarted(timers, chosen, lo, hi, now))
  {
  }

  class SelectiveSender {
    const channel: NetworkChannel
    const totalPackets: nat
    const windowSize: nat
    const timeoutDuration: int
    const packets: seq<Packet>
    const acknowledged: array<bool>
    const timers: array<Option<int>>
    var baseSequence: nat

    /**
     * The sender's invariant: every packet below the base is acknowledged,
     * and no acknowledged packet has a timer running.
     */
    ghost predicate Valid()
      reads this, acknowledged, timers
    {
      && |packets| == totalPackets && acknowledged.Length == totalPackets && timers.Length == totalPackets
      && (forall i :: 0 <= i < |packets| ==> Bumpable(packets[i]))
      && baseSequence <= totalPackets
      && (forall i :: 0 <= i < baseSequence ==> acknowledged[i])
      && IdleWhenAcknowledged(acknowledged[..], timers[..])
    }

    /** The end of the window: `min(base + window_size, total)`. */
    function WindowEnd(): (hi: nat)
      reads this
      ensures hi <= totalPackets && hi <= baseSequence + windowSize
      ensures baseSequence <= totalPackets ==> baseSequence <= hi
    {
      Min(baseSequence + windowSize, totalPackets)
    }

    constructor (channel: NetworkChannel, totalPackets: nat, windowSize: nat, packetSize: int, timeout: int)
      ensures Valid() && fresh(acknowledged) && fresh(timers)
      ensures this.channel == channel && this.totalPackets == totalPackets && this.windowSize == windowSize
      ensures timeoutDuration == timeout && packets == NumberedPackets(totalPackets, packetSize)
      ensures baseSequence == 0
      ensures forall k :: 0 <= k < totalPackets ==> !acknowledged[k] && timers[k] == None
    {
      this.channel := channel;
      this.totalPackets := totalPackets;
      this.windowSize := windowSize;
      timeoutDuration := timeout;
      packets := NumberedPackets(totalPackets, packetSize);
      acknowledged := new bool[totalPackets](_ => false);
      timers := new Option<int>[totalPackets](_ => None);
      baseSequence := 0;
    }

    /**
     * `begin_transmission`: send every packet of the window that is neither
     * acknowledged nor timed, in order, and start its timer (`fates[k]` is
     * the channel's outcome for packet `k`).
     */
    method BeginTransmission(now: int, fates: seq<Fate>)
      requires Valid() && |fates| == totalPackets
      modifies timers, channel
      ensures Valid()
      ensures var chosen := Unsent(acknowledged[..], old(timers[..]));
        && timers[..] == Restarted(old(timers[..]), chosen, baseSequence, WindowEnd(), now)
        && channel.inTransit == old(channel.inTransit)
          + Burst(packets, fates, chosen, baseSequence, WindowEnd(), now, channel.maxDelay)
    {
      var hi := WindowEnd();
      ghost var before := timers[..];
      ghost var chosen := Unsent(acknowledged[..], before);
      for k := baseSequence to hi
        invariant timers[..] == Restarted(before, chosen, baseSequence, k, now)
        invariant channel.inTransit == old(channel.inTransit)
          + Burst(packets, fates, chosen, baseSequence, k, now, channel.maxDelay)
      {
        ghost var previous := timers[..];
        RestartedStep(before, chosen, baseSequence, k, now);
        BurstStep(old(channel.inTransit), packets, fates, chosen, baseSequence, k, now, channel.maxDelay);
        assert timers[k] == before[k];
        if !acknowledged[k] && timers[k].None? {
          assert chosen[k];
          channel.Transmit(packets[k], true, now, fates[k]);
          timers[k] := Some(now);
          assert timers[..] == previous[k := Some(now)];
        }
      }
      RestartedIdle(acknowledged[..], before, chosen, baseSequence, hi, now);
    }

    /**
     * `process_acknowledgment`: a damaged acknowledgment, or one for a
     * sequence number out of range or already acknowledged, changes nothing.
     * Otherwise the packet is marked acknowledged and its timer stopped, the
     * base slides past the acknowledged packets, and the window is refilled.
     */
    method ProcessAcknowledgment(ack: Packet, now: int, fates: seq<Fate>)
      requires Valid() && |fates| == totalPackets
      modifies this, acknowledged, timers, channel
      ensures Valid()
      ensures old(baseSequence) <= baseSequence
      ensures if !IsDamaged(ack) && 0 <= ack.sequence < totalPackets && !old(acknowledged[ack.sequence]) then
          && acknowledged[..] == old(acknowledged[..])[ack.sequence := true]
          && baseSequence == SlideBase(acknowledged[..], old(baseSequence))
          && var stopped := old(timers[..])[ack.sequence := None];
             var chosen := Unsent(acknowledged[..], stopped);
             && timers[..] == Restarted(stopped, chosen, baseSequence, WindowEnd(), now)
             && channel.inTransit == old(channel.inTransit)
               + Burst(packets, fates, chosen, baseSequence, WindowEnd(), now, channel.maxDelay)
        else
          && acknowledged[..] == old(acknowledged[..]) && timers[..] == old(timers[..])
          && baseSequence == old(baseSequence) && channel.inTransit == old(channel.inTransit)
    {
      if IsDamaged(ack) {
        return;
      }
      var s := ack.sequence;
      if 0 <= s < totalPackets && !acknowledged[s] {
        acknowledged[s] := true;
        timers[s] := None;
        var b := baseSequence;
        while b < totalPackets && acknowledged[b]
          invariant baseSequence <= b <= totalPackets
          invariant forall i :: 0 <= i < b ==> acknowledged[i]
          invariant SlideBase(acknowledged[..], b) == SlideBase(acknowledged[..], baseSequence)
          decreases totalPackets - b
        {
          b := b + 1;
        }
        baseSequence := b;
        BeginTransmission(now, fates);
      }
    }

    /**
     * `check_for_timeout`: resend each packet of the window that is not
     * acknowledged and whose own timer is older than the timeout, and
     * restart only that packet's timer.
     */
    method CheckForTimeout(now: int, fates: seq<Fate>)
      requires Valid() && |fates| == totalPackets
      modifies timers, channel
      ensures Valid()
      ensures var chosen := Expired(acknowledged[..], old(timers[..]), now, timeoutDuration);
        && timers[..] == Restarted(old(timers[..]), chosen, baseSequence, WindowEnd(), now)
        && channel.inTransit == old(channel.inTransit)
          + Burst(packets, fates, chosen, baseSequence, WindowEnd(), now, channel.maxDelay)
    {
      var hi := WindowEnd();
      ghost var before := timers[..];
      ghost var chosen := Expired(acknowledged[..], before, now, timeoutDuration);
      for k := baseSequence to hi
        invariant timers[..] == Restarted(before, chosen, baseSequence, k, now)
        invariant channel.inTransit == old(channel.inTransit)
          + Burst(packets, fates, chosen, baseSequence, k, now, channel.maxDelay)
      {
        ghost var previous := timers[..];
        RestartedStep(before, chosen, baseSequence, k, now);
        BurstStep(old(channel.inTransit), packets, fates, chosen, baseSequence, k, now, channel.maxDelay);
        assert timers[k] == before[k];
        if !acknowledged[k] && timers[k].Some? && now - timers[k].value > timeoutDuration {
          assert chosen[k];
          channel.Transmit(packets[k], true, now, fates[k]);
          timers[k] := Some(now);
          assert timers[..] == previous[k := Some(now)];
        }
      }
      RestartedIdle(acknowledged[..], before, chosen, baseSequence, hi, now);
    }
  }

  /** The receiver's state: the base, the out-of-order buffer and the payloads handed on. */
  datatype ReceiverState = ReceiverState(base: nat, buffer: map<int, Text>, data: seq<Text>)

  /**
   * The receiver's invariant between calls: one payload handed on per
   * sequence number below the base, the base itself not buffered, and every
   * buffered sequence number strictly inside the window.
   */
  predicate WellFormed(s: ReceiverState, window: nat) {
    && |s.data| == s.base
    && s.base !in s.buffer
    && forall k :: k in s.buffer ==> s.base < k < s.base + window
  }

  /**
   * The draining loop of `receive_packet`: while the base is buffered, hand
   * its payload on, drop it from the buffer and advance the base.
   */
  function Drain(s: ReceiverState): (r: ReceiverState)
    ensures s.base <= r.base && r.base !in r.buffer
    ensures |r.data| == |s.data| + (r.base - s.base) && r.data[..|s.data|] == s.data
    decreases s.buffer.Keys
  {
    if s.base in s.buffer then
      var next := ReceiverState(s.base + 1, s.buffer - {s.base}, s.data + [s.buffer[s.base]]);
      assert next.buffer.Keys < s.buffer.Keys;
      var r := Drain(next);
      assert r.data[..|s.data|] == r.data[..|next.data|][..|s.data|];
      r
    else s
  }

  /** One step of the drain: when the base is buffered, draining goes on from the next base. */
  lemma DrainStep(s: ReceiverState)
    requires s.base in s.buffer
    ensures Drain(s) == Drain(ReceiverState(s.base + 1, s.buffer - {s.base}, s.data + [s.buffer[s.base]]))
  {
  }

  /**
   * The drain removes exactly the buffered sequence numbers it passes and
   * keeps the other buffered payloads as they were.
   */
  lemma {:induction false} DrainKeys(s: ReceiverState)
    ensures forall k :: k in Drain(s).buffer <==> k in s.buffer && !(s.base <= k < Drain(s).base)
    ensures forall k :: k in Drain(s).buffer ==> Drain(s).buffer[k] == s.buffer[k]
    decreases s.buffer.Keys
  {
    if s.base in s.buffer {
      var next := ReceiverState(s.base + 1, s.buffer - {s.base}, s.data + [s.buffer[s.base]]);
      assert next.buffer.Keys < s.buffer.Keys;
      DrainKeys(next);
      DrainStep(s);
    }
  }

  /** The drain hands on the buffered payloads of the sequence numbers it passes, in order. */
  lemma {:induction false} DrainInOrder(s: ReceiverState)
    ensures forall i :: s.base <= i < Drain(s).base ==>
      i in s.buffer && Drain(s).data[|s.data| + i - s.base] == s.buffer[i]
    decreases s.buffer.Keys
  {
    if s.base in s.buffer {
      var next := ReceiverState(s.base + 1, s.buffer - {s.base}, s.data + [s.buffer[s.base]]);
      assert next.buffer.Keys < s.buffer.Keys;
      DrainInOrder(next);
      var r := Drain(next);
      assert Drain(s) == r;
      forall i | s.base <= i < r.base
        ensures i in s.buffer && r.data[|s.data| + i - s.base] == s.buffer[i]
      {
        if i == s.base {
          assert r.data[|s.data|] == r.data[..|next.data|][|s.data|];
        } else {
          assert i in next.buffer;
        }
      }
    }
  }

  /**
   * The state after `receive_packet`: a damaged packet is dropped; an intact
   * one inside the window `[base, base + window)` is buffered; then the
   * buffer is drained.
   */
  function Receive(s: ReceiverState, window: nat, p: Packet): (r: ReceiverState)
    requires WellFormed(s, window)
    ensures WellFormed(r, window)
    ensures s.base <= r.base && r.data[..|s.data|] == s.data
    ensures IsDamaged(p) || p.sequence < s.base || p.sequence >= s.base + window ==> r == s
    ensures !IsDamaged(p) && s.base < p.sequence < s.base + window ==>
      r == s.(buffer := s.buffer[p.sequence := p.content])
    ensures !IsDamaged(p) && p.sequence == s.base && window > 0 ==>
      r.base > s.base && r.data[s.base] == p.content
  {
    if IsDamaged(p) then s
    else
      var buffered := if s.base <= p.sequence < s.base + window then s.buffer[p.sequence := p.content] else s.buffer;
      var t := ReceiverState(s.base, buffered, s.data);
      DrainKeys(t);
      if p.sequence == s.base && window > 0 then
        DrainStep(t);
        DrainInOrder(t);
        Drain(t)
      else
        Drain(t)
  }

  /**
   * The acknowledgment `receive_packet` sends, if any: the packet's own
   * sequence number, for an intact packet inside the window or inside the
   * previous one (a duplicate whose acknowledgment was lost); nothing
   * otherwise.
   */
  function AckSequence(s: ReceiverState, window: nat, p: Packet): (a: Option<int>)
    ensures a.Some? <==> !IsDamaged(p) && s.base - window <= p.sequence < s.base + window
    ensures a.Some? ==> a.value == p.sequence
  {
    if IsDamaged(p) then None
    else if s.base <= p.sequence < s.base + window then Some(p.sequence)
    else if s.base - window <= p.sequence < s.base then Some(p.sequence)
    else None
  }

  /** What the acknowledgment of one `receive_packet` adds to the link. */
  function AckEntries(s: ReceiverState, window: nat, p: Packet, now: int, f: Fate, maxDelay: Delay): seq<Entry>
  {
    match AckSequence(s, window, p)
    case Some(a) => Scheduled(NewAck(a), false, now, f, maxDelay)
    case None => []
  }

  /**
   * The receiver is faithful to the intended data: what it handed on is the
   * intended prefix up to the base, and what it buffered is intended too.
   */
  predicate Faithful(s: ReceiverState, window: nat, intended: seq<Text>) {
    && WellFormed(s, window)
    && s.base <= |intended|
    && s.data == intended[..s.base]
    && forall k :: k in s.buffer ==> k < |intended| && s.buffer[k] == intended[k]
  }

  /** Draining a faithful buffer extends the intended prefix. */
  lemma {:induction false} DrainFaithful(s: ReceiverState, window: nat, intended: seq<Text>)
    requires |s.data| == s.base && s.base <= |intended| && s.data == intended[..s.base]
    requires forall k :: k in s.buffer ==> s.base <= k < s.base + window && k < |intended| && s.buffer[k] == intended[k]
    ensures Faithful(Drain(s), window, intended)
    decreases s.buffer.Keys
  {
    if s.base in s.buffer {
      var next := ReceiverState(s.base + 1, s.buffer - {s.base}, s.data + [s.buffer[s.base]]);
      assert next.buffer.Keys < s.buffer.Keys;
      assert next.data == intended[..next.base];
      DrainFaithful(next, window, intended);
    }
  }

  /** One delivery of a genuine packet keeps the receiver faithful. */
  lemma ReceiveFaithful(s: ReceiverState, window: nat, p: Packet, intended: seq<Text>)
    requires Faithful(s, window, intended) && Genuine(p, intended)
    ensures Faithful(Receive(s, window, p), window, intended)
  {
    if !IsDamaged(p) {
      var buffered := if s.base <= p.sequence < s.base + window then s.buffer[p.sequence := p.content] else s.buffer;
      DrainFaithful(ReceiverState(s.base, buffered, s.data), window, intended);
    }
  }

  /** The receiver's state after a run of deliveries, in order. */
  function ReceiveAll(s: ReceiverState, window: nat, ps: seq<Packet>): (r: ReceiverState)
    requires WellFormed(s, window)
    ensures WellFormed(r, window)
  {
    if ps == [] then s else Receive(ReceiveAll(s, window, ps[..|ps| - 1]), window, ps[|ps| - 1])
  }

  /**
   * Whatever the order, the losses and the duplicates, as long as every
   * intact packet is genuine the data handed on is exactly the intended
   * payloads for the sequence numbers below the base, in order.
   */
  lemma {:induction false} ReceiveAllInOrder(s: ReceiverState, window: nat, ps: seq<Packet>, intended: seq<Text>)
    requires Faithful(s, window, intended)
    requires forall i :: 0 <= i < |ps| ==> Genuine(ps[i], intended)
    ensures Faithful(ReceiveAll(s, window, ps), window, intended)
  {
    if ps != [] {
      ReceiveAllInOrder(s, window, ps[..|ps| - 1], intended);
      ReceiveFaithful(ReceiveAll(s, window, ps[..|ps| - 1]), window, ps[|ps| - 1], intended);
    }
  }

  /**
   * Starting from a fresh receiver, delivering genuine packets of the
   * sender's payloads never hands a payload on twice.
   */
  lemma NoDuplicateDelivery(total: nat, size: int, window: nat, ps: seq<Packet>)
    requires forall i :: 0 <= i < |ps| ==> Genuine(ps[i], Intended(total, size))
    ensures var data := ReceiveAll(ReceiverState(0, map[], []), window, ps).data;
      forall i, j :: 0 <= i < j < |data| ==> data[i] != data[j]
  {
    ReceiveAllInOrder(ReceiverState(0, map[], []), window, ps, Intended(total, size));
    IntendedDistinct(total, size);
  }

  /**
   * Packets arriving out of order are put back in order: with a window of
   * two, packet 1 arriving before packet 0 is buffered, and packet 0 then
   * releases both.
   */
  lemma OutOfOrderReleased(size: int)
    ensures var ps := NumberedPackets(2, size);
      var s1 := Receive(ReceiverState(0, map[], []), 2, ps[1]);
      && s1.data == [] && s1.buffer == map[1 := ps[1].content]
      && Receive(s1, 2, ps[0]).data == [ps[0].content, ps[1].content]
  {
    var ps := NumberedPackets(2, size);
    var c0, c1 := ps[0].content, ps[1].content;
    var m1 := map[1 := c1];
    assert map[][1 := c1] == m1;
    var s1 := Receive(ReceiverState(0, map[], []), 2, ps[1]);
    assert s1 == Drain(ReceiverState(0, m1, [])) == ReceiverState(0, m1, []);
    assert m1[0 := c0] - {0} == m1;
    assert m1 - {1} == map[];
    assert Receive(s1, 2, ps[0]) == Drain(ReceiverState(0, m1[0 := c0], []));
    var n0 := ReceiverState(0, m1[0 := c0], []);
    assert n0.base in n0.buffer && n0.buffer[n0.base] == c0;
    assert Drain(n0) == Drain(ReceiverState(n0.base + 1, n0.buffer - {n0.base}, n0.data + [n0.buffer[n0.base]]));
    assert ReceiverState(n0.base + 1, n0.buffer - {n0.base}, n0.data + [n0.buffer[n0.base]]) == ReceiverState(1, m1, [c0]);
    var n1 := ReceiverState(1, m1, [c0]);
    assert n1.base in n1.buffer && n1.buffer[n1.base] == c1;
    assert Drain(n1) == Drain(ReceiverState(n1.base + 1, n1.buffer - {n1.base}, n1.data + [n1.buffer[n1.base]]));
    assert ReceiverState(n1.base + 1, n1.buffer - {n1.base}, n1.data + [n1.buffer[n1.base]]) == ReceiverState(2, map[], [c0, c1]);
  }

  class SelectiveReceiver {
    const channel: NetworkChannel
    const windowSize: nat
    var baseSequence: nat
    var buffer: map<int, Text>
    var receivedData: seq<Text>

    function State(): ReceiverState
      reads this
    {
      ReceiverState(baseSequence, buffer, receivedData)
    }

    ghost predicate Valid()
      reads this
    {
      WellFormed(State(), windowSize)
    }

    constructor (channel: NetworkChannel, windowSize: nat)
      ensures Valid() && this.channel == channel && this.windowSize == windowSize
      ensures baseSequence == 0 && buffer == map[] && receivedData == []
    {
      this.channel := channel;
      this.windowSize := windowSize;
      baseSequence := 0;
      buffer := map[];
      receivedData := [];
    }

    /** `receive_packet`: update the state as `Receive` says and send the acknowledgment `AckSequence` names, if any. */
    method ReceivePacket(packet: Packet, now: int, fate: Fate)
      requires Valid()
      modifies this, channel
      ensures Valid()
      ensures State() == Receive(old(State()), windowSize, packet)
      ensures channel.inTransit ==
        old(channel.inTransit) + AckEntries(old(State()), windowSize, packet, now, fate, channel.maxDelay)
    {
      if IsDamaged(packet) {
        return;
      }
      var s := packet.sequence;
      if baseSequence <= s < baseSequence + windowSize {
        buffer := buffer[s := packet.content];
        channel.Transmit(NewAck(s), false, now, fate);
      } else if baseSequence - windowSize <= s < baseSequence {
        channel.Transmit(NewAck(s), false, now, fate);
      }
      DrainBuffer();
      assert State() == Receive(old(State()), windowSize, packet);
    }

    /** The draining loop of `receive_packet`: the new state is `Drain` of the old one. */
    method DrainBuffer()
      modifies this
      ensures State() == Drain(old(State()))
    {
      while baseSequence in buffer
        invariant Drain(State()) == Drain(old(State()))
        decreases buffer.Keys
      {
        DrainStep(State());
        assert (buffer - {baseSequence}).Keys < buffer.Keys;
        receivedData := receivedData + [buffer[baseSequence]];
        buffer := buffer - {baseSequence};
        baseSequence := baseSequence + 1;
      }
    }
  }
}
