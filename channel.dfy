/**
 * `NetworkChannel`: an unreliable link that may lose, corrupt or delay each
 * packet, and hands packets out when a caller polls at or after their due
 * time. The random draws of the simulator are supplied by the caller as a
 * `Fate` per transmission, and wall time is an integer logical clock.
 */
module Channel {
  import opened Packets
  import opened Payload

  /** The bound of `randint(1, max_delay)`, which needs a positive bound. */
  type Delay = d: int | d >= 1 witness 1

  /**
   * The outcomes of the draws of one `transmit`, in the order the simulator
   * makes them: lost; damaged, and where (`position` is reduced into the
   * range `randint(0, len-1)` draws from); delayed, and for how long
   * (`holdPick` is reduced into the range `randint(1, max_delay)` draws from).
   * Every outcome the simulator can draw is given by some `Fate`.
   */
  datatype Fate = Fate(lost: bool, damaged: bool, position: nat, delayed: bool, holdPick: nat)

  /** An in-transit item: the packet, its due time and whether it goes to the receiver. */
  datatype Entry = Entry(packet: Packet, due: int, toRecipient: bool)

  /** The hold time of one transmission: 0, or a draw in `[1, max_delay]` when delayed. */
  function HoldTime(f: Fate, maxDelay: Delay): (h: nat)
    ensures f.delayed <==> h != 0
    ensures h <= maxDelay
  {
    if f.delayed then 1 + f.holdPick % maxDelay else 0
  }

  /** The position `modify_packet` raises for this fate (unused for an empty payload). */
  function DamagePosition(p: Packet, f: Fate): (i: nat)
    ensures |p.content| > 0 ==> i < |p.content|
  {
    if |p.content| == 0 then 0 else f.position % |p.content|
  }

  /**
   * What one `transmit` adds to `in_transit`: nothing when the packet is
   * lost, otherwise one item, the packet possibly corrupted by
   * `modify_packet`, due `now + hold`.
   */
  function Scheduled(p: Packet, toRecipient: bool, now: int, f: Fate, maxDelay: Delay): (r: seq<Entry>)
    requires Bumpable(p)
    ensures f.lost <==> r == []
    ensures |r| <= 1
    ensures !f.lost ==>
      && r[0].toRecipient == toRecipient
      && (r[0].due == now || now + 1 <= r[0].due <= now + maxDelay)
      && r[0].packet.sequence == p.sequence
      && r[0].packet.acknowledgment == p.acknowledgment
      && |r[0].packet.content| == |p.content|
      && (!f.damaged || |p.content| == 0 ==> r[0].packet == p)
      && (!IsDamaged(p) ==> !IsDamaged(r[0].packet))
  {
    if f.lost then []
    else
      var q := if f.damaged then ModifyPacket(p, DamagePosition(p, f)) else p;
      [Entry(q, now + HoldTime(f, maxDelay), toRecipient)]
  }

  /** An item is handed out by a poll at `now` for its own destination once it is due. */
  predicate Ready(e: Entry, now: int, forRecipient: bool) {
    now >= e.due && e.toRecipient == forRecipient
  }

  /** The items a poll hands out, in their original order. */
  function ReadyEntries(es: seq<Entry>, now: int, forRecipient: bool): (r: seq<Entry>)
    ensures |r| <= |es|
  {
    if es == [] then []
    else
      var last := es[|es| - 1];
      ReadyEntries(es[..|es| - 1], now, forRecipient) + (if Ready(last, now, forRecipient) then [last] else [])
  }

  /** The items a poll leaves in transit, in their original order. */
  function Remaining(es: seq<Entry>, now: int, forRecipient: bool): (r: seq<Entry>)
    ensures |r| <= |es|
  {
    if es == [] then []
    else
      var last := es[|es| - 1];
      Remaining(es[..|es| - 1], now, forRecipient) + (if Ready(last, now, forRecipient) then [] else [last])
  }

  /** The packets of a list of items, in order. */
  function PacketsOf(es: seq<Entry>): (ps: seq<Packet>)
    ensures |ps| == |es|
  {
    if es == [] then [] else PacketsOf(es[..|es| - 1]) + [es[|es| - 1].packet]
  }

  lemma {:induction false} PacketsOfIndex(es: seq<Entry>, i: nat)
    requires i < |es|
    ensures PacketsOf(es)[i] == es[i].packet
  {
    if i < |es| - 1 {
      PacketsOfIndex(es[..|es| - 1], i);
    }
  }

  /** A poll hands out exactly the due items for its party and leaves exactly the others. */
  lemma {:induction false} PollMembership(es: seq<Entry>, now: int, forRecipient: bool, e: Entry)
    ensures e in ReadyEntries(es, now, forRecipient) <==> e in es && Ready(e, now, forRecipient)
    ensures e in Remaining(es, now, forRecipient) <==> e in es && !Ready(e, now, forRecipient)
  {
    if es != [] {
      var init := es[..|es| - 1];
      PollMembership(init, now, forRecipient, e);
      assert es == init + [es[|es| - 1]];
    }
  }

  /** A poll neither drops nor duplicates an item: it only splits the list in two. */
  lemma {:induction false} PollSplits(es: seq<Entry>, now: int, forRecipient: bool)
    ensures multiset(ReadyEntries(es, now, forRecipient)) + multiset(Remaining(es, now, forRecipient)) == multiset(es)
    ensures |ReadyEntries(es, now, forRecipient)| + |Remaining(es, now, forRecipient)| == |es|
  {
    if es != [] {
      var init, last := es[..|es| - 1], es[|es| - 1];
      PollSplits(init, now, forRecipient);
      assert es == init + [last];
      if Ready(last, now, forRecipient) {
        assert ReadyEntries(es, now, forRecipient) == ReadyEntries(init, now, forRecipient) + [last];
        assert Remaining(es, now, forRecipient) == Remaining(init, now, forRecipient);
      } else {
        assert ReadyEntries(es, now, forRecipient) == ReadyEntries(init, now, forRecipient);
        assert Remaining(es, now, forRecipient) == Remaining(init, now, forRecipient) + [last];
      }
    }
  }

  /** Polling keeps the order of the handed-out items: the poll of a concatenation is the concatenation of the polls. */
  lemma {:induction false} ReadyDistributes(a: seq<Entry>, b: seq<Entry>, now: int, forRecipient: bool)
    ensures ReadyEntries(a + b, now, forRecipient) == ReadyEntries(a, now, forRecipient) + ReadyEntries(b, now, forRecipient)
  {
    if b == [] {
      assert a + b == a;
    } else {
      var init, last := b[..|b| - 1], b[|b| - 1];
      ReadyDistributes(a, init, now, forRecipient);
      assert (a + b)[..|a + b| - 1] == a + init;
      assert (a + b)[|a + b| - 1] == last;
      var extra := if Ready(last, now, forRecipient) then [last] else [];
      assert ReadyEntries(a + b, now, forRecipient) == ReadyEntries(a + init, now, forRecipient) + extra;
      assert ReadyEntries(a, now, forRecipient) + ReadyEntries(init, now, forRecipient) + extra
          == ReadyEntries(a, now, forRecipient) + (ReadyEntries(init, now, forRecipient) + extra);
    }
  }

  /** Polling keeps the order of the items left in transit, in the same way. */
  lemma {:induction false} RemainingDistributes(a: seq<Entry>, b: seq<Entry>, now: int, forRecipient: bool)
    ensures Remaining(a + b, now, forRecipient) == Remaining(a, now, forRecipient) + Remaining(b, now, forRecipient)
  {
    if b == [] {
      assert a + b == a;
    } else {
      var init, last := b[..|b| - 1], b[|b| - 1];
      RemainingDistributes(a, init, now, forRecipient);
      assert (a + b)[..|a + b| - 1] == a + init;
      assert (a + b)[|a + b| - 1] == last;
      var other := if Ready(last, now, forRecipient) then [] else [last];
      assert Remaining(a + b, now, forRecipient) == Remaining(a + init, now, forRecipient) + other;
      assert Remaining(a, now, forRecipient) + Remaining(init, now, forRecipient) + other
          == Remaining(a, now, forRecipient) + (Remaining(init, now, forRecipient) + other);
    }
  }

  /** A second poll at the same time and for the same party hands out nothing. */
  lemma {:induction false} PollIdempotent(es: seq<Entry>, now: int, forRecipient: bool)
    ensures ReadyEntries(Remaining(es, now, forRecipient), now, forRecipient) == []
    ensures Remaining(Remaining(es, now, forRecipient), now, forRecipient) == Remaining(es, now, forRecipient)
  {
    if es != [] {
      var init := es[..|es| - 1];
      var last := es[|es| - 1];
      PollIdempotent(init, now, forRecipient);
      ReadyDistributes(Remaining(init, now, forRecipient), if Ready(last, now, forRecipient) then [] else [last], now, forRecipient);
      RemainingDistributes(Remaining(init, now, forRecipient), if Ready(last, now, forRecipient) then [] else [last], now, forRecipient);
    }
  }

  /**
   * A packet that is not lost reaches its destination: every poll for that
   * destination at `now + max_delay` or later hands it out, after whatever
   * was due before it.
   */
  lemma ArrivesWithinMaxDelay(es: seq<Entry>, p: Packet, toRecipient: bool, now: int, f: Fate, maxDelay: Delay, t: int)
    requires Bumpable(p) && !f.lost && t >= now + maxDelay
    ensures ReadyEntries(es + Scheduled(p, toRecipient, now, f, maxDelay), t, toRecipient)
         == ReadyEntries(es, t, toRecipient) + Scheduled(p, toRecipient, now, f, maxDelay)
  {
    var s := Scheduled(p, toRecipient, now, f, maxDelay);
    ReadyDistributes(es, s, t, toRecipient);
    assert s == [] + [s[0]];
  }

  /**
   * What a run of transmissions to the receiver adds to `in_transit`: for
   * each `k` in `[lo, hi)` that is `chosen`, in increasing order, what
   * sending `packets[k]` with the outcome `fates[k]` schedules.
   */
  function Burst(packets: seq<Packet>, fates: seq<Fate>, chosen: seq<bool>, lo: nat, hi: nat, now: int, maxDelay: Delay): (r: seq<Entry>)
    requires lo <= hi <= |packets| && |fates| == |packets| && |chosen| == |packets|
    requires forall k :: lo <= k < hi ==> Bumpable(packets[k])
    ensures |r| <= hi - lo
    decreases hi - lo
  {
    if hi == lo then []
    else
      Burst(packets, fates, chosen, lo, hi - 1, now, maxDelay)
        + (if chosen[hi - 1] then Scheduled(packets[hi - 1], true, now, fates[hi - 1], maxDelay) else [])
  }

  /** Extending a run by one index appends what sending that packet schedules, if it is chosen. */
  lemma BurstStep(es: seq<Entry>, packets: seq<Packet>, fates: seq<Fate>, chosen: seq<bool>, lo: nat, k: nat, now: int, maxDelay: Delay)
    requires lo <= k < |packets| && |fates| == |packets| && |chosen| == |packets|
    requires forall j :: lo <= j <= k ==> Bumpable(packets[j])
    ensures es + Burst(packets, fates, chosen, lo, k + 1, now, maxDelay)
         == es + Burst(packets, fates, chosen, lo, k, now, maxDelay)
            + (if chosen[k] then Scheduled(packets[k], true, now, fates[k], maxDelay) else [])
  {
  }

  /** Every index is chosen: a run that sends each packet of a range. */
  function AllChosen(n: nat): (r: seq<bool>)
    ensures |r| == n && forall k :: 0 <= k < n ==> r[k]
  {
    seq(n, _ => true)
  }

  /**
   * Each item of a run is one chosen packet of the range that was not lost,
   * addressed to the receiver, due within `max_delay`, with its sequence
   * number kept, and unchanged unless its fate damaged it.
   */
  lemma {:induction false} BurstOrigin(packets: seq<Packet>, fates: seq<Fate>, chosen: seq<bool>, lo: nat, hi: nat, now: int, maxDelay: Delay, e: Entry)
    requires lo <= hi <= |packets| && |fates| == |packets| && |chosen| == |packets|
    requires forall k :: lo <= k < hi ==> Bumpable(packets[k])
    requires e in Burst(packets, fates, chosen, lo, hi, now, maxDelay)
    ensures e.toRecipient && now <= e.due <= now + maxDelay
    ensures exists k ::
      && lo <= k < hi && chosen[k] && !fates[k].lost && e.packet.sequence == packets[k].sequence
      && (!fates[k].damaged ==> e.packet == packets[k])
    decreases hi - lo
  {
    var k := hi - 1;
    var tail := if chosen[k] then Scheduled(packets[k], true, now, fates[k], maxDelay) else [];
    if e in tail {
      assert e == tail[0];
    } else {
      BurstOrigin(packets, fates, chosen, lo, hi - 1, now, maxDelay, e);
    }
  }

  /** Every receiver-bound item carries a genuine packet. */
  predicate CarriesGenuine(es: seq<Entry>, intended: seq<Text>) {
    forall e :: e in es && e.toRecipient ==> Genuine(e.packet, intended)
  }

  /**
   * A run of undamaged transmissions of genuine packets keeps the link
   * carrying only genuine packets to the receiver.
   */
  lemma BurstKeepsGenuine(es: seq<Entry>, packets: seq<Packet>, fates: seq<Fate>, chosen: seq<bool>, lo: nat, hi: nat, now: int, maxDelay: Delay, intended: seq<Text>)
    requires lo <= hi <= |packets| && |fates| == |packets| && |chosen| == |packets|
    requires forall k :: lo <= k < hi ==> Bumpable(packets[k]) && Genuine(packets[k], intended) && !fates[k].damaged
    requires CarriesGenuine(es, intended)
    ensures CarriesGenuine(es + Burst(packets, fates, chosen, lo, hi, now, maxDelay), intended)
  {
    forall e | e in es + Burst(packets, fates, chosen, lo, hi, now, maxDelay) && e.toRecipient
      ensures Genuine(e.packet, intended)
    {
      if e !in es {
        BurstOrigin(packets, fates, chosen, lo, hi, now, maxDelay, e);
      }
    }
  }

  /** Acknowledgments travel to the sender, so they never break the property. */
  lemma AckKeepsGenuine(es: seq<Entry>, ack: Packet, now: int, f: Fate, maxDelay: Delay, intended: seq<Text>)
    requires Bumpable(ack) && CarriesGenuine(es, intended)
    ensures CarriesGenuine(es + Scheduled(ack, false, now, f, maxDelay), intended)
  {
  }

  /**
   * Polling the receiver's side of a link that carries only genuine packets
   * hands out only genuine packets and leaves only genuine ones behind.
   */
  lemma PollKeepsGenuine(es: seq<Entry>, now: int, forRecipient: bool, intended: seq<Text>)
    requires CarriesGenuine(es, intended)
    ensures CarriesGenuine(Remaining(es, now, forRecipient), intended)
    ensures forRecipient ==>
      forall i :: 0 <= i < |ReadyEntries(es, now, forRecipient)| ==>
        Genuine(PacketsOf(ReadyEntries(es, now, forRecipient))[i], intended)
  {
    forall e | e in Remaining(es, now, forRecipient) && e.toRecipient
      ensures Genuine(e.packet, intended)
    {
      PollMembership(es, now, forRecipient, e);
    }
    if forRecipient {
      var ready := ReadyEntries(es, now, forRecipient);
      forall i | 0 <= i < |ready|
        ensures Genuine(PacketsOf(ready)[i], intended)
      {
        PacketsOfIndex(ready, i);
        PollMembership(es, now, forRecipient, ready[i]);
      }
    }
  }

  class NetworkChannel {
    const maxDelay: Delay
    var inTransit: seq<Entry>

    constructor (maxDelay: Delay)
      ensures this.maxDelay == maxDelay && inTransit == []
    {
      this.maxDelay := maxDelay;
      inTransit := [];
    }

    /** `transmit`: schedule the packet unless it is lost. */
    method Transmit(packet: Packet, toRecipient: bool, now: int, fate: Fate)
      requires Bumpable(packet)
      modifies this
      ensures inTransit == old(inTransit) + Scheduled(packet, toRecipient, now, fate, maxDelay)
    {
      if fate.lost {
        return;
      }
      var p := packet;
      if fate.damaged {
        p := ModifyPacket(packet, DamagePosition(packet, fate));
      }
      var hold := 0;
      if fate.delayed {
        hold := HoldTime(fate, maxDelay);
      }
      inTransit := inTransit + [Entry(p, now + hold, toRecipient)];
    }

    /**
     * `deliver_packets`: hand out, in order, the packets due by `now` for
     * the given party, and keep the rest in transit, in order.
     */
    method DeliverPackets(now: int, forRecipient: bool) returns (delivered: seq<Packet>)
      modifies this
      ensures delivered == PacketsOf(ReadyEntries(old(inTransit), now, forRecipient))
      ensures inTransit == Remaining(old(inTransit), now, forRecipient)
    {
      delivered := [];
      var remaining := [];
      var i := 0;
      while i < |inTransit|
        invariant 0 <= i <= |inTransit|
        invariant delivered == PacketsOf(ReadyEntries(inTransit[..i], now, forRecipient))
        invariant remaining == Remaining(inTransit[..i], now, forRecipient)
      {
        var item := inTransit[i];
        assert inTransit[..i + 1][..i] == inTransit[..i];
        assert inTransit[..i + 1][i] == item;
        ghost var before := ReadyEntries(inTransit[..i], now, forRecipient);
        if now >= item.due && item.toRecipient == forRecipient {
          assert ReadyEntries(inTransit[..i + 1], now, forRecipient) == before + [item];
          assert (before + [item])[..|before|] == before;
          delivered := delivered + [item.packet];
        } else {
          assert ReadyEntries(inTransit[..i + 1], now, forRecipient) == before;
          remaining := remaining + [item];
        }
        i := i + 1;
      }
      assert inTransit[..i] == inTransit;
      inTransit := remaining;
    }
  }
}
