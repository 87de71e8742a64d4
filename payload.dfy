/**
 * `create_payload`: the test payload of packet `n` is `DATA<n>-` padded
 * with `X` up to the requested size.
 */
module Payload {
  import opened Packets

  const DigitZero: Code := '0' as int
  const Dash: Code := '-' as int
  const Filler: Code := 'X' as int

  /** `str(n)`: the decimal digits of `n`, without leading zeros. */
  function Digits(n: nat): (r: Text)
    ensures 1 <= |r|
    ensures n >= 10 ==> |r| >= 2
    ensures forall i :: 0 <= i < |r| ==> DigitZero <= r[i] <= DigitZero + 9
    ensures r[|r| - 1] == DigitZero + n % 10
  {
    if n < 10 then [DigitZero + n] else Digits(n / 10) + [DigitZero + n % 10]
  }

  /** Different numbers print differently. */
  lemma {:induction false} DigitsInjective(a: nat, b: nat)
    requires Digits(a) == Digits(b)
    ensures a == b
  {
    if a >= 10 && b >= 10 {
      var da, db := Digits(a), Digits(b);
      assert Digits(a / 10) == da[..|da| - 1] == db[..|db| - 1] == Digits(b / 10);
      DigitsInjective(a / 10, b / 10);
    }
  }

  /** The fixed part `DATA<n>-` of the payload of packet `n`. */
  function Prefix(n: nat): (r: Text)
    ensures |r| == |Digits(n)| + 5
  {
    Codes("DATA") + Digits(n) + [Dash]
  }

  /**
   * `create_payload(n, size)`: the prefix, followed by `size - len(prefix)`
   * filler characters (none when that is not positive, as Python's
   * `"X" * k` gives the empty string for `k <= 0`).
   */
  function CreatePayload(n: nat, size: int): (r: Text)
    ensures |r| == if size > |Prefix(n)| then size else |Prefix(n)|
    ensures r[..|Prefix(n)|] == Prefix(n)
    ensures forall i :: |Prefix(n)| <= i < |r| ==> r[i] == Filler
    ensures forall i :: 0 <= i < |r| ==> r[i] < 128
  {
    var prefix := Prefix(n);
    var pad := if size > |prefix| then size - |prefix| else 0;
    prefix + seq(pad, _ => Filler)
  }

  /** In the prefix, the dash comes right after the digits and never among them. */
  lemma DashEndsDigits(n: nat, i: nat)
    requires i < |Digits(n)|
    ensures Prefix(n)[4 + |Digits(n)|] == Dash
    ensures Prefix(n)[4 + i] != Dash
  {
    assert Prefix(n)[4 + i] == Digits(n)[i];
  }

  /** The payloads of different packets differ, whatever the size. */
  lemma PayloadInjective(a: nat, b: nat, size: int)
    requires CreatePayload(a, size) == CreatePayload(b, size)
    ensures a == b
  {
    var r := CreatePayload(a, size);
    var da, db := Digits(a), Digits(b);
    assert Prefix(a)[..4] == Prefix(b)[..4];
    // The first dash ends the digits, so both numbers have the same length.
    if |da| < |db| {
      DashEndsDigits(b, |da|);
      assert false;
    } else if |db| < |da| {
      DashEndsDigits(a, |db|);
      assert false;
    }
    assert da == Prefix(a)[4..4 + |da|] == r[4..4 + |da|] == Prefix(b)[4..4 + |db|] == db;
    DigitsInjective(a, b);
  }

  /** The payloads the sender intends to deliver, in order. */
  function Intended(total: nat, size: int): (r: seq<Text>)
    ensures |r| == total
    ensures forall i :: 0 <= i < total ==> r[i] == CreatePayload(i, size)
  {
    seq(total, i requires 0 <= i < total => CreatePayload(i, size))
  }

  /** No payload is intended twice, so a prefix of the intended data has no duplicates. */
  lemma IntendedDistinct(total: nat, size: int)
    ensures forall i, j :: 0 <= i < j < total ==> Intended(total, size)[i] != Intended(total, size)[j]
  {
    forall i, j | 0 <= i < j < total
      ensures Intended(total, size)[i] != Intended(total, size)[j]
    {
      if Intended(total, size)[i] == Intended(total, size)[j] {
        PayloadInjective(i, j, size);
      }
    }
  }

  /**
   * The packets both windowed senders build: packet `i` carries sequence
   * number `i` and the payload of packet `i`.
   */
  function NumberedPackets(total: nat, size: int): (ps: seq<Packet>)
    ensures |ps| == total
    ensures forall i :: 0 <= i < total ==>
      ps[i].sequence == i && ps[i].content == CreatePayload(i, size) &&
      !ps[i].acknowledgment && !IsDamaged(ps[i]) && Bumpable(ps[i])
  {
    seq(total, i requires 0 <= i < total => NewPacket(i, CreatePayload(i, size), false))
  }

  /**
   * A packet that passes the checksum is one of the sender's own: its
   * sequence number is in range and it carries the intended payload.
   */
  predicate Genuine(p: Packet, intended: seq<Text>) {
    IsDamaged(p) || (0 <= p.sequence < |intended| && p.content == intended[p.sequence])
  }

  /** The windowed senders only build genuine packets. */
  lemma NumberedPacketsGenuine(total: nat, size: int, i: nat)
    requires i < total
    ensures Genuine(NumberedPackets(total, size)[i], Intended(total, size))
  {
  }
}
