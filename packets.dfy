/**
 * The `DataPacket` of the simulator: a sequence number, a text payload, an
 * acknowledgment flag and a checksum fixed when the packet is built.
 */
module Packets {

  /** A Unicode code point, the unit of a Python string. */
  type Code = c: int | 0 <= c <= 0x10FFFF

  /** The largest code point; `chr` refuses anything above it. */
  const MaxCode: Code := 0x10FFFF

  /** A Python string, as its sequence of code points. */
  type Text = seq<Code>

  /** The code points of a string literal. */
  function Codes(s: string): (r: Text)
    ensures |r| == |s|
    ensures forall i :: 0 <= i < |s| ==> r[i] == s[i] as int
  {
    if s == [] then [] else Codes(s[..|s| - 1]) + [s[|s| - 1] as int]
  }

  /** `sum(ord(c) for c in content)`, zero for the empty string. */
  function CodeSum(t: Text): (r: int)
    ensures r >= 0
    ensures t == [] ==> r == 0
    ensures forall i :: 0 <= i < |t| ==> t[i] <= r
  {
    if t == [] then 0 else CodeSum(t[..|t| - 1]) + t[|t| - 1]
  }

  /**
   * The checksum: sequence number plus the sum of the character codes,
   * reduced modulo 256. Python's `%` by a positive divisor agrees with
   * Dafny's, also for the negative sequence numbers acknowledgments may carry.
   */
  function Checksum(sequence: int, content: Text): (r: int)
    ensures 0 <= r < 256
    ensures (sequence + CodeSum(content) - r) % 256 == 0
  {
    (sequence + CodeSum(content)) % 256
  }

  datatype Packet = Packet(sequence: int, content: Text, acknowledgment: bool, checksumValue: int)

  /**
   * `is_damaged`: the stored checksum disagrees with a recomputed one, that
   * is, it is not the residue in [0, 256) of sequence number plus code sum.
   */
  function IsDamaged(p: Packet): (d: bool)
    ensures d <==> !(0 <= p.checksumValue < 256 && (p.sequence + CodeSum(p.content) - p.checksumValue) % 256 == 0)
  {
    p.checksumValue != Checksum(p.sequence, p.content)
  }

  /** The constructor of `DataPacket`: it stores the checksum of its own fields. */
  function NewPacket(sequence: int, content: Text, acknowledgment: bool): (p: Packet)
    ensures p.sequence == sequence && p.content == content && p.acknowledgment == acknowledgment
    ensures 0 <= p.checksumValue < 256
    ensures !IsDamaged(p)
  {
    Packet(sequence, content, acknowledgment, Checksum(sequence, content))
  }

  /** An acknowledgment: `DataPacket(sequence, acknowledgment=True)`, with empty content. */
  function NewAck(sequence: int): (p: Packet)
    ensures p.sequence == sequence && p.acknowledgment && p.content == []
    ensures !IsDamaged(p)
  {
    NewPacket(sequence, [], true)
  }

  /** Every character of the packet can be raised by one without leaving the code-point range. */
  predicate Bumpable(p: Packet) {
    forall i :: 0 <= i < |p.content| ==> p.content[i] < MaxCode
  }

  /**
   * `modify_packet` with the position drawn by `randint(0, len-1)` supplied
   * as `index`: a non-empty payload has the character at `index` raised by
   * one and is rebuilt as a NEW packet, so its checksum is recomputed; an
   * empty payload leaves the packet as it was.
   */
  function ModifyPacket(p: Packet, index: nat): (r: Packet)
    requires |p.content| > 0 ==> index < |p.content| && p.content[index] < MaxCode
    ensures r.sequence == p.sequence && r.acknowledgment == p.acknowledgment
    ensures |r.content| == |p.content|
    ensures |p.content| == 0 ==> r == p
    ensures |p.content| > 0 ==>
      r.content[index] == p.content[index] + 1 &&
      (forall j :: 0 <= j < |p.content| && j != index ==> r.content[j] == p.content[j]) &&
      !IsDamaged(r)
  {
    if |p.content| > 0 then
      NewPacket(p.sequence, p.content[index := p.content[index] + 1], p.acknowledgment)
    else
      p
  }

  /** Raising one character by one raises the code sum by exactly one. */
  lemma {:induction false} CodeSumIncrement(t: Text, i: nat)
    requires i < |t| && t[i] < MaxCode
    ensures CodeSum(t[i := t[i] + 1]) == CodeSum(t) + 1
  {
    var u := t[i := t[i] + 1];
    var n := |t| - 1;
    assert u[..n] == if i == n then t[..n] else t[..n][i := t[i] + 1];
    if i < n {
      CodeSumIncrement(t[..n], i);
    }
  }

  /**
   * `modify_packet` with the original checksum carried forward: the raised
   * character travels with the checksum of the old content, so that
   * `is_damaged` sees the change.
   */
  function ModifyPacketKeepingChecksum(p: Packet, index: nat): (r: Packet)
    requires |p.content| > 0 ==> index < |p.content| && p.content[index] < MaxCode
    ensures r.sequence == p.sequence && r.acknowledgment == p.acknowledgment && r.checksumValue == p.checksumValue
    ensures |r.content| == |p.content|
    ensures |p.content| == 0 ==> r == p
    ensures |p.content| > 0 ==>
      r.content[index] == p.content[index] + 1 &&
      (forall j :: 0 <= j < |p.content| && j != index ==> r.content[j] == p.content[j]) &&
      (!IsDamaged(p) ==> IsDamaged(r))
  {
    if |p.content| > 0 then
      CodeSumIncrement(p.content, index);
      p.(content := p.content[index := p.content[index] + 1])
    else
      p
  }

  /**
   * As written, corruption goes unnoticed: the corrupted packet differs from
   * the original, yet `is_damaged` reports it intact, because `modify_packet`
   * rebuilds it through the constructor.
   */
  lemma CorruptionUndetected(p: Packet, i: nat)
    requires i < |p.content| && p.content[i] < MaxCode
    ensures ModifyPacket(p, i) != p
    ensures ModifyPacket(p, i).content != p.content
    ensures !IsDamaged(ModifyPacket(p, i))
  {
    assert ModifyPacket(p, i).content[i] != p.content[i];
  }
}
