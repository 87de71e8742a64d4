# ARQ simulator in Dafny

A model of a toy Automatic-Repeat-reQuest simulator, `main.py`. The simulator
runs three classic ARQ protocols over an unreliable link:

- Stop-and-Wait with an alternating bit;
- Go-Back-N with cumulative acknowledgments and one timer;
- Selective-Repeat with per-packet acknowledgments and timers and a reorder buffer.

The link can lose, corrupt and delay each packet.

The model keeps the program's structure:

- `packets.dfy` (module `Packets`): `DataPacket`, its checksum, `is_damaged` and `modify_packet`, all as pure functions on a `Packet` value.
- `payload.dfy` (module `Payload`): `create_payload` and the packet lists the senders build.
- `channel.dfy` (module `Channel`): `NetworkChannel` as a class whose `inTransit` sequence `Transmit` and `DeliverPackets` reassign. Pure functions beside it say what one transmission schedules (`Scheduled`), what a poll hands out and keeps (`ReadyEntries`, `Remaining`) and what a run of transmissions adds (`Burst`).
- `stop_and_wait.dfy`, `go_back_n.dfy`, `selective_repeat.dfy`: each pair as two classes.
  - Every sender method states its new state and exactly what it adds to the link.
  - Every receiver's `ReceivePacket` is tied to a pure step function `Receive`, and to an acknowledgment function, about which the lemmas are stated.
  - The Selective-Repeat sender keeps its `acknowledged` and `timers` lists as arrays updated in place.
- `basics.dfy` (module `Basics`): `Option` and `Min`.

The random draws of `transmit` become a caller-supplied `Fate`: lost?, damaged and where?, delayed and for how long?

- The position and the hold time are reduced into the ranges `randint` draws from, so every outcome the simulator can draw is some `Fate`.
- Methods that may send several packets take one `Fate` per packet number.

Wall time becomes an integer logical clock `now`, passed in by the caller. Timers are `Option<int>`.

Characters are Unicode code points (`Code`), so `ord` and `chr` are the identity. `chr` fails above 0x10FFFF, so raising a character is only allowed below that bound (`Bumpable`). Every payload the senders build is ASCII.

The checksum exists to detect corruption (`is_damaged`, main.py:22-23). But `modify_packet` builds a new `DataPacket` (main.py:65), whose constructor recomputes the checksum (main.py:15), so no packet the simulator builds is ever reported damaged.

- The model follows the code (`Packets.ModifyPacket`, `Packets.CorruptionUndetected`).
- It shows the consequence: a corrupted payload is delivered (`GoBackN.CorruptedPacketDelivered`).
- It also shows the behaviour the checksum is there for (`Packets.ModifyPacketKeepingChecksum`).

Because of this, the in-order delivery lemmas are stated for runs in which every packet that passes the checksum is genuine (`Payload.Genuine`). `Channel.BurstKeepsGenuine` and `Channel.PollKeepsGenuine` show that links without damage keep that property.

## Model

| member | source | states |
|---|---|---|
| Packets.CodeSum | main.py:19 | the sum of the character codes: 0 for empty content, never negative, and at least every single code |
| Packets.IsDamaged | main.py:22-23 | true exactly when the stored checksum differs from `Checksum(sequence, content)`, i.e. is not the residue in [0, 256) of sequence number plus code sum |
| Packets.Checksum | main.py:17-20 | the checksum lies in [0, 256) and is congruent to sequence number plus code sum modulo 256 |
| Packets.NewPacket | main.py:11-15 | a new packet keeps its fields, stores a checksum in [0, 256) and is not damaged |
| Packets.NewAck | main.py:135 | an acknowledgment has the given sequence number, the ack flag, empty content, and is not damaged |
| Packets.ModifyPacket | main.py:60-66 | empty content: the packet is returned unchanged; otherwise sequence, ack flag and length are kept, exactly the chosen character is raised by one, and the result is not damaged |
| Packets.CodeSumIncrement | main.py:19 | raising one character by one raises the sum of character codes by exactly one |
| Packets.ModifyPacketKeepingChecksum | main.py:22-23 | with the old checksum carried forward, corrupting an intact non-empty packet makes `is_damaged` true |
| Packets.CorruptionUndetected | main.py:60-66 | as written, the corrupted packet differs from the original in content yet is not damaged |
| Payload.Digits | main.py:94 | `str(n)`: at least one digit, at least two from 10 on, only digit characters, last digit `n % 10` |
| Payload.DigitsInjective | main.py:94 | different numbers have different decimal representations |
| Payload.CreatePayload | main.py:93-94 | the payload is `DATA<n>-` padded with `X` up to the size (no padding when the size is smaller), all ASCII |
| Payload.PayloadInjective | main.py:93-94 | different packet numbers get different payloads, whatever the size |
| Payload.Intended | main.py:157 | the intended data is the list of payloads 0 to total-1 |
| Payload.IntendedDistinct | main.py:157 | no two intended payloads are equal |
| Payload.NumberedPackets | main.py:157 | packet i carries sequence number i and payload i, is a data packet and is not damaged |
| Payload.NumberedPacketsGenuine | main.py:157 | every packet a windowed sender builds is genuine |
| Channel.HoldTime | main.py:48-50 | the hold time is 0 exactly when the delay is not drawn, and otherwise in [1, max_delay] |
| Channel.DamagePosition | main.py:63 | the corrupted position lies inside a non-empty payload |
| Channel.Scheduled | main.py:36-54 | a lost packet adds nothing; otherwise exactly one entry is added, for the same destination, due at `now` or within [now+1, now+max_delay], with sequence number, ack flag and length kept, unchanged unless corrupted, and intact if the original was |
| Channel.PollMembership | main.py:68-80 | a poll hands out exactly the due entries for that party and keeps exactly the others |
| Channel.PollSplits | main.py:68-80 | a poll neither drops nor duplicates entries: the handed-out and kept lists together are a permutation of the old list |
| Channel.ReadyDistributes | main.py:71-76 | the handed-out list keeps the original order: polling a concatenation hands out the concatenation of the two polls |
| Channel.RemainingDistributes | main.py:71-79 | the kept list keeps the original order in the same way |
| Channel.PollIdempotent | main.py:68-80 | a second poll at the same time for the same party hands out nothing and keeps everything |
| Channel.ArrivesWithinMaxDelay | main.py:48-54 | a packet that is not lost is handed out by every poll for its destination from `now + max_delay` on, after the earlier due entries |
| Channel.Burst | main.py:165-168 | a run of transmissions over a range adds at most one entry per packet |
| Channel.BurstOrigin | main.py:165-168 | each entry of a run is a chosen, not-lost packet of the range, bound for the receiver, due within max_delay, with its sequence number, and unchanged unless damaged |
| Channel.BurstKeepsGenuine | main.py:165-168 | undamaged transmissions of genuine packets keep the link carrying only genuine packets to the receiver |
| Channel.AckKeepsGenuine | main.py:146 | acknowledgments go to the sender and keep that property |
| Channel.PollKeepsGenuine | main.py:68-80 | polling a link with only genuine receiver-bound packets hands out and keeps only genuine ones |
| Channel.NetworkChannel.constructor | main.py:29-34 | a new link holds nothing in transit |
| Channel.NetworkChannel.Transmit | main.py:36-54 | `in_transit` becomes the old list followed by what `Scheduled` says |
| Channel.NetworkChannel.DeliverPackets | main.py:68-80 | returns the packets of the due entries for that party in order, and keeps the other entries in order |
| StopAndWait.AlternatingPackets | main.py:90 | packet i carries bit `i % 2` and payload i; neighbouring packets carry different bits |
| StopAndWait.ReliableSender.constructor | main.py:83-90 | base 0, no timer, the alternating packets |
| StopAndWait.ReliableSender.BeginTransmission | main.py:96-99 | sends the base packet and starts the timer exactly when packets remain and no timer runs; otherwise nothing changes |
| StopAndWait.ReliableSender.TransmitPacket | main.py:101-104 | sends the packet and sets the timer to now |
| StopAndWait.ReliableSender.ProcessAcknowledgment | main.py:106-118 | an IndexError happens exactly for an intact acknowledgment once base equals total; an intact ack with the flag and the expected bit advances base by one and sends the next packet if any; anything else changes nothing |
| StopAndWait.ReliableSender.ProcessAcknowledgmentChecked | main.py:106-118 | the same with the bounds check: once every packet is acknowledged, nothing changes |
| StopAndWait.ReliableSender.CheckForTimeout | main.py:120-123 | once the running timer is older than the timeout, the base packet is resent and the timer restarted; otherwise nothing changes |
| StopAndWait.DuplicateFinalAckFails | main.py:111 | a one-packet run (send, timeout resend, both copies acknowledged, both acks handed over in one poll) ends in the IndexError |
| StopAndWait.Receive | main.py:132-144 | the bit stays 0 or 1; the data grows by at most one; it grows, with the packet's payload, exactly for an intact packet with the expected bit, which is also exactly when the bit flips; otherwise nothing changes |
| StopAndWait.AckSequence | main.py:133-146 | an intact packet is acknowledged with its own bit; a damaged one with the complement of the expected bit |
| StopAndWait.ImmediateDuplicateIgnored | main.py:140-143 | the same packet delivered twice in a row is accepted at most once |
| StopAndWait.ReceiveAll | main.py:140-143 | over any run the expected bit stays 0 or 1, and the data only grows at its end, by at most one payload per delivery |
| StopAndWait.ReorderedCopyDeliveredTwice | main.py:140-143 | a delayed copy of packet 0 arriving after packet 1 is accepted again as if it were packet 2 |
| StopAndWait.ReliableReceiver.constructor | main.py:126-129 | expects bit 0, nothing received |
| StopAndWait.ReliableReceiver.ReceivePacket | main.py:132-146 | the new state is `Receive` of the old one and exactly one acknowledgment `AckSequence` is transmitted |
| GoBackN.WindowedSender.constructor | main.py:149-157 | base and next 0, no timer, the numbered packets |
| GoBackN.WindowedSender.BeginTransmission | main.py:163-172 | sends packets `next` up to `min(base+W, total)` in order, leaves `next` there (so `base <= next <= base+W`), and starts the timer only if none runs and something is outstanding |
| GoBackN.WindowedSender.ProcessAcknowledgment | main.py:174-191 | base never decreases; an intact ack in `[base, total)` sets base to its sequence plus one, stops the timer if that closes the window and restarts it otherwise, and refills the window; anything else changes nothing |
| GoBackN.WindowedSender.CheckForTimeout | main.py:193-197 | on expiry, next goes back to base and the whole window is resent; the timer is left as it was |
| GoBackN.WindowedSender.CheckForTimeoutRestarting | main.py:193-197 | the same with the timer restarted on a resend |
| GoBackN.RepeatedTimeoutResends | main.py:193-197 | as written, two checks at the same time after one expiry both resend: three copies in transit |
| GoBackN.RestartedTimeoutWaits | main.py:193-197 | with the restart, the second check sends nothing: two copies in transit |
| GoBackN.Receive | main.py:206-217 | `len(received_data) == expected` is kept; only an intact packet with the expected sequence number is accepted, appended and advances it; anything else changes nothing |
| GoBackN.AckSequence | main.py:206-220 | the acknowledgment is always the number of payloads accepted minus one, damaged packet or not |
| GoBackN.ReceiveAll | main.py:214-217 | one payload per accepted sequence number, over any run |
| GoBackN.ReceiveAllInOrder | main.py:214-217 | for any run of genuine packets, the received data is exactly the intended data up to the expected sequence number |
| GoBackN.NoDuplicateDelivery | main.py:214-217 | from a fresh receiver, genuine packets never deliver a payload twice |
| GoBackN.CorruptedPacketDelivered | main.py:60-66 | as written, a corrupted first packet passes the checksum and its wrong payload is delivered |
| GoBackN.WindowedReceiver.constructor | main.py:200-203 | expects 0, nothing received |
| GoBackN.WindowedReceiver.ReceivePacket | main.py:206-220 | the new state is `Receive` of the old one and exactly one acknowledgment `AckSequence` is transmitted |
| SelectiveRepeat.SlideBase | main.py:258-259 | the new base is the first index at or after the old base that is not acknowledged (or total), and every index passed is acknowledged |
| SelectiveRepeat.RestartedIdle | main.py:240-243 | restarting only the timers of unacknowledged packets keeps every acknowledged packet without a timer |
| SelectiveRepeat.SelectiveSender.constructor | main.py:223-231 | base 0, nothing acknowledged, no timers, the numbered packets |
| SelectiveRepeat.SelectiveSender.BeginTransmission | main.py:237-243 | sends, in order, every window packet that is neither acknowledged nor timed and starts exactly those timers; keeps every index below base acknowledged and no acknowledged packet timed |
| SelectiveRepeat.SelectiveSender.ProcessAcknowledgment | main.py:245-264 | base never decreases; an intact, in-range, new ack marks the packet, stops its timer, slides base to `SlideBase` and refills the window; a damaged, out-of-range or repeated ack changes nothing |
| SelectiveRepeat.SelectiveSender.CheckForTimeout | main.py:266-272 | resends, in order, exactly the window packets that are unacknowledged with an expired timer and restarts only their timers |
| SelectiveRepeat.Drain | main.py:300-304 | the base only grows and ends unbuffered; the old data is kept and one payload is appended per base passed |
| SelectiveRepeat.DrainKeys | main.py:300-304 | the drain removes exactly the buffered sequence numbers it passes and keeps the other buffered payloads unchanged |
| SelectiveRepeat.DrainInOrder | main.py:300-304 | the payloads appended are the buffered payloads of the sequence numbers passed, in increasing order |
| SelectiveRepeat.SelectiveReceiver.DrainBuffer | main.py:300-304 | the draining loop leaves the receiver in the state `Drain` gives |
| SelectiveRepeat.Receive | main.py:284-304 | keeps `len(received_data) == base`, base not buffered and every key in `(base, base+W)`; data only grows at its end; a damaged packet or one outside the window changes nothing; an intact packet strictly inside the window is buffered under its number and nothing else changes; an intact packet for the base is handed on at position base and the base advances |
| SelectiveRepeat.AckSequence | main.py:291-297 | an acknowledgment with the packet's own number is sent exactly for an intact packet in `[base-W, base+W)` |
| SelectiveRepeat.DrainFaithful | main.py:300-304 | draining a buffer of intended payloads extends the intended prefix |
| SelectiveRepeat.ReceiveFaithful | main.py:284-304 | one delivery of a genuine packet keeps the data an intended prefix and the buffer intended |
| SelectiveRepeat.ReceiveAll | main.py:284-304 | the receiver invariant holds over any run |
| SelectiveRepeat.ReceiveAllInOrder | main.py:284-304 | for any run of genuine packets in any order, the data is exactly the intended data below base |
| SelectiveRepeat.NoDuplicateDelivery | main.py:284-304 | from a fresh receiver, genuine packets never deliver a payload twice |
| SelectiveRepeat.OutOfOrderReleased | main.py:291-304 | packet 1 arriving before packet 0 is buffered, and packet 0 then releases both in order |
| SelectiveRepeat.SelectiveReceiver.constructor | main.py:275-280 | base 0, empty buffer, nothing received |
| SelectiveRepeat.SelectiveReceiver.ReceivePacket | main.py:284-304 | the new state is `Receive` of the old one and the acknowledgment `AckSequence` names, if any, is transmitted |

## Left out

- The loss, damage and delay probabilities (floats) and `random`. Each draw's outcome is a `Fate` parameter. The index and hold-time draws are reduced modulo their ranges, so every outcome is reachable but no distribution is modelled.
- `time.time()` and `time.sleep`: an integer logical clock `now` is passed in. Timers are `Option<int>`, so the truthiness test `if self.timer` is modelled as "a timer is set". Python would also treat a timer set at time 0.0 as unset, which wall-clock time never produces.
- `log`, `DEBUG` and `__str__`: console output only.
- The `run_protocol` driver loop, its time budget, its float duration and success rate, and its NameError for an unknown protocol name. `execute_test_cases` and the main block. All of this is driver code around the protocol classes, which are modelled call by call.
- `ReliableSender.current_sequence`: set in the constructor and never read.
- Negative packet counts and window sizes: they are `nat`. With a negative count, Python's `[False] * n` is empty while `range` and `min` still run.
- A non-positive `max_delay`, which makes `randint(1, max_delay)` raise: the bound is typed `Delay`, at least 1.
- `chr(ord(c) + 1)` above code point 0x10FFFF, which raises ValueError: `Transmit` requires `Bumpable` packets. Every packet the simulator builds is ASCII.
- StopAndWait.ReliableSender.TransmitPacket: requires `base < total`, which holds at both call sites (`begin_transmission` checks it, and a running timer implies it). The source itself does not check it.
- GoBackN.WindowedSender.BeginTransmission: requires `next <= min(base + W, total)`, which the sender's invariant keeps at every call. The source's loop would simply not run otherwise.
- Channel.ReadyEntries: its own contract gives only a length bound. Membership, order and the split are stated by `PollMembership`, `PollSplits`, `ReadyDistributes` and `RemainingDistributes`.

## Findings

| source | as written | input that shows it | evidently intended | confidence | as-written member | corrected member |
|---|---|---|---|---|---|---|
| main.py:111 | `process_acknowledgment` reads `packets[base_sequence]` before any bounds check | one packet, timeout 2: sent at 0, resent at 3, both copies acknowledged and handed over in one poll; the second ack reads `packets[1]` and raises IndexError | ignore acknowledgments once every packet is acknowledged | high, not executed | StopAndWait.ReliableSender.ProcessAcknowledgment | StopAndWait.ReliableSender.ProcessAcknowledgmentChecked |
| main.py:193-197 | `check_for_timeout` resends the window but never restarts the timer (main.py:170 only starts a timer when none runs) | window 1, timeout 2: sent at 0, checks at 3 and again at 3 resend twice | restart the timer on a resend, as the other two senders do | medium, not executed | GoBackN.WindowedSender.CheckForTimeout | GoBackN.WindowedSender.CheckForTimeoutRestarting |
| main.py:60-66 | `modify_packet` rebuilds the packet through the constructor, which recomputes the checksum, so a corrupted packet is never reported damaged | packet 0 `DATA0-` with position 0 raised: `EATA0-` passes the check and is delivered | carry the original checksum so the corruption is detected | high, not executed | Packets.CorruptionUndetected | Packets.ModifyPacketKeepingChecksum |
