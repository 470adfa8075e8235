# MotePing protocol engine in Dafny

MotePing pings a TinyOS mote. The host sends a PING and the mote sends back one
or more PONGs. This project models the two parts of the tool that carry its
protocol logic:

- `packets.dfy` (module `Packets`) is the wire codec for PING and PONG packets.
  Each packet is a fixed list of nesC network-type fields followed by a
  variable-length padding list. `nx_uint8` is one byte and `nx_uint32` is four
  bytes, big-endian. `EncodePing`/`DecodePing` and `EncodePong`/`DecodePong` are
  pure functions over `seq<Byte>`. They are proved to round-trip in both
  directions: decoding an encoding gives the packet back, and encoding what a
  buffer decodes to gives the buffer back. Each field is proved to sit at its
  declared offset. Decoding fails exactly when the buffer is shorter than the
  fixed part, which is 15 bytes for PING and 28 for PONG.
- `moteping.dfy` (module `MotePing`) holds the `PingSender` class. Its fields are
  `pingnum`, `pingStart`, `lastPongs`, `replies`, the `pingdone` flag and the
  inbound queue `incoming`.
  - `Step` is one iteration of the sender's run loop. If the interval has
    elapsed, the sender is not done and the connection is up, it either sends a
    PING (when the count limit allows it) or marks the sender done. If the
    interval has elapsed and the sender is not done but the connection is down,
    it does nothing. Otherwise it takes one message from the queue and hands it
    to `Receive`.
  - `Receive` decodes a PONG. For a PONG of the current PING, it reports the
    skipped indices as LOST, records the new index for the source, and computes
    device delay and round-trip time. It counts the reply when the source is the
    destination or the destination is the broadcast address.
  - `Valid()` is the class invariant. With a count limit, `pingnum` never
    exceeds the count. Once `pingdone` is set, no further PING is ever sent.
  - The main loop's exit rule and exit status are pure functions.

Time is an integer number of milliseconds since the epoch, passed in by the
caller (`now`). The source reads the wall clock in float seconds since the
epoch and multiplies by 1000. With milliseconds the factor disappears:
`rtt = (now - pingStart) - delay`. `pingStart` starts at 0, so the first due
check succeeds for any real clock reading, and the first iteration sends if the
connection is up and the count allows it.

Behaviour of the code that is easy to misread:

- The engine never fills in a PING's padding (moteping/moteping.py:117-122).
  Every PING it sends is therefore the 15-byte fixed part, whatever the
  configured ping size is (`SendPing` ensures `|payload| == MinPingSize()`).
- Visibility depends only on the source and the destination
  (moteping/moteping.py:186). A stale PONG from the destination is still shown
  and counted. Its delay and round-trip time are 0.
- When the interval has elapsed and the sender is not done but the connection
  is down, the iteration only sleeps. It does not service the queue
  (`NotConnected`). A sender that is done always services the queue.
- The main loop stops on reaching `count` replies only when a timeout is set
  (moteping/moteping.py:252-254). The contract of `StopAfterPoll` states this.

`pingdone` is a local variable of `run` in the source. The model keeps it as a
field because one call to `Step` is one iteration of that loop. The dispatcher
puts messages on the queue; `Deliver` models that.

`UnicastFirstPing`, `UnicastCycle`, `UnicastGap`, `CountReached`,
`UnicastStranger` and `StepAtLastPingnum` are client methods. They drive the
class only through its contracts and check concrete cases (`ReceiveRun`, in the
table below, does the same for any run):

- The first due, connected step of a new sender sends PING 1 as 15 bytes.
- PONG indices 1, 2, 4, 5 report exactly one LOST, for 3.
- A PONG reported 250 ms after the PING, with rx 1000 and tx 1020, gives delay
  20 and round-trip 230.
- With a count of one, the next due step marks the sender done and later steps
  only serve the queue.
- A PONG from another node, or a payload too short to decode, changes no
  counter.
- With the ping number at 2^32 - 1, a due step on a down connection and a step
  that only serves the queue can still be taken.

## Model

| member | source | states |
|---|---|---|
| Packets.BeValueOfBytes | moteping/packets.py:21-23 | reading back the n big-endian bytes written for a number below 256^n gives that number |
| Packets.BeBytesOfValue | moteping/packets.py:21-23 | writing out the value of a big-endian byte string gives the same bytes back |
| Packets.U32RoundTrip | moteping/packets.py:21-23 | an nx_uint32 written at an offset reads back as the same value |
| Packets.U32BytesAt | moteping/packets.py:21-23 | the four bytes at any offset are the big-endian encoding of the nx_uint32 read there |
| Packets.EncodePing | moteping/packets.py:19-27 | an encoded PING is 15 bytes plus its padding |
| Packets.DecodePing | moteping/packets.py:19-27 | decoding fails exactly when the buffer is shorter than 15 bytes; otherwise every byte after the fixed part becomes the padding |
| Packets.PingLayout | moteping/packets.py:10-27 | header at 0, pingnum at 1-4, pongs at 5-8, delay_ms at 9-12 (each 4 bytes big-endian), ping_size at 13, pong_size at 14, padding from 15 |
| Packets.PingRoundTrip | moteping/packets.py:19-27 | decoding the encoding of any PING gives it back |
| Packets.PingDecodeEncode | moteping/packets.py:19-27 | any buffer that decodes as a PING is the encoding of what it decodes to |
| Packets.NewPingEncoding | moteping/packets.py:9-36 | PingPacket() has header 0x00 and every field 0, so it encodes to 15 zero bytes |
| Packets.EncodePong | moteping/packets.py:54-66 | an encoded PONG is 28 bytes plus its padding |
| Packets.DecodePong | moteping/packets.py:54-66 | decoding fails exactly when the buffer is shorter than 28 bytes; otherwise every byte after the fixed part becomes the padding |
| Packets.PongLayout | moteping/packets.py:41-66 | each PONG field sits at its declared offset: header 0, pingnum 1, pongs 5, pong 9, ping_size 13, pong_size 14, pong_size_max 15, rx_time_ms 16, tx_time_ms 20, uptime_s 24, padding 28 |
| Packets.PongRoundTrip | moteping/packets.py:54-66 | decoding the encoding of any PONG gives it back |
| Packets.PongDecodeEncode | moteping/packets.py:54-66 | any buffer that decodes as a PONG is the encoding of what it decodes to |
| Packets.NewPongEncoding | moteping/packets.py:68-78 | PongPacket() has every named field 0 and encodes to its header followed by 27 zero bytes; the header is not set by the constructor |
| MotePing.MinPingSize | moteping/moteping.py:76 | the length of a PingPacket() encoding, the ping size floor, is 15 |
| MotePing.MinPongSize | moteping/moteping.py:81 | the length of a PongPacket() encoding, the pong size floor, is 28 |
| MotePing.Floored | moteping/moteping.py:75-83 | a configured size is raised to the minimum: the result is at least both, and is one of them |
| MotePing.PingSender.constructor | moteping/moteping.py:63-99 | sizes are floored to 15 and 28; replies, pingnum and pingStart start at 0; the last-pong map and queue are empty; not done |
| MotePing.PingSender.Deliver | moteping/moteping.py:90-92 | the dispatcher appends a message to the end of the inbound queue |
| MotePing.PingSender.SendPing | moteping/moteping.py:112-122 | pingnum rises by exactly 1, the cycle starts now, the last-pong map is emptied, the payload is the encoded PING with the configured fields and no padding, 15 bytes long |
| MotePing.LostRangeMembers | moteping/moteping.py:167-171 | the LOST indices are exactly those strictly between the last index and the new one, strictly increasing, and none when the new index is at most last + 1 |
| MotePing.LostIndices | moteping/moteping.py:167-171 | the LOST loop yields last + 1, ..., pong - 1 in order |
| MotePing.LostOverRunSound | moteping/moteping.py:163-173 | in a run of increasing indices from one source, every index reported lost lies between the recorded index and the latest one and never arrived |
| MotePing.LostOverRunComplete | moteping/moteping.py:163-173 | in a run of increasing indices from one source, every index between the recorded one and the latest that never arrived is reported lost |
| MotePing.LostOverRunExact | moteping/moteping.py:163-173 | for indices from one source arriving in increasing order, exactly the indices below the latest that never arrived are reported lost, each once, in increasing order |
| MotePing.LostOverRunSnoc | moteping/moteping.py:163-173 | one more PONG extends a run's LOST reports by the indices between the run's latest index (or the recorded one, for an empty run) and the new one |
| MotePing.ReceiveRun | moteping/moteping.py:155-178 | receiving a run of current PONGs from a source new in the cycle, in order, reports exactly LostOverRun of their indices, and leaves the source's entry at the last index |
| MotePing.LostOverRunExample | moteping/moteping.py:163-173 | indices 1, 2, 4, 5 in a fresh cycle report one LOST, for 3 |
| MotePing.LostOverRunRewinds | moteping/moteping.py:163-173 | a lower index overwrites the recorded one, so indices 1, 5, 2, 4 report 2, 3, 4 and then 3 again |
| MotePing.PingSender.Receive | moteping/moteping.py:155-193 | an undecodable payload changes nothing; a PONG of the current ping reports LOST last+1..pong-1, sets the source's entry to its index leaving other entries, and gives delay = tx - rx and rtt = elapsed - delay; a stale PONG changes no entry and gives 0 and 0; replies rises by 1 exactly when the source is the destination or the destination is broadcast |
| MotePing.PingSender.Step | moteping/moteping.py:106-149 | sends only when due, connected, not done and count is 0 or pingnum < count; a failed send keeps the new cycle; at the count limit it sets pingdone and afterwards only serves the queue; due, not done and not connected does nothing; otherwise takes the head of the queue and receives it; keeps the invariant that pingnum never exceeds a positive count; replies never decreases |
| MotePing.ExitStatus | moteping/moteping.py:260-263 | the process exits with 0 exactly when some reply was counted, otherwise 1 |
| MotePing.StopAfterPoll | moteping/moteping.py:249-255 | without a timeout, the main loop stops exactly on an interrupt or a one-shot reply, and reaching count replies does not stop it; with a timeout set, it stops exactly on an interrupt, a one-shot reply, the timeout elapsing, or count > 0 replies having arrived |

## Left out

- Threads, the `_alive` event, `join`, the blocking queue with its 0.1 s timeout, and `time.sleep`: one loop iteration is one `Step`. An empty queue is `QueueEmpty`.
- Signal handling and the 1-second polling of `main`: only the exit rule and exit status are modelled.
- Wall clocks (`time.time()`, `datetime.utcnow`): time is an integer millisecond input. Float seconds and their rounding are not modelled.
- `_ts_now`, every output string, the hex display of padding, `PongPacket.__str__`, logging setup and `moteping/util.py`: presentation and I/O. A report value records what would be printed: the LOST indices, delay, round-trip time and visibility.
- The transport (`moteconnection`: `Connection`, `MessageDispatcher`, `Message`, `send`): `connected()` and send failure are inputs of `Step`. Dispatcher filtering by type and address happens outside the model. `AM_BROADCAST_ADDR` comes from that library, which is not part of this model; the model uses the TinyOS value 0xFFFF.
- The `serdepa` library: only the declared field layout is modelled. What serdepa does with out-of-range field values is unknown.
- MotePing.PingSender.constructor: requires configured ping and pong sizes below 256 and the pongs/delay values in the nx_uint32 range. The source does not check these; what serdepa does with such values is not modelled.
- MotePing.PingSender.Step: only when the step sends a PING (due, not done, connected, and the count allows it) does it require that the next ping number still fits in an nx_uint32 (below 2^32). Sending past 2^32 - 1 pings is not modelled; steps that mark the sender done, find the connection down or serve the queue carry no such requirement.
- MotePing.PingSender.SendPing: requires that the next ping number fits in an nx_uint32, for the same reason.
- `setup_logging`, argument parsing and `setup.py`: configuration and packaging.
