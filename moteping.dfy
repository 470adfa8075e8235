/**
 * The MotePing protocol engine: the PingSender that issues a PING every
 * interval, matches incoming PONGs to the outstanding PING, reports the
 * PONG indices it never saw as lost, computes device delay and round-trip
 * time, and counts the replies that are visible to the user; and the exit
 * rule of the polling loop that drives it.
 *
 * Time is an integer number of milliseconds since the epoch, passed in by the
 * caller.
 */
module MotePing {
  import opened Packets

  /** Active-message type of a PING. */
  const AmIdTosPingPongPing := 0xFA
  /** Active-message type of a PONG. */
  const AmIdTosPingPongPong := 0xFB
  /** The TinyOS broadcast address. */
  const AmBroadcastAddr := 0xFFFF

  /** A received message as the dispatcher hands it over. */
  datatype Message = Message(source: int, destination: int, amType: int, payload: seq<Byte>)

  /** What processing one received message reports. */
  datatype Report =
    | Malformed(error: DecodeError)
    | Replied(
        source: int,
        pong: Pong,
        lost: seq<int>,   // the PONG indices reported LOST before this one, in order
        delayMs: int,     // device delay
        rttMs: int,       // round-trip time less the device delay
        visible: bool)    // shown to the user and counted; otherwise debug output only

  /** What one iteration of the sender's loop did. */
  datatype StepEvent =
    | PingSent(destination: int, amType: int, payload: seq<Byte>, sendFailed: bool)
    | AllPingsSent
    | NotConnected
    | QueueEmpty
    | Received(report: Report)

  // ---------------------------------------------------------------------
  // Configured sizes
  // ---------------------------------------------------------------------

  /** The length of a PING with no padding: the floor of the configured PING size. */
  function MinPingSize(): (r: nat)
    ensures r == 15
  {
    |EncodePing(NewPing())|
  }

  /** The length of a PONG with no padding: the floor of the configured PONG size.
      The header of a fresh PONG does not affect its length. */
  function MinPongSize(): (r: nat)
    ensures r == 28
  {
    |EncodePong(NewPong(0))|
  }

  /** A configured size raised to the minimum when it is below it. */
  function Floored(size: int, minimum: int): (r: int)
    ensures r >= size && r >= minimum
    ensures r == size || r == minimum
  {
    if size < minimum then minimum else size
  }

  // ---------------------------------------------------------------------
  // Lost PONG indices
  // ---------------------------------------------------------------------

  /** The last PONG index recorded for a source in this cycle; 0 when none is. */
  function LastPong(lastPongs: map<int, U32>, source: int): int
  {
    if source in lastPongs then lastPongs[source] else 0
  }

  /** The indices strictly between the last one seen and the new one, ascending. */
  function LostRange(last: int, pong: int): seq<int>
  {
    seq(if pong > last + 1 then pong - last - 1 else 0, k => last + 1 + k)
  }

  lemma LostRangeMembers(last: int, pong: int)
    ensures forall x :: x in LostRange(last, pong) <==> last < x < pong
    ensures forall i, j :: 0 <= i < j < |LostRange(last, pong)| ==>
      LostRange(last, pong)[i] < LostRange(last, pong)[j]
    ensures LostRange(last, pong) == [] <==> pong <= last + 1
  {
    var r := LostRange(last, pong);
    forall x | last < x < pong ensures x in r {
      assert r[x - last - 1] == x;
    }
  }

  /** The LOST loop of the receive path: every index after last and before pong. */
  method LostIndices(last: int, pong: int) returns (lost: seq<int>)
    ensures lost == LostRange(last, pong)
  {
    lost := [];
    if pong > last + 1 {
      for i := last + 1 to pong
        invariant |lost| == i - last - 1
        invariant forall k :: 0 <= k < |lost| ==> lost[k] == last + 1 + k
      {
        lost := lost + [i];
      }
    }
  }

  /** The LOST reports of a run of PONGs from one source within one cycle,
      starting from the recorded index last. */
  function LostOverRun(last: int, pongs: seq<int>): seq<int>
    decreases |pongs|
  {
    if pongs == [] then [] else LostRange(last, pongs[0]) + LostOverRun(pongs[0], pongs[1..])
  }

  predicate StrictlyIncreasing(s: seq<int>)
  {
    forall i, j :: 0 <= i < j < |s| ==> s[i] < s[j]
  }

  /** Every index reported lost lies after last and before the latest index,
      and never arrived. */
  lemma {:induction false} LostOverRunSound(last: int, pongs: seq<int>, x: int)
    requires pongs != [] && last < pongs[0] && StrictlyIncreasing(pongs)
    requires x in LostOverRun(last, pongs)
    ensures last < x < pongs[|pongs| - 1] && x !in pongs
    decreases |pongs|
  {
    var rest := pongs[1..];
    LostRangeMembers(last, pongs[0]);
    assert LostOverRun(last, pongs) == LostRange(last, pongs[0]) + LostOverRun(pongs[0], rest);
    if x in LostRange(last, pongs[0]) {
      assert pongs[0] <= pongs[|pongs| - 1];
      forall i | 0 <= i < |pongs| ensures pongs[i] != x {
        if i > 0 { assert pongs[0] < pongs[i]; }
      }
    } else {
      LostOverRunSound(pongs[0], rest, x);
      assert pongs == [pongs[0]] + rest;
    }
  }

  /** Every index after last and before the latest one that never arrived is
      reported lost. */
  lemma {:induction false} LostOverRunComplete(last: int, pongs: seq<int>, x: int)
    requires pongs != [] && StrictlyIncreasing(pongs)
    requires last < x < pongs[|pongs| - 1] && x !in pongs
    ensures x in LostOverRun(last, pongs)
    decreases |pongs|
  {
    var rest := pongs[1..];
    LostRangeMembers(last, pongs[0]);
    assert LostOverRun(last, pongs) == LostRange(last, pongs[0]) + LostOverRun(pongs[0], rest);
    if x > pongs[0] {
      assert x !in rest;
      LostOverRunComplete(pongs[0], rest, x);
    }
  }

  /** For indices that arrive in increasing order, exactly the indices that never
      arrived are reported lost, each once and in increasing order. */
  lemma {:induction false} LostOverRunExact(last: int, pongs: seq<int>)
    requires pongs != [] && last < pongs[0] && StrictlyIncreasing(pongs)
    ensures forall x :: x in LostOverRun(last, pongs) <==> last < x < pongs[|pongs| - 1] && x !in pongs
    ensures StrictlyIncreasing(LostOverRun(last, pongs))
    decreases |pongs|
  {
    forall x | x in LostOverRun(last, pongs)
      ensures last < x < pongs[|pongs| - 1] && x !in pongs
    {
      LostOverRunSound(last, pongs, x);
    }
    forall x | last < x < pongs[|pongs| - 1] && x !in pongs
      ensures x in LostOverRun(last, pongs)
    {
      LostOverRunComplete(last, pongs, x);
    }
    var rest := pongs[1..];
    var a := LostRange(last, pongs[0]);
    var b := LostOverRun(pongs[0], rest);
    assert LostOverRun(last, pongs) == a + b;
    LostRangeMembers(last, pongs[0]);
    if rest != [] {
      LostOverRunExact(pongs[0], rest);
      forall i, j | 0 <= i < j < |a + b| ensures (a + b)[i] < (a + b)[j] {
        if i < |a| && j >= |a| {
          assert (a + b)[i] in a && (a + b)[j] in b;
        }
      }
    } else {
      assert b == [];
      assert a + b == a;
    }
  }

  /** Indices 1, 2, 4, 5 from one source in a fresh cycle: one LOST, for 3. */
  lemma LostOverRunExample()
    ensures LostOverRun(0, [1, 2, 4, 5]) == [3]
  {
    assert LostRange(0, 1) == [] && LostRange(1, 2) == [];
    assert LostRange(2, 4) == [3] && LostRange(4, 5) == [];
    assert [1, 2, 4, 5][1..] == [2, 4, 5];
    assert [2, 4, 5][1..] == [4, 5];
    assert [4, 5][1..] == [5];
  }

  /** The recorded index is overwritten even by a lower one, so indices 1, 5, 2, 4
      report 2, 3, 4 lost after 5 and then 3 lost once more after 4. */
  lemma LostOverRunRewinds()
    ensures LostOverRun(0, [1, 5, 2, 4]) == [2, 3, 4, 3]
  {
    assert LostRange(0, 1) == [] && LostRange(1, 5) == [2, 3, 4];
    assert LostRange(5, 2) == [] && LostRange(2, 4) == [3];
    assert [1, 5, 2, 4][1..] == [5, 2, 4];
    assert [5, 2, 4][1..] == [2, 4];
    assert [2, 4][1..] == [4];
  }

  /** One more PONG extends the LOST reports of a run by the indices between the
      run's latest index (or last, for an empty run) and the new one. */
  lemma {:induction false} LostOverRunSnoc(last: int, pongs: seq<int>, x: int)
    ensures LostOverRun(last, pongs + [x])
      == LostOverRun(last, pongs) + LostRange(if pongs == [] then last else pongs[|pongs| - 1], x)
    decreases |pongs|
  {
    if pongs == [] {
      assert [x][1..] == [];
    } else {
      assert (pongs + [x])[0] == pongs[0];
      assert (pongs + [x])[1..] == pongs[1..] + [x];
      LostOverRunSnoc(pongs[0], pongs[1..], x);
    }
  }

  /** The pong indices of a run of PONGs. */
  function PongIndices(run: seq<Pong>): seq<int>
  {
    seq(|run|, k requires 0 <= k < |run| => run[k].pong)
  }

  // ---------------------------------------------------------------------
  // The sender
  // ---------------------------------------------------------------------

  class PingSender {
    /** PONGs counted as visible replies. */
    var replies: nat

    const address: int
    const destination: int
    /** Number of PINGs to send; 0 for no limit. */
    const count: int
    const intervalMs: int
    /** PONGs requested per PING, and the delay between them. */
    const pongs: U32
    const delayMs: U32
    const pingSize: Byte
    const pongSize: Byte

    var pingnum: nat
    var pingStart: int
    var lastPongs: map<int, U32>
    /** Set once the count limit stops further PINGs. */
    var pingdone: bool
    /** The inbound queue the dispatcher fills with PONG messages. */
    var incoming: seq<Message>

    ghost predicate Valid()
      reads this
    {
      && (count > 0 ==> pingnum <= count)
      && (pingdone ==> count != 0 && pingnum >= count)
    }

    /** The PING the sender sends with the current PING number. The padding
        is never filled in, whatever pingSize says. */
    function CurrentPing(): Ping
      reads this
      requires pingnum < 0x1_0000_0000
    {
      Ping(TosPingPongPing, pingnum, pongs, delayMs, pingSize, pongSize, [])
    }

    constructor (address: int, destination: int, count: int, intervalMs: int,
                 pongs: U32, delayMs: U32, pingSizeArg: int, pongSizeArg: int)
      requires pingSizeArg < 0x100 && pongSizeArg < 0x100
      ensures Valid()
      ensures this.address == address && this.destination == destination
      ensures this.count == count && this.intervalMs == intervalMs
      ensures this.pongs == pongs && this.delayMs == delayMs
      ensures pingSize == Floored(pingSizeArg, MinPingSize())
      ensures pongSize == Floored(pongSizeArg, MinPongSize())
      ensures replies == 0 && pingnum == 0 && pingStart == 0 && lastPongs == map[]
      ensures !pingdone && incoming == []
    {
      this.replies := 0;
      this.address := address;
      this.destination := destination;
      this.count := count;
      this.intervalMs := intervalMs;
      this.pongs := pongs;
      this.delayMs := delayMs;
      var ps := pingSizeArg;
      if ps < MinPingSize() {
        ps := MinPingSize();
      }
      this.pingSize := ps;
      var qs := pongSizeArg;
      if qs < MinPongSize() {
        qs := MinPongSize();
      }
      this.pongSize := qs;
      this.pingnum := 0;
      this.pingStart := 0;
      this.lastPongs := map[];
      this.pingdone := false;
      this.incoming := [];
    }

    /** The dispatcher puts a PONG message on the inbound queue. */
    method Deliver(m: Message)
      modifies this`incoming
      ensures incoming == old(incoming) + [m]
    {
      incoming := incoming + [m];
    }

    /** Starts a new cycle and builds its PING. */
    method SendPing(now: int) returns (payload: seq<Byte>)
      requires Valid()
      requires count == 0 || pingnum < count
      requires pingnum + 1 < 0x1_0000_0000
      modifies this`pingnum, this`pingStart, this`lastPongs
      ensures Valid()
      ensures pingnum == old(pingnum) + 1 && pingStart == now && lastPongs == map[]
      ensures payload == EncodePing(CurrentPing())
      ensures |payload| == MinPingSize()
    {
      pingnum := pingnum + 1;
      pingStart := now;
      lastPongs := map[];
      payload := EncodePing(CurrentPing());
    }

    /** The new state and report after receiving m at time now. */
    twostate predicate ReceiveEffect(m: Message, now: int, r: Report)
      reads this
    {
      match DecodePong(m.payload)
      case Err(e) =>
        && r == Malformed(e)
        && lastPongs == old(lastPongs) && replies == old(replies)
      case Ok(p) =>
        var current := p.pingnum == old(pingnum);
        var last := LastPong(old(lastPongs), m.source);
        && r.Replied? && r.source == m.source && r.pong == p
        && r.lost == (if current then LostRange(last, p.pong) else [])
        && r.delayMs == (if current then p.txTimeMs - p.rxTimeMs else 0)
        && r.rttMs == (if current then (now - old(pingStart)) - r.delayMs else 0)
        && lastPongs == (if current then old(lastPongs)[m.source := p.pong] else old(lastPongs))
        && r.visible == (m.source == destination || destination == AmBroadcastAddr)
        && replies == old(replies) + (if r.visible then 1 else 0)
    }

    /** Processes one PONG message taken from the queue. */
    method Receive(m: Message, now: int) returns (r: Report)
      modifies this`lastPongs, this`replies
      ensures ReceiveEffect(m, now, r)
    {
      match DecodePong(m.payload)
      case Err(e) =>
        r := Malformed(e);
      case Ok(p) =>
        var lost: seq<int> := [];
        var delay: int := 0;
        var rtt: int := 0;
        if p.pingnum == pingnum {
          if m.source !in lastPongs {
            lastPongs := lastPongs[m.source := 0];
          }
          var last: int := lastPongs[m.source];
          if p.pong > last + 1 {
            lost := LostIndices(last, p.pong);
          }
          lastPongs := lastPongs[m.source := p.pong];
          delay := p.txTimeMs - p.rxTimeMs;
          rtt := (now - pingStart) - delay;
        }
        var visible := true;
        if m.source != destination && destination != AmBroadcastAddr {
          visible := false;
        } else {
          replies := replies + 1;
        }
        r := Replied(m.source, p, lost, delay, rtt, visible);
    }

    /** One iteration of the sender's loop. connected is what the connection
        reports; sendFailed says whether handing the PING to it failed. */
    method Step(now: int, connected: bool, sendFailed: bool) returns (ev: StepEvent)
      requires Valid()
      requires !pingdone && now - pingStart >= intervalMs && connected && (count == 0 || pingnum < count)
               ==> pingnum + 1 < 0x1_0000_0000
      modifies this`pingnum, this`pingStart, this`lastPongs, this`replies, this`pingdone, this`incoming
      ensures Valid()
      ensures replies >= old(replies)
      ensures old(pingdone) ==> pingdone && pingnum == old(pingnum) && (ev.QueueEmpty? || ev.Received?)
      ensures var due := !old(pingdone) && now - old(pingStart) >= intervalMs;
        if due && connected && (count == 0 || old(pingnum) < count) then
          && pingnum == old(pingnum) + 1 && pingStart == now && lastPongs == map[]
          && ev == PingSent(destination, AmIdTosPingPongPing, EncodePing(CurrentPing()), sendFailed)
          && replies == old(replies) && pingdone == old(pingdone) && incoming == old(incoming)
        else if due && connected then
          && ev == AllPingsSent && pingdone
          && pingnum == old(pingnum) && pingStart == old(pingStart) && lastPongs == old(lastPongs)
          && replies == old(replies) && incoming == old(incoming)
        else if due || old(incoming) == [] then
          && ev == (if due then NotConnected else QueueEmpty)
          && pingnum == old(pingnum) && pingStart == old(pingStart) && lastPongs == old(lastPongs)
          && replies == old(replies) && pingdone == old(pingdone) && incoming == old(incoming)
        else
          && ev.Received? && ReceiveEffect(old(incoming)[0], now, ev.report)
          && incoming == old(incoming)[1..]
          && pingnum == old(pingnum) && pingStart == old(pingStart) && pingdone == old(pingdone)
    {
      if !pingdone && now - pingStart >= intervalMs {
        if connected {
          if count == 0 || pingnum < count {
            var payload := SendPing(now);
            ev := PingSent(destination, AmIdTosPingPongPing, payload, sendFailed);
          } else {
            pingdone := true;
            ev := AllPingsSent;
          }
        } else {
          ev := NotConnected;
        }
      } else if incoming == [] {
        ev := QueueEmpty;
      } else {
        var m := incoming[0];
        incoming := incoming[1..];
        var r := Receive(m, now);
        ev := Received(r);
      }
    }
  }

  /** A sender for destination 7 with a count of one: the first due step, at
      10000 ms, sends PING 1 as the 15-byte fixed part. */
  method UnicastFirstPing()
  {
    var s := new PingSender(0xFFFE, 7, 1, 1000, 5, 100, 0, 0);
    assert s.pingSize == 15 && s.pongSize == 28;
    assert s.pingnum == 0 && s.pingStart == 0 && !s.pingdone;
    var ev := s.Step(10000, true, false);
    assert s.pingnum == 1 && s.pingStart == 10000 && ev.PingSent? && |ev.payload| == 15;
  }

  /** PING 1 to destination 7 left at 10000 ms; PONGs 1 and 2 come back from 7,
      the first 250 ms later with rx 1000 and tx 1020. */
  method UnicastCycle(s: PingSender, p1: Pong, p2: Pong)
    requires s.address == 0xFFFE && s.destination == 7 && s.pingnum == 1 && s.pingStart == 10000
    requires s.lastPongs == map[] && s.replies == 0
    requires p1.pingnum == p2.pingnum == 1 && p1.pong == 1 && p2.pong == 2
    requires p1.rxTimeMs == 1000 && p1.txTimeMs == 1020
    modifies s
  {
    PongRoundTrip(p1);
    var r := s.Receive(Message(7, 0xFFFE, AmIdTosPingPongPong, EncodePong(p1)), 10250);
    assert r.lost == [] && r.delayMs == 20 && r.rttMs == 230 && r.visible;
    assert s.lastPongs == map[7 := 1] && s.replies == 1 && s.pingnum == 1;
    PongRoundTrip(p2);
    r := s.Receive(Message(7, 0xFFFE, AmIdTosPingPongPong, EncodePong(p2)), 10300);
    assert r.lost == [] && s.lastPongs == map[7 := 2] && s.replies == 2;
  }

  /** With a count of one and its PING sent, the next due step only marks the
      sender done, and every later step only serves the queue. */
  method CountReached(s: PingSender)
    requires s.Valid() && s.count == 1 && s.pingnum == 1 && !s.pingdone
    requires s.intervalMs == 1000 && s.pingStart == 10000 && s.incoming == []
    modifies s
  {
    var ev := s.Step(20000, true, false);
    assert ev == AllPingsSent && s.pingdone;
    ev := s.Step(30000, true, false);
    assert ev == QueueEmpty && s.pingnum == 1;
  }

  /** Continuing a cycle in which 7 last sent PONG 2: PONG 4 reports 3 lost,
      PONG 5 reports nothing. */
  method UnicastGap(s: PingSender, p4: Pong, p5: Pong)
    requires s.destination == 7 && s.lastPongs == map[7 := 2]
    requires p4.pingnum == p5.pingnum == s.pingnum && p4.pong == 4 && p5.pong == 5
    modifies s
  {
    PongRoundTrip(p4);
    var r := s.Receive(Message(7, 0xFFFE, AmIdTosPingPongPong, EncodePong(p4)), 10400);
    assert LostRange(2, 4) == [3];
    assert r.lost == [3] && s.lastPongs == map[7 := 4];
    PongRoundTrip(p5);
    r := s.Receive(Message(7, 0xFFFE, AmIdTosPingPongPong, EncodePong(p5)), 10500);
    assert r.lost == [] && s.lastPongs == map[7 := 5];
  }

  /** A PONG from a node other than the unicast destination, and a payload too
      short to decode, change no counter. */
  method UnicastStranger(p: Pong)
  {
    var s := new PingSender(0xFFFE, 7, 0, 1000, 1, 100, 20, 40);
    assert s.pingSize == 20 && s.pongSize == 40;
    PongRoundTrip(p);
    var r := s.Receive(Message(9, 0xFFFE, AmIdTosPingPongPong, EncodePong(p)), 10);
    assert !r.visible && s.replies == 0;
    r := s.Receive(Message(7, 0xFFFE, AmIdTosPingPongPong, [1, 2, 3]), 20);
    assert r.Malformed? && s.replies == 0;
  }

  /** With the ping number at the nx_uint32 maximum, a step that would send
      cannot be taken, but a due step on a down connection, and a step that
      only serves the queue, still can. */
  method StepAtLastPingnum(s: PingSender)
    requires s.Valid() && s.count == 0 && s.pingnum == 0xFFFF_FFFF && !s.pingdone
    requires s.intervalMs == 1000 && s.pingStart == 10000 && s.incoming == []
    modifies s
  {
    var ev := s.Step(20000, false, false);
    assert ev == NotConnected;
    ev := s.Step(10500, true, false);
    assert ev == QueueEmpty && s.pingnum == 0xFFFF_FFFF;
  }

  /** Receives, in order, a run of PONGs of the current PING from a source that
      has not answered yet in this cycle: the LOST reports over the whole run
      are LostOverRun's, and the source's entry ends at the run's last index. */
  method ReceiveRun(s: PingSender, src: int, run: seq<Pong>, now: int) returns (lost: seq<int>)
    requires src !in s.lastPongs
    requires forall k :: 0 <= k < |run| ==> run[k].pingnum == s.pingnum
    modifies s
    ensures lost == LostOverRun(0, PongIndices(run))
    ensures run != [] ==> s.lastPongs == old(s.lastPongs)[src := run[|run| - 1].pong]
  {
    lost := [];
    var i := 0;
    while i < |run|
      invariant 0 <= i <= |run|
      invariant s.pingnum == old(s.pingnum)
      invariant lost == LostOverRun(0, PongIndices(run[..i]))
      invariant i == 0 ==> s.lastPongs == old(s.lastPongs)
      invariant i > 0 ==> s.lastPongs == old(s.lastPongs)[src := run[i - 1].pong]
    {
      PongRoundTrip(run[i]);
      var r := s.Receive(Message(src, s.address, AmIdTosPingPongPong, EncodePong(run[i])), now);
      ghost var seen := PongIndices(run[..i]);
      assert PongIndices(run[..i + 1]) == seen + [run[i].pong];
      assert i > 0 ==> seen[|seen| - 1] == run[i - 1].pong;
      LostOverRunSnoc(0, seen, run[i].pong);
      lost := lost + r.lost;
      i := i + 1;
    }
    assert run[..i] == run;
  }

  // ---------------------------------------------------------------------
  // The exit rule of the main loop
  // ---------------------------------------------------------------------

  /** Whether the main loop stops after one poll: a one-shot run stops at the
      first reply; with a timeout set, the run stops when the timeout has
      elapsed or when count replies have arrived. */
  function StopAfterPoll(interrupted: bool, oneshot: bool, replies: nat,
                         timeoutMs: int, elapsedMs: int, count: int): (stop: bool)
    // Without a timeout, reaching count replies does not stop the run.
    ensures timeoutMs <= 0 ==> (stop <==> interrupted || (oneshot && replies > 0))
    ensures timeoutMs > 0 ==>
      (stop <==> interrupted || (oneshot && replies > 0) || elapsedMs >= timeoutMs || 0 < count <= replies)
  {
    var afterOneshot := interrupted || (oneshot && replies > 0);
    if timeoutMs > 0 && (elapsedMs >= timeoutMs || 0 < count <= replies) then true
    else afterOneshot
  }

  /** The process exit status: success exactly when some reply was counted. */
  function ExitStatus(replies: nat): (code: int)
    ensures code == 0 <==> replies > 0
    ensures code == 0 || code == 1
  {
    if replies > 0 then 0 else 1
  }
}
