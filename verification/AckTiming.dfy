/** What a round trip measures: the time stamp a segment carries comes back in its acknowledgement, and
    what the sender's estimator is given is the time that has passed. */
module AckTiming {
  import opened Word
  import opened Protocol
  import opened EngineSpec
  import opened Packing
  import opened RoundTripTime

  // ---- The estimator over the integers ----

  /** Section 2 of RFC 6298 with weights of an eighth and a quarter, rounded down: the estimates after
      one more round trip of `rtt` ms. The timeout is computed in 32 bits. */
  function Means(r: Rtt, interval: u32, rtt: nat): Rtt
    requires r.avg <= RTO_MAX && r.variance <= RTO_MAX && rtt <= RTO_MAX
  {
    var avg: u32 := if r.avg == 0 then rtt else Max((7 * r.avg + rtt) / 8, 1);
    var off := if rtt > r.avg then rtt - r.avg else r.avg - rtt;
    var variance: u32 := if r.avg == 0 then rtt / 2 else (3 * r.variance + off) / 4;
    Rtt(avg, variance, Limited((avg + Max(interval, 4 * variance)) % M32, r.minRto, RTO_MAX), r.minRto)
  }

  function Limited(x: u32, lo: u32, hi: u32): u32 {
    if x < lo then lo else if x > hi then hi else x
  }

  /** How long ago, or a number of at least 2^31 for what is still to come. */
  function Age(ts: u32, now: u32): u32 {
    (now - ts) % M32
  }

  /** The estimates after a packet: every acknowledgement of the conversation that is not from the
      future adds the round trip it measures, of a minute at most. */
  function Measured(r: Rtt, conv: u32, interval: u32, ws: seq<Wire>, now: u32): (u: Rtt)
    requires RttInv(r)
    ensures RttInv(u)
    decreases |ws|
  {
    if ws == [] then r
    else
      var w := ws[0];
      MeansStayInv(r, interval, Min(Age(w.ts, now), RTO_MAX));
      Measured(if w.conv == conv && w.cmd == CMD_ACK && Age(w.ts, now) < HALF
               then Means(r, interval, Min(Age(w.ts, now), RTO_MAX)) else r,
               conv, interval, ws[1..], now)
  }

  lemma MeansStayInv(r: Rtt, interval: u32, rtt: nat)
    requires RttInv(r) && rtt <= RTO_MAX
    ensures RttInv(Means(r, interval, rtt))
  {
    MeansStay(r.avg, r.variance, rtt);
  }

  lemma AgeIsDiff(ts: u32, now: u32)
    ensures TimeDiff(now, ts) >= 0 <==> Age(ts, now) < HALF
    ensures Age(ts, now) < HALF ==> TimeDiff(now, ts) == Age(ts, now)
  {
  }

  lemma SampleIsMeans(r: Rtt, interval: u32, sample: nat)
    requires RttInv(r)
    ensures UpdateAck(r, interval, sample) == Means(r, interval, Min(sample, RTO_MAX))
  {
    NoOverflow(r, interval, sample);
    MeansStay(r.avg, r.variance, Min(sample, RTO_MAX));
  }

  lemma SegmentMeasures(m: Arith, s: State, newest: Newest, w: Wire, now: u32)
    requires RttInv(s.rtt)
    ensures InputSegment(m, s, newest, w, now).0.rtt == Measured(s.rtt, s.conv, s.cfg.interval, [w], now)
  {
    AgeIsDiff(w.ts, now);
    if Age(w.ts, now) < HALF { SampleIsMeans(s.rtt, s.cfg.interval, Age(w.ts, now)); }
    assert [w][1..] == [];
    hide UpdateAck, Means, TimeDiff, Age, InputPush, DropUna, RemoveSn, InFlight, TrackNewest;
  }

  lemma {:induction false} SegmentsMeasure(m: Arith, s: State, newest: Newest, ws: seq<Wire>, now: u32)
    requires RttInv(s.rtt)
    ensures InputSegments(m, s, newest, ws, now).0.rtt == Measured(s.rtt, s.conv, s.cfg.interval, ws, now)
    decreases |ws|
  {
    if ws != [] {
      SegmentMeasures(m, s, newest, ws[0], now);
      assert [ws[0]][1..] == [];
      var (s1, newest1) := InputSegment(m, s, newest, ws[0], now);
      hide InputSegment, Means, RttInv;
      SegmentsMeasure(m, s1, newest1, ws[1..], now);
    }
  }

  /** What any packet does to the estimator. */
  lemma InputMeasures(m: Arith, s: State, ws: seq<Wire>, now: u32)
    requires RttInv(s.rtt)
    ensures Input(m, s, ws, now).rtt == Measured(s.rtt, s.conv, s.cfg.interval, ws, now)
  {
    SegmentsMeasure(m, s, NoAck, ws, now);
    hide InputSegments, BumpFastack, InFlight, UpdateCwnd, RttInv;
  }

  /** An acknowledgement stamped `t` that arrives `d` ms later is a sample of `d` ms, or of a minute if
      that is less: the estimates become the weighted means, and the timeout the mean plus four times
      the variance or the update interval, within its bounds. */
  lemma SampleIsElapsed(m: Arith, s: State, w: Wire, d: nat)
    requires RttInv(s.rtt) && w.conv == s.conv && w.cmd == CMD_ACK && d < HALF
    ensures var (r, u) := (s.rtt, Input(m, s, [w], U(w.ts + d)).rtt);
            var rtt := if d < 60000 then d else 60000;
            var off := if rtt > r.avg then rtt - r.avg else r.avg - rtt;
            && u.avg == (if r.avg == 0 then rtt else Max((7 * r.avg + rtt) / 8, 1))
            && u.variance == (if r.avg == 0 then rtt / 2 else (3 * r.variance + off) / 4)
            && (u.avg + Max(s.cfg.interval, 4 * u.variance) < M32 ==>
                  u.rto == Limited(u.avg + Max(s.cfg.interval, 4 * u.variance), r.minRto, 60000))
            && u.minRto == r.minRto
  {
    hide Input, Age, Means, RttInv;
    OneMeasured(m, s, w, d);
    MeansAre(s.rtt, s.cfg.interval, Min(d, 60000));
  }

  lemma OneMeasured(m: Arith, s: State, w: Wire, d: nat)
    requires RttInv(s.rtt) && w.conv == s.conv && w.cmd == CMD_ACK && d < HALF
    ensures s.rtt.avg <= RTO_MAX && s.rtt.variance <= RTO_MAX
    ensures Input(m, s, [w], U(w.ts + d)).rtt == Means(s.rtt, s.cfg.interval, Min(d, RTO_MAX))
  {
    InputMeasures(m, s, [w], U(w.ts + d));
    ElapsedAge(w.ts, d);
    assert [w][1..] == [];
    hide Input, Age, Means, U;
  }

  lemma MeansAre(r: Rtt, interval: u32, rtt: nat)
    requires r.avg <= RTO_MAX && r.variance <= RTO_MAX && rtt <= 60000
    ensures var u := Means(r, interval, rtt);
            var off := if rtt > r.avg then rtt - r.avg else r.avg - rtt;
            && u.avg == (if r.avg == 0 then rtt else Max((7 * r.avg + rtt) / 8, 1))
            && u.variance == (if r.avg == 0 then rtt / 2 else (3 * r.variance + off) / 4)
            && (u.avg + Max(interval, 4 * u.variance) < M32 ==>
                  u.rto == Limited(u.avg + Max(interval, 4 * u.variance), r.minRto, 60000))
            && u.minRto == r.minRto
  {
    MeansStay(r.avg, r.variance, rtt);
  }

  lemma ElapsedAge(ts: u32, d: nat)
    requires d < M32
    ensures Age(ts, U(ts + d)) == d
  {
    WrapShift(ts + d, 0 - ts);
  }

  /** Without an acknowledgement of its conversation that is not from the future, a packet leaves the
      estimator alone. */
  lemma {:induction false} NothingMeasured(r: Rtt, conv: u32, interval: u32, ws: seq<Wire>, now: u32)
    requires RttInv(r)
    requires forall w :: w in ws && w.conv == conv && w.cmd == CMD_ACK ==> Age(w.ts, now) >= HALF
    ensures Measured(r, conv, interval, ws, now) == r
    decreases |ws|
  {
    hide Means, Age, RttInv;
    if ws != [] {
      assert ws[0] in ws;
      NothingMeasured(r, conv, interval, ws[1..], now);
    }
  }

  lemma InputWithoutSample(m: Arith, s: State, ws: seq<Wire>, now: u32)
    requires RttInv(s.rtt)
    requires forall w :: w in ws && w.conv == s.conv && w.cmd == CMD_ACK ==> Age(w.ts, now) >= HALF
    ensures Input(m, s, ws, now).rtt == s.rtt
  {
    InputMeasures(m, s, ws, now);
    NothingMeasured(s.rtt, s.conv, s.cfg.interval, ws, now);
    hide Input, Age;
  }

  // ---- What a packet is answered with ----

  /** The acknowledgements a packet calls for, in order: the number and time stamp of every data
      segment of the conversation that is not beyond the receive window, as it is then. */
  function Answers(m: Arith, s: State, ws: seq<Wire>, now: u32): seq<Ack>
    decreases |ws|
  {
    if ws == [] then []
    else
      var init, w := ws[..|ws| - 1], ws[|ws| - 1];
      Answers(m, s, init, now)
      + (if w.conv == s.conv && w.cmd == CMD_PUSH
            && Before(m, w.sn, Add(m, Input(m, s, init, now).rcvNxt, s.cfg.rcvWnd))
         then [Ack(w.sn, w.ts)] else [])
  }

  lemma {:induction false} SegmentsSnoc(m: Arith, s: State, newest: Newest, ws: seq<Wire>, w: Wire, now: u32)
    ensures var (s1, newest1) := InputSegments(m, s, newest, ws, now);
            InputSegments(m, s, newest, ws + [w], now) == InputSegment(m, s1, newest1, w, now)
    decreases |ws|
  {
    hide InputSegment;
    if ws == [] {
      assert ws + [w] == [w] && [w][1..] == [];
    } else {
      assert (ws + [w])[1..] == ws[1..] + [w];
      var (s1, newest1) := InputSegment(m, s, newest, ws[0], now);
      SegmentsSnoc(m, s1, newest1, ws[1..], w, now);
    }
  }

  lemma SegmentAnswers(m: Arith, s: State, newest: Newest, w: Wire, now: u32)
    ensures InputSegment(m, s, newest, w, now).0.ackList ==
            s.ackList + (if w.conv == s.conv && w.cmd == CMD_PUSH && Before(m, w.sn, Add(m, s.rcvNxt, s.cfg.rcvWnd))
                         then [Ack(w.sn, w.ts)] else [])
  {
    hide UpdateAck, DropUna, RemoveSn, InFlight, TrackNewest, ParseData, Before, Add;
  }

  lemma {:induction false} SegmentsAnswer(m: Arith, s: State, ws: seq<Wire>, now: u32)
    ensures InputSegments(m, s, NoAck, ws, now).0.ackList == s.ackList + Answers(m, s, ws, now)
    decreases |ws|
  {
    hide InputSegment, Before, Add, Input;
    if ws == [] {
      assert s.ackList + [] == s.ackList;
    } else {
      var init, w := ws[..|ws| - 1], ws[|ws| - 1];
      var (s1, newest1) := InputSegments(m, s, NoAck, init, now);
      SegmentsAnswer(m, s, init, now);
      SegmentsSnoc(m, s, NoAck, init, w, now);
      assert ws == init + [w];
      SegmentAnswers(m, s1, newest1, w, now);
      InputKeepsReceived(m, s, init, now);
    }
  }

  /** The steps that close a packet touch neither the receive side nor the list. */
  lemma InputKeepsReceived(m: Arith, s: State, ws: seq<Wire>, now: u32)
    ensures var (r, s1) := (Input(m, s, ws, now), InputSegments(m, s, NoAck, ws, now).0);
            r.rcvNxt == s1.rcvNxt && r.ackList == s1.ackList && r.conv == s.conv && r.cfg == s.cfg
  {
    hide InputSegments, BumpFastack, InFlight, UpdateCwnd;
  }

  /** A packet adds to the list just the acknowledgements it calls for. */
  lemma InputAnswers(m: Arith, s: State, ws: seq<Wire>, now: u32)
    ensures Input(m, s, ws, now).ackList == s.ackList + Answers(m, s, ws, now)
  {
    hide Input, InputSegments, Answers;
    SegmentsAnswer(m, s, ws, now);
    InputKeepsReceived(m, s, ws, now);
  }

  // ---- What a flush stamps ----

  /** What every segment of a flush tells the peer: the conversation, the number expected next, and the
      room left in the receive queue. */
  predicate Reports(s: State, w: Wire) {
    && w.conv == s.conv && w.una == s.rcvNxt
    && w.wnd == (if |s.rcvQueue| < s.cfg.rcvWnd then s.cfg.rcvWnd - |s.rcvQueue| else 0)
  }

  /** The acknowledgement `w` of a flush of `s` echoes the number and the time stamp that were listed. */
  predicate Acknowledges(s: State, a: Ack, w: Wire) {
    Reports(s, w) && w.cmd == CMD_ACK && w.frg == 0 && w.data == [] && w.sn == a.sn && w.ts == a.ts
  }

  ghost predicate AllStamped(s: State, ws: seq<Wire>, now: u32) {
    forall i :: 0 <= i < |ws| ==> Reports(s, ws[i]) && ws[i].ts == now && ws[i].cmd != CMD_ACK
  }

  /** A flush starts with an acknowledgement for every entry of the list, in order; whatever else it
      puts out is stamped with its own time; and all of it tells the number expected next and the room
      there is. */
  lemma FlushStamps(m: Arith, s: State, now: u32)
    ensures var (ws, n) := (FlushWires(m, s, now), |s.ackList|);
            && |ws| >= n && (forall i :: 0 <= i < n ==> Acknowledges(s, s.ackList[i], ws[i]))
            && AllStamped(s, ws[n..], now)
  {
    ProbesStamped(s, now);
    DataStamped(m, s, now);
    var acks, probes := AckWires(s), ProbeWires(s.(probe := ProbeTimer(s.probe, s.wnd.rmt, now)), now);
    var data := DataWires(BeforeScan(m, s, now), Sending(m, s, now));
    hide BeforeScan, Sending, ProbeTimer, ProbeWires, DataWires;
    var ws, n := FlushWires(m, s, now), |s.ackList|;
    assert ws == acks + (probes + data);
    assert ws[n..] == probes + data;
    forall i | 0 <= i < n ensures Acknowledges(s, s.ackList[i], ws[i]) {
      assert ws[i] == acks[i];
    }
  }

  lemma ProbesStamped(s: State, now: u32)
    ensures AllStamped(s, ProbeWires(s.(probe := ProbeTimer(s.probe, s.wnd.rmt, now)), now), now)
  {
    hide ProbeTimer;
  }

  lemma DataStamped(m: Arith, s: State, now: u32)
    ensures AllStamped(s, DataWires(BeforeScan(m, s, now), Sending(m, s, now)), now)
  {
    SentNow(m, s, now);
    SameReceiver(m, s, now);
    hide BeforeScan, Sending;
  }

  lemma SameReceiver(m: Arith, s: State, now: u32)
    ensures var b := BeforeScan(m, s, now);
            b.conv == s.conv && b.cfg == s.cfg && b.rcvNxt == s.rcvNxt && b.rcvQueue == s.rcvQueue
  {
    hide MoveToSendBuf, ProbeTimer, OutputAll, AckWires, ProbeWires;
  }

  /** Everything a scan transmits is stamped. */
  lemma SentNow(m: Arith, s: State, now: u32)
    ensures forall i :: 0 <= i < |Sending(m, s, now)| ==> Sending(m, s, now)[i].ts == now
  {
    var b, sending := BeforeScan(m, s, now), Sending(m, s, now);
    var due := ToSend(b.cfg, b.rtt.rto, b.sndBuf, now);
    ToSendIsDue(b.cfg, b.rtt.rto, b.sndBuf, now);
    assert sending <= due;
    hide BeforeScan, Sending, ToSend, MarkOf, Marked;
    forall i | 0 <= i < |sending| ensures sending[i].ts == now {
      assert due[i] in due;
      var j :| 0 <= j < |b.sndBuf| && !MarkOf(b.cfg, b.sndBuf[j], now).Idle?
               && due[i] == Marked(b.cfg, b.rtt.rto, b.sndBuf[j], now);
      MarkedIsStamped(b.cfg, b.rtt.rto, b.sndBuf[j], now);
    }
  }

  lemma MarkedIsStamped(cfg: Config, rto: u32, seg: Segment, now: u32)
    ensures !MarkOf(cfg, seg, now).Idle? ==> Marked(cfg, rto, seg, now).ts == now
  {
    hide TimeDiff, Backoff;
  }

  // ---- There and back ----

  /** A data segment on its way is stamped with the time of its flush. */
  lemma DataIsStamped(m: Arith, x: State, t: u32, w: Wire)
    requires w in FlushWires(m, x, t) && w.cmd == CMD_PUSH
    ensures w.conv == x.conv && w.ts == t
  {
    FlushStamps(m, x, t);
    var ws, n := FlushWires(m, x, t), |x.ackList|;
    hide FlushWires;
    var i :| 0 <= i < |ws| && ws[i] == w;
    assert i >= n by {
      forall k | 0 <= k < n ensures ws[k].cmd == CMD_ACK { assert Acknowledges(x, x.ackList[k], ws[k]); }
    }
    assert ws[n..][i - n] == w;
    assert Reports(x, w);
  }

  /** What was listed last is acknowledged by the next flush. */
  lemma LastIsAcknowledged(m: Arith, y: State, t: u32) returns (a: Wire)
    requires y.ackList != []
    ensures var last := y.ackList[|y.ackList| - 1];
            && a in FlushWires(m, y, t) && a.conv == y.conv && a.cmd == CMD_ACK && a.sn == last.sn && a.ts == last.ts
  {
    FlushStamps(m, y, t);
    hide FlushWires;
    var k := |y.ackList| - 1;
    a := FlushWires(m, y, t)[k];
    assert Acknowledges(y, y.ackList[k], a);
  }

  /** A data segment that `x` puts out at `t` and `y` has room for is acknowledged by the next flush of
      `y`, whenever that is, and that acknowledgement, `d` ms after `t` back at `x`, whatever its state is
      by then, gives it a sample of just `d` ms. */
  lemma RoundTripIsMeasured(m: Arith, x: State, y: State, x1: State, t: u32, t2: u32, t3: u32, d: nat, w: Wire)
    returns (a: Wire)
    requires w in FlushWires(m, x, t) && w.cmd == CMD_PUSH
    requires y.conv == x.conv && x1.conv == x.conv && RttInv(x1.rtt) && d < HALF
    requires Before(m, w.sn, Add(m, y.rcvNxt, y.cfg.rcvWnd))
    ensures a in FlushWires(m, Input(m, y, [w], t2), t3) && a.cmd == CMD_ACK && a.sn == w.sn && a.ts == t
    ensures x1.rtt.avg <= RTO_MAX && x1.rtt.variance <= RTO_MAX
    ensures Input(m, x1, [a], U(t + d)).rtt == Means(x1.rtt, x1.cfg.interval, Min(d, RTO_MAX))
  {
    hide FlushWires, Means, RttInv, Input, Answers, Before, Add;
    DataIsStamped(m, x, t, w);
    InputAnswers(m, y, [w], t2);
    OneAnswer(m, y, w, t2);
    a := LastIsAcknowledged(m, Input(m, y, [w], t2), t3);
    OneMeasured(m, x1, a, d);
  }

  lemma OneAnswer(m: Arith, y: State, w: Wire, now: u32)
    requires w.conv == y.conv && w.cmd == CMD_PUSH && Before(m, w.sn, Add(m, y.rcvNxt, y.cfg.rcvWnd))
    ensures Answers(m, y, [w], now) == [Ack(w.sn, w.ts)]
    ensures Input(m, y, [w], now).conv == y.conv
  {
    assert [w][..0] == [];
    assert Answers(m, y, [w][..0], now) == [];
    assert Input(m, y, [], now).rcvNxt == y.rcvNxt;
    hide Before, Add, Input;
  }
}
