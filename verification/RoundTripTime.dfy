/** The round-trip estimator (section 2 of RFC 6298, with the update interval as clock granularity):
    it stays in bounds on any samples, and settles on a constant one. */
module RoundTripTime {
  import opened Word
  import opened Protocol
  import opened EngineSpec
  import opened EngineRun

  ghost predicate RttInv(r: Rtt) {
    r.avg <= RTO_MAX && r.variance <= RTO_MAX && 1 <= r.minRto <= r.rto <= RTO_MAX
  }

  /** On bounded state no 32-bit operation of the smoothing overflows: the estimates are the
      exact weighted means, rounded down. */
  lemma NoOverflow(r: Rtt, interval: u32, sample: int)
    requires RttInv(r)
    ensures var rtt := Clamp(sample, 0, RTO_MAX);
            var delta := if rtt > r.avg then rtt - r.avg else r.avg - rtt;
            var u := UpdateAck(r, interval, sample);
            && u.variance == (if r.avg == 0 then rtt / 2 else (3 * r.variance + delta) / 4)
            && u.avg == (if r.avg == 0 then rtt else Max((7 * r.avg + rtt) / 8, 1))
            && u.minRto == r.minRto
            && (u.avg + Max(interval, 4 * u.variance) < M32 ==>
                  u.rto == Clamp(u.avg + Max(interval, 4 * u.variance), r.minRto, RTO_MAX))
  {
  }

  /** Whatever a peer echoes, estimates stay at most 60000 and the timeout between its bounds. */
  lemma SampleKeepsRttInv(r: Rtt, interval: u32, sample: int)
    requires RttInv(r)
    ensures RttInv(UpdateAck(r, interval, sample)) && UpdateAck(r, interval, sample).minRto == r.minRto
  {
    NoOverflow(r, interval, sample);
    MeansStay(r.avg, r.variance, Clamp(sample, 0, RTO_MAX));
  }

  lemma MeansStay(avg: int, variance: int, rtt: int)
    requires 0 <= avg <= 60000 && 0 <= variance <= 60000 && 0 <= rtt <= 60000
    ensures (7 * avg + rtt) / 8 <= 60000
    ensures (3 * variance + (if rtt > avg then rtt - avg else avg - rtt)) / 4 <= 60000
  {
  }

  // ---- In every run ----

  lemma SegmentRtt(m: Arith, s: State, newest: Newest, w: Wire, now: u32)
    ensures var r := InputSegment(m, s, newest, w, now).0.rtt;
            r == s.rtt || exists sample :: r == UpdateAck(s.rtt, s.cfg.interval, sample)
  {
    hide UpdateAck, TimeDiff, InputPush, DropUna, RemoveSn, InFlight, TrackNewest;
  }

  lemma {:induction false} SegmentsKeepRttInv(m: Arith, s: State, newest: Newest, ws: seq<Wire>, now: u32)
    requires RttInv(s.rtt)
    ensures RttInv(InputSegments(m, s, newest, ws, now).0.rtt)
    decreases |ws|
  {
    if ws != [] {
      SegmentRtt(m, s, newest, ws[0], now);
      var (s1, newest1) := InputSegment(m, s, newest, ws[0], now);
      hide InputSegment, UpdateAck, RttInv;
      if s1.rtt != s.rtt {
        var sample :| s1.rtt == UpdateAck(s.rtt, s.cfg.interval, sample);
        SampleKeepsRttInv(s.rtt, s.cfg.interval, sample);
      }
      SegmentsKeepRttInv(m, s1, newest1, ws[1..], now);
    }
  }

  lemma {:induction false} EveryRunKeepsRttInv(m: Arith, conv: u32, cfg: Config, ops: seq<Op>)
    ensures RttInv(Run(m, Init(conv, cfg), ops).rtt)
    decreases |ops|
  {
    if ops != [] {
      var init, op := ops[..|ops| - 1], ops[|ops| - 1];
      EveryRunKeepsRttInv(m, conv, cfg, init);
      var s := Run(m, Init(conv, cfg), init);
      StepKeepsRttInv(m, s, op);
    }
  }

  lemma StepKeepsRttInv(m: Arith, s: State, op: Op)
    requires RttInv(s.rtt)
    ensures RttInv(Step(m, s, op).rtt)
  {
    if op.DoInput? {
      SegmentsKeepRttInv(m, s, NoAck, op.ws, op.now);
      hide InputSegments, BumpFastack, InFlight, UpdateCwnd;
    } else if op.DoRecv? {
      hide PeekSize, TakeMessage;
    } else {
      hide Send, Flush;
    }
  }

  // ---- A constant sample ----

  /** The estimator after `n` samples of `sample`. */
  function Settling(r: Rtt, interval: u32, sample: int, n: nat): Rtt
    decreases n
  {
    if n == 0 then r else Settling(UpdateAck(r, interval, sample), interval, sample, n - 1)
  }

  /** Within the rounding of the mean below the sample. */
  predicate AvgSettled(r: Rtt, sample: int) {
    sample - 7 <= r.avg <= sample
  }

  /** How many milliseconds the smoothed value is off. */
  function Gap(r: Rtt, sample: int): nat {
    if AvgSettled(r, sample) then 0
    else if r.avg == 0 then 1
    else if r.avg > sample then r.avg - sample
    else sample - 7 - r.avg
  }

  lemma GapCloses(r: Rtt, interval: u32, sample: int)
    requires RttInv(r) && 1 <= sample <= RTO_MAX
    ensures var u := UpdateAck(r, interval, sample);
            && RttInv(u) && (Gap(r, sample) == 0 ==> Gap(u, sample) == 0)
            && (Gap(r, sample) > 0 ==> Gap(u, sample) < Gap(r, sample))
            && (Gap(r, sample) == 0 ==> u.variance <= 7 || u.variance < r.variance)
  {
    SampleKeepsRttInv(r, interval, sample);
    NoOverflow(r, interval, sample);
    hide UpdateAck;
  }

  lemma {:induction false} AvgSettles(r: Rtt, interval: u32, sample: int, n: nat)
    requires RttInv(r) && 1 <= sample <= RTO_MAX && Gap(r, sample) <= n
    ensures RttInv(Settling(r, interval, sample, n)) && Gap(Settling(r, interval, sample, n), sample) == 0
    decreases n
  {
    if n > 0 {
      GapCloses(r, interval, sample);
      hide UpdateAck, RttInv, Gap;
      AvgSettles(UpdateAck(r, interval, sample), interval, sample, n - 1);
    }
  }

  lemma {:induction false} VarianceSettles(r: Rtt, interval: u32, sample: int, n: nat)
    requires RttInv(r) && 1 <= sample <= RTO_MAX && Gap(r, sample) == 0 && (r.variance <= 7 || r.variance <= 7 + n)
    ensures var u := Settling(r, interval, sample, n);
            RttInv(u) && Gap(u, sample) == 0 && u.variance <= 7
    decreases n
  {
    if n > 0 {
      GapCloses(r, interval, sample);
      hide UpdateAck, RttInv, Gap;
      VarianceSettles(UpdateAck(r, interval, sample), interval, sample, n - 1);
    }
  }

  lemma {:induction false} SettlingSplits(r: Rtt, interval: u32, sample: int, a: nat, b: nat)
    ensures Settling(r, interval, sample, a + b) == Settling(Settling(r, interval, sample, a), interval, sample, b)
    decreases a
  {
    hide UpdateAck;
    if a > 0 { SettlingSplits(UpdateAck(r, interval, sample), interval, sample, a - 1, b); }
  }

  /** On a constant round trip of `sample` ms the estimator converges from any reachable state and
      stays: the smoothed value within 7 ms below it, the variance at most 7 ms, and the timeout at
      most `sample` plus the larger of the update interval and 28 ms, or its minimum. */
  lemma EstimatorConverges(r: Rtt, interval: u32, sample: int, n: nat)
    requires RttInv(r) && 1 <= sample <= RTO_MAX
    requires n > 2 * RTO_MAX
    ensures var u := Settling(r, interval, sample, n);
            && sample - 7 <= u.avg <= sample && u.variance <= 7
            && u.rto <= Max(u.minRto, sample + Max(interval, 28))
  {
    hide Settling, UpdateAck, Gap;
    var a: nat, b: nat := RTO_MAX, n - RTO_MAX - 1;
    GapBound(r, sample);
    SettlingSplits(r, interval, sample, a, b + 1);
    SettlingSplits(Settling(r, interval, sample, a), interval, sample, b, 1);
    AvgSettles(r, interval, sample, a);
    var r1 := Settling(r, interval, sample, a);
    VarianceSettles(r1, interval, sample, b);
    var r2 := Settling(r1, interval, sample, b);
    VarianceSettles(r2, interval, sample, 1);
    LastStep(r2, interval, sample);
  }

  lemma GapBound(r: Rtt, sample: int)
    requires RttInv(r) && 1 <= sample <= RTO_MAX
    ensures Gap(r, sample) <= RTO_MAX
  {
  }

  lemma LastStep(r: Rtt, interval: u32, sample: int)
    requires RttInv(r) && 1 <= sample <= RTO_MAX && Gap(r, sample) == 0 && r.variance <= 7
    ensures var u := Settling(r, interval, sample, 1);
            sample - 7 <= u.avg <= sample && u.variance <= 7 && u.rto <= Max(u.minRto, sample + Max(interval, 28))
  {
    GapCloses(r, interval, sample);
    NoOverflow(r, interval, sample);
    assert Settling(r, interval, sample, 1) == UpdateAck(r, interval, sample);
    hide UpdateAck;
  }
}
