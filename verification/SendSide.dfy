/** The send window: what every operation keeps of `snd_una`, `snd_nxt` and the send buffer,
    in either arithmetic and whatever packets arrive. */
module SendSide {
  import opened Word
  import opened Protocol
  import opened EngineSpec
  import opened EngineRun

  /** The numbers of `buf` ascend strictly within [una, nxt), going round the circle if need be. */
  ghost predicate Ascending(m: Arith, buf: seq<Segment>, una: int, nxt: int) {
    && (forall i :: 0 <= i < |buf| ==> Canonical(m, buf[i].sn) && 0 <= Off(m, buf[i].sn, una) < Off(m, nxt, una))
    && (forall i, j :: 0 <= i < j < |buf| ==> Off(m, buf[i].sn, una) < Off(m, buf[j].sn, una))
  }

  /** The send window while a packet is being processed: `snd_una` is not refreshed yet. */
  ghost predicate SendCore(m: Arith, s: State) {
    && Canonical(m, s.sndUna) && Canonical(m, s.sndNxt)
    && 0 <= Off(m, s.sndNxt, s.sndUna) <= s.cfg.sndWnd
    && Ascending(m, s.sndBuf, s.sndUna, s.sndNxt)
  }

  /** The send window between operations: `snd_una` is the oldest unacknowledged number. */
  ghost predicate SendInv(m: Arith, s: State) {
    && SendCore(m, s)
    && s.sndUna == (if s.sndBuf != [] then s.sndBuf[0].sn else s.sndNxt)
  }

  ghost predicate SameNumbers(a: seq<Segment>, b: seq<Segment>) {
    |a| == |b| && forall i :: 0 <= i < |a| ==> a[i].sn == b[i].sn
  }

  // ---- What the scans over the send buffer do ----

  /** `parse_una` pops exactly the longest prefix of numbers before `una`. */
  lemma {:induction false} DropUnaPops(m: Arith, buf: seq<Segment>, una: int) returns (k: nat)
    ensures k <= |buf| && DropUna(m, buf, una) == buf[k..]
    ensures forall i :: 0 <= i < k ==> Before(m, buf[i].sn, una)
    ensures k < |buf| ==> !Before(m, buf[k].sn, una)
  {
    hide Before;
    if buf != [] && Before(m, buf[0].sn, una) {
      var k1 := DropUnaPops(m, buf[1..], una);
      k := k1 + 1;
      forall i | 0 <= i < k ensures Before(m, buf[i].sn, una) {
        if i > 0 { assert buf[i] == buf[1..][i - 1]; }
      }
    } else {
      k := 0;
    }
  }

  /** A scan for `sn` removes the first segment so numbered, and nothing if there is none. */
  lemma {:induction false} RemoveSnAt(buf: seq<Segment>, sn: int) returns (k: nat)
    ensures k <= |buf|
    ensures forall i :: 0 <= i < k ==> buf[i].sn != sn
    ensures k < |buf| ==> buf[k].sn == sn && RemoveSn(buf, sn) == buf[..k] + buf[k + 1..]
    ensures k == |buf| ==> RemoveSn(buf, sn) == buf
  {
    if buf == [] {
      k := 0;
    } else if buf[0].sn == sn {
      k := 0;
    } else {
      var rest := buf[1..];
      assert RemoveSn(buf, sn) == [buf[0]] + RemoveSn(rest, sn);
      hide RemoveSn;
      var k1 := RemoveSnAt(rest, sn);
      k := k1 + 1;
      forall i | 0 <= i < k ensures buf[i].sn != sn {
        if i > 0 { assert buf[i] == rest[i - 1]; }
      }
      assert buf == [buf[0]] + rest;
      if k1 < |rest| {
        assert buf[..k] == [buf[0]] + rest[..k1];
        assert buf[k + 1..] == rest[k1 + 1..];
        assert buf[k] == rest[k1];
      }
    }
  }

  lemma {:induction false} BumpKeepsNumbers(m: Arith, buf: seq<Segment>, sn: int, ts: u32)
    ensures var r := BumpFastack(m, buf, sn, ts);
            && SameNumbers(buf, r)
            && forall i :: 0 <= i < |buf| ==>
              r[i] == buf[i] || (Before(m, buf[i].sn, sn) && r[i] == BumpOne(buf[i], ts))
  {
    hide Before, BumpOne;
    if buf != [] && Before(m, buf[0].sn, sn) {
      BumpKeepsNumbers(m, buf[1..], sn, ts);
      var r, r1 := BumpFastack(m, buf, sn, ts), BumpFastack(m, buf[1..], sn, ts);
      forall i | 0 <= i < |buf|
        ensures r[i] == buf[i] || (Before(m, buf[i].sn, sn) && r[i] == BumpOne(buf[i], ts))
      {
        if i > 0 { assert buf[i] == buf[1..][i - 1] && r[i] == r1[i - 1]; }
      }
      forall i | 0 <= i < |buf| ensures r[i].sn == buf[i].sn {
        BumpOneNumber(buf[i], ts);
      }
    }
  }

  lemma BumpOneNumber(seg: Segment, ts: u32)
    ensures BumpOne(seg, ts).sn == seg.sn
  {
  }

  lemma AscendingSuffix(m: Arith, buf: seq<Segment>, k: nat, una: int, nxt: int)
    requires k <= |buf| && Ascending(m, buf, una, nxt)
    ensures Ascending(m, buf[k..], una, nxt)
  {
    hide Off, Canonical;
  }

  lemma AscendingRemove(m: Arith, buf: seq<Segment>, k: nat, una: int, nxt: int)
    requires k < |buf| && Ascending(m, buf, una, nxt)
    ensures Ascending(m, buf[..k] + buf[k + 1..], una, nxt)
  {
    hide Off, Canonical;
    var r := buf[..k] + buf[k + 1..];
    forall i | 0 <= i < |r| ensures r[i] == buf[if i < k then i else i + 1] {}
  }

  lemma AscendingSameNumbers(m: Arith, a: seq<Segment>, b: seq<Segment>, una: int, nxt: int)
    requires Ascending(m, a, una, nxt) && SameNumbers(a, b)
    ensures Ascending(m, b, una, nxt)
  {
    hide Off, Canonical;
  }

  /** Offsets taken from the oldest number of the buffer instead. */
  lemma AscendingRebase(m: Arith, buf: seq<Segment>, una: int, una1: int, nxt: int)
    requires Ascending(m, buf, una, nxt)
    requires 0 <= Off(m, una1, una) <= Off(m, nxt, una)
    requires buf != [] ==> una1 == buf[0].sn
    ensures Ascending(m, buf, una1, nxt)
  {
    forall i | 0 <= i < |buf|
      ensures Off(m, buf[i].sn, una1) == Off(m, buf[i].sn, una) - Off(m, una1, una) >= 0
    {
      OffRebase(m, buf[i].sn, una1, una);
    }
    OffRebase(m, nxt, una1, una);
    hide Off, Canonical;
  }

  // ---- Every operation keeps the send window ----

  lemma SegmentKeepsSendCore(m: Arith, s: State, newest: Newest, w: Wire, now: u32)
    requires SendCore(m, s)
    ensures SendCore(m, InputSegment(m, s, newest, w, now).0)
  {
    hide Off, Canonical, Before, UpdateAck, Ascending;
    var k := DropUnaPops(m, s.sndBuf, w.una);
    AscendingSuffix(m, s.sndBuf, k, s.sndUna, s.sndNxt);
    var buf := s.sndBuf[k..];
    var j := RemoveSnAt(buf, w.sn);
    if j < |buf| { AscendingRemove(m, buf, j, s.sndUna, s.sndNxt); }
  }

  lemma {:induction false} SegmentsKeepSendCore(m: Arith, s: State, newest: Newest, ws: seq<Wire>, now: u32)
    requires SendCore(m, s)
    ensures SendCore(m, InputSegments(m, s, newest, ws, now).0)
    decreases |ws|
  {
    if ws != [] {
      SegmentKeepsSendCore(m, s, newest, ws[0], now);
      var (s1, newest1) := InputSegment(m, s, newest, ws[0], now);
      SegmentsKeepSendCore(m, s1, newest1, ws[1..], now);
    }
  }

  lemma ShrinkMakesSendInv(m: Arith, s: State)
    requires SendCore(m, s)
    ensures var r := ShrinkBuf(s);
            SendInv(m, r) && 0 <= Off(m, r.sndUna, s.sndUna) <= Off(m, s.sndNxt, s.sndUna)
  {
    var una1 := ShrinkBuf(s).sndUna;
    AscendingRebase(m, s.sndBuf, s.sndUna, una1, s.sndNxt);
    OffRebase(m, s.sndNxt, una1, s.sndUna);
  }

  /** Whatever packet arrives, the send window stays sound, and `snd_una` never goes back. */
  lemma InputKeepsSendInv(m: Arith, s: State, ws: seq<Wire>, now: u32)
    requires SendInv(m, s)
    ensures var r := Input(m, s, ws, now);
            SendInv(m, r) && 0 <= Off(m, r.sndUna, s.sndUna) <= Off(m, s.sndNxt, s.sndUna)
  {
    hide Off, Canonical, Before, Ascending, GrowCwnd;
    SegmentsKeepSendCore(m, s, NoAck, ws, now);
    var (s1, newest) := InputSegments(m, s, NoAck, ws, now);
    ShrinkMakesSendInv(m, s1);
    var s2 := ShrinkBuf(s1);
    if newest.Newest? {
      BumpKeepsNumbers(m, s2.sndBuf, newest.sn, newest.ts);
      AscendingSameNumbers(m, s2.sndBuf, BumpFastack(m, s2.sndBuf, newest.sn, newest.ts), s2.sndUna, s2.sndNxt);
    }
  }

  lemma NumberOneKeepsSendInv(m: Arith, s: State, now: u32)
    requires SendInv(m, s) && s.sndQueue != [] && Before(m, s.sndNxt, Add(m, s.sndUna, EffectiveWindow(s)))
    ensures SendInv(m, NumberOne(m, s, now))
  {
    var window := EffectiveWindow(s);
    OffAdd(m, s.sndUna, window, s.sndUna);
    DiffIsOffsets(m, s.sndNxt, Add(m, s.sndUna, window), s.sndUna);
    OffAdd(m, s.sndNxt, 1, s.sndUna);
    hide Off, Canonical, Add, Before;
  }

  lemma {:induction false} MoveToSendBufKeepsSendInv(m: Arith, s: State, now: u32)
    requires SendInv(m, s)
    ensures SendInv(m, MoveToSendBuf(m, s, now))
    decreases |s.sndQueue|
  {
    hide SendInv, Before, Add, EffectiveWindow;
    if s.sndQueue != [] && Before(m, s.sndNxt, Add(m, s.sndUna, EffectiveWindow(s))) {
      NumberOneKeepsSendInv(m, s, now);
      MoveToSendBufKeepsSendInv(m, NumberOne(m, s, now), now);
    }
  }

  lemma FlushKeepsSendInv(m: Arith, s: State, now: u32)
    requires SendInv(m, s)
    ensures var r := Flush(m, s, now).0;
            SendInv(m, r) && r.sndUna == s.sndUna
  {
    hide Off, Canonical, Before, Marked, Ascending;
    var s1 := HandleWindowProbe(FlushAcks(s), now);
    assert SendInv(m, s1);
    MoveToSendBufKeepsSendInv(m, s1, now);
    var s2 := MoveToSendBuf(m, s1, now);
    MarkKeepsNumbers(s2.cfg, s2.rtt.rto, s2.sndBuf, now);
    AscendingSameNumbers(m, s2.sndBuf, MarkAll(s2.cfg, s2.rtt.rto, s2.sndBuf, now), s2.sndUna, s2.sndNxt);
  }

  lemma MarkKeepsNumbers(cfg: Config, rto: u32, buf: seq<Segment>, now: u32)
    ensures SameNumbers(buf, MarkAll(cfg, rto, buf, now))
    ensures forall i :: 0 <= i < |buf| ==> MarkAll(cfg, rto, buf, now)[i].frag == buf[i].frag
  {
  }

  /** No operation, on any data, packet or clock, breaks the send window. */
  lemma StepKeepsSendInv(m: Arith, s: State, op: Op)
    requires SendInv(m, s)
    ensures SendInv(m, Step(m, s, op))
    ensures 0 <= Off(m, Step(m, s, op).sndUna, s.sndUna) <= Off(m, s.sndNxt, s.sndUna)
  {
    match op
    case DoSend(data) =>
    case DoRecv => hide Ascending;
    case DoInput(ws, now) => InputKeepsSendInv(m, s, ws, now);
    case DoFlush(now) => FlushKeepsSendInv(m, s, now);
    case DoProbe(now) => FlushKeepsSendInv(m, s.(probe := s.probe.(askSend := true)), now);
    case DoDrain =>
  }

  lemma {:induction false} EveryRunKeepsSendInv(m: Arith, conv: u32, cfg: Config, ops: seq<Op>)
    ensures SendInv(m, Run(m, Init(conv, cfg), ops))
    decreases |ops|
  {
    if ops != [] {
      EveryRunKeepsSendInv(m, conv, cfg, ops[..|ops| - 1]);
      StepKeepsSendInv(m, Run(m, Init(conv, cfg), ops[..|ops| - 1]), ops[|ops| - 1]);
    }
  }

  // ---- Input only removes segments and counts fast acknowledgements ----

  ghost predicate SurvivorOf(seg: Segment, buf: seq<Segment>) {
    exists j :: 0 <= j < |buf| && SameContent(seg, buf[j])
  }

  predicate SameContent(a: Segment, b: Segment) {
    a.(fastack := 0) == b.(fastack := 0)
  }

  /** Every segment of `r` is one of `buf`, but for its fast-acknowledgement count. */
  ghost predicate Survivors(r: seq<Segment>, buf: seq<Segment>) {
    forall i :: 0 <= i < |r| ==> SurvivorOf(r[i], buf)
  }

  lemma SurvivorsTransitive(a: seq<Segment>, b: seq<Segment>, c: seq<Segment>)
    requires Survivors(a, b) && Survivors(b, c)
    ensures Survivors(a, c)
  {
    forall i | 0 <= i < |a| ensures SurvivorOf(a[i], c) {
      assert SurvivorOf(a[i], b);
      var j :| 0 <= j < |b| && SameContent(a[i], b[j]);
      assert SurvivorOf(b[j], c);
      var k :| 0 <= k < |c| && SameContent(b[j], c[k]);
      assert SameContent(a[i], c[k]);
    }
  }

  lemma RemovalSurvives(buf: seq<Segment>, k: nat)
    requires k < |buf|
    ensures Survivors(buf[..k] + buf[k + 1..], buf)
  {
    var r := buf[..k] + buf[k + 1..];
    forall i | 0 <= i < |r| ensures SurvivorOf(r[i], buf) {
      assert SameContent(r[i], buf[if i < k then i else i + 1]);
    }
  }

  lemma SuffixSurvives(buf: seq<Segment>, k: nat)
    requires k <= |buf|
    ensures Survivors(buf[k..], buf)
  {
    forall i | 0 <= i < |buf[k..]| ensures SurvivorOf(buf[k..][i], buf) {
      assert SameContent(buf[k..][i], buf[k + i]);
    }
  }

  lemma SegmentSurvivors(m: Arith, s: State, newest: Newest, w: Wire, now: u32)
    ensures Survivors(InputSegment(m, s, newest, w, now).0.sndBuf, s.sndBuf)
  {
    hide Before, UpdateAck, Survivors, ParseData, MoveToRecvQueue;
    var k := DropUnaPops(m, s.sndBuf, w.una);
    SuffixSurvives(s.sndBuf, k);
    SuffixSurvives(s.sndBuf, 0);
    var buf := s.sndBuf[k..];
    var j := RemoveSnAt(buf, w.sn);
    if j < |buf| {
      RemovalSurvives(buf, j);
      SurvivorsTransitive(RemoveSn(buf, w.sn), buf, s.sndBuf);
    }
    assert s.sndBuf[0..] == s.sndBuf;
  }

  lemma {:induction false} SegmentsSurvivors(m: Arith, s: State, newest: Newest, ws: seq<Wire>, now: u32)
    ensures Survivors(InputSegments(m, s, newest, ws, now).0.sndBuf, s.sndBuf)
    decreases |ws|
  {
    if ws != [] {
      SegmentSurvivors(m, s, newest, ws[0], now);
      var (s1, newest1) := InputSegment(m, s, newest, ws[0], now);
      SegmentsSurvivors(m, s1, newest1, ws[1..], now);
      hide Survivors, InputSegment;
      SurvivorsTransitive(InputSegments(m, s1, newest1, ws[1..], now).0.sndBuf, s1.sndBuf, s.sndBuf);
    }
  }

  lemma BumpSurvives(m: Arith, buf: seq<Segment>, sn: int, ts: u32)
    ensures Survivors(BumpFastack(m, buf, sn, ts), buf)
  {
    BumpKeepsNumbers(m, buf, sn, ts);
    hide Before;
    var r := BumpFastack(m, buf, sn, ts);
    forall i | 0 <= i < |r| ensures SurvivorOf(r[i], buf) {
      assert r[i] == buf[i] || r[i] == BumpOne(buf[i], ts);
      assert SameContent(r[i], buf[i]);
    }
  }

  /** An incoming packet changes nothing of the segments it leaves in the send buffer but their
      fast-acknowledgement counts: numbers, contents, timers and transmission counts stay. */
  lemma InputSurvivors(m: Arith, s: State, ws: seq<Wire>, now: u32)
    ensures Survivors(Input(m, s, ws, now).sndBuf, s.sndBuf)
  {
    hide Survivors, Before, GrowCwnd, InputSegments, BumpFastack;
    SegmentsSurvivors(m, s, NoAck, ws, now);
    var (s1, newest) := InputSegments(m, s, NoAck, ws, now);
    if newest.Newest? {
      BumpSurvives(m, s1.sndBuf, newest.sn, newest.ts);
      SurvivorsTransitive(BumpFastack(m, s1.sndBuf, newest.sn, newest.ts), s1.sndBuf, s.sndBuf);
    }
  }
}
