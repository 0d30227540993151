/** Facts the loops of the engine's methods rest on: one turn of a loop is one unfolding of the
    function that specifies it. */
module EngineLoops {
  import opened Word
  import opened Protocol
  import opened EngineSpec
  import opened Fragments
  import opened SendSide
  import opened Packing

  lemma SendInvIgnoresQueue(s: State, r: State)
    requires SendInv(Wrapping, s) && r == s.(sndQueue := r.sndQueue)
    ensures SendInv(Wrapping, r)
  {
  }

  /** How many fragments are left after one. */
  lemma CountLeft(len: nat, mss: int, n: nat)
    requires mss > 0 && len > 0 && FragmentCount(len, mss) == n
    ensures n == 1 <==> len <= mss
    ensures len > mss ==> n > 1 && FragmentCount(len - mss, mss) == n - 1
  {
    if len > mss {
      CountStep(len, mss);
      CountPositive(len - mss, mss);
    }
  }

  lemma CountPositive(len: nat, mss: int)
    requires mss > 0 && len > 0
    ensures FragmentCount(len, mss) >= 1
  {
    if len > mss { CountStep(len, mss); }
  }

  lemma FragmentFront(data: Bytes, mss: int, streamMode: bool)
    requires mss > 0 && |data| > 0
    ensures |data| <= mss ==> Fragment(data, mss, streamMode) == [Frag(0, data)]
    ensures |data| > mss ==>
              Fragment(data, mss, streamMode) ==
              [Frag(if streamMode then 0 else (FragmentCount(|data|, mss) - 1) % 0x100, data[..mss])]
                + Fragment(data[mss..], mss, streamMode)
  {
    if |data| > mss {
      FragmentShape(data[mss..], mss, streamMode);
      CountStep(|data|, mss);
    }
    hide FragmentCount;
  }

  // ---- Binary search ----

  /** In the send buffer, distances from a number in flight ascend, and only that number is at distance 0. */
  lemma DistancesAscend(s: State, sn: int)
    requires SendCore(Wrapping, s) && InFlight(Wrapping, s, sn) && Canonical(Wrapping, sn)
    ensures forall i, j :: 0 <= i < j < |s.sndBuf| ==> TimeDiff(s.sndBuf[i].sn, sn) < TimeDiff(s.sndBuf[j].sn, sn)
    ensures forall i :: 0 <= i < |s.sndBuf| ==> (TimeDiff(s.sndBuf[i].sn, sn) == 0 <==> s.sndBuf[i].sn == sn)
  {
    var una, n := s.sndUna, Off(Wrapping, s.sndNxt, s.sndUna);
    OffAdd(Wrapping, una, n, una);
    OffInjective(Wrapping, Add(Wrapping, una, n), s.sndNxt, una);
    InWindow(Wrapping, sn, una, n);
    forall i | 0 <= i < |s.sndBuf|
      ensures TimeDiff(s.sndBuf[i].sn, sn) == Off(Wrapping, s.sndBuf[i].sn, una) - Off(Wrapping, sn, una)
    {
      DiffIsOffsets(Wrapping, s.sndBuf[i].sn, sn, una);
    }
    forall i | 0 <= i < |s.sndBuf| ensures TimeDiff(s.sndBuf[i].sn, sn) == 0 <==> s.sndBuf[i].sn == sn {
      if TimeDiff(s.sndBuf[i].sn, sn) == 0 { OffInjective(Wrapping, s.sndBuf[i].sn, sn, una); }
    }
    hide Off, TimeDiff, Canonical;
  }

  /** The position a binary search finds is the one a scan would remove. */
  lemma ScanAgrees(buf: seq<Segment>, sn: int, found: bool, pos: nat)
    requires found ==> pos < |buf| && buf[pos].sn == sn && forall i :: 0 <= i < |buf| && i != pos ==> buf[i].sn != sn
    requires !found ==> forall i :: 0 <= i < |buf| ==> buf[i].sn != sn
    ensures RemoveSn(buf, sn) == if found then buf[..pos] + buf[pos + 1..] else buf
  {
    var k := RemoveSnAt(buf, sn);
  }

  // ---- Output ----

  lemma EncodeAllSnoc(queue: seq<seq<Wire>>, d: seq<Wire>)
    ensures EncodeAll(queue + [d]) == EncodeAll(queue) + [EncodeDatagram(d)]
  {
    hide EncodeDatagram;
  }

  lemma OutputAllSnoc(out: Output, mtu: int, ws: seq<Wire>, w: Wire)
    ensures OutputAll(out, mtu, ws + [w]) == OutputSegment(OutputAll(out, mtu, ws), mtu, w)
  {
    assert (ws + [w])[..|ws|] == ws;
    hide OutputSegment;
  }

  // ---- Marking ----

  /** The elements of `buf` at `indices`. */
  function Pick(buf: seq<Segment>, indices: seq<nat>): seq<Segment>
    requires forall k :: k in indices ==> k < |buf|
  {
    seq(|indices|, j requires 0 <= j < |indices| => assert indices[j] in indices; buf[indices[j]])
  }

  lemma ToSendSnoc(cfg: Config, rto: u32, buf: seq<Segment>, now: u32, i: nat)
    requires i < |buf|
    ensures ToSend(cfg, rto, buf[..i + 1], now) ==
            ToSend(cfg, rto, buf[..i], now)
              + (if MarkOf(cfg, buf[i], now).Idle? then [] else [Marked(cfg, rto, buf[i], now)])
  {
    assert buf[..i + 1][..i] == buf[..i];
    hide MarkOf, Marked;
  }

  lemma AnyMarkSnoc(cfg: Config, buf: seq<Segment>, now: u32, i: nat, mark: Mark)
    requires i < |buf|
    ensures AnyMark(cfg, buf[..i + 1], now, mark) <==>
            AnyMark(cfg, buf[..i], now, mark) || MarkOf(cfg, buf[i], now) == mark
  {
    hide MarkOf;
    if AnyMark(cfg, buf[..i], now, mark) {
      var k :| 0 <= k < i && MarkOf(cfg, buf[..i][k], now) == mark;
      assert buf[..i + 1][k] == buf[..i][k];
    }
    if MarkOf(cfg, buf[i], now) == mark { assert buf[..i + 1][i] == buf[i]; }
    if AnyMark(cfg, buf[..i + 1], now, mark) {
      var k :| 0 <= k < i + 1 && MarkOf(cfg, buf[..i + 1][k], now) == mark;
      if k < i { assert buf[..i][k] == buf[..i + 1][k]; }
    }
  }

  /** No segment has used up its transmissions. */
  ghost predicate AllAlive(segs: seq<Segment>, deadLink: u32) {
    forall i :: 0 <= i < |segs| ==> segs[i].xmit < deadLink
  }

  lemma AliveOrDead(segs: seq<Segment>, deadLink: u32)
    ensures AnyDead(segs, deadLink) <==> !AllAlive(segs, deadLink)
  {
  }

  lemma {:induction false} ThroughDeadAt(segs: seq<Segment>, deadLink: u32, j: nat)
    requires j < |segs| && AllAlive(segs[..j], deadLink) && segs[j].xmit >= deadLink
    ensures ThroughDead(segs, deadLink) == segs[..j + 1]
    decreases j
  {
    if j > 0 {
      assert segs[..j][0] == segs[0];
      var rest := segs[1..];
      assert rest[..j - 1] == segs[..j][1..];
      ThroughDeadAt(rest, deadLink, j - 1);
      assert [segs[0]] + rest[..j] == segs[..j + 1];
    } else {
      assert [segs[0]] == segs[..1];
    }
  }

  lemma {:induction false} ThroughDeadNone(segs: seq<Segment>, deadLink: u32)
    requires AllAlive(segs, deadLink)
    ensures ThroughDead(segs, deadLink) == segs
  {
    if segs != [] {
      assert segs == [segs[0]] + segs[1..];
      ThroughDeadNone(segs[1..], deadLink);
    }
  }

  // ---- What the send window reads ----

  lemma SendInvReads(s: State, r: State)
    requires SendInv(Wrapping, s)
    requires r.cfg == s.cfg && r.sndUna == s.sndUna && r.sndNxt == s.sndNxt && r.sndBuf == s.sndBuf
    ensures SendInv(Wrapping, r)
  {
  }

  lemma CoreAfterUna(s: State, w: Wire)
    requires SendCore(Wrapping, s)
    ensures SendCore(Wrapping, ParseUna(Wrapping, s, w.una))
  {
    hide Off, Canonical, Before;
    var k := DropUnaPops(Wrapping, s.sndBuf, w.una);
    AscendingSuffix(Wrapping, s.sndBuf, k, s.sndUna, s.sndNxt);
  }

  lemma CoreReads(s: State, r: State)
    requires SendCore(Wrapping, s)
    requires r.cfg == s.cfg && r.sndUna == s.sndUna && r.sndNxt == s.sndNxt && r.sndBuf == s.sndBuf
    ensures SendCore(Wrapping, r)
  {
  }

  // ---- One turn of each scan ----

  lemma TakeStep(queue: seq<Frag>, room: int)
    ensures queue == [] || |queue[0].data| > room ==> TakeMessage(queue, room) == ([], queue)
    ensures queue != [] && |queue[0].data| <= room && queue[0].frg == 0 ==>
            TakeMessage(queue, room) == (queue[0].data, queue[1..])
    ensures queue != [] && |queue[0].data| <= room && queue[0].frg != 0 ==>
              var more := TakeMessage(queue[1..], room - |queue[0].data|);
              TakeMessage(queue, room) == (queue[0].data + more.0, more.1)
  {
  }

  lemma BumpStep(buf: seq<Segment>, i: nat, sn: int, ts: u32)
    requires i < |buf|
    ensures !SeqBefore(buf[i].sn, sn) ==> BumpFastack(Wrapping, buf[i..], sn, ts) == buf[i..]
    ensures SeqBefore(buf[i].sn, sn) ==>
              BumpFastack(Wrapping, buf[i..], sn, ts)
                == [BumpOne(buf[i], ts)] + BumpFastack(Wrapping, buf[i + 1..], sn, ts)
  {
    assert buf[i..][0] == buf[i] && buf[i..][1..] == buf[i + 1..];
    hide TimeDiff, BumpOne;
  }

  lemma MoveStep(s: State)
    ensures s.rcvNxt !in s.rcvBuf || |s.rcvQueue| >= s.cfg.rcvWnd ==> MoveToRecvQueue(Wrapping, s) == s
    ensures s.rcvNxt in s.rcvBuf && |s.rcvQueue| < s.cfg.rcvWnd ==>
              MoveToRecvQueue(Wrapping, s) == MoveToRecvQueue(Wrapping, MoveOne(Wrapping, s))
  {
  }

  lemma TakeOut(buf: map<int, Frag>, k: int)
    requires k in buf
    ensures |buf - {k}| < |buf| && (buf - {k})[k := buf[k]] == buf
  {
    assert (buf - {k}).Keys == buf.Keys - {k};
    assert |buf - {k}| == |(buf - {k}).Keys| && |buf| == |buf.Keys|;
  }

  lemma BumpNothing(sn: int, ts: u32)
    ensures BumpFastack(Wrapping, [], sn, ts) == []
  {
  }

  // ---- One turn of the packet loop ----

  lemma PeekHeader(b: Bytes)
    requires |b| >= 24
    ensures DecodeHeader(b).Some? && 24 + DecodeHeader(b).value.len == FrontSize(b)
    ensures HoldsSegment(b) <==> |b| >= FrontSize(b)
  {
  }

  lemma NothingLeft(s: State, newest: Newest, b: Bytes, now: u32)
    requires |b| >= 24 ==> |b| < FrontSize(b)
    ensures InputSegments(Wrapping, s, newest, ParseDatagram(b), now) == (s, newest)
  {
    ParseEnds(b);
  }

  lemma OneSegment(s: State, newest: Newest, b: Bytes, now: u32)
    requires HoldsSegment(b)
    ensures DecodeWire(b[..FrontSize(b)]).Some?
    ensures var w := DecodeWire(b[..FrontSize(b)]).value;
            && 0 <= w.sn < M32
            && var (s1, newest1) := InputSegment(Wrapping, s, newest, w, now);
               InputSegments(Wrapping, s, newest, ParseDatagram(b), now)
                 == InputSegments(Wrapping, s1, newest1, ParseDatagram(b[FrontSize(b)..]), now)
  {
    FrontSegment(b);
    var w := DecodeWire(b[..FrontSize(b)]).value;
    assert ParseDatagram(b) == [w] + ParseDatagram(b[FrontSize(b)..]);
    assert ([w] + ParseDatagram(b[FrontSize(b)..]))[1..] == ParseDatagram(b[FrontSize(b)..]);
    hide InputSegment, EncodeWire, FrontSize, GetU32, GetU16;
  }

  /** Replacing the first element of what is left. */
  lemma ReplaceHead(done: seq<Segment>, rest: seq<Segment>, seg: Segment)
    requires rest != []
    ensures (done + rest)[|done| := seg] == (done + [seg]) + rest[1..]
  {
  }

  lemma Regroup(done: seq<Segment>, seg: Segment, rest: seq<Segment>)
    ensures done + ([seg] + rest) == (done + [seg]) + rest
  {
  }

  // ---- Flush loops ----

  lemma EmptyDatagram(ws: seq<Wire>)
    ensures EncodeDatagram(ws) == [] <==> ws == []
  {
    if ws != [] { assert DatagramSize(ws) >= WireSize(ws[|ws| - 1]); }
  }

  lemma EncodeOne(w: Wire)
    ensures EncodeDatagram([w]) == EncodeWire(w)
  {
    hide EncodeWire;
    EncodeSnoc([], w);
    assert [] + [w] == [w] && [] + EncodeWire(w) == EncodeWire(w);
  }

  lemma EmptyOutput(out: Output, mtu: int)
    ensures OutputAll(out, mtu, []) == out
  {
  }

  lemma NumberStep(s: State, now: u32)
    ensures s.sndQueue == [] || !Before(Wrapping, s.sndNxt, Add(Wrapping, s.sndUna, EffectiveWindow(s))) ==>
              MoveToSendBuf(Wrapping, s, now) == s
    ensures s.sndQueue != [] && Before(Wrapping, s.sndNxt, Add(Wrapping, s.sndUna, EffectiveWindow(s))) ==>
              MoveToSendBuf(Wrapping, s, now) == MoveToSendBuf(Wrapping, NumberOne(Wrapping, s, now), now)
  {
    hide NumberOne, TimeDiff, EffectiveWindow;
  }

  lemma NothingToSend(cfg: Config, rto: u32, buf: seq<Segment>, now: u32)
    ensures ToSend(cfg, rto, buf[..0], now) == [] && Pick(MarkAll(cfg, rto, buf, now), []) == []
  {
    assert buf[..0] == [];
  }

  lemma PickSnoc(buf: seq<Segment>, indices: seq<nat>, i: nat)
    requires i < |buf| && forall k :: k in indices ==> k < |buf|
    ensures Pick(buf, indices + [i]) == Pick(buf, indices) + [buf[i]]
  {
  }

  lemma NoneYet(segs: seq<Segment>, deadLink: u32)
    ensures AllAlive(segs[..0], deadLink)
  {
  }

  lemma StillAlive(segs: seq<Segment>, deadLink: u32, j: nat)
    requires j < |segs| && AllAlive(segs[..j], deadLink) && segs[j].xmit < deadLink
    ensures AllAlive(segs[..j + 1], deadLink)
  {
    var longer := segs[..j + 1];
    forall i | 0 <= i < |longer| ensures longer[i].xmit < deadLink {
      if i < j { assert segs[..j][i] == longer[i]; }
    }
  }

  lemma DeadAt(s: State, segs: seq<Segment>, deadLink: u32, j: nat)
    requires j < |segs| && AllAlive(segs[..j], deadLink) && segs[j].xmit >= deadLink
    ensures AnyDead(segs, deadLink)
    ensures DataWires(s, ThroughDead(segs, deadLink)) == DataWires(s, segs)[..j + 1]
  {
    ThroughDeadAt(segs, deadLink, j);
    hide ThroughDead;
  }
}
