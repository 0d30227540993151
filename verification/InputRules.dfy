/** The rules of `input`, packet by packet: other conversations are skipped, the last segment sets the
    peer's window, and of all acknowledgements in a packet one is credited with overtaking. */
module InputRules {
  import opened Word
  import opened Protocol
  import opened EngineSpec
  import opened SendSide
  import opened AckTiming
  import opened WindowRange

  // ---- Other conversations ----

  /** The segments of a packet that belong to the conversation. */
  function Own(conv: u32, ws: seq<Wire>): seq<Wire> {
    if ws == [] then []
    else Own(conv, ws[..|ws| - 1]) + (if ws[|ws| - 1].conv == conv then [ws[|ws| - 1]] else [])
  }

  lemma ForeignIsNothing(m: Arith, s: State, newest: Newest, w: Wire, now: u32)
    requires w.conv != s.conv
    ensures InputSegment(m, s, newest, w, now) == (s, newest)
  {
    hide ParseUna, InputAck, InputPush, TrackNewest;
  }

  lemma {:induction false} OwnSegments(m: Arith, s: State, newest: Newest, ws: seq<Wire>, now: u32)
    ensures InputSegments(m, s, newest, ws, now) == InputSegments(m, s, newest, Own(s.conv, ws), now)
    decreases |ws|
  {
    hide InputSegment;
    if ws != [] {
      var init, w := ws[..|ws| - 1], ws[|ws| - 1];
      OwnSegments(m, s, newest, init, now);
      SegmentsSnoc(m, s, newest, init, w, now);
      SegmentsSnoc(m, s, newest, Own(s.conv, init), w, now);
      assert ws == init + [w];
      var (s1, newest1) := InputSegments(m, s, newest, init, now);
      if w.conv != s.conv {
        ForeignIsNothing(m, s1, newest1, w, now);
        assert Own(s.conv, init) + [] == Own(s.conv, init);
      }
    }
  }

  /** A packet does just what its segments of the conversation do; the rest might as well not be there. */
  lemma ForeignIsSkipped(m: Arith, s: State, ws: seq<Wire>, now: u32)
    ensures Input(m, s, ws, now) == Input(m, s, Own(s.conv, ws), now)
  {
    OwnSegments(m, s, NoAck, ws, now);
    hide InputSegments, BumpFastack, InFlight, UpdateCwnd, Own;
  }

  // ---- The peer's window ----

  lemma SegmentReports(m: Arith, s: State, newest: Newest, w: Wire, now: u32)
    requires w.conv == s.conv
    ensures var r := InputSegment(m, s, newest, w, now).0;
            r.wnd == s.wnd.(rmt := w.wnd) && r.probe == s.probe.(askTell := s.probe.askTell || w.cmd == CMD_WASK)
  {
    hide UpdateAck, InputPush, DropUna, RemoveSn, InFlight, TrackNewest;
  }

  lemma {:induction false} OwnConv(conv: u32, ws: seq<Wire>)
    ensures forall w :: w in Own(conv, ws) <==> w in ws && w.conv == conv
  {
    if ws != [] {
      OwnConv(conv, ws[..|ws| - 1]);
      assert ws == ws[..|ws| - 1] + [ws[|ws| - 1]];
    }
  }

  lemma {:induction false} SegmentsReport(m: Arith, s: State, newest: Newest, ws: seq<Wire>, now: u32)
    requires forall w :: w in ws ==> w.conv == s.conv
    ensures var r := InputSegments(m, s, newest, ws, now).0;
            && r.wnd == s.wnd.(rmt := if ws == [] then s.wnd.rmt else ws[|ws| - 1].wnd)
            && r.probe == s.probe.(askTell := r.probe.askTell)
            && (r.probe.askTell <==> s.probe.askTell || exists w :: w in ws && w.cmd == CMD_WASK)
    decreases |ws|
  {
    if ws != [] {
      var init, w := ws[..|ws| - 1], ws[|ws| - 1];
      assert forall v :: v in init ==> v in ws;
      hide InputSegment;
      SegmentsReport(m, s, newest, init, now);
      SegmentsSnoc(m, s, newest, init, w, now);
      assert ws == init + [w];
      var (s1, newest1) := InputSegments(m, s, newest, init, now);
      SegmentReports(m, s1, newest1, w, now);
      if v :| v in ws && v.cmd == CMD_WASK { assert v in init || v == w; }
    }
  }

  /** The peer's window is what the last segment of the conversation said, and an announcement is pending
      if and only if it was before or the peer asked. */
  lemma InputReports(m: Arith, s: State, ws: seq<Wire>, now: u32)
    ensures var (r, own) := (Input(m, s, ws, now), Own(s.conv, ws));
            && r.wnd.rmt == (if own == [] then s.wnd.rmt else own[|own| - 1].wnd)
            && r.probe == s.probe.(askTell := r.probe.askTell)
            && (r.probe.askTell <==> s.probe.askTell || exists w :: w in ws && w.conv == s.conv && w.cmd == CMD_WASK)
  {
    var own := Own(s.conv, ws);
    OwnConv(s.conv, ws);
    OwnSegments(m, s, NoAck, ws, now);
    SegmentsReport(m, s, NoAck, own, now);
    ClosingKeeps(m, s, ws, now);
    hide Input, InputSegments, Own;
    if w :| w in ws && w.conv == s.conv && w.cmd == CMD_WASK { assert w in own; }
  }

  lemma ClosingKeeps(m: Arith, s: State, ws: seq<Wire>, now: u32)
    ensures var (r, s1) := (Input(m, s, ws, now), InputSegments(m, s, NoAck, ws, now).0);
            r.wnd.rmt == s1.wnd.rmt && r.probe == s1.probe
  {
    hide InputSegments, BumpFastack, InFlight, Mss, U, DivCeil;
  }

  // ---- The acknowledgement that is credited ----

  /** The acknowledgements in a packet. */
  function AcksIn(conv: u32, ws: seq<Wire>): seq<Ack> {
    if ws == [] then []
    else
      var w := ws[|ws| - 1];
      AcksIn(conv, ws[..|ws| - 1]) + (if w.conv == conv && w.cmd == CMD_ACK then [Ack(w.sn, w.ts)] else [])
  }

  /** `a` is later than `b` in number and in time. */
  predicate Beats(m: Arith, a: Ack, b: Ack) {
    After(m, a.sn, b.sn) && 0 < Age(b.ts, a.ts) < HALF
  }

  /** Which of them is credited: the first, until a later one beats the one credited so far. */
  function Credited(m: Arith, acks: seq<Ack>): Ack
    requires acks != []
  {
    if |acks| == 1 then acks[0]
    else
      var best, last := Credited(m, acks[..|acks| - 1]), acks[|acks| - 1];
      if Beats(m, last, best) then last else best
  }

  /** It is one of them, and none that came after it beats it. Where numbers and time stamps ascend, as
      those of an orderly stream do, it is the last. */
  lemma {:induction false} CreditedIsUnbeaten(m: Arith, acks: seq<Ack>) returns (k: nat)
    requires acks != []
    ensures k < |acks| && Credited(m, acks) == acks[k]
    ensures forall j :: k < j < |acks| ==> !Beats(m, acks[j], acks[k])
    ensures (forall j :: 0 < j < |acks| ==> Beats(m, acks[j], acks[j - 1])) ==> k == |acks| - 1
  {
    hide Beats;
    if |acks| == 1 {
      k := 0;
    } else {
      var n := |acks| - 1;
      k := CreditedIsUnbeaten(m, acks[..n]);
      if Beats(m, acks[n], acks[k]) { k := n; }
    }
  }

  lemma BeatsIsTracked(m: Arith, best: Ack, a: Ack)
    ensures TrackNewest(m, Newest(best.sn, best.ts), a.sn, a.ts) ==
            (if Beats(m, a, best) then Newest(a.sn, a.ts) else Newest(best.sn, best.ts))
  {
    AgeIsDiff(best.ts, a.ts);
    hide After;
  }

  /** What the packet loop remembers of the acknowledgements `acks`. */
  function Remembered(m: Arith, acks: seq<Ack>): Newest {
    if acks == [] then NoAck else Newest(Credited(m, acks).sn, Credited(m, acks).ts)
  }

  lemma {:induction false} NewestIsCredited(m: Arith, s: State, ws: seq<Wire>, now: u32)
    ensures InputSegments(m, s, NoAck, ws, now).1 == Remembered(m, AcksIn(s.conv, ws))
    decreases |ws|
  {
    if ws != [] {
      var init, w := ws[..|ws| - 1], ws[|ws| - 1];
      assert ws == init + [w];
      NewestIsCredited(m, s, init, now);
      SegmentsSnoc(m, s, NoAck, init, w, now);
      var (s1, newest1) := InputSegments(m, s, NoAck, init, now);
      SegmentTracks(m, s1, newest1, w, now);
      AcksSnoc(s.conv, init, w);
      var acks := AcksIn(s.conv, init);
      CreditedNext(m, acks, Ack(w.sn, w.ts));
      assert s1.conv == s.conv;
      hide InputSegment, TrackNewest, Credited, AcksIn, InputSegments, Remembered;
      if w.conv == s.conv && w.cmd == CMD_ACK {
        assert AcksIn(s.conv, ws) == acks + [Ack(w.sn, w.ts)];
      } else {
        assert AcksIn(s.conv, ws) == acks;
      }
    }
  }

  /** One more acknowledgement, and which is credited then. */
  lemma CreditedNext(m: Arith, acks: seq<Ack>, a: Ack)
    ensures TrackNewest(m, Remembered(m, acks), a.sn, a.ts) == Remembered(m, acks + [a])
  {
    assert (acks + [a])[..|acks|] == acks;
    if acks == [] {
      FirstIsTracked(m, a.sn, a.ts);
    } else {
      BeatsIsTracked(m, Credited(m, acks), a);
    }
    hide TrackNewest, Beats;
  }

  lemma AcksSnoc(conv: u32, ws: seq<Wire>, w: Wire)
    ensures AcksIn(conv, ws + [w]) ==
            AcksIn(conv, ws) + (if w.conv == conv && w.cmd == CMD_ACK then [Ack(w.sn, w.ts)] else [])
  {
    assert (ws + [w])[..|ws|] == ws;
  }

  lemma FirstIsTracked(m: Arith, sn: int, ts: u32)
    ensures TrackNewest(m, NoAck, sn, ts) == Newest(sn, ts)
  {
  }

  lemma SegmentTracks(m: Arith, s: State, newest: Newest, w: Wire, now: u32)
    ensures InputSegment(m, s, newest, w, now).1 ==
            (if w.conv == s.conv && w.cmd == CMD_ACK then TrackNewest(m, newest, w.sn, w.ts) else newest)
  {
    hide ParseUna, InputAck, InputPush, TrackNewest;
  }

  // ---- Overtaking ----

  /** Segment `seg` is overtaken by acknowledgement `a`: it lies before it in the window, and was not sent
      after what `a` acknowledges. */
  predicate Overtaken(m: Arith, una: int, nxt: int, seg: Segment, a: Ack) {
    Off(m, seg.sn, una) < Off(m, a.sn, una) < Off(m, nxt, una) && 0 <= Off(m, a.sn, una) && Age(seg.ts, a.ts) < HALF
  }

  /** One more overtaking, if it is one. */
  function Counted(m: Arith, una: int, nxt: int, seg: Segment, a: Ack): Segment {
    if Overtaken(m, una, nxt, seg, a) then seg.(fastack := U(seg.fastack + 1)) else seg
  }

  lemma {:induction false} BumpCounts(m: Arith, buf: seq<Segment>, a: Ack, una: int, nxt: int)
    requires Ascending(m, buf, una, nxt) && 0 <= Off(m, a.sn, una) < Off(m, nxt, una) <= 65535
    ensures var r := BumpFastack(m, buf, a.sn, a.ts);
            |r| == |buf| && forall i :: 0 <= i < |buf| ==> r[i] == Counted(m, una, nxt, buf[i], a)
    decreases |buf|
  {
    if buf != [] {
      forall i | 0 <= i < |buf| ensures Before(m, buf[i].sn, a.sn) <==> Off(m, buf[i].sn, una) < Off(m, a.sn, una) {
        DiffIsOffsets(m, buf[i].sn, a.sn, una);
      }
      AgeIsDiff(buf[0].ts, a.ts);
      hide Off, TimeDiff, Age, Before;
      if Before(m, buf[0].sn, a.sn) {
        AscendingSuffix(m, buf, 1, una, nxt);
        BumpCounts(m, buf[1..], a, una, nxt);
      }
    }
  }

  // ---- What a packet takes out of the send buffer ----

  /** `w` acknowledges number `sn`: by name, or by what it says was received before. */
  predicate Settles(m: Arith, conv: u32, w: Wire, sn: int) {
    w.conv == conv && (Before(m, sn, w.una) || (w.cmd == CMD_ACK && w.sn == sn))
  }

  predicate Settled(m: Arith, conv: u32, ws: seq<Wire>, sn: int) {
    exists w :: w in ws && Settles(m, conv, w, sn)
  }

  /** A claim that is not half the circle away, where comparing it with the numbers of one window goes
      both ways. */
  predicate Definite(m: Arith, claim: int, una: int) {
    m.Exact? || !(HALF <= Off(m, claim, una) < HALF + 65536)
  }

  lemma DefiniteIsMonotone(m: Arith, a: int, b: int, claim: int, una: int)
    requires Definite(m, claim, una) && 0 <= Off(m, a, una) <= Off(m, b, una) <= 65535
    ensures Before(m, b, claim) ==> Before(m, a, claim)
  {
    if m.Wrapping? {
      var (p, q, d) := (Off(m, a, una), Off(m, b, una), Off(m, claim, una));
      WrappedDiff(a, claim, una);
      WrappedDiff(b, claim, una);
    }
  }

  lemma WrappedDiff(x: int, y: int, base: int)
    ensures TimeDiff(x, y) == Signed(U(x - base) - U(y - base))
  {
    var d: int := U(y - base);
    WrapShift(x - base, -d);
    WrapShift(y - base, x - base);
  }

  lemma DropSettles(m: Arith, s: State, claim: int, i: nat)
    requires SendCore(m, s) && i < |s.sndBuf| && Definite(m, claim, s.sndUna)
    ensures s.sndBuf[i] in DropUna(m, s.sndBuf, claim) <==> !Before(m, s.sndBuf[i].sn, claim)
  {
    var k := DropUnaPops(m, s.sndBuf, claim);
    if k <= i {
      DefiniteIsMonotone(m, s.sndBuf[k].sn, s.sndBuf[i].sn, claim, s.sndUna);
      assert s.sndBuf[k..][i - k] == s.sndBuf[i];
    }
    hide Before, Off, Definite;
  }

  lemma RemoveSettles(buf: seq<Segment>, sn: int, seg: Segment)
    requires forall i, j :: 0 <= i < j < |buf| ==> buf[i].sn != buf[j].sn
    ensures seg in RemoveSn(buf, sn) <==> seg in buf && seg.sn != sn
  {
    var k := RemoveSnAt(buf, sn);
    if k < |buf| {
      var r := buf[..k] + buf[k + 1..];
      if seg in buf && seg.sn != sn {
        var i :| 0 <= i < |buf| && buf[i] == seg;
        assert r[if i < k then i else i - 1] == seg;
      }
      if i :| 0 <= i < |r| && r[i] == seg { assert seg == buf[if i < k then i else i + 1]; }
    }
    hide RemoveSn;
  }

  lemma AscendingIsDistinct(m: Arith, buf: seq<Segment>, una: int, nxt: int)
    requires Ascending(m, buf, una, nxt)
    ensures forall i, j :: 0 <= i < j < |buf| ==> buf[i].sn != buf[j].sn
  {
  }

  lemma SegmentSettles(m: Arith, s: State, newest: Newest, w: Wire, now: u32, i: nat)
    requires SendCore(m, s) && i < |s.sndBuf| && (w.conv == s.conv ==> Definite(m, w.una, s.sndUna))
    ensures s.sndBuf[i] in InputSegment(m, s, newest, w, now).0.sndBuf <==> !Settles(m, s.conv, w, s.sndBuf[i].sn)
  {
    if w.conv == s.conv {
      var seg, buf := s.sndBuf[i], DropUna(m, s.sndBuf, w.una);
      DropSettles(m, s, w.una, i);
      DropKeepsAscending(m, s, w.una);
      AscendingIsDistinct(m, buf, s.sndUna, s.sndNxt);
      RemoveSettles(buf, w.sn, seg);
      if w.sn == seg.sn { FlightIsRange(m, s, w.sn); }
      SegmentBuffer(m, s, newest, w, now);
    }
    hide InputSegment, Before, Off, Definite, DropUna, RemoveSn, InFlight;
  }

  lemma DropKeepsAscending(m: Arith, s: State, claim: int)
    requires SendCore(m, s)
    ensures Ascending(m, DropUna(m, s.sndBuf, claim), s.sndUna, s.sndNxt)
  {
    var k := DropUnaPops(m, s.sndBuf, claim);
    AscendingSuffix(m, s.sndBuf, k, s.sndUna, s.sndNxt);
    hide Ascending, DropUna;
  }

  lemma SegmentBuffer(m: Arith, s: State, newest: Newest, w: Wire, now: u32)
    requires w.conv == s.conv
    ensures var (r, buf) := (InputSegment(m, s, newest, w, now).0.sndBuf, DropUna(m, s.sndBuf, w.una));
            r == (if w.cmd == CMD_ACK && InFlight(m, s, w.sn) then RemoveSn(buf, w.sn) else buf)
  {
    hide UpdateAck, DropUna, RemoveSn, TrackNewest, Before;
  }

  lemma SegmentKeepsMembers(m: Arith, s: State, newest: Newest, w: Wire, now: u32, seg: Segment)
    requires seg in InputSegment(m, s, newest, w, now).0.sndBuf
    ensures seg in s.sndBuf
  {
    if w.conv == s.conv {
      SegmentBuffer(m, s, newest, w, now);
      var k := DropUnaPops(m, s.sndBuf, w.una);
      var buf := DropUna(m, s.sndBuf, w.una);
      var j := RemoveSnAt(buf, w.sn);
      assert seg in buf;
    } else {
      ForeignIsNothing(m, s, newest, w, now);
    }
    hide InputSegment, DropUna, RemoveSn, InFlight;
  }

  lemma {:induction false} SegmentsKeepMembers(m: Arith, s: State, newest: Newest, ws: seq<Wire>, now: u32,
      seg: Segment)
    requires seg in InputSegments(m, s, newest, ws, now).0.sndBuf
    ensures seg in s.sndBuf
    decreases |ws|
  {
    if ws != [] {
      var (s1, newest1) := InputSegment(m, s, newest, ws[0], now);
      hide InputSegment;
      SegmentsKeepMembers(m, s1, newest1, ws[1..], now, seg);
      SegmentKeepsMembers(m, s, newest, ws[0], now, seg);
    }
  }

  lemma {:induction false} SegmentsSettle(m: Arith, s: State, newest: Newest, ws: seq<Wire>, now: u32, seg: Segment)
    requires SendCore(m, s) && seg in s.sndBuf
    requires forall w :: w in ws && w.conv == s.conv ==> Definite(m, w.una, s.sndUna)
    ensures seg in InputSegments(m, s, newest, ws, now).0.sndBuf <==> !Settled(m, s.conv, ws, seg.sn)
    decreases |ws|
  {
    if ws != [] {
      var i :| 0 <= i < |s.sndBuf| && s.sndBuf[i] == seg;
      SegmentSettles(m, s, newest, ws[0], now, i);
      SegmentKeepsSendCore(m, s, newest, ws[0], now);
      var (s1, newest1) := InputSegment(m, s, newest, ws[0], now);
      assert forall w :: w in ws <==> w == ws[0] || w in ws[1..];
      hide InputSegment, SendCore, Settles, Definite;
      if seg in s1.sndBuf {
        SegmentsSettle(m, s1, newest1, ws[1..], now, seg);
      } else if seg in InputSegments(m, s1, newest1, ws[1..], now).0.sndBuf {
        SegmentsKeepMembers(m, s1, newest1, ws[1..], now, seg);
        assert false;
      }
    }
  }

  lemma FlightIsRange(m: Arith, s: State, sn: int)
    requires SendCore(m, s)
    ensures InFlight(m, s, sn) <==> 0 <= Off(m, sn, s.sndUna) < Off(m, s.sndNxt, s.sndUna)
  {
    var n := Off(m, s.sndNxt, s.sndUna);
    OffBack(m, s.sndNxt, s.sndUna);
    InWindow(m, sn, s.sndUna, n);
    hide Before, Add, Off;
  }

  lemma FastackCounts(m: Arith, s: State, a: Ack)
    requires SendInv(m, s)
    ensures var r := ParseFastack(m, s, a.sn, a.ts);
            && |r.sndBuf| == |s.sndBuf| && r == s.(sndBuf := r.sndBuf)
            && forall i :: 0 <= i < |s.sndBuf| ==> r.sndBuf[i] == Counted(m, s.sndUna, s.sndNxt, s.sndBuf[i], a)
  {
    FlightIsRange(m, s, a.sn);
    if InFlight(m, s, a.sn) { BumpCounts(m, s.sndBuf, a, s.sndUna, s.sndNxt); }
    hide InFlight, Off, BumpFastack, Ascending;
  }

  /** What becomes of a segment that stays in the send buffer. */
  function Kept(m: Arith, r: State, seg: Segment, acks: seq<Ack>): Segment {
    if acks == [] then seg else Counted(m, r.sndUna, r.sndNxt, seg, Credited(m, acks))
  }

  lemma InputLeaves(m: Arith, s: State, ws: seq<Wire>, now: u32)
    requires SendInv(m, s)
    ensures var (r, kept, acks) :=
              (Input(m, s, ws, now), InputSegments(m, s, NoAck, ws, now).0.sndBuf, AcksIn(s.conv, ws));
            |r.sndBuf| == |kept| && forall i :: 0 <= i < |kept| ==> r.sndBuf[i] == Kept(m, r, kept[i], acks)
  {
    var (s1, newest) := InputSegments(m, s, NoAck, ws, now);
    SegmentsKeepSendCore(m, s, NoAck, ws, now);
    ShrinkMakesSendInv(m, s1);
    NewestIsCredited(m, s, ws, now);
    var s2 := ShrinkBuf(s1);
    if AcksIn(s.conv, ws) != [] { FastackCounts(m, s2, Credited(m, AcksIn(s.conv, ws))); }
    hide InputSegments, ParseFastack, Counted, Credited, AcksIn, SendInv, SendCore, GrowCwnd;
  }

  /** What a packet leaves of the send buffer: exactly the segments it does not acknowledge, each counted
      as overtaken once if the credited acknowledgement overtook it, and otherwise as they were. */
  lemma InputSettles(m: Arith, s: State, ws: seq<Wire>, now: u32)
    requires SendInv(m, s)
    requires forall w :: w in ws && w.conv == s.conv ==> Definite(m, w.una, s.sndUna)
    ensures var (r, acks) := (Input(m, s, ws, now), AcksIn(s.conv, ws));
            && (forall seg :: seg in s.sndBuf ==>
                  if Settled(m, s.conv, ws, seg.sn) then forall t :: t in r.sndBuf ==> t.sn != seg.sn
                  else Kept(m, r, seg, acks) in r.sndBuf)
            && (forall t :: t in r.sndBuf ==> exists seg :: seg in s.sndBuf && t == Kept(m, r, seg, acks))
  {
    var (r, kept, acks) := (Input(m, s, ws, now), InputSegments(m, s, NoAck, ws, now).0.sndBuf, AcksIn(s.conv, ws));
    InputLeaves(m, s, ws, now);
    AscendingIsDistinct(m, s.sndBuf, s.sndUna, s.sndNxt);
    forall seg | seg in kept ensures seg in s.sndBuf { SegmentsKeepMembers(m, s, NoAck, ws, now, seg); }
    forall seg | seg in s.sndBuf ensures seg in kept <==> !Settled(m, s.conv, ws, seg.sn) {
      SegmentsSettle(m, s, NoAck, ws, now, seg);
    }
    hide Input, InputSegments, AcksIn, Credited, Overtaken, Settled, Ascending;
  }
}
