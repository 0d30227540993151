/** The window-probe handshake: a sender stopped by a closed window learns of the window it has,
    from a probe of its own or from the announcement the receiver makes when it reopens. */
module WindowProbe {
  import opened Word
  import opened Protocol
  import opened EngineSpec
  import opened Packing
  import opened Network
  import opened NetworkSafety
  import opened Progress

  // ---- What a packet does to the announcement flag and the remote window ----

  lemma SegmentAsks(s: State, newest: Newest, w: Wire, now: u32)
    requires w.conv == s.conv
    ensures InputSegment(Exact, s, newest, w, now).0.probe.askTell == (s.probe.askTell || w.cmd == CMD_WASK)
    ensures InputSegment(Exact, s, newest, w, now).0.wnd.rmt == w.wnd
  {
    hide UpdateAck, InputPush, DropUna, RemoveSn, InFlight, TrackNewest;
  }

  /** A window probe in a packet leaves an announcement pending, and nothing in a packet clears one;
      the remote window becomes that of the packet's last segment. */
  lemma {:induction false} SegmentsAsk(s: State, newest: Newest, ws: seq<Wire>, now: u32)
    requires forall i :: 0 <= i < |ws| ==> ws[i].conv == s.conv
    ensures var r := InputSegments(Exact, s, newest, ws, now).0;
            && (s.probe.askTell || (exists i :: 0 <= i < |ws| && ws[i].cmd == CMD_WASK) ==> r.probe.askTell)
            && r.wnd.rmt == (if ws == [] then s.wnd.rmt else ws[|ws| - 1].wnd)
    decreases |ws|
  {
    if ws != [] {
      var (s1, newest1) := InputSegment(Exact, s, newest, ws[0], now);
      var rest := ws[1..];
      SegmentAsks(s, newest, ws[0], now);
      hide InputSegment;
      SegmentsAsk(s1, newest1, rest, now);
      if i :| 0 <= i < |ws| && ws[i].cmd == CMD_WASK {
        if i > 0 { assert rest[i - 1].cmd == CMD_WASK; }
      }
    }
  }

  lemma InputAsks(s: State, ws: seq<Wire>, now: u32)
    requires forall i :: 0 <= i < |ws| ==> ws[i].conv == s.conv
    ensures var r := Input(Exact, s, ws, now);
            && (s.probe.askTell || (exists w :: w in ws && w.cmd == CMD_WASK) ==> r.probe.askTell)
            && r.wnd.rmt == (if ws == [] then s.wnd.rmt else ws[|ws| - 1].wnd)
  {
    SegmentsAsk(s, NoAck, ws, now);
    if w :| w in ws && w.cmd == CMD_WASK {
      var i :| 0 <= i < |ws| && ws[i] == w;
      assert ws[i].cmd == CMD_WASK;
    }
    hide InputSegments, BumpFastack, InFlight, UpdateCwnd;
    CwndKeepsRemote(s, ws, now);
  }

  lemma CwndKeepsRemote(s: State, ws: seq<Wire>, now: u32)
    ensures Input(Exact, s, ws, now).wnd.rmt == InputSegments(Exact, s, NoAck, ws, now).0.wnd.rmt
  {
    hide InputSegments, BumpFastack, InFlight;
  }

  // ---- Datagrams in turn ----

  lemma {:induction false} InputsAsk(x: Node, y: Node, ds: seq<seq<Wire>>, now: u32)
    requires x.eng.conv == y.eng.conv && forall d :: d in ds ==> AllTruthful(x.eng, x.hist, d)
    requires y.eng.probe.askTell || exists d, w :: d in ds && w in d && w.cmd == CMD_WASK
    ensures NodeInputs(y, ds, now).eng.probe.askTell
    decreases |ds|
  {
    if ds != [] {
      var d0, y1 := ds[0], NodeInput(y, ds[0], now);
      assert AllTruthful(x.eng, x.hist, d0);
      ConvOf(x, y.eng.conv, d0);
      InputAsks(y.eng, d0, now);
      hide Input, AllTruthful;
      if !y.eng.probe.askTell {
        var d, w :| d in ds && w in d && w.cmd == CMD_WASK;
        if d != d0 { assert d in ds[1..]; }
      }
      InputsAsk(x, y1, ds[1..], now);
    }
  }

  /** After datagrams delivered in turn, the remote window is what the last segment said. */
  lemma {:induction false} InputsSetRemote(x: Node, y: Node, ds: seq<seq<Wire>>, now: u32, last: Wire)
    requires x.eng.conv == y.eng.conv && forall d :: d in ds ==> AllTruthful(y.eng, y.hist, d)
    requires EndsWith(ds, last)
    ensures NodeInputs(x, ds, now).eng.wnd.rmt == last.wnd
    decreases |ds|
  {
    var d0, x1 := ds[0], NodeInput(x, ds[0], now);
    assert AllTruthful(y.eng, y.hist, d0);
    ConvOf(y, x.eng.conv, d0);
    InputAsks(x.eng, d0, now);
    hide Input, AllTruthful;
    if |ds| > 1 {
      InputsSetRemote(x1, y, ds[1..], now, last);
    } else {
      assert ds[1..] == [];
    }
  }

  // ---- What a flush hands over ----

  /** The datagrams `queue` carry all of `wires`, and end with the last of them. */
  ghost predicate Carries(queue: seq<seq<Wire>>, wires: seq<Wire>) {
    && (forall w :: w in wires ==> exists d :: d in queue && w in d)
    && (wires != [] ==> EndsWith(queue, wires[|wires| - 1]))
  }

  ghost predicate EndsWith(queue: seq<seq<Wire>>, w: Wire) {
    queue != [] && var d := queue[|queue| - 1]; d != [] && d[|d| - 1] == w
  }

  lemma FlattenCarries(queue: seq<seq<Wire>>, before: seq<Wire>, wires: seq<Wire>)
    requires Flatten(queue) == before + wires && forall d :: d in queue ==> d != []
    ensures Carries(queue, wires)
  {
    forall w | w in wires ensures exists d :: d in queue && w in d {
      assert w in Flatten(queue);
      WireIsHanded(queue, w);
    }
    if wires != [] {
      var all, d := Flatten(queue), queue[|queue| - 1];
      assert d in queue;
      assert all[|all| - 1] == wires[|wires| - 1];
      assert all == Flatten(queue[..|queue| - 1]) + d;
    }
  }

  /** A successful flush hands over every segment it puts out; the last one handed over is its last. */
  lemma HandsOver(n: Node, now: u32)
    requires NodeInv(n) && Flush(Exact, n.eng, now).1
    ensures Carries(Handed(n, now), FlushWires(Exact, n.eng, now))
  {
    hide Flush, FlushWires, NodeInv, Flatten, Carries;
    FlushEmits(Exact, n.eng, now);
    DatagramsNotEmpty(n, now);
    FlattenCarries(Handed(n, now), Emitted(n.eng.out), FlushWires(Exact, n.eng, now));
  }

  lemma DatagramsNotEmpty(n: Node, now: u32)
    requires NodeInv(n)
    ensures forall d :: d in Handed(n, now) ==> d != []
  {
    assert SizesInv(n.eng);
    hide NodeInv, Flush;
    FlushKeepsSizes(Exact, n.eng, now);
  }

  /** Everything a flush puts out carries the window as it is. */
  lemma FlushTellsWindow(s: State, now: u32)
    ensures forall w :: w in FlushWires(Exact, s, now) ==> w.wnd == WndUnused(s)
    ensures ProbeTimer(s.probe, s.wnd.rmt, now).askSend ==>
            exists w :: w in FlushWires(Exact, s, now) && w.cmd == CMD_WASK
    ensures s.probe.askTell ==> FlushWires(Exact, s, now) != []
  {
    var s1 := s.(probe := ProbeTimer(s.probe, s.wnd.rmt, now));
    var b := BeforeScan(Exact, s, now);
    SameWindow(s, now);
    hide BeforeScan, Sending, WndUnused;
    forall w | w in FlushWires(Exact, s, now) ensures w.wnd == WndUnused(s) {}
    if s1.probe.askSend {
      assert ProbeWire(s1, CMD_WASK, now) in ProbeWires(s1, now);
      assert ProbeWire(s1, CMD_WASK, now) in FlushWires(Exact, s, now);
    }
    if s.probe.askTell { assert ProbeWire(s1, CMD_WINS, now) in ProbeWires(s1, now); }
  }

  lemma SameWindow(s: State, now: u32)
    ensures WndUnused(BeforeScan(Exact, s, now)) == WndUnused(s)
    ensures WndUnused(s.(probe := ProbeTimer(s.probe, s.wnd.rmt, now))) == WndUnused(s)
  {
    hide MoveToSendBuf, ProbeTimer, OutputAll;
  }

  // ---- The handshake ----

  /** The receiver's flush with an announcement pending, once delivered, sets the sender's view to
      the window the receiver has. */
  lemma AnnouncementArrives(x: Node, y: Node, t3: u32, t4: u32)
    requires NodeInv(x) && NodeInv(y) && x.eng.conv == y.eng.conv
    requires y.eng.probe.askTell && Flush(Exact, y.eng, t3).1
    ensures NodeInputs(x, Handed(y, t3), t4).eng.wnd.rmt == WndUnused(y.eng)
  {
    hide NodeInv, Flush, FlushWires, AllTruthful, NodeFlush;
    FlushTellsWindow(y.eng, t3);
    HandsOver(y, t3);
    HandedTruthful(y, t3);
    SameConv(y, t3);
    var ds, wires := Handed(y, t3), FlushWires(Exact, y.eng, t3);
    InputsSetRemote(x, NodeFlush(y, t3), ds, t4, wires[|wires| - 1]);
    assert wires[|wires| - 1] in wires;
  }

  lemma SameConv(n: Node, now: u32)
    ensures NodeFlush(n, now).eng.conv == n.eng.conv
  {
    hide Flush;
  }

  /** A closed window is found open again. When the probe timer of a stopped sender goes off (see
      Deadlines.dfy: within 120 s), and its flush and the answering flush succeed and arrive, the
      sender's idea of the window is the one the receiver has: non-zero whenever there is room. */
  lemma ProbeFindsWindow(x: Node, y: Node, t1: u32, t2: u32, t3: u32, t4: u32)
    requires NodeInv(x) && NodeInv(y) && PairInv(x, y) && PairInv(y, x)
    requires ProbeTimer(x.eng.probe, x.eng.wnd.rmt, t1).askSend && Flush(Exact, x.eng, t1).1
    requires Flush(Exact, NodeInputs(y, Handed(x, t1), t2).eng, t3).1
    ensures var y1 := NodeInputs(y, Handed(x, t1), t2);
            Round(x, y, t1, t2, t3, t4).0.eng.wnd.rmt == WndUnused(y1.eng)
  {
    hide NodeInv, PairInv, Flush, FlushWires, AllTruthful, NodeInput, NodeFlush;
    var x1, ds := NodeFlush(x, t1), Handed(x, t1);
    FlushTellsWindow(x.eng, t1);
    HandsOver(x, t1);
    HandedTruthful(x, t1);
    FlushKeepsNode(x, t1);
    FlushKeepsPairs(x, y, t1);
    SameConversation(x1, y);
    InputsKeepAll(y, x1, ds, t2);
    var y1 := NodeInputs(y, ds, t2);
    SameConversation(x1, y1);
    var w :| w in FlushWires(Exact, x.eng, t1) && w.cmd == CMD_WASK;
    InputsAsk(x1, y, ds, t2);
    AnnouncementArrives(x1, y1, t3, t4);
  }

  lemma SameConversation(x: Node, y: Node)
    requires PairInv(x, y)
    ensures x.eng.conv == y.eng.conv
  {
  }
}
