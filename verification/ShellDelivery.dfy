/** The shell's guarantees from application to application, over the network. */
module ShellDelivery {
  import opened Word
  import opened EngineSpec
  import opened Fragments
  import opened Packing
  import opened ActorSpec
  import opened Network
  import opened NetworkSafety
  import opened Delivery
  import opened Progress
  import opened SendSide
  import opened RecvSide
  import opened Refinement
  import opened ByteNetwork
  import Continuation
  import opened Shell
  import opened ShellTrace
  import opened ShellSafety

  /** No datagram of the run arrived 2^31 numbers late (see ByteNetwork.dfy). */
  ghost predicate TimelyShell(conv: u32, left: Config, right: Config, moves: seq<Move>) {
    TimelyRun(InitSystem(conv, left, right), ShellRun(NewWorld(conv, left, right), moves).trace)
  }

  lemma PrefixOf(a: Bytes, b: Bytes, c: Bytes)
    requires a + b <= c
    ensures a <= c
  {
    assert a == (a + b)[..|a|];
  }

  /** What has come out of one side's engine is a prefix of what went into the other's. */
  lemma EngineLogs(conv: u32, left: Config, right: Config, moves: seq<Move>, from: Side)
    requires TimelyShell(conv, left, right, moves)
    ensures var w := ShellRun(NewWorld(conv, left, right), moves);
            var (x, y) := (PeerAt(w, from), PeerAt(w, Other(from)));
            && PeerInv(x) && PeerInv(y)
            && (!x.actor.end.eng.cfg.streamMode ==> y.actor.end.delivered <= NonEmpty(x.actor.taken))
            && Concat(y.actor.end.delivered) <= Concat(x.actor.taken)
  {
    hide ShellRun, RunBytes, TimelyRun, Concat, NonEmpty;
    TraceIsRun(conv, left, right, moves);
    EveryRunKeepsWorld(conv, left, right, moves);
    var w := ShellRun(NewWorld(conv, left, right), moves);
    DeliveryOverBytes(conv, left, right, w.trace, from);
  }

  /** Whatever the applications call and whenever: the messages pulled at one side are, in order,
      among the first of those taken at the other; their bytes a prefix of the bytes pushed. */
  lemma PulledIsPrefix(conv: u32, left: Config, right: Config, moves: seq<Move>, from: Side)
    requires TimelyShell(conv, left, right, moves)
    ensures var w := ShellRun(NewWorld(conv, left, right), moves);
            var (x, y) := (PeerAt(w, from), PeerAt(w, Other(from)));
            && (!x.actor.end.eng.cfg.streamMode ==> y.stream.pulled <= NonEmpty(x.stream.pushed))
            && Concat(y.stream.pulled) <= Concat(x.stream.pushed)
  {
    hide ShellRun, TimelyShell, Concat, NonEmpty, ActorInv;
    EngineLogs(conv, left, right, moves, from);
    var w := ShellRun(NewWorld(conv, left, right), moves);
    var x, y := PeerAt(w, from), PeerAt(w, Other(from));
    ConcatAppend(y.stream.pulled, y.actor.dataTx);
    ConcatAppend(x.actor.taken, x.actor.sendRx);
    NonEmptyAppend(x.actor.taken, x.actor.sendRx);
    PrefixOf(Concat(y.stream.pulled), Concat(y.actor.dataTx), Concat(x.actor.taken));
  }

  lemma {:induction false} NonEmptyAppend(a: seq<Bytes>, b: seq<Bytes>)
    ensures NonEmpty(a + b) == NonEmpty(a) + NonEmpty(b)
    decreases |b|
  {
    if b == [] {
      assert a + b == a;
    } else {
      assert (a + b)[..|a + b| - 1] == a + b[..|b| - 1];
      NonEmptyAppend(a, b[..|b| - 1]);
    }
  }

  /** The byte stream: for writers that re-poll with the same buffer and readers that do not mix the
      two ways of reading, the bytes read are a prefix of the bytes reported written. */
  lemma BytesReadWereWritten(conv: u32, left: Config, right: Config, moves: seq<Move>, from: Side)
    requires TimelyShell(conv, left, right, moves)
    requires DisciplinedRun(NewWorld(conv, left, right), moves)
    ensures var w := ShellRun(NewWorld(conv, left, right), moves);
            PeerAt(w, Other(from)).stream.read <= PeerAt(w, from).stream.reported
  {
    hide ShellRun, TimelyShell, DisciplinedRun, Concat, NonEmpty;
    PulledIsPrefix(conv, left, right, moves, from);
    EveryRunKeepsView(conv, left, right, moves);
    var w := ShellRun(NewWorld(conv, left, right), moves);
    var st := PeerAt(w, Other(from)).stream;
    PrefixOf(st.read, st.readBuf, PeerAt(w, from).stream.reported);
  }

  // ---- Clean close ----

  /** With nothing unsent at `x`, all that `x` numbered is held by `y`, and nothing waits unnumbered. */
  lemma NothingUnsentIsAllHeld(x: Node, y: Node)
    requires NodeInv(x) && PairInv(x, y) && !HasUnsentData(x.eng)
    ensures forall sn :: 0 <= sn < |x.hist| ==> Held(y.eng, sn)
    ensures x.hist == Join(Units(x)) && DataOf(x.hist) == x.queued
  {
    hide SendInv, RecvInv, SizesInv, Truthful, Units, Join, Delivers, ReceivesFrom, Held;
    forall sn | 0 <= sn < |x.hist| ensures Held(y.eng, sn) {
      assert !Buffered(x.eng.sndBuf, sn);
    }
    assert x.hist + x.eng.sndQueue == x.hist;
  }

  /** All held, and nothing more to read: then all has been read. */
  lemma HeldIsReadable(x: Node, y: Node)
    requires NodeInv(x) && NodeInv(y) && PairInv(x, y) && !HasUnsentData(x.eng)
    requires MessagesFit(x.eng.cfg, y.eng.cfg) && Recv(Exact, y.eng).1.None?
    ensures Concat(y.delivered) == x.queued && (!x.eng.cfg.streamMode ==> y.delivered == x.accepted)
  {
    NothingUnsentIsAllHeld(x, y);
    DrainedHasRoom(x, y);
    AllReceived(x, y);
    NoUnitIsLeft(x, y);
    hide NodeInv, PairInv, Join, Concat;
    if !x.eng.cfg.streamMode { DeliveredMessages(x, y); }
    AllUnitsDelivered(x, y);
  }

  lemma NoUnitIsLeft(x: Node, y: Node)
    requires NodeInv(x) && PairInv(x, y) && Recv(Exact, y.eng).1.None?
    requires x.hist == Join(Units(x)) && y.eng.rcvNxt == |x.hist|
    ensures |y.delivered| == |Units(x)|
  {
    var units, k := Units(x), |y.delivered|;
    if k < |units| {
      UnitsFrom(x, y);
      ReadableIff(x, y);
    }
  }

  /** The receive queue holds all that is left of the units: at least the next one. */
  lemma UnitsFrom(x: Node, y: Node)
    requires NodeInv(x) && PairInv(x, y) && x.hist == Join(Units(x)) && y.eng.rcvNxt == |x.hist|
    requires |y.delivered| < |Units(x)|
    ensures |y.eng.rcvQueue| >= |Units(x)[|y.delivered|]| >= 1
  {
    UnitIsGood(x, |y.delivered|);
    QueueOf(x, y);
    hide NodeInv, PairInv, Units, DataOf;
    JoinFrom(Units(x), |y.delivered|);
  }

  lemma UnitIsGood(x: Node, k: nat)
    requires NodeInv(x) && k < |Units(x)|
    ensures |Units(x)[k]| >= 1
  {
    hide SendInv, RecvInv, SizesInv, AllTruthful, Units, DataOf, AcksHeld, BufferMatches, Join;
    assert GoodUnit(Units(x)[k], x.eng.cfg);
  }

  lemma JoinFrom(units: seq<seq<Frag>>, k: nat)
    requires k < |units|
    ensures |Join(units)| >= |Join(units[..k])| + |units[k]|
  {
    JoinAppend(units[..k], units[k..]);
    assert units == units[..k] + units[k..];
    JoinHead(units[k..]);
    hide Join;
  }

  lemma JoinHead(groups: seq<seq<Frag>>)
    requires groups != []
    ensures |Join(groups)| >= |groups[0]|
  {
    JoinAppend(groups[..1], groups[1..]);
    assert groups == groups[..1] + groups[1..] && groups[..1][..0] == [];
  }

  lemma AllUnitsDelivered(x: Node, y: Node)
    requires NodeInv(x) && PairInv(x, y) && |y.delivered| == |Units(x)|
    ensures Concat(y.delivered) == x.queued
  {
    hide SendInv, RecvInv, SizesInv, Truthful, Units, DataOf, NoLoss, ReceivesFrom, AcksHeld, BufferMatches, Join,
         Concat;
    QueuedIsJoined(x);
    ConcatOfUnits(y.delivered, Units(x));
  }

  // ---- Reading on after the run ----

  lemma {:induction false} ReadsRun(sys: ByteSystem, who: Side, times: nat)
    ensures RunBytes(sys, Reads(who, times)) == EndWith(sys, who, EndReads(EndAt(sys, who), times))
  {
    hide EndRecv;
    if times > 0 {
      ReadsRun(sys, who, times - 1);
      assert Reads(who, times)[..times - 1] == Reads(who, times - 1);
    }
  }

  lemma ReadIsTimely(sys: System, actions: seq<Action>, who: Side)
    requires TimelyRun(sys, actions)
    ensures TimelyRun(sys, actions + [Action.Read(who)])
  {
    var all := actions + [Action.Read(who)];
    assert all[..|all| - 1] == actions && all[|all| - 1] == Action.Read(who);
    hide RunSystem, Timely;
  }

  lemma {:induction false} ReadsAreTimely(sys: System, actions: seq<Action>, who: Side, times: nat)
    requires TimelyRun(sys, actions)
    ensures TimelyRun(sys, actions + Reads(who, times))
  {
    hide TimelyRun;
    if times == 0 {
      assert actions + Reads(who, 0) == actions;
    } else {
      ReadsAreTimely(sys, actions, who, times - 1);
      ReadIsTimely(sys, actions + Reads(who, times - 1), who);
      assert actions + Reads(who, times) == actions + Reads(who, times - 1) + [Action.Read(who)];
    }
  }

  lemma {:induction false} ReadsKeepConfig(e: Endpoint, times: nat)
    ensures EndReads(e, times).eng.cfg == e.eng.cfg
  {
    if times > 0 {
      ReadsKeepConfig(e, times - 1);
      RecvKeepsQueue(EndReads(e, times - 1).eng);
      hide Recv;
    }
  }

  /** The state after a run and some more reads on one side, and its exact image. */
  lemma ReadingImage(conv: u32, left: Config, right: Config, actions: seq<Action>, from: Side, times: nat)
    requires TimelyRun(InitSystem(conv, left, right), actions)
    ensures var b := RunBytes(InitBytes(conv, left, right), actions);
            var sys := Reached(conv, left, right, actions + Reads(Other(from), times));
            var (x, y) := (At(sys, from), At(sys, Other(from)));
            && EndSim(EndAt(b, from), x) && EndSim(EndReads(EndAt(b, Other(from)), times), y)
            && NodeInv(x) && NodeInv(y) && PairInv(x, y)
  {
    hide RunBytes, TimelyRun, RunSystem, EndSim, NodeInv, PairInv, EndReads;
    var b, more := RunBytes(InitBytes(conv, left, right), actions), Reads(Other(from), times);
    ReadsAreTimely(InitSystem(conv, left, right), actions, Other(from), times);
    ByteRunIsImage(conv, left, right, actions + more);
    RunBytesAppend(InitBytes(conv, left, right), actions, more);
    ReadsRun(b, Other(from), times);
    Invariants(conv, left, right, actions + more, from);
  }

  /** If an actor has left because nothing was unsent (not because the deadline had passed or the
      connection failed), everything ever taken from its application, what it absorbed on the close
      included, was numbered, and every number is held by the peer engine with the content given. */
  lemma CleanCloseIsHeld(conv: u32, left: Config, right: Config, moves: seq<Move>, from: Side)
    requires TimelyShell(conv, left, right, moves)
    requires PeerAt(ShellRun(NewWorld(conv, left, right), moves), from).actor.exit.Acknowledged?
    ensures var w := ShellRun(NewWorld(conv, left, right), moves);
            var sys := Reached(conv, left, right, w.trace);
            var (x, y) := (At(sys, from), At(sys, Other(from)));
            && EndSim(PeerAt(w, from).actor.end, x) && EndSim(PeerAt(w, Other(from)).actor.end, y)
            && DataOf(x.hist) == Concat(PeerAt(w, from).actor.taken)
            && (forall sn :: 0 <= sn < |x.hist| ==> Held(y.eng, sn))
            && (forall k :: k in y.eng.rcvBuf ==> 0 <= k < |x.hist| && y.eng.rcvBuf[k] == x.hist[k])
  {
    hide ShellRun, RunBytes, TimelyRun, Concat, NonEmpty, RunSystem, EndSim, NodeInv, DataOf, Held;
    var w := ShellRun(NewWorld(conv, left, right), moves);
    EveryRunKeepsWorld(conv, left, right, moves);
    TraceIsRun(conv, left, right, moves);
    ByteRunIsImage(conv, left, right, w.trace);
    Invariants(conv, left, right, w.trace, from);
    var sys := Reached(conv, left, right, w.trace);
    SameLogs(PeerAt(w, from).actor.end, At(sys, from));
    NothingUnsentIsAllHeld(At(sys, from), At(sys, Other(from)));
  }

  /** What the peer's engine has returned when its `recv` returns no more is all that was taken. */
  lemma ReadOutIsAll(conv: u32, left: Config, right: Config, moves: seq<Move>, from: Side, times: nat)
    requires TimelyShell(conv, left, right, moves)
    requires PeerAt(ShellRun(NewWorld(conv, left, right), moves), from).actor.exit.Acknowledged?
    ensures var w := ShellRun(NewWorld(conv, left, right), moves);
            var (x, y) := (PeerAt(w, from).actor, PeerAt(w, Other(from)).actor);
            var later := EndReads(y.end, times);
            MessagesFit(x.end.eng.cfg, y.end.eng.cfg) && Recv(Wrapping, later.eng).1.None?
            ==> AllReturned(x, later)
  {
    hide ShellRun, RunBytes, TimelyRun, Concat, NonEmpty, EndReads, Recv, RunSystem, MessagesFit;
    var w := ShellRun(NewWorld(conv, left, right), moves);
    EveryRunKeepsWorld(conv, left, right, moves);
    TraceIsRun(conv, left, right, moves);
    ReadingImage(conv, left, right, w.trace, from, times);
    var sys := Reached(conv, left, right, w.trace + Reads(Other(from), times));
    var x, y := At(sys, from), At(sys, Other(from));
    var xe := PeerAt(w, from).actor.end;
    var later := EndReads(PeerAt(w, Other(from)).actor.end, times);
    hide NodeInv, PairInv, Sim, EndSim;
    SameLogs(xe, x);
    SameLogs(later, y);
    SimReadable(later, y);
    if MessagesFit(xe.eng.cfg, PeerAt(w, Other(from)).actor.end.eng.cfg) && Recv(Wrapping, later.eng).1.None? {
      ReadsKeepConfig(PeerAt(w, Other(from)).actor.end, times);
      HeldIsReadable(x, y);
    }
  }

  /** Endpoint `e` has returned exactly what actor `a` had taken from its application. */
  ghost predicate AllReturned(a: Actor, e: Endpoint) {
    && Concat(e.delivered) == Concat(a.taken)
    && (!a.end.eng.cfg.streamMode ==> e.delivered == NonEmpty(a.taken))
  }

  /** Reading on comes to an end. */
  lemma ReadsComeToAnEnd(conv: u32, left: Config, right: Config, actions: seq<Action>, from: Side)
    returns (times: nat)
    requires TimelyRun(InitSystem(conv, left, right), actions)
    ensures var b := RunBytes(InitBytes(conv, left, right), actions);
            Recv(Wrapping, EndReads(EndAt(b, Other(from)), times).eng).1.None?
  {
    hide RunBytes, TimelyRun, RunSystem, EndSim, NodeInv, PairInv, EndReads, Recv, ReadAll;
    var to, b, sys := Other(from), RunBytes(InitBytes(conv, left, right), actions), Reached(conv, left, right, actions);
    Invariants(conv, left, right, actions, from);
    times := Continuation.ReadsToTheEnd(At(sys, from), At(sys, to));
    ReadingImage(conv, left, right, actions, from, times);
    Continuation.RunAppend(InitSystem(conv, left, right), actions, Reads(to, times));
    Continuation.ReadsRun(sys, to, times);
    SimReadable(EndReads(EndAt(b, to), times), ReadAll(At(sys, to), times));
  }

  /** And it can all be read: with the sender gone, the peer's `recv` returns messages until it has no
      more to return, and by then it has returned exactly what was taken, as long as messages fit. */
  lemma CleanClose(conv: u32, left: Config, right: Config, moves: seq<Move>, from: Side) returns (times: nat)
    requires TimelyShell(conv, left, right, moves)
    requires PeerAt(ShellRun(NewWorld(conv, left, right), moves), from).actor.exit.Acknowledged?
    ensures var w := ShellRun(NewWorld(conv, left, right), moves);
            var (x, y) := (PeerAt(w, from).actor, PeerAt(w, Other(from)).actor);
            var later := EndReads(y.end, times);
            && Recv(Wrapping, later.eng).1.None?
            && (MessagesFit(x.end.eng.cfg, y.end.eng.cfg) ==> AllReturned(x, later))
  {
    hide ShellRun, RunBytes, TimelyRun, EndReads, Recv, MessagesFit, AllReturned;
    TraceIsRun(conv, left, right, moves);
    times := ReadsComeToAnEnd(conv, left, right, ShellRun(NewWorld(conv, left, right), moves).trace, from);
    ReadOutIsAll(conv, left, right, moves, from, times);
  }

  // ---- Without any assumption on the network ----

  /** Neither application has pushed 2 GiB less two windows. */
  ghost predicate ShortShell(conv: u32, left: Config, right: Config, moves: seq<Move>) {
    var w := ShellRun(NewWorld(conv, left, right), moves);
    |Concat(w.left.stream.pushed)| <= HALF - SLACK && |Concat(w.right.stream.pushed)| <= HALF - SLACK
  }

  lemma TakenWasPushed(p: Peer)
    requires PeerInv(p)
    ensures |p.actor.end.queued| <= |Concat(p.stream.pushed)|
  {
    ConcatAppend(p.actor.taken, p.actor.sendRx);
    hide Concat, AllWithin, NonEmpty;
  }

  /** A run in which so little is pushed is timely, whatever the network does. */
  lemma ShortShellIsTimely(conv: u32, left: Config, right: Config, moves: seq<Move>)
    requires ShortShell(conv, left, right, moves)
    ensures TimelyShell(conv, left, right, moves)
  {
    hide ShellRun, RunBytes, TimelyRun, Concat, PeerInv;
    TraceIsRun(conv, left, right, moves);
    EveryRunKeepsWorld(conv, left, right, moves);
    var w := ShellRun(NewWorld(conv, left, right), moves);
    TakenWasPushed(w.left);
    TakenWasPushed(w.right);
    ShortBytesAreTimely(conv, left, right, w.trace);
  }

  /** From application to application, over a network that may do anything: until 2 GiB less two
      windows have been written, the messages pulled are the first of those pushed, and for disciplined
      callers the bytes read are a prefix of the bytes reported written. */
  lemma StreamOfTwoGigabytes(conv: u32, left: Config, right: Config, moves: seq<Move>, from: Side)
    requires ShortShell(conv, left, right, moves)
    ensures var w := ShellRun(NewWorld(conv, left, right), moves);
            var (x, y) := (PeerAt(w, from), PeerAt(w, Other(from)));
            && (!x.actor.end.eng.cfg.streamMode ==> y.stream.pulled <= NonEmpty(x.stream.pushed))
            && Concat(y.stream.pulled) <= Concat(x.stream.pushed)
            && (DisciplinedRun(NewWorld(conv, left, right), moves) ==> y.stream.read <= x.stream.reported)
  {
    hide ShellRun, TimelyShell, DisciplinedRun, Concat, NonEmpty, ShortShell;
    ShortShellIsTimely(conv, left, right, moves);
    PulledIsPrefix(conv, left, right, moves, from);
    if DisciplinedRun(NewWorld(conv, left, right), moves) { BytesReadWereWritten(conv, left, right, moves, from); }
  }

  /** And a clean close loses nothing. */
  lemma CloseOfTwoGigabytes(conv: u32, left: Config, right: Config, moves: seq<Move>, from: Side) returns (times: nat)
    requires ShortShell(conv, left, right, moves)
    requires PeerAt(ShellRun(NewWorld(conv, left, right), moves), from).actor.exit.Acknowledged?
    ensures var w := ShellRun(NewWorld(conv, left, right), moves);
            var (x, y) := (PeerAt(w, from).actor, PeerAt(w, Other(from)).actor);
            var later := EndReads(y.end, times);
            && Recv(Wrapping, later.eng).1.None?
            && (MessagesFit(x.end.eng.cfg, y.end.eng.cfg) ==> AllReturned(x, later))
  {
    hide ShellRun, TimelyShell, ShortShell, EndReads, Recv, MessagesFit, AllReturned;
    ShortShellIsTimely(conv, left, right, moves);
    times := CleanClose(conv, left, right, moves, from);
  }
}
