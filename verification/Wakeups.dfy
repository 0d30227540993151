/** When `check` asks for a flush, in any state: at once if something is pending or a deadline has come,
    and otherwise at the first deadline. */
module Wakeups {
  import opened Word
  import opened Protocol
  import opened EngineSpec
  import opened EngineRun
  import opened RecvSide
  import opened Packing
  import opened Deadlines

  /** Milliseconds to a deadline; one at least half the circle ahead has passed. */
  function Left(deadline: u32, now: u32): u32 {
    if (deadline - now) % M32 < HALF then (deadline - now) % M32 else 0
  }

  /** The timers `check` goes by: those of the segments in flight and, while the peer's window is closed,
      that of the probe, 0 standing for none. */
  ghost predicate Timer(s: State, deadline: u32) {
    || (exists i :: 0 <= i < |s.sndBuf| && s.sndBuf[i].resendts == deadline)
    || (s.wnd.rmt == 0 && s.probe.ts == deadline && deadline != 0)
  }

  predicate Pending(s: State) {
    s.ackList != [] || s.probe.askSend || s.probe.askTell
  }

  lemma LeftIsUntil(deadline: u32, now: u32)
    ensures Left(deadline, now) == Until(deadline, now) < HALF
  {
  }

  /** With nothing pending `check` is the time to the first deadline, and 30 s if there is none. */
  lemma CheckIsFirstDeadline(s: State, now: u32)
    requires !Pending(s)
    ensures forall d: u32 :: Timer(s, d) ==> Check(s, now) <= Left(d, now)
    ensures (exists d: u32 :: Timer(s, d) && Check(s, now) == Left(d, now))
            || (Check(s, now) == 30000 && forall d: u32 :: !Timer(s, d))
  {
    SoonestIsLeast(s.sndBuf, now);
    forall d: u32 ensures Left(d, now) == Until(d, now) < HALF { LeftIsUntil(d, now); }
    hide Until, Left, SoonestResend;
    var soonest := SoonestResend(s.sndBuf, now);
    if s.sndBuf != [] {
      var i :| 0 <= i < |s.sndBuf| && soonest == Until(s.sndBuf[i].resendts, now);
      assert Timer(s, s.sndBuf[i].resendts);
    }
    if s.wnd.rmt == 0 && s.probe.ts != 0 { assert Timer(s, s.probe.ts); }
  }

  /** `check` says now if and only if an acknowledgement, a probe or an announcement is pending, or a
      deadline has come. */
  lemma CheckIsNowIff(s: State, now: u32)
    ensures Check(s, now) == 0 <==>
            || s.ackList != [] || s.probe.askSend || s.probe.askTell
            || exists d: u32 :: Timer(s, d) && Left(d, now) == 0
  {
    if !Pending(s) { CheckIsFirstDeadline(s, now); }
    hide Timer, Left;
    if Pending(s) { PendingIsNow(s, now); }
  }

  lemma PendingIsNow(s: State, now: u32)
    requires Pending(s)
    ensures Check(s, now) == 0
  {
  }

  /** A `recv` that reopens the window asks for a flush at once, and that flush tells the peer. */
  lemma ReopeningWakes(m: Arith, s: State, now: u32)
    requires RecvWindow(m, s) && !Swallows(s)
    requires var r := Recv(m, s).0;
             WndUnused(s) == 0 < WndUnused(r)
    ensures var r := Recv(m, s).0;
            && Check(r, now) == 0
            && exists w :: w in FlushWires(m, r, now) && w.cmd == CMD_WINS && w.wnd == WndUnused(r) > 0
                           && w.una == r.rcvNxt
  {
    ReopeningIsAnnounced(m, s, DoRecv);
    var r := Recv(m, s).0;
    hide Recv, WndUnused, RecvWindow, Swallows, FlushWires;
    CheckIsNowIff(r, now);
    AnnouncementIsSent(m, r, now);
  }
}
