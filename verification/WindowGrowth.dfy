/** When the congestion window grows, and that it does: by the exact step for every packet that
    advances `snd_una` below the peer's window, and so, without loss, all the way to that window. */
module WindowGrowth {
  import opened Word
  import opened Protocol
  import opened EngineSpec
  import opened SendSide
  import opened Fragments
  import opened Congestion

  /** `snd_una` has gone forward, in the window. */
  lemma AdvanceIsOffset(m: Arith, x: int, base: int)
    requires 0 <= Off(m, x, base) <= 65535
    ensures After(m, x, base) <==> Off(m, x, base) > 0
  {
  }

  lemma UnaStays(m: Arith, s: State, ws: seq<Wire>, now: u32)
    ensures var (s1, newest) := InputSegments(m, s, NoAck, ws, now);
            Input(m, s, ws, now).sndUna == ShrinkBuf(s1).sndUna
            && Input(m, s, ws, now).wnd == (if After(m, ShrinkBuf(s1).sndUna, s.sndUna) && s1.wnd.cwnd < s1.wnd.rmt
                                            then GrowCwnd(s1.wnd, Mss(s.cfg)) else s1.wnd)
  {
    hide InputSegments, BumpFastack, InFlight, GrowCwnd, After, Mss;
  }

  lemma GrowKeepsRemote(w: Window, mss: int)
    requires 40 <= mss <= 65511
    ensures GrowCwnd(w, mss).rmt == w.rmt && GrowCwnd(w, mss).ssthresh == w.ssthresh
  {
    hide U, DivCeil;
  }

  /** A packet that moves `snd_una` forward while the window is below the peer's takes the window one
      exact step up; any other leaves it as it was. Only the peer's window changes besides. */
  lemma InputGrowsIff(m: Arith, s: State, ws: seq<Wire>, now: u32)
    requires SendInv(m, s) && CwndInv(s.wnd, Mss(s.cfg))
    ensures var r := Input(m, s, ws, now);
            && r.wnd.ssthresh == s.wnd.ssthresh
            && (if Off(m, r.sndUna, s.sndUna) > 0 && s.wnd.cwnd < r.wnd.rmt
                then (r.wnd.cwnd as int, r.wnd.incr as int) == ExactGrowth(s.wnd.(rmt := r.wnd.rmt), Mss(s.cfg))
                else r.wnd == s.wnd.(rmt := r.wnd.rmt))
  {
    UnaStays(m, s, ws, now);
    Congestion.SegmentsKeepWindow(m, s, NoAck, ws, now);
    InputKeepsSendInv(m, s, ws, now);
    var r, w := Input(m, s, ws, now), InputSegments(m, s, NoAck, ws, now).0.wnd;
    assert 0 <= Off(m, r.sndUna, s.sndUna) <= 65535;
    AdvanceIsOffset(m, r.sndUna, s.sndUna);
    GrowKeepsRemote(w, Mss(s.cfg));
    hide Input, InputSegments, SendInv, GrowCwnd, ExactGrowth, Mss, Off, After;
    if Off(m, r.sndUna, s.sndUna) > 0 && w.cwnd < w.rmt { GrowthIsExact(w, Mss(s.cfg)); }
  }

  // ---- Slow start, and all the way ----

  /** `n` packets that advance `snd_una`, with the peer's window at `rmt`. */
  function Grown(w: Window, mss: int, n: nat): Window
    requires 40 <= mss <= 65511
  {
    if n == 0 then w
    else
      var v := Grown(w, mss, n - 1);
      if v.cwnd < v.rmt then GrowCwnd(v, mss) else v
  }

  lemma {:induction false} GrownKeeps(w: Window, mss: int, n: nat)
    requires 40 <= mss <= 65511 && CwndInv(w, mss)
    ensures var v := Grown(w, mss, n);
            CwndInv(v, mss) && v.rmt == w.rmt && v.ssthresh == w.ssthresh && v.cwnd >= w.cwnd
  {
    if n > 0 {
      GrownKeeps(w, mss, n - 1);
      var v := Grown(w, mss, n - 1);
      hide GrowCwnd, CwndInv;
      if v.cwnd < v.rmt {
        GrowthIsExact(v, mss);
        GrowKeepsRemote(v, mss);
      }
    }
  }

  /** In slow start the window is one segment larger for each of them. */
  lemma {:induction false} SlowStartCounts(w: Window, mss: int, n: nat)
    requires 40 <= mss <= 65511 && CwndInv(w, mss) && w.cwnd + n <= w.ssthresh && w.cwnd + n <= w.rmt
    ensures var v := Grown(w, mss, n);
            v.cwnd == w.cwnd + n && v.incr == w.incr + n * mss
  {
    if n > 0 {
      SlowStartCounts(w, mss, n - 1);
      GrownKeeps(w, mss, n - 1);
      var v := Grown(w, mss, n - 1);
      assert n * mss == (n - 1) * mss + mss;
      GrowthIsExact(v, mss);
      hide GrowCwnd, CwndInv;
    }
  }

  /** Every step gains at least two bytes, or reaches the peer's window. */
  lemma StepGains(w: Window, mss: int)
    requires 40 <= mss <= 65511 && CwndInv(w, mss) && w.cwnd < w.rmt
    ensures var v := GrowCwnd(w, mss);
            v.incr >= w.incr + 2 || v.cwnd == w.rmt
  {
    GrowthIsExact(w, mss);
    var incr0 := Max(w.incr, mss);
    QuotientPositive(mss, incr0);
    hide GrowCwnd, DivCeil, CwndInv;
  }

  lemma QuotientPositive(mss: int, incr: int)
    requires mss >= 1 && incr >= 1
    ensures mss * mss / incr >= 0
  {
    assert mss * mss >= 0;
  }

  /** Without loss the window gets to where the peer's is. */
  lemma {:induction false} GrowsOn(w: Window, mss: int, n: nat)
    requires 40 <= mss <= 65511 && CwndInv(w, mss)
    ensures var v := Grown(w, mss, n);
            v.cwnd >= w.rmt || v.incr >= 2 * n
  {
    if n > 0 {
      GrowsOn(w, mss, n - 1);
      GrownKeeps(w, mss, n - 1);
      var v := Grown(w, mss, n - 1);
      hide GrowCwnd, CwndInv;
      if v.cwnd < v.rmt { StepGains(v, mss); }
    }
  }

  /** From any window, after enough packets that advance `snd_una` and no loss, the window is as large
      as the peer's, whatever `ssthresh` was. */
  lemma WindowOpens(w: Window, mss: int, n: nat)
    requires 40 <= mss <= 65511 && CwndInv(w, mss) && 2 * n >= (w.rmt + 1) * mss
    ensures Grown(w, mss, n).cwnd >= w.rmt
  {
    hide Grown, GrowCwnd;
    GrowsOn(w, mss, n);
    GrownKeeps(w, mss, n);
    if Grown(w, mss, n).cwnd < w.rmt { BytesAreFew(Grown(w, mss, n), mss, w.rmt); }
  }

  lemma BytesAreFew(v: Window, mss: int, rmt: nat)
    requires mss > 0 && CwndInv(v, mss) && v.cwnd < rmt
    ensures v.incr < (rmt + 1) * mss
  {
    TimesMonotone(v.cwnd + 1, rmt + 1, mss);
  }
}
