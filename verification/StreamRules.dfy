/** The rules of the stream's calls: what a write, a read or a message comes to, how a buffer is cut into
    chunks, and how a message is read in pieces. */
module StreamRules {
  import opened Word
  import opened Protocol
  import opened EngineSpec
  import opened Fragments
  import opened ActorSpec
  import opened StreamSpec
  import opened Shell
  import opened ShellSafety

  // ---- Writing ----

  /** What a write puts on the channel: the chunk that is parked, or the first `mss` bytes at most. */
  function NextChunk(st: Stream, buf: Bytes): Bytes {
    if st.pendingWrite.Some? then st.pendingWrite.value
    else if |buf| <= st.mss then buf
    else buf[..st.mss]
  }

  /** A write fails exactly on a stream that was closed or has lost its actor, waits exactly on a full
      channel, with its chunk parked, and otherwise puts one chunk on the channel. */
  lemma WriteIsExact(p: Peer, buf: Bytes)
    requires PeerInv(p)
    ensures var (q, r, chunk) := (PeerWrite(p, buf).0, PeerWrite(p, buf).1, NextChunk(p.stream, buf));
            && (r.BrokenPipe? <==> p.stream.closed || !p.actor.exit.Running?)
            && (r.WritePending? <==> !p.stream.closed && p.actor.exit.Running? && |p.actor.sendRx| == 16)
            && (r.Wrote? ==>
                  && r.n == |chunk| && q.stream.pushed == p.stream.pushed + [chunk] && q.stream.pendingWrite == None
                  && q.actor == p.actor.(sendRx := p.actor.sendRx + [chunk]))
            && (r.WritePending? ==> q == p.(stream := p.stream.(pendingWrite := Some(chunk))))
            && (r.BrokenPipe? ==> q.actor == p.actor && q.stream.pushed == p.stream.pushed)
  {
    ChannelBound(p);
    assert buf[..|buf|] == buf;
    hide ActorInv, MaxMessage, Mss, PeerInv;
  }

  lemma ChannelBound(p: Peer)
    requires PeerInv(p)
    ensures |p.actor.sendRx| <= 16
  {
  }

  /** A write that had to wait is made once, when there is room, with the bytes it was asked to write. */
  lemma WaitingWriteIsMade(p: Peer, later: Peer, buf: Bytes)
    requires PeerInv(p) && p.stream.pendingWrite.None? && PeerWrite(p, buf).1.WritePending?
    requires PeerInv(later) && later.stream == PeerWrite(p, buf).0.stream
    requires later.actor.exit.Running? && |later.actor.sendRx| < 16
    ensures var (q, r, n) := (PeerWrite(later, buf).0, PeerWrite(later, buf).1, Min(|buf|, p.stream.mss));
            && r == Wrote(n) && q.actor.sendRx == later.actor.sendRx + [buf[..n]]
            && q.stream.pushed == p.stream.pushed + [buf[..n]] && q.stream.pendingWrite.None?
  {
    hide PeerInv;
    WriteIsExact(p, buf);
    WriteIsExact(later, buf);
    hide PeerWrite;
  }

  /** A caller that writes all of `buf`, as long as no write has to wait. */
  function WriteAll(p: Peer, buf: Bytes): Peer
    decreases |buf|
  {
    var (q, r) := PeerWrite(p, buf);
    if buf == [] || !r.Wrote? || r.n == 0 || r.n > |buf| then p else WriteAll(q, buf[r.n..])
  }

  /** `buf` in pieces of `mss` bytes, the last one with the rest, of one byte at least. */
  ghost predicate Cuts(chunks: seq<Bytes>, buf: Bytes, mss: nat) {
    && Concat(chunks) == buf
    && forall i :: 0 <= i < |chunks| ==>
         if i < |chunks| - 1 then |chunks[i]| == mss else 1 <= |chunks[i]| <= mss
  }

  lemma CutsOne(buf: Bytes, mss: nat)
    requires 0 < |buf| <= mss
    ensures Cuts([buf], buf, mss)
  {
    var one := [buf];
    assert one[1..] == [];
    assert Concat(one) == buf + Concat(one[1..]);
    assert Concat([]) == [];
  }

  lemma CutsMore(chunks: seq<Bytes>, buf: Bytes, mss: nat)
    requires 0 < mss < |buf| && Cuts(chunks, buf[mss..], mss)
    ensures Cuts([buf[..mss]] + chunks, buf, mss)
  {
    var all := [buf[..mss]] + chunks;
    assert all[1..] == chunks;
    assert Concat(all) == buf[..mss] + Concat(chunks);
    hide Concat;
    assert buf == buf[..mss] + buf[mss..];
    NothingIsCut(buf[mss..], mss);
  }

  lemma NothingIsCut(buf: Bytes, mss: nat)
    ensures Cuts([], buf, mss) ==> buf == []
  {
  }

  /** A buffer goes onto the channel as chunks of `mss` bytes, the last one with the rest, if there is
      room for `c` of them and it needs no more. */
  lemma {:induction false} WriteAllCuts(p: Peer, buf: Bytes, c: nat) returns (chunks: seq<Bytes>)
    requires PeerInv(p) && p.stream.pendingWrite.None? && !p.stream.closed
    requires p.actor.exit.Running? && |p.actor.sendRx| + c <= 16 && |buf| <= c * p.stream.mss
    ensures Cuts(chunks, buf, p.stream.mss)
    ensures var q := WriteAll(p, buf);
            && q.actor == p.actor.(sendRx := p.actor.sendRx + chunks)
            && q.stream.pushed == p.stream.pushed + chunks && q.stream.pendingWrite.None?
    decreases |buf|
  {
    hide PeerInv, Cuts;
    var (q, r, mss) := (PeerWrite(p, buf).0, PeerWrite(p, buf).1, p.stream.mss);
    if buf == [] {
      chunks := [];
      NothingCuts(mss);
    } else {
      WriteIsExact(p, buf);
      WriteKeeps(p, buf);
      SameMss(p, buf);
      MssPositive(p);
      hide PeerWrite;
      assert c > 0;
      assert (c - 1) * mss == c * mss - mss;
      if |buf| <= mss {
        chunks := [buf];
        CutsOne(buf, mss);
        assert buf[r.n..] == [];
        assert WriteAll(q, []) == q;
      } else {
        assert buf[r.n..] == buf[mss..];
        var rest := WriteAllCuts(q, buf[mss..], c - 1);
        chunks := [buf[..mss]] + rest;
        CutsMore(rest, buf, mss);
      }
    }
  }

  lemma NothingCuts(mss: nat)
    ensures Cuts([], [], mss)
  {
  }

  lemma MssPositive(p: Peer)
    requires PeerInv(p)
    ensures p.stream.mss >= 40
  {
  }

  lemma SameMss(p: Peer, buf: Bytes)
    ensures PeerWrite(p, buf).0.stream.mss == p.stream.mss && PeerWrite(p, buf).0.stream.closed == p.stream.closed
  {
  }

  // ---- Whole messages ----

  /** A message is refused for its length exactly if the stream is open and the engine could not take it;
      as closed if the stream is, or has lost its actor; it waits while the channel is full, and is
      otherwise put on the channel whole. */
  lemma SendIsExact(p: Peer, msg: Bytes)
    requires PeerInv(p)
    ensures var (q, r, cfg) := (PeerSend(p, msg).0, PeerSend(p, msg).1, p.actor.end.eng.cfg);
            var (shut, long) := (p.stream.closed, |msg| > (cfg.mtu - 24) * Min(cfg.rcvWnd, 128));
            && (r.TooLong? <==> !shut && long)
            && (r.Closed? <==> shut || (!long && !p.actor.exit.Running?))
            && (r.Waits? <==> !shut && !long && p.actor.exit.Running? && |p.actor.sendRx| == 16)
            && (if r.Submitted? then
                  && q.actor == p.actor.(sendRx := p.actor.sendRx + [msg])
                  && q.stream.pushed == p.stream.pushed + [msg]
                else q == p)
  {
    ChannelBound(p);
    hide ActorInv;
  }

  // ---- Reading ----

  /** What a read hands out of: the bytes left over, or else the next message. */
  function Available(p: Peer): Bytes {
    if p.stream.readBuf != [] then p.stream.readBuf
    else if p.actor.dataTx != [] && !p.stream.closed then p.actor.dataTx[0]
    else []
  }

  /** A read hands out as much as it has room for of what is available, keeps the rest for the next, and
      waits exactly if there is nothing and more may come. */
  lemma ReadIsExact(p: Peer, room: nat)
    requires PeerInv(p)
    ensures var (q, r, all) := (PeerRead(p, room).0, PeerRead(p, room).1, Available(p));
            var n := if room < |all| then room else |all|;
            && (r.ReadPending? <==> all == [] && !p.stream.closed && p.actor.exit.Running?)
            && (r.Got? ==>
                  r.data == all[..n] && q.stream.read == p.stream.read + all[..n] && q.stream.readBuf == all[n..])
            && q.actor == (if p.stream.readBuf == [] && all != [] then p.actor.(dataTx := p.actor.dataTx[1..])
                           else p.actor)
            && (r.ReadPending? ==> q == p)
  {
    CoreOf(p.actor);
    hide ActorInv, MaxMessage, Mss;
    if p.actor.dataTx != [] { assert p.actor.dataTx[0] != []; }
  }

  lemma CoreOf(a: Actor)
    requires ActorInv(a)
    ensures forall i :: 0 <= i < |a.dataTx| ==> a.dataTx[i] != []
  {
  }

  function ReadTimes(p: Peer, room: nat, k: nat): Peer {
    if k == 0 then p else PeerRead(ReadTimes(p, room, k - 1), room).0
  }

  /** The first `n` bytes of `msg` have been read after `base`, and the rest is left over. */
  predicate HasRead(st: Stream, base: Bytes, msg: Bytes, n: nat) {
    n <= |msg| && st.read == base + msg[..n] && st.readBuf == msg[n..]
  }

  lemma ReadOn(p: Peer, room: nat, base: Bytes, msg: Bytes, n: nat)
    requires PeerInv(p) && HasRead(p.stream, base, msg, n) && n < |msg|
    ensures var q := PeerRead(p, room).0;
            PeerInv(q) && HasRead(q.stream, base, msg, Min(n + room, |msg|)) && q.actor == p.actor
  {
    ReadIsExact(p, room);
    ReadKeeps(p, room);
    hide PeerInv, PeerRead;
    var n1 := Min(n + room, |msg|);
    assert msg[n..][..n1 - n] == msg[n..n1] && msg[n..][n1 - n..] == msg[n1..];
    assert msg[..n] + msg[n..n1] == msg[..n1];
  }

  /** A message is read in pieces, in order, each as long as there is room for but the last: `k` reads
      give its first `k * room` bytes, and the rest stays for the next. */
  lemma {:induction false} MessageInPieces(p: Peer, room: nat, k: nat)
    requires PeerInv(p) && p.stream.readBuf == [] && !p.stream.closed && p.actor.dataTx != []
    requires 0 < k && (k - 1) * room < |p.actor.dataTx[0]|
    ensures var (q, msg) := (ReadTimes(p, room, k), p.actor.dataTx[0]);
            && PeerInv(q) && HasRead(q.stream, p.stream.read, msg, Min(k * room, |msg|))
            && q.actor == p.actor.(dataTx := p.actor.dataTx[1..])
  {
    hide PeerInv, HasRead, PeerRead;
    var msg := p.actor.dataTx[0];
    assert k * room == (k - 1) * room + room;
    if k == 1 {
      FirstPiece(p, room);
      assert ReadTimes(p, room, 0) == p;
    } else {
      assert (k - 1) * room == (k - 2) * room + room;
      MessageInPieces(p, room, k - 1);
      ReadOn(ReadTimes(p, room, k - 1), room, p.stream.read, msg, (k - 1) * room);
    }
  }

  lemma FirstPiece(p: Peer, room: nat)
    requires PeerInv(p) && p.stream.readBuf == [] && !p.stream.closed && p.actor.dataTx != []
    ensures var (q, msg) := (PeerRead(p, room).0, p.actor.dataTx[0]);
            && PeerInv(q) && HasRead(q.stream, p.stream.read, msg, Min(room, |msg|))
            && q.actor == p.actor.(dataTx := p.actor.dataTx[1..])
  {
    ReadIsExact(p, room);
    ReadKeeps(p, room);
    CoreOf(p.actor);
    assert p.actor.dataTx[0] != [];
    hide ActorInv, MaxMessage, Mss, PeerRead;
  }

  /** A message is received whole, past what reads have left over; there is none exactly if the stream is
      closed, or nothing has come and nothing can. */
  lemma ReceiveIsExact(p: Peer)
    requires PeerInv(p)
    ensures var (q, r) := PeerReceive(p);
            && (r == Got([]) <==> p.stream.closed || (p.actor.dataTx == [] && !p.actor.exit.Running?))
            && (r.ReadPending? <==> !p.stream.closed && p.actor.dataTx == [] && p.actor.exit.Running?)
            && (r.Got? && r.data != [] ==>
                  && p.actor.dataTx != [] && r.data == p.actor.dataTx[0] && q.stream.readBuf == p.stream.readBuf
                  && q.actor == p.actor.(dataTx := p.actor.dataTx[1..]))
            && (r.ReadPending? || r == Got([]) ==> q == p)
  {
    CoreOf(p.actor);
    hide ActorInv;
  }
}
