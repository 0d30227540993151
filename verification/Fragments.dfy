/** Fragmenting messages and putting them together again. */
module Fragments {
  import opened Word
  import opened EngineSpec

  function Concat(parts: seq<Bytes>): Bytes {
    if parts == [] then [] else parts[0] + Concat(parts[1..])
  }

  /** The data of a list of fragments, in order. */
  function DataOf(frags: seq<Frag>): Bytes {
    if frags == [] then [] else frags[0].data + DataOf(frags[1..])
  }

  lemma {:induction false} DataOfAppend(a: seq<Frag>, b: seq<Frag>)
    ensures DataOf(a + b) == DataOf(a) + DataOf(b)
  {
    if a == [] {
      assert a + b == b;
    } else {
      assert (a + b)[1..] == a[1..] + b;
      DataOfAppend(a[1..], b);
    }
  }

  lemma {:induction false} ConcatAppend(a: seq<Bytes>, b: seq<Bytes>)
    ensures Concat(a + b) == Concat(a) + Concat(b)
  {
    if a == [] {
      assert a + b == b;
    } else {
      assert (a + b)[1..] == a[1..] + b;
      ConcatAppend(a[1..], b);
    }
  }

  lemma TimesMonotone(a: int, b: int, d: int)
    requires a <= b && 0 <= d
    ensures a * d <= b * d
  {
  }

  lemma DivMod(x: nat, d: int)
    requires d > 0
    ensures x == x / d * d + x % d && 0 <= x % d < d
  {
  }

  lemma QuotientIs(x: nat, d: int, q: int, r: int)
    requires d > 0 && x == q * d + r && 0 <= r < d
    ensures x / d == q && x % d == r
  {
    var q1, r1 := x / d, x % d;
    DivMod(x, d);
    assert x == q1 * d + r1;
    hide *;
    if q1 < q { TimesMonotone(q1 + 1, q, d); }
    if q < q1 { TimesMonotone(q + 1, q1, d); }
  }

  lemma CountStep(len: nat, mss: int)
    requires 0 < mss < len
    ensures FragmentCount(len, mss) == 1 + FragmentCount(len - mss, mss)
  {
    var q, r := (len - mss) / mss, (len - mss) % mss;
    DivMod(len - mss, mss);
    assert (q + 1) * mss == q * mss + mss;
    QuotientIs(len, mss, q + 1, r);
    if len - mss == mss {
      QuotientIs(mss, mss, 1, 0);
    } else if len - mss < mss {
      QuotientIs(len - mss, mss, 0, len - mss);
    }
  }

  /** The fragments of one message: numbered down to 0, none empty. */
  ghost predicate Countdown(g: seq<Frag>) {
    && 1 <= |g| <= 256
    && (forall i :: 0 <= i < |g| ==> g[i].frg == |g| - 1 - i)
    && (forall i :: 0 <= i < |g| ==> g[i].data != [])
  }

  /** `send`'s count is the number of fragments it queues; together they are the data, all of them
      full but the last, which is not empty. */
  lemma {:induction false} FragmentShape(data: Bytes, mss: int, streamMode: bool)
    requires mss > 0 && data != []
    ensures var f := Fragment(data, mss, streamMode);
            && |f| == FragmentCount(|data|, mss) >= 1
            && DataOf(f) == data
            && (forall i :: 0 <= i < |f| ==> 1 <= |f[i].data| <= mss)
            && (forall i :: 0 <= i < |f| - 1 ==> |f[i].data| == mss)
            && (streamMode ==> forall i :: 0 <= i < |f| ==> f[i].frg == 0)
    decreases |data|
  {
    var f := Fragment(data, mss, streamMode);
    if |data| > mss {
      var rest := Fragment(data[mss..], mss, streamMode);
      assert f[0].data == data[..mss] && f[1..] == rest && (streamMode ==> f[0].frg == 0);
      CountStep(|data|, mss);
      hide Fragment, FragmentCount;
      FragmentShape(data[mss..], mss, streamMode);
      assert data == data[..mss] + data[mss..];
      forall i | 1 <= i < |f| ensures f[i] == rest[i - 1] {}
    } else {
      assert f[1..] == [];
    }
  }

  /** In message mode the fragments of a message count down to 0. */
  lemma {:induction false} FragmentCountsDown(data: Bytes, mss: int)
    requires mss > 0 && data != [] && |Fragment(data, mss, false)| <= 256
    ensures Countdown(Fragment(data, mss, false))
    decreases |data|
  {
    if |data| > mss {
      var f, rest := Fragment(data, mss, false), Fragment(data[mss..], mss, false);
      assert f == [Frag(|rest| % 0x100, data[..mss])] + rest;
      hide Fragment;
      FragmentCountsDown(data[mss..], mss);
      forall i | 1 <= i < |f| ensures f[i] == rest[i - 1] {}
    }
  }

  lemma MultiplesBound(q: nat, r: nat, d: int, max: nat)
    requires r < d
    ensures (if r == 0 then q else q + 1) <= max <==> q * d + r <= max * d
  {
    if q + 1 <= max { TimesMonotone(q + 1, max, d); }
    if max + 1 <= q { TimesMonotone(max + 1, q, d); }
  }

  /** A fragment count is within a bound exactly when the length is within that many segments. */
  lemma CountBound(len: nat, mss: int, max: nat)
    requires mss > 0 && max >= 1
    ensures FragmentCount(len, mss) <= max <==> len <= max * mss
  {
    if len <= mss {
      TimesMonotone(1, max, mss);
    } else {
      DivMod(len, mss);
      MultiplesBound(len / mss, len % mss, mss, max);
    }
  }

  // ---- send ----

  /** The bytes a `send` adds to the queue: all of an accepted message, and of a rejected one the
      prefix that stream mode merged before the size check. */
  function Queued(s: State, data: Bytes): Bytes {
    if Send(s, data).1 then data else data[..MergeLength(s, data)]
  }

  lemma {:induction false} MergeAppends(queue: seq<Frag>, data: Bytes)
    requires data != [] ==> queue != []
    ensures DataOf(MergeIntoLast(queue, data)) == DataOf(queue) + data
  {
    if data != [] {
      var init, last := queue[..|queue| - 1], queue[|queue| - 1];
      assert queue == init + [last];
      DataOfAppend(init, [last]);
      DataOfAppend(init, [last.(data := last.data + data)]);
      assert DataOf(queue) + data == DataOf(init) + (last.data + data);
    }
  }

  lemma FragmentAppends(queue: seq<Frag>, data: Bytes, mss: int, streamMode: bool)
    requires mss > 0 && data != []
    ensures DataOf(queue + Fragment(data, mss, streamMode)) == DataOf(queue) + data
  {
    FragmentShape(data, mss, streamMode);
    DataOfAppend(queue, Fragment(data, mss, streamMode));
  }

  /** `send` appends exactly the bytes it reports, after those already queued. */
  lemma SendAppends(s: State, data: Bytes)
    ensures DataOf(Send(s, data).0.sndQueue) == DataOf(s.sndQueue) + Queued(s, data)
  {
    if data == [] {
      assert MergeLength(s, data) == 0 && DataOf(s.sndQueue) + [] == DataOf(s.sndQueue);
    } else {
      var n := MergeLength(s, data);
      assert data[..n] != [] ==> s.sndQueue != [];
      hide MergeIntoLast, MergeLength, Fragment, FragmentCount, MaxFragments, DataOf, Mss;
      var q1 := MergeIntoLast(s.sndQueue, data[..n]);
      MergeAppends(s.sndQueue, data[..n]);
      if data[n..] != [] { FragmentAppends(q1, data[n..], Mss(s.cfg), s.cfg.streamMode); }
      assert data == data[..n] + data[n..];
      assert DataOf(s.sndQueue) + data == (DataOf(s.sndQueue) + data[..n]) + data[n..];
    }
  }

  /** What is left of a message after merging decides acceptance: it must fit the fragment bound. */
  lemma SendAccepts(s: State, data: Bytes)
    ensures Send(s, data).1 <==> |data| - MergeLength(s, data) <= MaxFragments(s.cfg) * Mss(s.cfg)
  {
    CountBound(|data| - MergeLength(s, data), Mss(s.cfg), MaxFragments(s.cfg));
    assert MaxFragments(s.cfg) * Mss(s.cfg) >= 0;
    assert data[MergeLength(s, data)..] == [] <==> |data| == MergeLength(s, data);
  }

  /** A rejected message leaves the engine untouched exactly when no prefix of it was merged. In
      message mode that is always so; in stream mode an error can leave a prefix queued. */
  lemma RejectionChangesNothingIff(s: State, data: Bytes)
    requires !Send(s, data).1
    ensures Send(s, data).0 == s <==> MergeLength(s, data) == 0
    ensures !s.cfg.streamMode ==> Send(s, data).0 == s
  {
    var n := MergeLength(s, data);
    if n == 0 {
      assert data[..0] == [];
    } else {
      MergeAppends(s.sndQueue, data[..n]);
      assert |DataOf(Send(s, data).0.sndQueue)| == |DataOf(s.sndQueue)| + n;
    }
  }

  // ---- Messages as groups of fragments ----

  function Join(groups: seq<seq<Frag>>): seq<Frag> {
    if groups == [] then [] else Join(groups[..|groups| - 1]) + groups[|groups| - 1]
  }

  lemma {:induction false} JoinAppend(a: seq<seq<Frag>>, b: seq<seq<Frag>>)
    ensures Join(a + b) == Join(a) + Join(b)
    decreases |b|
  {
    if b == [] {
      assert a + b == a;
    } else {
      var b1 := b[..|b| - 1];
      assert (a + b)[..|a + b| - 1] == a + b1;
      JoinAppend(a, b1);
    }
  }

  lemma {:induction false} HeadLengthOfGroup(g: seq<Frag>, rest: seq<Frag>)
    requires Countdown(g)
    ensures HeadLength(g + rest) == |DataOf(g)| >= |g|
  {
    assert (g + rest)[0] == g[0];
    if |g| > 1 {
      assert (g + rest)[1..] == g[1..] + rest;
      HeadLengthOfGroup(g[1..], rest);
    } else {
      assert g[1..] == [];
    }
  }

  lemma {:induction false} TakeGroup(g: seq<Frag>, rest: seq<Frag>)
    requires Countdown(g)
    ensures TakeMessage(g + rest, |DataOf(g)|) == (DataOf(g), rest)
  {
    assert (g + rest)[0] == g[0];
    assert (g + rest)[1..] == g[1..] + rest;
    if |g| > 1 {
      TakeGroup(g[1..], rest);
    } else {
      assert g[1..] == [];
      assert g[0].data + [] == g[0].data;
    }
  }

  /** A complete message at the head of the queue is what `recv` peeks and takes, no more, no less. */
  lemma HeadMessage(g: seq<Frag>, rest: seq<Frag>)
    requires Countdown(g) && |DataOf(g)| < HALF
    ensures PeekSize(g + rest) == |DataOf(g)| > 0
    ensures TakeMessage(g + rest, PeekSize(g + rest)) == (DataOf(g), rest)
  {
    HeadLengthOfGroup(g, rest);
    TakeGroup(g, rest);
    assert (g + rest)[0] == g[0];
  }
}
