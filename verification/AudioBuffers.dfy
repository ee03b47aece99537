/** The loops over frames and channels in which workers and callback go through the buffer. */
module AudioBuffers {
  import opened AudioBarrier

  /** The part of a worker's round that renders: the half given by `half` is overwritten, and
      nothing else. */
  method RenderFrames(c: Setup, frames: nat, channels: nat, outbuf: array<int>, idx: nat, half: bool, round: nat)
    requires c.samples == frames * channels && outbuf.Length == 2 * c.workers * c.samples && idx < c.workers
    modifies outbuf
    ensures forall n | 0 <= n < c.samples ::
      Slot(c, idx, half, n) < outbuf.Length && outbuf[Slot(c, idx, half, n)] == c.render(idx, round, n)
    ensures forall w, h, n | 0 <= n < c.samples && Slot(c, w, h, n) < outbuf.Length && (w != idx || h != half) ::
      outbuf[Slot(c, w, h, n)] == old(outbuf[Slot(c, w, h, n)])
  {
    ghost var was := outbuf[..];
    var i := 0;
    while i < frames
      invariant i <= frames && Written(c, was, outbuf[..], idx, half, round, i * channels)
    {
      var iout := i * channels;
      RowInside(i, frames, channels);
      var k := 0;
      while k < channels
        invariant k <= channels && iout == i * channels && iout + channels <= c.samples
        invariant Written(c, was, outbuf[..], idx, half, round, iout + k)
      {
        SlotInside(c, idx, half, iout + k);
        ghost var before := outbuf[..];
        outbuf[Slot(c, idx, half, iout + k)] := c.render(idx, round, iout + k);
        OneMore(c, was, before, idx, half, round, iout + k);
        k := k + 1;
      }
      i := i + 1;
    }
    Exposed(c, was, outbuf[..], idx, half, round);
  }

  lemma RowInside(i: nat, frames: nat, channels: nat)
    requires i < frames
    ensures i * channels + channels == (i + 1) * channels <= frames * channels
  {
    MultiplyOrder(i + 1, frames, channels);
  }

  /** The first `n` samples of the half are rendered, and all other samples are as they were. */
  ghost predicate Written(c: Setup, was: seq<int>, now: seq<int>, idx: nat, half: bool, round: nat, n: nat) {
    && |now| == |was|
    && (forall j | 0 <= j < n && j < c.samples :: Rendered(c, now, idx, half, round, j))
    && (forall w, h, j | 0 <= j < c.samples && (w != idx || h != half) :: Untouched(c, was, now, w, h, j))
  }

  predicate Rendered(c: Setup, now: seq<int>, idx: nat, half: bool, round: nat, j: nat) {
    Slot(c, idx, half, j) < |now| && now[Slot(c, idx, half, j)] == c.render(idx, round, j)
  }

  predicate Untouched(c: Setup, was: seq<int>, now: seq<int>, w: nat, h: bool, j: nat) {
    Slot(c, w, h, j) < |now| && |was| == |now| ==> now[Slot(c, w, h, j)] == was[Slot(c, w, h, j)]
  }

  lemma OneMore(c: Setup, was: seq<int>, now: seq<int>, idx: nat, half: bool, round: nat, n: nat)
    requires Written(c, was, now, idx, half, round, n) && n < c.samples && Slot(c, idx, half, n) < |now|
    ensures Written(c, was, now[Slot(c, idx, half, n) := c.render(idx, round, n)], idx, half, round, n + 1)
  {
    var next := now[Slot(c, idx, half, n) := c.render(idx, round, n)];
    forall j | 0 <= j < n + 1 && j < c.samples ensures Rendered(c, next, idx, half, round, j) {
      if j < n {
        assert Rendered(c, now, idx, half, round, j);
        SlotsDiffer(c, idx, half, n, idx, half, j);
      }
    }
    forall w, h, j | 0 <= j < c.samples && (w != idx || h != half) ensures Untouched(c, was, next, w, h, j) {
      assert Untouched(c, was, now, w, h, j);
      SlotsDiffer(c, idx, half, n, w, h, j);
    }
  }

  lemma Exposed(c: Setup, was: seq<int>, now: seq<int>, idx: nat, half: bool, round: nat)
    requires Written(c, was, now, idx, half, round, c.samples)
    ensures forall n | 0 <= n < c.samples ::
      Slot(c, idx, half, n) < |now| && now[Slot(c, idx, half, n)] == c.render(idx, round, n)
    ensures forall w, h, n | 0 <= n < c.samples && Slot(c, w, h, n) < |now| && (w != idx || h != half) ::
      now[Slot(c, w, h, n)] == was[Slot(c, w, h, n)]
  {
    forall n | 0 <= n < c.samples
      ensures Slot(c, idx, half, n) < |now| && now[Slot(c, idx, half, n)] == c.render(idx, round, n)
    {
      assert Rendered(c, now, idx, half, round, n);
    }
    forall w, h, n | 0 <= n < c.samples && Slot(c, w, h, n) < |now| && (w != idx || h != half)
      ensures now[Slot(c, w, h, n)] == was[Slot(c, w, h, n)]
    {
      assert Untouched(c, was, now, w, h, n);
    }
  }

  /** The part of the callback that sums: the pointers `indats` are set once, to the half that the
      toggle selects, and then every frame and channel takes one sample from each worker. */
  method SumFrames(c: Setup, frames: nat, channels: nat, outbuf: array<int>, toggle: bool)
    returns (dat: seq<seq<int>>)
    requires c.samples == frames * channels && outbuf.Length == 2 * c.workers * c.samples
    ensures |dat| == c.samples
    ensures forall n, w | 0 <= n < c.samples && 0 <= w < c.workers ::
      |dat[n]| == c.workers && Slot(c, w, !c.zeroLatency && !toggle, n) < outbuf.Length
      && dat[n][w] == outbuf[Slot(c, w, !c.zeroLatency && !toggle, n)]
  {
    var half := !c.zeroLatency && !toggle;
    dat := [];
    var i := 0;
    while i < frames
      invariant i <= frames && |dat| == i * channels && Summed(c, outbuf[..], half, dat)
    {
      RowInside(i, frames, channels);
      var k := 0;
      while k < channels
        invariant k <= channels && |dat| == i * channels + k && Summed(c, outbuf[..], half, dat)
      {
        var mix := TakeSamples(c, outbuf, half, i * channels + k);
        dat := dat + [mix];
        k := k + 1;
      }
      i := i + 1;
    }
    forall n, w | 0 <= n < c.samples && 0 <= w < c.workers
      ensures |dat[n]| == c.workers && Slot(c, w, half, n) < outbuf.Length && dat[n][w] == outbuf[Slot(c, w, half, n)]
    {
      assert Took(c, outbuf[..], half, dat[n], n, w);
    }
  }

  /** `in[jj] = indats[jj][iout + k]` for every worker. */
  method TakeSamples(c: Setup, outbuf: array<int>, half: bool, n: nat) returns (mix: seq<int>)
    requires outbuf.Length == 2 * c.workers * c.samples && n < c.samples
    ensures |mix| == c.workers && forall w | 0 <= w < c.workers :: Took(c, outbuf[..], half, mix, n, w)
  {
    var first := if half then c.samples else 0;
    mix := [];
    var jj := 0;
    while jj < c.workers
      invariant jj == |mix| <= c.workers
      invariant forall w | 0 <= w < jj :: Took(c, outbuf[..], half, mix, n, w)
    {
      SlotInside(c, jj, half, n);
      PointerIsSlot(c, jj, half, n);
      ghost var before := mix;
      mix := mix + [outbuf[first + c.samples * jj * 2 + n]];
      forall w | 0 <= w < jj + 1 ensures Took(c, outbuf[..], half, mix, n, w) {
        if w < jj {
          assert Took(c, outbuf[..], half, before, n, w);
        }
      }
      jj := jj + 1;
    }
  }

  predicate Took(c: Setup, buf: seq<int>, half: bool, mix: seq<int>, n: nat, w: nat) {
    w < |mix| && Slot(c, w, half, n) < |buf| && mix[w] == buf[Slot(c, w, half, n)]
  }

  predicate Summed(c: Setup, buf: seq<int>, half: bool, dat: seq<seq<int>>) {
    && |dat| <= c.samples
    && forall n | 0 <= n < |dat| ::
         |dat[n]| == c.workers && forall w | 0 <= w < c.workers :: Took(c, buf, half, dat[n], n, w)
  }

  lemma PointerIsSlot(c: Setup, w: nat, half: bool, n: nat)
    ensures (if half then c.samples else 0) + c.samples * w * 2 + n == Slot(c, w, half, n)
  {
    assert c.samples * w * 2 == (2 * w) * c.samples;
    assert (2 * w + 1) * c.samples == (2 * w) * c.samples + c.samples;
  }
}
