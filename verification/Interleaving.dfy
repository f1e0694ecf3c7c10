/** Interleaved audio: sample c of frame f of an n-channel stream sits at index f * n + c.
    Every component of the engine relies on the facts in this module. */
module Interleaving {

  function Min(a: nat, b: nat): nat {
    if a < b then a else b
  }

  /** Samples leave the engine within [-1, 1]. */
  function Clip(x: real): (r: real)
    ensures -1.0 <= r <= 1.0 && (-1.0 <= x <= 1.0 ==> r == x)
    ensures (x >= 1.0 ==> r == 1.0) && (x <= -1.0 ==> r == -1.0)
  {
    if x < -1.0 then -1.0 else if x > 1.0 then 1.0 else x
  }

  /** Division of counts; naming it keeps the prover from re-deriving that it is a count. */
  function Quotient(x: nat, n: nat): nat
    requires n > 0
  {
    x / n
  }

  function Sample(s: seq<real>, channels: nat, frame: nat, c: nat): real
    requires c < channels && frame < |s| / channels
  {
    IndexInBounds(|s|, channels, frame, c);
    s[frame * channels + c]
  }

  /** All samples of one channel, in order. */
  function Channel(s: seq<real>, channels: nat, c: nat): seq<real>
    requires c < channels
  {
    seq(|s| / channels, f requires 0 <= f < |s| / channels => Sample(s, channels, f, c))
  }

  /** The first `frames` samples of every track. */
  function Heads(tracks: seq<seq<real>>, frames: nat): (r: seq<seq<real>>)
    requires forall c :: 0 <= c < |tracks| ==> frames <= |tracks[c]|
    ensures |r| == |tracks| && forall c :: 0 <= c < |r| ==> |r[c]| == frames && r[c] == tracks[c][..frames]
  {
    seq(|tracks|, c requires 0 <= c < |tracks| => tracks[c][..frames])
  }

  /** Sample f of every track. */
  function Row(tracks: seq<seq<real>>, f: nat): (r: seq<real>)
    requires forall c :: 0 <= c < |tracks| ==> f < |tracks[c]|
    ensures |r| == |tracks| && forall c :: 0 <= c < |r| ==> r[c] == tracks[c][f]
  {
    seq(|tracks|, c requires 0 <= c < |tracks| => tracks[c][f])
  }

  /** The frame-by-frame interleaving of equally long channels. */
  function Interleave(tracks: seq<seq<real>>, frames: nat): (r: seq<real>)
    requires forall c :: 0 <= c < |tracks| ==> |tracks[c]| == frames
    ensures |r| == frames * |tracks|
    decreases frames
  {
    if frames == 0 then [] else Interleave(Heads(tracks, frames - 1), frames - 1) + Row(tracks, frames - 1)
  }

  lemma MulLe(a: nat, b: nat, n: nat)
    requires a <= b
    ensures a * n <= b * n
  {
  }

  lemma LastFrameLength(n: nat, channels: nat)
    requires n > 0
    ensures n * channels == (n - 1) * channels + channels
  {
  }

  lemma IndexInBounds(len: nat, n: nat, f: nat, c: nat)
    requires c < n && f < len / n
    ensures f * n + c < len
  {
    MulLe(f + 1, len / n, n);
    assert (len / n) * n <= len;
    assert (f + 1) * n == f * n + n;
  }

  /** Every sample of an aligned stream belongs to a frame and a channel. */
  lemma FrameOfIndex(len: nat, n: nat, x: nat)
    requires n > 0 && len % n == 0 && x < len
    ensures x / n < len / n && x % n < n && (x / n) * n + x % n == x
  {
    assert len == (len / n) * n;
    DivLe(len / n, x, n);
  }

  /** Quotient and remainder are unique. */
  lemma DivModUnique(x: nat, n: nat, q: nat, r: nat)
    requires r < n && x == q * n + r
    ensures x / n == q && x % n == r
  {
    var q', r' := x / n, x % n;
    assert x == q' * n + r';
    assert (q' + 1) * n == q' * n + n && (q + 1) * n == q * n + n;
    if q' < q { MulLe(q' + 1, q, n); }
    if q < q' { MulLe(q + 1, q', n); }
  }

  /** The indices of frame f. */
  lemma InFrame(i: nat, n: nat, f: nat)
    requires n > 0
    ensures i / n == f <==> f * n <= i < f * n + n
    ensures i / n == f ==> i % n == i - f * n
  {
    assert i == (i / n) * n + i % n;
    if f * n <= i < f * n + n { DivModUnique(i, n, f, i - f * n); }
  }

  /** Dividing shifts by whole multiples of the divisor. */
  lemma DivModShift(x: nat, n: nat, m: nat)
    requires n > 0
    ensures (m * n + x) / n == m + x / n
    ensures (m * n + x) % n == x % n
  {
    assert (m + x / n) * n == m * n + (x / n) * n;
    DivModUnique(m * n + x, n, m + x / n, x % n);
  }

  lemma DivLe(k: nat, x: nat, i: nat)
    requires i > 0
    ensures k <= x / i <==> k * i <= x
  {
    var q, r := x / i, x % i;
    assert x == q * i + r;
    if k <= q { MulLe(k, q, i); }
    else { MulLe(q + 1, k, i); assert (q + 1) * i == q * i + i; }
  }

  lemma MulDiv(f: nat, n: nat)
    requires n > 0
    ensures (f * n) / n == f && (f * n) % n == 0
  {
    DivModUnique(f * n, n, f, 0);
  }

  lemma FramesOfConcat(s: seq<real>, t: seq<real>, n: nat)
    requires n > 0 && |s| % n == 0
    ensures |s + t| / n == |s| / n + |t| / n
  {
    assert |s| == (|s| / n) * n;
    DivModShift(|t|, n, |s| / n);
  }

  /** The frames of `s` come first in `s + t`. */
  lemma SampleOfConcat(s: seq<real>, t: seq<real>, n: nat, f: nat, c: nat)
    requires c < n && |s| % n == 0 && f < |s| / n
    ensures f < |s + t| / n && Sample(s + t, n, f, c) == Sample(s, n, f, c)
  {
    FramesOfConcat(s, t, n);
    IndexInBounds(|s|, n, f, c);
  }

  /** Dropping whole frames renumbers the remaining ones. */
  lemma SampleOfSuffix(s: seq<real>, n: nat, dropped: nat, f: nat, c: nat)
    requires c < n && dropped <= |s| / n && f < |s| / n - dropped
    ensures dropped * n <= |s| && |s[dropped * n..]| / n == |s| / n - dropped
    ensures Sample(s[dropped * n..], n, f, c) == Sample(s, n, dropped + f, c)
  {
    MulLe(dropped, |s| / n, n);
    assert (|s| / n) * n <= |s|;
    var rest := |s| - dropped * n;
    DivModShift(rest, n, dropped);
    IndexInBounds(rest, n, f, c);
    IndexInBounds(|s|, n, dropped + f, c);
    assert (dropped + f) * n == dropped * n + f * n;
  }

  /** Position f * n + c of an interleaved stream carries sample f of channel c. */
  lemma {:induction false} InterleaveAt(tracks: seq<seq<real>>, frames: nat, f: nat, c: nat)
    requires forall t :: 0 <= t < |tracks| ==> |tracks[t]| == frames
    requires f < frames && c < |tracks|
    ensures f * |tracks| + c < |Interleave(tracks, frames)|
    ensures Interleave(tracks, frames)[f * |tracks| + c] == tracks[c][f]
    decreases frames
  {
    var n := |tracks|;
    var shorter := Heads(tracks, frames - 1);
    MulLe(f + 1, frames, n);
    LastFrameLength(f + 1, n);
    LastFrameLength(frames, n);
    if f < frames - 1 {
      InterleaveAt(shorter, frames - 1, f, c);
    }
  }

  /** Interleaving then picking a channel gives the channel back. */
  lemma ChannelOfInterleave(tracks: seq<seq<real>>, frames: nat, c: nat)
    requires forall t :: 0 <= t < |tracks| ==> |tracks[t]| == frames
    requires c < |tracks|
    ensures Channel(Interleave(tracks, frames), |tracks|, c) == tracks[c]
  {
    var n := |tracks|;
    var s := Interleave(tracks, frames);
    MulDiv(frames, n);
    forall f | 0 <= f < frames ensures Sample(s, n, f, c) == tracks[c][f] {
      InterleaveAt(tracks, frames, f, c);
    }
  }

  /** The frames of `t` follow those of `s` in `s + t`. */
  lemma LaterSampleOfConcat(s: seq<real>, t: seq<real>, n: nat, f: nat, c: nat)
    requires c < n && |s| % n == 0 && f < |t| / n
    ensures |s| / n + f < |s + t| / n && Sample(s + t, n, |s| / n + f, c) == Sample(t, n, f, c)
  {
    FramesOfConcat(s, t, n);
    assert (|s| / n) * n == |s|;
    assert (s + t)[|s|..] == t;
    SampleOfSuffix(s + t, n, |s| / n, f, c);
  }

  lemma EarlierSamples(s: seq<real>, t: seq<real>, n: nat, c: nat)
    requires c < n && |s| % n == 0
    ensures |Channel(s + t, n, c)| == |Channel(s, n, c)| + |Channel(t, n, c)|
    ensures forall f :: 0 <= f < |Channel(s, n, c)| ==> Channel(s + t, n, c)[f] == Channel(s, n, c)[f]
  {
    FramesOfConcat(s, t, n);
    forall f | 0 <= f < |Channel(s, n, c)| ensures Channel(s + t, n, c)[f] == Channel(s, n, c)[f] {
      SampleOfConcat(s, t, n, f, c);
    }
  }

  lemma LaterSamples(s: seq<real>, t: seq<real>, n: nat, c: nat)
    requires c < n && |s| % n == 0
    requires |Channel(s + t, n, c)| == |Channel(s, n, c)| + |Channel(t, n, c)|
    ensures forall f :: 0 <= f < |Channel(t, n, c)| ==>
      Channel(s + t, n, c)[|Channel(s, n, c)| + f] == Channel(t, n, c)[f]
  {
    forall f | 0 <= f < |Channel(t, n, c)|
      ensures Channel(s + t, n, c)[|Channel(s, n, c)| + f] == Channel(t, n, c)[f]
    {
      LaterSampleOfConcat(s, t, n, f, c);
    }
  }

  /** Channels of a concatenation are concatenations of channels. */
  lemma ChannelOfConcat(s: seq<real>, t: seq<real>, n: nat, c: nat)
    requires c < n && |s| % n == 0
    ensures Channel(s + t, n, c) == Channel(s, n, c) + Channel(t, n, c)
  {
    EarlierSamples(s, t, n, c);
    LaterSamples(s, t, n, c);
    Assemble(Channel(s + t, n, c), Channel(s, n, c), Channel(t, n, c));
  }

  lemma Assemble(whole: seq<real>, left: seq<real>, right: seq<real>)
    requires |whole| == |left| + |right|
    requires forall f :: 0 <= f < |left| ==> whole[f] == left[f]
    requires forall f :: 0 <= f < |right| ==> whole[|left| + f] == right[f]
    ensures whole == left + right
  {
    forall f | |left| <= f < |whole| ensures whole[f] == (left + right)[f] {
      assert whole[|left| + (f - |left|)] == right[f - |left|];
    }
  }
}
