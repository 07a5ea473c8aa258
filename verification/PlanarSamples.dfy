/** Reading an image's samples channel by channel, however the file stores them. */
module PlanarSamples {
  import opened Shuffle

  datatype PixelStorage = Planar | Normal

  /** Samples in planar order: as stored, or rearranged channel by channel from pixel order. */
  method ReadPlanar<T>(samples: seq<T>, storage: PixelStorage, channels: nat) returns (out: seq<T>)
    ensures out == if storage == Planar then samples else Shuffled(samples, channels)
  {
    hide Shuffled;
    hide Plane;
    if storage == Planar {
      return samples;
    }
    if channels <= 1 {
      OneChannel(samples, channels);
      return samples;
    }
    var pixels := |samples| / channels;
    out := [];
    for c := 0 to channels
      invariant c * pixels <= |samples| && out == Shuffled(samples, channels)[..c * pixels]
    {
      PlaneOf(samples, channels, c);
      out := out + Plane(samples, channels, c);
    }
    PlanesAndTail(samples, channels);
    out := out + samples[pixels * channels..];
  }

  lemma {:induction false} OneChannel<T>(samples: seq<T>, channels: nat)
    requires channels <= 1
    ensures Shuffled(samples, channels) == samples
  {
  }

  /** After the planes come the samples that make no whole pixel. */
  lemma {:induction false} PlanesAndTail<T>(samples: seq<T>, channels: nat)
    requires 2 <= channels
    ensures var pixels := |samples| / channels;
      pixels * channels == channels * pixels <= |samples|
      && Shuffled(samples, channels)
         == Shuffled(samples, channels)[..channels * pixels] + samples[pixels * channels..]
  {
    hide Shuffled;
    hide Unshuffled;
    DivCeiling(|samples|, channels);
    TailStays(samples, channels);
  }

  lemma {:induction false} ShuffleIndexFits(n: nat, channels: nat, c: nat, p: nat)
    requires 2 <= channels && c < channels && p < n / channels
    ensures p * channels + c < n && c * (n / channels) + p < n
  {
    ShuffleSourceAt(n, channels, c, p);
  }

  /** The samples of one channel, pixel by pixel. */
  function Plane<T>(samples: seq<T>, channels: nat, c: nat): (plane: seq<T>)
    requires 2 <= channels && c < channels
    ensures |plane| == |samples| / channels
  {
    seq(|samples| / channels, p requires 0 <= p < |samples| / channels =>
      ShuffleIndexFits(|samples|, channels, c, p); samples[p * channels + c])
  }

  /** One channel's samples are one stretch of the planar order. */
  lemma {:induction false} PlaneOf<T>(samples: seq<T>, channels: nat, c: nat)
    requires 2 <= channels && c < channels
    ensures var pixels := |samples| / channels;
      c * pixels <= (c + 1) * pixels <= |samples|
      && Shuffled(samples, channels)[..(c + 1) * pixels]
         == Shuffled(samples, channels)[..c * pixels] + Plane(samples, channels, c)
  {
    var pixels, planar := |samples| / channels, Shuffled(samples, channels);
    PlaneEnds(c, pixels);
    DivCeiling(|samples|, channels);
    PlaneBelow(c, channels, pixels);
    forall p | 0 <= p < pixels
      ensures c * pixels + p < |samples| && planar[c * pixels + p] == Plane(samples, channels, c)[p]
    {
      ShuffledAt(samples, channels, c, p);
    }
    Extends(planar, c * pixels, Plane(samples, channels, c));
  }

  lemma {:induction false} Extends<T>(whole: seq<T>, at: nat, part: seq<T>)
    requires at + |part| <= |whole| && forall p :: 0 <= p < |part| ==> whole[at + p] == part[p]
    ensures whole[..at + |part|] == whole[..at] + part
  {
  }

  /** In planar order sample `p` of channel `c` follows the whole of every earlier channel, and nothing is lost. */
  lemma {:induction false} PlanarOrder<T>(samples: seq<T>, channels: nat, c: nat, p: nat)
    requires 2 <= channels && c < channels && p < |samples| / channels
    ensures var pixels := |samples| / channels;
      c * pixels + p < |samples| && p * channels + c < |samples|
      && Shuffled(samples, channels)[c * pixels + p] == samples[p * channels + c]
    ensures Unshuffled(Shuffled(samples, channels), channels) == samples
  {
    ShuffledAt(samples, channels, c, p);
    ShuffleInverts(samples, channels);
  }
}
