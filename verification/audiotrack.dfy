/**
 * The recorded audio track (audiotrack.cpp): an append-only vector of
 * samples at the track's sample rate.  The speex resampler is a parameter:
 * it maps (samples, input rate, output rate) to the resampled samples, or to
 * None when one of its calls reports an error.
 */
module AudioTrack {
  import opened Wrappers

  type Resampler = (seq<real>, real, real) -> Option<seq<real>>

  /**
   * `data(offset, length)` on the sample vector `track`: empty for an
   * offset outside the track, the rest of the track for a negative length,
   * and otherwise the `length` samples from `offset`, which must not run
   * past the end (the source copies without checking).
   */
  function Slice(track: seq<real>, offset: int, length: int): (r: seq<real>)
    requires 0 <= offset < |track| && length >= 0 ==> offset + length <= |track|
    ensures offset < 0 || offset >= |track| ==> r == []
    ensures 0 <= offset < |track| ==> |r| == if length < 0 then |track| - offset else length
    ensures forall i :: 0 <= i < |r| ==> 0 <= offset + i < |track| && r[i] == track[offset + i]
  {
    if offset < 0 || offset >= |track| then []
    else if length < 0 then track[offset..]
    else track[offset..offset + length]
  }

  /** Growing the track never changes a slice that lay inside it. */
  lemma SliceOfExtended(track: seq<real>, more: seq<real>, offset: int, length: int)
    requires 0 <= offset < |track| && 0 <= length && offset + length <= |track|
    ensures Slice(track + more, offset, length) == Slice(track, offset, length)
  {
  }

  /** Two adjacent slices make up the slice that covers both. */
  lemma SliceSplit(track: seq<real>, offset: int, a: nat, b: nat)
    requires 0 <= offset && offset + a < |track| && offset + a + b <= |track|
    ensures Slice(track, offset, a) + Slice(track, offset + a, b) == Slice(track, offset, a + b)
  {
    assert track[offset..offset + a] + track[offset + a..offset + a + b] == track[offset..offset + a + b];
  }

  class AudioTrack {
    var track: seq<real>
    var sampleRate: real

    constructor ()
      ensures track == [] && sampleRate == 0.0
    {
      track := [];
      sampleRate := 0.0;
    }

    /** `append`: resample the chunk to the track rate and add it at the end; a resampler error drops it. */
    method Append(chunk: seq<real>, fsIn: real, resample: Resampler)
      modifies this`track
      ensures resample(chunk, fsIn, sampleRate).None? ==> track == old(track)
      ensures resample(chunk, fsIn, sampleRate).Some? ==>
        track == old(track) + resample(chunk, fsIn, sampleRate).value
    {
      var fsOut := sampleRate;
      var resampled := resample(chunk, fsIn, fsOut);
      if resampled.None? {
        return;
      }
      track := track + resampled.value;
    }

    /** `reset`: drop every sample. */
    method Reset()
      modifies this`track
      ensures track == []
    {
      track := [];
    }

    /**
     * `setSampleRate`: the rate always changes; the samples are resampled
     * to it only when a positive old rate differs from the new one, and kept
     * as they are when the resampler fails.
     */
    method SetSampleRate(rate: real, resample: Resampler)
      modifies this
      ensures sampleRate == rate
      ensures (old(sampleRate) > 0.0 && rate != old(sampleRate) &&
               resample(old(track), old(sampleRate), rate).Some?) ==>
                track == resample(old(track), old(sampleRate), rate).value
      ensures (old(sampleRate) <= 0.0 || rate == old(sampleRate) ||
               resample(old(track), old(sampleRate), rate).None?) ==> track == old(track)
    {
      var oldRate := sampleRate;
      sampleRate := rate;
      if oldRate > 0.0 && rate != oldRate {
        ResampleTrack(oldRate, rate, resample);
      }
    }

    /** `resampleTrack`: replace the samples by their resampled version unless the resampler fails. */
    method ResampleTrack(fsIn: real, fsOut: real, resample: Resampler)
      modifies this`track
      ensures resample(old(track), fsIn, fsOut).Some? ==> track == resample(old(track), fsIn, fsOut).value
      ensures resample(old(track), fsIn, fsOut).None? ==> track == old(track)
    {
      var out := resample(track, fsIn, fsOut);
      if out.None? {
        return;
      }
      track := out.value;
    }

    /** `duration`: the track length in seconds. */
    function Duration(): (d: real)
      reads this
      requires sampleRate != 0.0
      ensures d * sampleRate == |track| as real
    {
      |track| as real / sampleRate
    }

    /** `sampleCount`. */
    function SampleCount(): (n: nat)
      reads this
      ensures n == |track|
    {
      |track|
    }

    /** `data(offset, length)` on the current samples. */
    function Data(offset: int, length: int): (r: seq<real>)
      reads this
      requires 0 <= offset < |track| && length >= 0 ==> offset + length <= |track|
      ensures r == Slice(track, offset, length)
    {
      Slice(track, offset, length)
    }
  }
}
