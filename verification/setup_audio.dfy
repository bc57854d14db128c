/**
 * The playback buffer callback installed by setup_audio.cpp: each call
 * fills the output buffer from the track at the spectrogram cursor and
 * moves the cursor on by one buffer.
 */
module SetupAudio {
  import opened CNum
  import AudioTrack
  import SpectrogramController

  /**
   * Play from the cursor: while the cursor is inside the track, the buffer
   * gets the samples from the cursor on (as many as fit, zeros after the
   * end of the track) and the cursor moves on by the whole buffer length,
   * even when fewer samples were left; past the end nothing changes and
   * playback stops.
   */
  method PlaybackCallback(buffer: array<real>, ctl: SpectrogramController.SpectrogramController,
                          track: AudioTrack.AudioTrack) returns (playing: bool)
    requires ctl.timeSamples >= 0 && track.sampleRate != 0.0
    modifies buffer, ctl`time, ctl`timeSamples
    ensures playing <==> old(ctl.timeSamples) < |track.track|
    ensures playing ==>
      var copyLength := Min(buffer.Length, |track.track| - old(ctl.timeSamples));
      buffer[..copyLength] == AudioTrack.Slice(track.track, old(ctl.timeSamples), copyLength) &&
      (forall j :: copyLength <= j < buffer.Length ==> buffer[j] == 0.0) &&
      ctl.timeSamples == old(ctl.timeSamples) + buffer.Length &&
      ctl.time == SpectrogramController.TimeAtSamples(ctl.timeSamples, track.sampleRate)
    ensures !playing ==>
      buffer[..] == old(buffer[..]) && ctl.timeSamples == old(ctl.timeSamples) && ctl.time == old(ctl.time)
  {
    var bufferLength := buffer.Length;
    var trackSamples := track.SampleCount();
    var offset := ctl.timeSamples;
    if offset < trackSamples {
      var copyLength := Min(bufferLength, trackSamples - offset);
      var chunk := track.Data(offset, copyLength);
      for j := 0 to bufferLength
        invariant forall i :: 0 <= i < j ==> buffer[i] == 0.0
      {
        buffer[j] := 0.0;
      }
      for j := 0 to copyLength
        invariant forall i :: 0 <= i < j ==> buffer[i] == chunk[i]
        invariant forall i :: copyLength <= i < bufferLength ==> buffer[i] == 0.0
      {
        buffer[j] := chunk[j];
      }
      ctl.SetTimeSamples(offset + bufferLength, track.sampleRate);
      return true;
    } else {
      return false;
    }
  }
}
