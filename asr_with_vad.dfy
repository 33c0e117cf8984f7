/**
  The voice recogniser's listening object: the fields it updates frame by
  frame, the three methods that handle one frame, the loop that feeds it
  frames until an utterance has been transcribed, and the reset.

  A frame is a sequence of audio samples of type S. The voice-activity flag
  arrives with each frame; transcription is a function parameter.
 */
module AsrWithVad {
  import opened Segmentation
  import SegmentationProperties

  /** Speech recognition of an utterance: its frames are joined into one
      stretch of audio and handed to the transcriber. */
  function Asr<S>(transcribe: seq<S> -> string, samples: seq<seq<S>>): (text: string)
  {
    transcribe(Flatten(samples))
  }

  /** What a hand-off gives the listening loop: the transcript when there
      was an utterance and its transcript is not empty, nothing otherwise. */
  function Answer<S>(transcribe: seq<S> -> string, utterance: Option<seq<seq<S>>>): (answer: Option<string>)
  {
    match utterance
    case None => None
    case Some(u) => if Asr(transcribe, u) == [] then None else Some(Asr(transcribe, u))
  }

  class VoiceRecognitionVAD<S> {
    /** The utterance accumulator: frames collected since activation. */
    var samples: seq<seq<S>>
    /** The pre-activation buffer, oldest frame first. */
    var buffer: seq<seq<S>>
    var recordingStarted: bool
    /** Consecutive silent frames since the last voiced one while recording. */
    var gapCounter: nat
    /** Capacity of the buffer and pause limit, both in frames. */
    const config: Config

    ghost function Model(): Engine<seq<S>>
      reads this
    {
      Engine(samples, buffer, recordingStarted, gapCounter)
    }

    ghost predicate Valid()
      reads this
    {
      ValidState(config, Model())
    }

    /** A recogniser whose buffer holds `capacity` frames and that hands an
        utterance off after `pauseFrames` silent frames. */
    constructor (capacity: nat, pauseFrames: nat)
      requires 0 < capacity
      ensures Valid() && config == Config(capacity, pauseFrames)
      ensures Model() == Initial()
    {
      config := Config(capacity, pauseFrames);
      samples, buffer := [], [];
      recordingStarted, gapCounter := false, 0;
    }

    /** The recogniser as built by default: a 12-frame buffer and a
        16-frame pause limit. */
    constructor Default()
      ensures Valid() && config == DefaultConfig()
      ensures Model() == Initial()
    {
      config := DefaultConfig();
      samples, buffer := [], [];
      recordingStarted, gapCounter := false, 0;
    }

    /** One frame: buffered while idle, accumulated while recording. */
    method HandleAudioSample(sample: seq<S>, voiced: bool) returns (utterance: Option<seq<seq<S>>>)
      requires Valid()
      modifies this
      ensures Valid()
      ensures Transition(Model(), utterance) == Step(config, old(Model()), Chunk(sample, voiced))
    {
      if !recordingStarted {
        ManagePreActivationBuffer(sample, voiced);
        utterance := None;
      } else {
        utterance := ProcessActivatedAudio(sample, voiced);
      }
    }

    /** A frame while idle: evict the oldest buffered frame if the buffer is
        full, buffer the new one, and on voice copy the buffer into the
        utterance and start recording. */
    method ManagePreActivationBuffer(sample: seq<S>, voiced: bool)
      requires Valid() && !recordingStarted
      modifies this
      ensures Valid()
      ensures Model() == PreActivation(config, old(Model()), Chunk(sample, voiced))
    {
      if Full(config.capacity, buffer) {
        buffer := buffer[1..];
      }
      buffer := buffer + [sample];
      if voiced {
        samples := buffer;
        recordingStarted := true;
      }
      SegmentationProperties.StepPreservesValid(config, old(Model()), Chunk(sample, voiced));
    }

    /** A frame while recording: append it; a silent frame advances the gap
        counter and, once the counter has reached the pause limit, hands off
        the utterance; a voiced frame clears the counter. */
    method ProcessActivatedAudio(sample: seq<S>, voiced: bool) returns (utterance: Option<seq<seq<S>>>)
      requires Valid() && recordingStarted
      modifies this
      ensures Valid()
      ensures Transition(Model(), utterance) == Activated(config, old(Model()), Chunk(sample, voiced))
    {
      samples := samples + [sample];
      utterance := None;
      if !voiced {
        gapCounter := gapCounter + 1;
        if gapCounter >= config.pauseFrames {
          utterance := Some(samples);
        }
      } else {
        gapCounter := 0;
      }
      SegmentationProperties.StepPreservesValid(config, old(Model()), Chunk(sample, voiced));
    }

    /** Back to idle with both buffers empty, whatever the state was; a
        second reset changes nothing more. */
    method Reset()
      modifies this
      ensures Model() == Initial()
      ensures 0 < config.capacity ==> Valid()
    {
      recordingStarted := false;
      samples := [];
      gapCounter := 0;
      buffer := [];
    }

    /** Feed frames from `input` until one of them hands off an utterance
        whose transcript is not empty, and return that transcript and the
        number of frames used; return nothing when the input runs out first.
        The frames used leave the recogniser as `Run` says, and no earlier
        frame gave an answer. */
    method ListenAndRespond(input: seq<Chunk<seq<S>>>, transcribe: seq<S> -> string)
      returns (text: Option<string>, consumed: nat)
      requires Valid()
      modifies this
      ensures Valid()
      ensures consumed <= |input|
      ensures Model() == Run(config, old(Model()), input[..consumed])
      ensures text == if consumed == 0 then None
                      else Answer(transcribe, Outputs(config, old(Model()), input)[consumed - 1])
      ensures forall k | 0 <= k < consumed - 1 ::
                Answer(transcribe, Outputs(config, old(Model()), input)[k]).None?
      ensures text.None? ==> consumed == |input|
    {
      ghost var start := Model();
      consumed := 0;
      text := None;
      while consumed < |input|
        invariant consumed <= |input|
        invariant start == old(Model())
        invariant text.None?
        invariant Valid()
        invariant Model() == Run(config, start, input[..consumed])
        invariant forall k | 0 <= k < consumed :: Answer(transcribe, Outputs(config, start, input)[k]).None?
      {
        var x := input[consumed];
        var utterance := HandleAudioSample(x.frame, x.voiced);
        SegmentationProperties.RunSnoc(config, start, input, consumed);
        consumed := consumed + 1;
        text := Answer(transcribe, utterance);
        if text.Some? {
          return;
        }
      }
    }

    /** Listen until an utterance has been transcribed, then reset. */
    method StartListening(input: seq<Chunk<seq<S>>>, transcribe: seq<S> -> string)
      returns (text: Option<string>, consumed: nat)
      requires Valid()
      modifies this
      ensures Valid() && Model() == Initial()
      ensures consumed <= |input|
      ensures text == if consumed == 0 then None
                      else Answer(transcribe, Outputs(config, old(Model()), input)[consumed - 1])
      ensures forall k | 0 <= k < consumed - 1 ::
                Answer(transcribe, Outputs(config, old(Model()), input)[k]).None?
      ensures text.None? ==> consumed == |input|
    {
      text, consumed := ListenAndRespond(input, transcribe);
      Reset();
    }
  }
}
