/**
  The speech-segmentation state machine of the voice recogniser, as values.

  A frame is an opaque value of type F. The listener feeds the engine one
  `Chunk` at a time (a frame and its voice-activity flag); the engine keeps a
  bounded lookback buffer while idle, accumulates frames once voice has been
  heard, and hands the accumulated frames off when the run of silent frames
  reaches the pause limit. The class in module AsrWithVad is proved to behave
  exactly as `Step` says.
 */
module Segmentation {

  datatype Option<T> = None | Some(value: T)

  /** One element of the listener's input: an audio frame and whether the
      voice-activity detector judged it to contain speech. */
  datatype Chunk<F> = Chunk(frame: F, voiced: bool)

  /** The two sizes the engine is parameterised by, both counted in frames. */
  datatype Config = Config(capacity: nat, pauseFrames: nat)

  /** Milliseconds of audio per voice-activity window. */
  const VadSize: nat := 50
  /** Milliseconds of lookback kept before voice is detected. */
  const BufferSize: nat := 600
  /** Milliseconds of silence tolerated before the utterance is handed off. */
  const PauseLimit: nat := 800

  /** The configuration the recogniser is built with: both sizes are the
      millisecond constants divided, rounding down, by the window length. */
  function DefaultConfig(): (c: Config)
    ensures c.capacity == 12 && c.pauseFrames == 16
  {
    Config(BufferSize / VadSize, PauseLimit / VadSize)
  }

  /** The engine's fields: the utterance accumulator, the pre-activation
      buffer (oldest frame first), the recording flag and the gap counter. */
  datatype Engine<F> = Engine(samples: seq<F>, buffer: seq<F>, recordingStarted: bool, gapCounter: nat)

  /** What one frame does: the engine's next state and, on finalize, the
      utterance handed off for transcription. */
  datatype Transition<F> = Transition(next: Engine<F>, utterance: Option<seq<F>>)

  /** The state of a freshly built or freshly reset engine. */
  function Initial<F>(): (r: Engine<F>)
  {
    Engine([], [], false, 0)
  }

  /** The fullness test of a bounded FIFO queue: a capacity of 0 means the
      queue has no bound and is never full. */
  predicate Full<F>(capacity: nat, buffer: seq<F>)
  {
    0 < capacity <= |buffer|
  }

  /** Reference definition: the last n elements of s (all of s when it is
      shorter), in their original order. */
  function Lookback<F>(s: seq<F>, n: nat): (r: seq<F>)
    ensures |r| == if |s| <= n then |s| else n
  {
    if |s| <= n then s else s[|s| - n..]
  }

  /** Putting a frame into the lookback buffer: when the buffer is full its
      oldest frame is taken out first, then the new frame goes in at the end. */
  function Insert<F>(capacity: nat, buffer: seq<F>, frame: F): (r: seq<F>)
  {
    var kept := if Full(capacity, buffer) then buffer[1..] else buffer;
    kept + [frame]
  }

  /** A frame that arrives while idle: it goes into the lookback buffer; if it
      is voiced the whole buffer becomes the utterance and recording starts.
      The gap counter is not touched. */
  function PreActivation<F>(c: Config, s: Engine<F>, x: Chunk<F>): (r: Engine<F>)
  {
    var buffer := Insert(c.capacity, s.buffer, x.frame);
    if x.voiced then s.(samples := buffer, buffer := buffer, recordingStarted := true)
    else s.(buffer := buffer)
  }

  /** A frame that arrives while recording: it is appended to the utterance;
      a voiced frame clears the gap counter, a silent one advances it and, once
      it has reached the pause limit, hands off the whole utterance. */
  function Activated<F>(c: Config, s: Engine<F>, x: Chunk<F>): (t: Transition<F>)
  {
    var samples := s.samples + [x.frame];
    if !x.voiced then
      var gap := s.gapCounter + 1;
      Transition(s.(samples := samples, gapCounter := gap),
                 if gap >= c.pauseFrames then Some(samples) else None)
    else
      Transition(s.(samples := samples, gapCounter := 0), None)
  }

  /** Handling one frame: dispatch on whether recording has started. */
  function Step<F>(c: Config, s: Engine<F>, x: Chunk<F>): (t: Transition<F>)
  {
    if !s.recordingStarted then Transition(PreActivation(c, s, x), None)
    else Activated(c, s, x)
  }

  /** The state after feeding the chunks xs, in order, to the engine s. */
  function Run<F>(c: Config, s: Engine<F>, xs: seq<Chunk<F>>): (r: Engine<F>)
    decreases |xs|
  {
    if xs == [] then s
    else Step(c, Run(c, s, xs[..|xs| - 1]), xs[|xs| - 1]).next
  }

  /** What each of the chunks xs hands off when fed, in order, to s: entry k
      is what the (k+1)-th frame does to the state the first k frames left. */
  function Outputs<F>(c: Config, s: Engine<F>, xs: seq<Chunk<F>>): (outs: seq<Option<seq<F>>>)
  {
    seq(|xs|, k requires 0 <= k < |xs| => Step(c, Run(c, s, xs[..k]), xs[k]).utterance)
  }

  /** The frames of a sequence of chunks, flags dropped. */
  function Frames<F>(xs: seq<Chunk<F>>): (fs: seq<F>)
  {
    seq(|xs|, i requires 0 <= i < |xs| => xs[i].frame)
  }

  /** The number of silent chunks at the end of xs, after its last voiced one. */
  function TrailingSilence<F>(xs: seq<Chunk<F>>): (n: nat)
    decreases |xs|
  {
    if xs == [] || xs[|xs| - 1].voiced then 0
    else TrailingSilence(xs[..|xs| - 1]) + 1
  }

  /** The audio of an utterance: its frames' samples, one frame after another. */
  function Flatten<S>(frames: seq<seq<S>>): (audio: seq<S>)
  {
    if frames == [] then [] else frames[0] + Flatten(frames[1..])
  }

  /** The states the engine can be in when started from `Initial`: the
      buffer stays within its capacity; an idle engine has an empty utterance
      and a zero gap counter; a recording engine's utterance begins with the
      (frozen) lookback buffer, which holds at least the triggering frame. */
  ghost predicate ValidState<F>(c: Config, s: Engine<F>)
  {
    && 0 < c.capacity
    && |s.buffer| <= c.capacity
    && (!s.recordingStarted ==> s.samples == [] && s.gapCounter == 0)
    && (s.recordingStarted ==> 0 < |s.buffer| <= |s.samples| && s.samples[..|s.buffer|] == s.buffer)
  }
}
