# Speech segmentation of the voice-activity recogniser

This project models the listening core of `VoiceRecognitionVAD` (asr/asr_with_vad.py) and proves properties of the model.

The recogniser receives audio in fixed 50 ms windows ("frames"). Each frame comes with a voice-activity flag. The recogniser runs as a small state machine:

- **Idle.** Every frame goes into a bounded FIFO lookback buffer of `BUFFER_SIZE // VAD_SIZE` = 12 frames. When the buffer is full, the oldest frame is evicted first.
- **Activation.** The first voiced frame copies the buffer, oldest first and including that frame, into the utterance accumulator `samples`. Recording then starts.
- **Recording.** Every frame is appended to `samples`. A voiced frame clears the gap counter. A silent frame advances it by one. Once the counter reaches `PAUSE_LIMIT // VAD_SIZE` = 16, the whole of `samples` is handed off to speech recognition as one stretch of audio.
- **Listening loop.** The loop feeds frames until a hand-off gives a non-empty transcript, and returns that transcript. `start_listening` then resets the recogniser.

The project has three modules:

- `Segmentation` (segmentation.dfy) holds the state machine as values:
  - `Engine` holds the four fields.
  - `Step` handles one frame.
  - `Run` handles a sequence of frames.
  - `Outputs` gives what each frame hands off.
  - `Lookback`, `TrailingSilence` and `Flatten` are reference definitions that the properties are stated with.
- `SegmentationProperties` (properties.dfy) holds the lemmas.
- `AsrWithVad` (asr_with_vad.dfy) holds the class `VoiceRecognitionVAD`:
  - Its fields are `samples`, `buffer`, `recordingStarted` and `gapCounter`.
  - Each frame-handling method is proved to change the object exactly as `Step` (or one branch of it) says.
  - `ListenAndRespond` is the driving `while` loop. It is proved to leave the object as `Run` says and to stop at the first frame whose output has a non-empty transcript.

A frame is a value of a type parameter: a sequence of samples `seq<S>` in the class, or any `F` in the pure model. Transcription is a function parameter. The input stream is a finite sequence of frame/flag pairs.

The model follows the code in three places where one might expect otherwise:

- A buffer capacity of 0 means "unbounded", as with a bounded FIFO queue whose maximum size is 0. It does not mean "no buffering". The recogniser itself is always built with a positive capacity: 12 by default.
- Activation does not clear the gap counter. From a reset recogniser the counter is 0 at activation anyway (`GapIsTrailingSilence`).
- A hand-off does not reset the recogniser. An un-reset recogniser whose counter is at or past the limit hands off again on every further silent frame (`RecordingStep`, `LoneVoicedFrame`). Only `reset` clears the state. After a hand-off whose transcript is empty, the loop goes on with the grown utterance, but only over the frames that had already been queued (see "## Left out").

## Model

| member | source | states |
|---|---|---|
| Segmentation.DefaultConfig | asr/asr_with_vad.py:56-59 | the buffer holds 600/50 = 12 frames and the pause limit is 800/50 = 16 frames |
| Segmentation.Initial | asr/asr_with_vad.py:112-117 | the state after construction and after `reset` (idle, both buffers empty, counter 0); the class's constructors and `Reset` are proved to produce it |
| Segmentation.Full | asr/asr_with_vad.py:200 | the bounded FIFO queue's fullness test: full when it holds at least its positive capacity, never full when the capacity is 0 (unbounded) |
| Segmentation.Insert | asr/asr_with_vad.py:200-202 | evict the oldest frame when full, then append; its FIFO property is `InsertEvictsOldest` |
| Segmentation.PreActivation | asr/asr_with_vad.py:196-206 | the idle branch of one frame; proved about in `IdleStep` and `ActivationStep`, and implemented by `ManagePreActivationBuffer` |
| Segmentation.Activated | asr/asr_with_vad.py:208-223 | the recording branch of one frame; proved about in `RecordingStep`, and implemented by `ProcessActivatedAudio` |
| Segmentation.Step | asr/asr_with_vad.py:187-194 | dispatch on the recording flag; keeps the invariant (`StepPreservesValid`) and is implemented by `HandleAudioSample` |
| Segmentation.Run | asr/asr_with_vad.py:180-182 | the state after feeding frames in order; the loop `ListenAndRespond` is proved to leave the object in `Run` of the frames it consumed |
| Segmentation.Outputs | asr/asr_with_vad.py:180-185 | what each frame of a run hands off; characterised by `FinalizeExactly`, `FinalizedUtterance` and `LoneVoicedFrame` |
| Segmentation.Lookback | asr/asr_with_vad.py:200-202 | the window of the last n frames has min(length, n) elements |
| SegmentationProperties.InsertEvictsOldest | asr/asr_with_vad.py:200-202 | inserting into a buffer within its capacity gives the last `capacity` frames of old buffer + new frame; the result is non-empty, within capacity and ends with the new frame; a full buffer loses exactly its oldest frame, a non-full one loses nothing |
| SegmentationProperties.IdleStep | asr/asr_with_vad.py:191-192 | an idle frame, voiced or not, hands nothing off; a silent one changes only the buffer, which becomes the window of old buffer + frame |
| SegmentationProperties.IdleRun | asr/asr_with_vad.py:196-202 | any number of silent idle frames leave the buffer equal to the last `capacity` frames of old buffer + new frames and change nothing else |
| SegmentationProperties.IdleSilent | asr/asr_with_vad.py:191-192 | no silent frame fed to an idle engine hands anything off |
| SegmentationProperties.IdleWindowFromReset | asr/asr_with_vad.py:196-202 | after n silent frames from reset, the buffer holds exactly the last min(n, capacity) of them in arrival order; samples stay empty and the counter stays 0 |
| SegmentationProperties.ActivationStep | asr/asr_with_vad.py:202-206 | the first voiced frame hands nothing off, starts recording and leaves the gap counter unchanged; samples equal the buffer, oldest first, and are the last capacity-1 old frames followed by the trigger frame once |
| SegmentationProperties.RecordingStep | asr/asr_with_vad.py:216-223 | while recording, samples grow by exactly the new frame at the end and the buffer is untouched; a voiced frame zeroes the counter and hands nothing off; a silent frame adds 1 and hands off the whole samples exactly when the counter is then >= the limit |
| SegmentationProperties.StepPreservesValid | asr/asr_with_vad.py:187-223 | every frame keeps the invariant: the buffer stays within capacity, an idle engine has empty samples and a zero counter, and a recording engine's samples start with the frozen non-empty buffer |
| SegmentationProperties.RunPreservesValid | asr/asr_with_vad.py:180-194 | any sequence of frames keeps that invariant |
| SegmentationProperties.UtteranceKeepsLookback | asr/asr_with_vad.py:204-221 | a hand-off is longer than the buffer, starts with the buffer's frames and ends with the frame that caused it |
| SegmentationProperties.RecordingRun | asr/asr_with_vad.py:208-216 | after activation every frame is appended to samples in order, recording never stops and the buffer stays frozen |
| SegmentationProperties.SilenceRun | asr/asr_with_vad.py:216-219 | while recording, k silent frames append those frames and add exactly k to the counter |
| SegmentationProperties.SilenceOutputs | asr/asr_with_vad.py:218-221 | while recording, the (j+1)-th of a run of silent frames hands off samples plus those j+1 frames exactly when counter + j + 1 >= the limit, and nothing otherwise |
| SegmentationProperties.RecordingIffVoiced | asr/asr_with_vad.py:191-206 | an engine started idle is recording exactly when some frame so far was voiced |
| SegmentationProperties.GapIsTrailingSilence | asr/asr_with_vad.py:218-223 | from reset, the counter equals the number of silent frames since the last voiced one while recording, and 0 while idle |
| SegmentationProperties.FinalizeExactly | asr/asr_with_vad.py:218-221 | from reset, frame j hands off exactly when the engine was recording, the frame is silent and the silent run it ends is >= the limit; the hand-off is the whole samples after frame j |
| SegmentationProperties.SamplesFromActivation | asr/asr_with_vad.py:204-216 | once the first voiced frame (index a) has been seen, samples are the last `capacity` frames of old buffer + frames up to a, followed by every later frame in order |
| SegmentationProperties.FinalizedUtterance | asr/asr_with_vad.py:205-221 | from reset, a hand-off at frame j comes after the first voiced frame a and consists of the lookback ending at a followed by frames a+1..j: lookback included, in order, nothing duplicated |
| SegmentationProperties.LoneVoicedFrame | asr/asr_with_vad.py:218-221 | with a single voiced frame at a, frame k hands off if and only if k - a >= the limit (one frame fewer gives nothing, and every later one hands off again), and gives the lookback up to a plus frames a+1..k |
| SegmentationProperties.FlattenAppend | asr/asr_with_vad.py:284 | the audio of two runs of frames is the audio of the first followed by that of the second |
| SegmentationProperties.FlattenAt | asr/asr_with_vad.py:284 | the joined audio holds every frame's samples whole and in order, frame k's starting at the combined length of the frames before it |
| AsrWithVad.Asr | asr/asr_with_vad.py:280-287 | the transcriber applied to the utterance's frames joined into one stretch of audio; what the joined audio holds is `FlattenAppend` and `FlattenAt` |
| AsrWithVad.Answer | asr/asr_with_vad.py:245-248 | a hand-off gives an answer only when its transcript is not empty, as tested before the loop returns; used by `ListenAndRespond`'s contract |
| AsrWithVad.VoiceRecognitionVAD.constructor | asr/asr_with_vad.py:112-117 | a new recogniser is idle with an empty buffer, empty samples and a zero counter, and keeps the given capacity and limit |
| AsrWithVad.VoiceRecognitionVAD.Default | asr/asr_with_vad.py:112-117 | the same, with the default 12-frame buffer and 16-frame limit |
| AsrWithVad.VoiceRecognitionVAD.HandleAudioSample | asr/asr_with_vad.py:187-194 | the new fields and the hand-off are exactly those of `Step`, and the invariant is kept |
| AsrWithVad.VoiceRecognitionVAD.ManagePreActivationBuffer | asr/asr_with_vad.py:196-206 | evict when full, append, and on voice copy the buffer into samples and start recording: the fields become `PreActivation` of the old ones |
| AsrWithVad.VoiceRecognitionVAD.ProcessActivatedAudio | asr/asr_with_vad.py:208-223 | append, then clear or advance the counter and hand off at the limit: the fields and result are `Activated` of the old ones |
| AsrWithVad.VoiceRecognitionVAD.Reset | asr/asr_with_vad.py:289-298 | from any state, recording stops, both buffers are empty and the counter is 0, so a second reset changes nothing |
| AsrWithVad.VoiceRecognitionVAD.ListenAndRespond | asr/asr_with_vad.py:176-185 | the loop consumes a prefix of the input and leaves the fields as `Run` of it; it returns the non-empty transcript of the last consumed frame's hand-off; no earlier frame gave one; it returns nothing only when the input is exhausted |
| AsrWithVad.VoiceRecognitionVAD.StartListening | asr/asr_with_vad.py:162-174 | the same answer as the loop, after which the recogniser is reset |

## Left out

- Audio capture is not modelled: the sounddevice input stream, its callback, starting and stopping it, and the thread-safe sample queue that carries frames from the callback to the listener. These are device I/O and cross-thread plumbing. The input is a finite sequence of frame/flag pairs, so the blocking queue read of the loop becomes "the next element, or stop when there is none".
- The voice-activity model is not modelled: its inference and the floating-point comparison with the activity threshold. The flag arrives as a boolean.
- Transcription is a function parameter. Speaker identification, the gender classifier, the Discord paths and the result dictionary built around the transcript are foreign calls and are left out. Only the fact that an empty transcript gives no answer is kept (`Answer`).
- The check of the voice interface singleton and the unused wav2vec feature extractor are left out. They are external singletons and dead code.
- The commented-out wake-word matching is left out because it is inactive.
- utils/ActionSelectionQueue.py is not part of this model. It is a worker thread driven by stop and pause events over a blocking queue, calling singletons whose modules are not available.
- Aliasing is not modelled. In the code, `process_detected_audio` receives the very list held in `self.samples` (asr/asr_with_vad.py:221), and `asr` copies it into one array with `np.concatenate` (:284) before anything else changes it. The list itself is never returned: the caller gets a dictionary built around the transcript (:248). In the model a hand-off is an immutable sequence, so no aliasing can arise.
- AsrWithVad.VoiceRecognitionVAD.constructor: requires a positive buffer capacity. An unbounded lookback buffer (capacity 0) is given a meaning in `Full` but is not supported by the invariant, and the recogniser is only ever built with capacity 12.
- AsrWithVad.VoiceRecognitionVAD.ListenAndRespond: the input stream is stopped at every hand-off (asr/asr_with_vad.py:244) and nothing restarts it, since the lines that would are commented out (:252-253). So after a hand-off whose transcript is empty, the loop can only receive frames already queued, and it then blocks for ever at the queue read (:181). In the model the input after such a hand-off is exactly those queued frames, and "input exhausted, no answer" stands for that endless block.
- AsrWithVad.VoiceRecognitionVAD.StartListening: the transcriber is assumed never to fail. In the code, an exception from `self.transcribe` or `np.concatenate` (asr/asr_with_vad.py:284-286) is not caught. It escapes the loop, so the reset at :173 is skipped and the recogniser stays recording with the counter at or past the limit, whereas `StartListening` always ends in the reset state.
- Logging (`logger.info` at asr/asr_with_vad.py:157, :241-242 and :293) is left out because it has no effect on the state.
