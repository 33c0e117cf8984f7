/**
  Properties of the segmentation state machine: FIFO eviction of the
  lookback buffer, activation without duplication, growth of the utterance,
  the gap counter as the length of the trailing silence, the exact frame on
  which an utterance is handed off, and what that utterance contains.
 */
module SegmentationProperties {
  import opened Segmentation

  // ----- Lookback buffer -----

  /** Keeping the last n of s and then the last n of that plus one more
      frame is the same as keeping the last n of s plus that frame. */
  lemma LookbackSnoc<F>(s: seq<F>, f: F, n: nat)
    requires 0 < n
    ensures Lookback(Lookback(s, n) + [f], n) == Lookback(s + [f], n)
  {
    if n <= |s| {
      var kept := s[|s| - n..];
      assert (kept + [f])[1..] == kept[1..] + [f];
      assert kept[1..] == s[|s| - n + 1..];
      assert (s + [f])[|s| + 1 - n..] == s[|s| + 1 - n..] + [f];
    }
  }

  /** FIFO eviction: inserting into a buffer within its capacity gives the
      last `capacity` frames of the old buffer followed by the new frame, so
      the bound is kept, the newest frame is at the end and, when the buffer
      was full, exactly its oldest frame is gone. */
  lemma InsertEvictsOldest<F>(capacity: nat, buffer: seq<F>, frame: F)
    requires 0 < capacity && |buffer| <= capacity
    ensures var r := Insert(capacity, buffer, frame);
      && r == Lookback(buffer + [frame], capacity)
      && 0 < |r| <= capacity && r[|r| - 1] == frame
      && (|buffer| == capacity ==> r == buffer[1..] + [frame])
      && (|buffer| < capacity ==> r == buffer + [frame])
  {
    if |buffer| == capacity {
      assert buffer[1..] + [frame] == (buffer + [frame])[1..];
    }
  }

  /** The last n of s followed by f, split at its end: the newest frame is
      f and the older ones are the last n-1 of s. */
  lemma LookbackSplit<F>(s: seq<F>, f: F, n: nat)
    requires 0 < n
    ensures Lookback(s + [f], n) == Lookback(s, n - 1) + [f]
  {
    if n - 1 < |s| {
      assert (s + [f])[|s| + 1 - n..] == s[|s| + 1 - n..] + [f];
    }
  }

  /** While idle, silent frames only feed the lookback buffer: after the
      chunks xs it holds exactly the last `capacity` frames of the old buffer
      followed by the new frames, nothing else changes and nothing is handed
      off. */
  lemma {:induction false} IdleRun<F>(c: Config, s: Engine<F>, xs: seq<Chunk<F>>)
    requires 0 < c.capacity && !s.recordingStarted && |s.buffer| <= c.capacity
    requires forall i | 0 <= i < |xs| :: !xs[i].voiced
    ensures Run(c, s, xs) == s.(buffer := Lookback(s.buffer + Frames(xs), c.capacity))
    decreases |xs|
  {
    if xs == [] {
      assert s.buffer + Frames(xs) == s.buffer;
    } else {
      var front, x := xs[..|xs| - 1], xs[|xs| - 1];
      IdleRun(c, s, front);
      var e := Run(c, s, front);
      var before := s.buffer + Frames(front);
      assert e.buffer == Lookback(before, c.capacity);
      assert Step(c, e, x).next == e.(buffer := Insert(c.capacity, e.buffer, x.frame));
      InsertEvictsOldest(c.capacity, e.buffer, x.frame);
      LookbackSnoc(before, x.frame, c.capacity);
      FramesSnoc(xs);
      assert before + [x.frame] == s.buffer + Frames(xs);
    }
  }

  /** While idle, silent frames hand nothing off. */
  lemma IdleSilent<F>(c: Config, s: Engine<F>, xs: seq<Chunk<F>>)
    requires 0 < c.capacity && !s.recordingStarted && |s.buffer| <= c.capacity
    requires forall i | 0 <= i < |xs| :: !xs[i].voiced
    ensures forall i | 0 <= i < |xs| :: Outputs(c, s, xs)[i].None?
  {
    forall i | 0 <= i < |xs| ensures Outputs(c, s, xs)[i].None? {
      IdleRun(c, s, xs[..i]);
    }
  }

  /** From a reset engine, n silent frames leave in the buffer exactly the
      last min(n, capacity) of them, oldest first. */
  lemma IdleWindowFromReset<F>(c: Config, xs: seq<Chunk<F>>)
    requires 0 < c.capacity
    requires forall i | 0 <= i < |xs| :: !xs[i].voiced
    ensures var e := Run(c, Initial(), xs);
      && !e.recordingStarted && e.samples == [] && e.gapCounter == 0
      && |e.buffer| == (if |xs| <= c.capacity then |xs| else c.capacity)
      && (forall k | 0 <= k < |e.buffer| :: e.buffer[k] == xs[|xs| - |e.buffer| + k].frame)
  {
    var e := Run(c, Initial(), xs);
    var b := Lookback(Frames(xs), c.capacity);
    assert !e.recordingStarted && e.samples == [] && e.gapCounter == 0 && e.buffer == b by {
      IdleRun(c, Initial(), xs);
      assert [] + Frames(xs) == Frames(xs);
    }
    forall k | 0 <= k < |b| ensures b[k] == xs[|xs| - |b| + k].frame {
      assert b[k] == Frames(xs)[|xs| - |b| + k];
    }
  }

  /** The frames of xs are those of all but its last chunk, then the last one's. */
  lemma FramesSnoc<F>(xs: seq<Chunk<F>>)
    requires 0 < |xs|
    ensures Frames(xs) == Frames(xs[..|xs| - 1]) + [xs[|xs| - 1].frame]
  {
  }

  // ----- Single frames -----

  /** A frame while idle never hands anything off, voiced or not, and a
      silent one leaves the engine idle with only its buffer advanced. */
  lemma IdleStep<F>(c: Config, s: Engine<F>, x: Chunk<F>)
    requires ValidState(c, s) && !s.recordingStarted
    ensures Step(c, s, x).utterance.None?
    ensures !x.voiced ==> Step(c, s, x).next == s.(buffer := Lookback(s.buffer + [x.frame], c.capacity))
  {
    InsertEvictsOldest(c.capacity, s.buffer, x.frame);
  }

  /** The first voiced frame: the utterance becomes the lookback buffer,
      oldest first, ending with the triggering frame exactly once (the frames
      before it are the last capacity-1 frames of the old buffer); recording
      starts, the gap counter is left as it was and nothing is handed off. */
  lemma ActivationStep<F>(c: Config, s: Engine<F>, f: F)
    requires ValidState(c, s) && !s.recordingStarted
    ensures var t := Step(c, s, Chunk(f, true));
      && t.utterance.None?
      && t.next.recordingStarted
      && t.next.gapCounter == s.gapCounter
      && t.next.buffer == Lookback(s.buffer + [f], c.capacity)
      && t.next.samples == t.next.buffer
      && t.next.samples == Lookback(s.buffer, c.capacity - 1) + [f]
      && |t.next.samples| <= c.capacity
  {
    InsertEvictsOldest(c.capacity, s.buffer, f);
    LookbackSplit(s.buffer, f, c.capacity);
  }

  /** A frame while recording: the utterance grows by exactly that frame at
      the end, the buffer is untouched; a voiced frame clears the gap counter
      and hands nothing off; a silent one adds exactly 1 to the counter and
      hands off the whole utterance exactly when the counter has reached the
      pause limit (so an engine already at or past the limit hands off again
      on every further silent frame). */
  lemma RecordingStep<F>(c: Config, s: Engine<F>, x: Chunk<F>)
    requires s.recordingStarted
    ensures var t := Step(c, s, x);
      && t.next.recordingStarted
      && t.next.samples == s.samples + [x.frame]
      && t.next.buffer == s.buffer
      && (x.voiced ==> t.next.gapCounter == 0 && t.utterance.None?)
      && (!x.voiced ==> t.next.gapCounter == s.gapCounter + 1)
      && (!x.voiced && s.gapCounter + 1 >= c.pauseFrames ==> t.utterance == Some(t.next.samples))
      && (!x.voiced && s.gapCounter + 1 < c.pauseFrames ==> t.utterance.None?)
  {
  }

  /** Every step keeps the engine in a state reachable from `Initial`. */
  lemma StepPreservesValid<F>(c: Config, s: Engine<F>, x: Chunk<F>)
    requires ValidState(c, s)
    ensures ValidState(c, Step(c, s, x).next)
  {
    if s.recordingStarted {
      assert (s.samples + [x.frame])[..|s.buffer|] == s.samples[..|s.buffer|];
    } else {
      InsertEvictsOldest(c.capacity, s.buffer, x.frame);
    }
  }

  /** Any sequence of frames keeps the engine valid. */
  lemma {:induction false} RunPreservesValid<F>(c: Config, s: Engine<F>, xs: seq<Chunk<F>>)
    requires ValidState(c, s)
    ensures ValidState(c, Run(c, s, xs))
    decreases |xs|
  {
    if xs != [] {
      RunPreservesValid(c, s, xs[..|xs| - 1]);
      StepPreservesValid(c, Run(c, s, xs[..|xs| - 1]), xs[|xs| - 1]);
    }
  }

  /** A hand-off always begins with the lookback buffer it was seeded from:
      no frame heard before activation is lost. */
  lemma UtteranceKeepsLookback<F>(c: Config, s: Engine<F>, x: Chunk<F>)
    requires ValidState(c, s)
    requires Step(c, s, x).utterance.Some?
    ensures var u := Step(c, s, x).utterance.value;
      |s.buffer| < |u| && u[..|s.buffer|] == s.buffer && u[|u| - 1] == x.frame
  {
    assert (s.samples + [x.frame])[..|s.buffer|] == s.samples[..|s.buffer|];
  }

  // ----- Runs -----

  /** Feeding xs then ys is feeding xs and then feeding ys to the result. */
  lemma {:induction false} RunAppend<F>(c: Config, s: Engine<F>, xs: seq<Chunk<F>>, ys: seq<Chunk<F>>)
    ensures Run(c, s, xs + ys) == Run(c, Run(c, s, xs), ys)
    decreases |ys|
  {
    if ys == [] {
      assert xs + ys == xs;
    } else {
      var front := ys[..|ys| - 1];
      RunAppend(c, s, xs, front);
      assert (xs + ys)[..|xs + ys| - 1] == xs + front;
    }
  }

  /** Feeding xs is feeding its first k chunks and then the rest. */
  lemma RunSplit<F>(c: Config, s: Engine<F>, xs: seq<Chunk<F>>, k: nat)
    requires k <= |xs|
    ensures Run(c, s, xs) == Run(c, Run(c, s, xs[..k]), xs[k..])
  {
    assert xs == xs[..k] + xs[k..];
    RunAppend(c, s, xs[..k], xs[k..]);
  }

  /** The state after j+1 frames is one step on from the state after j. */
  lemma RunSnoc<F>(c: Config, s: Engine<F>, xs: seq<Chunk<F>>, j: nat)
    requires j < |xs|
    ensures Run(c, s, xs[..j + 1]) == Step(c, Run(c, s, xs[..j]), xs[j]).next
    ensures Outputs(c, s, xs)[j] == Step(c, Run(c, s, xs[..j]), xs[j]).utterance
  {
    assert xs[..j + 1][..j] == xs[..j];
  }

  /** While recording, every frame is appended to the utterance in order and
      the lookback buffer stays frozen. */
  lemma {:induction false} RecordingRun<F>(c: Config, s: Engine<F>, ys: seq<Chunk<F>>)
    requires s.recordingStarted
    ensures Run(c, s, ys).recordingStarted
    ensures Run(c, s, ys).buffer == s.buffer
    ensures Run(c, s, ys).samples == s.samples + Frames(ys)
    decreases |ys|
  {
    if ys == [] {
      assert s.samples + Frames(ys) == s.samples;
    } else {
      var front := ys[..|ys| - 1];
      RecordingRun(c, s, front);
      assert Frames(front) + [ys[|ys| - 1].frame] == Frames(ys);
    }
  }

  /** While recording, a run of silent frames is appended to the utterance
      and advances the gap counter by exactly one per frame. */
  lemma {:induction false} SilenceRun<F>(c: Config, s: Engine<F>, ys: seq<Chunk<F>>)
    requires s.recordingStarted
    requires forall i | 0 <= i < |ys| :: !ys[i].voiced
    ensures Run(c, s, ys) == s.(samples := s.samples + Frames(ys), gapCounter := s.gapCounter + |ys|)
    decreases |ys|
  {
    if ys == [] {
      assert s.samples + Frames(ys) == s.samples;
    } else {
      var front := ys[..|ys| - 1];
      SilenceRun(c, s, front);
      FramesSnoc(ys);
    }
  }

  /** While recording, the (j+1)-th of a run of silent frames hands off the
      utterance accumulated so far exactly when the gap counter has then
      reached the pause limit. */
  lemma SilenceOutputs<F>(c: Config, s: Engine<F>, ys: seq<Chunk<F>>)
    requires s.recordingStarted
    requires forall i | 0 <= i < |ys| :: !ys[i].voiced
    ensures forall j | 0 <= j < |ys| ::
      Outputs(c, s, ys)[j] == (if s.gapCounter + j + 1 >= c.pauseFrames then Some(s.samples + Frames(ys[..j + 1])) else None)
  {
    forall j | 0 <= j < |ys|
      ensures Outputs(c, s, ys)[j] ==
        (if s.gapCounter + j + 1 >= c.pauseFrames then Some(s.samples + Frames(ys[..j + 1])) else None)
    {
      var e := Run(c, s, ys[..j]);
      SilenceRun(c, s, ys[..j]);
      FramesSnoc(ys[..j + 1]);
      assert ys[..j + 1][..j] == ys[..j];
      assert e.samples + [ys[j].frame] == s.samples + Frames(ys[..j + 1]);
      assert Outputs(c, s, ys)[j] == Step(c, e, ys[j]).utterance;
    }
  }

  /** Started idle, the engine is recording after xs exactly when some frame
      of xs was voiced: recording starts on the first voiced frame, and
      nothing but a reset stops it. */
  lemma {:induction false} RecordingIffVoiced<F>(c: Config, s: Engine<F>, xs: seq<Chunk<F>>)
    requires !s.recordingStarted
    ensures Run(c, s, xs).recordingStarted <==> exists i | 0 <= i < |xs| :: xs[i].voiced
    decreases |xs|
  {
    if xs != [] {
      var front := xs[..|xs| - 1];
      RecordingIffVoiced(c, s, front);
      if exists i | 0 <= i < |front| :: front[i].voiced {
        var i :| 0 <= i < |front| && front[i].voiced;
        assert xs[i].voiced;
      } else if exists i | 0 <= i < |xs| :: xs[i].voiced {
        assert forall i | 0 <= i < |front| :: xs[i] == front[i];
      }
    }
  }

  /** Started from a reset engine, the gap counter while recording is the
      number of silent frames since the last voiced one; while idle it is 0.
      Activation does not touch the counter: it is already 0 then. */
  lemma {:induction false} GapIsTrailingSilence<F>(c: Config, s: Engine<F>, xs: seq<Chunk<F>>)
    requires !s.recordingStarted && s.gapCounter == 0
    ensures var e := Run(c, s, xs);
      e.gapCounter == if e.recordingStarted then TrailingSilence(xs) else 0
    decreases |xs|
  {
    if xs != [] {
      GapIsTrailingSilence(c, s, xs[..|xs| - 1]);
    }
  }

  /** Pause-limit exactness. Started from a reset engine, frame j hands off
      an utterance exactly when the engine was recording, the frame is silent
      and the run of silent frames it ends has reached the pause limit; what
      it hands off is the whole utterance accumulated so far. */
  lemma FinalizeExactly<F>(c: Config, s: Engine<F>, xs: seq<Chunk<F>>, j: nat)
    requires !s.recordingStarted && s.gapCounter == 0
    requires j < |xs|
    ensures Outputs(c, s, xs)[j].Some? <==>
      Run(c, s, xs[..j]).recordingStarted && !xs[j].voiced && TrailingSilence(xs[..j + 1]) >= c.pauseFrames
    ensures Outputs(c, s, xs)[j].Some? ==> Outputs(c, s, xs)[j].value == Run(c, s, xs[..j + 1]).samples
  {
    RunSnoc(c, s, xs, j);
    GapIsTrailingSilence(c, s, xs[..j]);
    assert xs[..j + 1][..j] == xs[..j];
  }

  /** Started idle, once the first voiced frame (at index a) has been seen,
      the utterance is the last `capacity` frames up to and including the
      triggering one, lookback first, followed by every later frame in order. */
  lemma SamplesFromActivation<F>(c: Config, s: Engine<F>, xs: seq<Chunk<F>>, a: nat)
    requires ValidState(c, s) && !s.recordingStarted
    requires a < |xs| && xs[a].voiced
    requires forall i | 0 <= i < a :: !xs[i].voiced
    ensures Run(c, s, xs).recordingStarted
    ensures Run(c, s, xs).samples == Lookback(s.buffer + Frames(xs[..a + 1]), c.capacity) + Frames(xs[a + 1..])
  {
    var pre, x, rest := xs[..a], xs[a], xs[a + 1..];
    var idle := Run(c, s, pre);
    IdleRun(c, s, pre);
    var active := Step(c, idle, x).next;
    assert active.recordingStarted;
    var before := s.buffer + Frames(pre);
    assert idle.buffer == Lookback(before, c.capacity);
    assert active.samples == Insert(c.capacity, idle.buffer, x.frame);
    assert active.samples == Lookback(before + [x.frame], c.capacity) by {
      InsertEvictsOldest(c.capacity, idle.buffer, x.frame);
      LookbackSnoc(before, x.frame, c.capacity);
    }
    assert before + [x.frame] == s.buffer + Frames(xs[..a + 1]) by {
      FramesSnoc(xs[..a + 1]);
      assert xs[..a + 1][..a] == pre;
    }
    assert Run(c, s, xs[..a + 1]) == active by {
      RunSnoc(c, s, xs, a);
    }
    RunSplit(c, s, xs, a + 1);
    RecordingRun(c, active, rest);
  }

  /** The utterance handed off by frame j of a run from a reset engine: the
      lookback ending with the first voiced frame (index a), then every frame
      after it up to and including frame j. */
  lemma FinalizedUtterance<F>(c: Config, xs: seq<Chunk<F>>, a: nat, j: nat)
    requires 0 < c.capacity
    requires a < |xs| && xs[a].voiced
    requires forall i | 0 <= i < a :: !xs[i].voiced
    requires j < |xs| && Outputs(c, Initial(), xs)[j].Some?
    ensures a < j
    ensures Outputs(c, Initial(), xs)[j].value == Lookback(Frames(xs[..a + 1]), c.capacity) + Frames(xs[a + 1..j + 1])
  {
    var e: Engine<F> := Initial();
    var upto := xs[..j + 1];
    assert a < j by {
      FinalizeExactly(c, e, xs, j);
      if j <= a {
        RecordingIffVoiced(c, e, xs[..j]);
      }
    }
    assert Outputs(c, e, xs)[j].value == Run(c, e, upto).samples by {
      FinalizeExactly(c, e, xs, j);
    }
    assert Run(c, e, upto).samples == Lookback(e.buffer + Frames(upto[..a + 1]), c.capacity) + Frames(upto[a + 1..]) by {
      SamplesFromActivation(c, e, upto, a);
    }
    assert upto[..a + 1] == xs[..a + 1];
    assert upto[a + 1..] == xs[a + 1..j + 1];
    assert e.buffer + Frames(xs[..a + 1]) == Frames(xs[..a + 1]);
  }

  /** A reset engine fed chunks of which only the one at index a is voiced:
      frame k hands something off exactly when it lies at least the pause
      limit after a, and what it hands off is the lookback up to a followed
      by every frame after a up to k. */
  lemma LoneVoicedFrame<F>(c: Config, xs: seq<Chunk<F>>, a: nat, k: nat)
    requires 0 < c.capacity
    requires a < |xs| && xs[a].voiced
    requires forall i | 0 <= i < |xs| && i != a :: !xs[i].voiced
    requires k < |xs|
    ensures Outputs(c, Initial(), xs)[k].Some? <==> a < k && k - a >= c.pauseFrames
    ensures Outputs(c, Initial(), xs)[k].Some? ==>
      Outputs(c, Initial(), xs)[k].value == Lookback(Frames(xs[..a + 1]), c.capacity) + Frames(xs[a + 1..k + 1])
  {
    var e: Engine<F> := Initial();
    FinalizeExactly(c, e, xs, k);
    if k <= a {
      RecordingIffVoiced(c, e, xs[..k]);
    } else {
      assert TrailingSilence(xs[..k + 1]) == k - a by {
        TrailingSilenceSince(xs, a, k);
      }
      assert Run(c, e, xs[..k]).recordingStarted by {
        RecordingIffVoiced(c, e, xs[..k]);
        assert xs[..k][a].voiced;
      }
      if Outputs(c, e, xs)[k].Some? {
        FinalizedUtterance(c, xs, a, k);
      }
    }
  }

  /** After the voiced frame at index a, every silent frame up to index k
      adds one to the trailing silence. */
  lemma {:induction false} TrailingSilenceSince<F>(xs: seq<Chunk<F>>, a: nat, k: nat)
    requires a <= k < |xs| && xs[a].voiced
    requires forall i | a < i <= k :: !xs[i].voiced
    ensures TrailingSilence(xs[..k + 1]) == k - a
    decreases k
  {
    if a < k {
      TrailingSilenceSince(xs, a, k - 1);
      assert xs[..k + 1][..k] == xs[..k];
    }
  }

  // ----- Audio of an utterance -----

  /** The audio of two runs of frames one after the other is the audio of
      the first followed by the audio of the second; in particular the audio
      handed to the transcriber is the lookback's audio followed by that of
      every later frame. */
  lemma {:induction false} FlattenAppend<S>(a: seq<seq<S>>, b: seq<seq<S>>)
    ensures Flatten(a + b) == Flatten(a) + Flatten(b)
    decreases |a|
  {
    if a == [] {
      assert a + b == b;
    } else {
      assert (a + b)[1..] == a[1..] + b;
      FlattenAppend(a[1..], b);
    }
  }

  /** The audio of a run of frames holds each frame's samples in full and in
      order: frame k's samples start at the combined length of the frames
      before it. */
  lemma {:induction false} FlattenAt<S>(frames: seq<seq<S>>, k: nat)
    requires k < |frames|
    ensures var offset := |Flatten(frames[..k])|;
      offset + |frames[k]| <= |Flatten(frames)| &&
      Flatten(frames)[offset..offset + |frames[k]|] == frames[k]
  {
    assert frames == frames[..k] + ([frames[k]] + frames[k + 1..]);
    FlattenAppend(frames[..k], [frames[k]] + frames[k + 1..]);
    assert ([frames[k]] + frames[k + 1..])[1..] == frames[k + 1..];
  }
}
