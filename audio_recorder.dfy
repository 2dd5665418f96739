/**
  The recorder object: its configuration, the session flag, the speech
  buffer and the time of the last speech frame, with the per-frame step of
  the processing loop, the loop itself over a snapshot of the queue, and the
  start / stop / export guards around them.
 */
module Recording {
  import opened Samples
  import opened Assembler

  datatype Option<T> = None | Some(value: T)

  /** What is handed to the WAV writer: the header fields and the raw sample bytes. */
  datatype Wav = Wav(channels: nat, sampleWidth: nat, frameRate: int, data: seq<Byte>)

  /**
    Samples per frame: the product of the sample rate and the frame duration
    in milliseconds, divided by 1000 and truncated toward zero.
   */
  function FrameLength(sampleRate: int, frameDuration: int): (r: int)
    ensures var p := sampleRate * frameDuration;
      && (p >= 0 ==> 0 <= r && r * 1000 <= p < r * 1000 + 1000)
      && (p < 0 ==> r <= 0 && r * 1000 - 1000 < p <= r * 1000)
  {
    var p := sampleRate * frameDuration;
    if p >= 0 then p / 1000 else -((-p) / 1000)
  }

  /** The defaults, 16 kHz and 30 ms, give 480-sample frames. */
  lemma DefaultFrameLength()
    ensures FrameLength(16000, 30) == 480
  {
  }

  /**
    The export of a buffer: nothing when the buffer is empty; otherwise a mono,
    two-byte-per-sample container at the recorder's rate whose data reads back
    as exactly the buffered samples in order.
   */
  function WavOf(frames: seq<Frame>, sampleRate: int): (w: Option<Wav>)
    ensures w.None? <==> frames == []
    ensures w.Some? ==> && w.value.channels == 1 && w.value.sampleWidth == 2
                        && w.value.frameRate == sampleRate
                        && |w.value.data| == 2 * TotalLength(frames)
                        && FromBytes(w.value.data) == Concat(frames)
  {
    if frames == [] then None
    else
      FromBytesToBytes(Concat(frames));
      Some(Wav(1, 2, sampleRate, ToBytes(Concat(frames))))
  }

  /** The thread that calls `stop_recording`. */
  datatype Caller = MainThread | Worker

  /**
    What `stop_recording` exports as written, by calling thread. With no
    session open it returns at once. Otherwise it drops the flag, stops the
    stream and joins the processing thread before exporting. On the timeout
    path the caller is the processing thread itself; joining the current
    thread raises, so the export at the end is never reached.
   */
  function StopExportAsWritten(recording: bool, frames: seq<Frame>, sampleRate: int, caller: Caller): (sent: Option<Wav>)
    ensures sent.Some? <==> recording && caller.MainThread? && frames != []
    ensures sent.Some? ==> sent == WavOf(frames, sampleRate)
  {
    if !recording then None
    else if caller.Worker? then None
    else WavOf(frames, sampleRate)
  }

  /**
    Ten 30 ms speech frames and then thirty-four silent ones: the loop ends
    the session with 43 frames buffered, which would export as a non-empty
    container, yet `stop_recording` called from the processing thread as
    written exports nothing, so the utterance is lost.
   */
  lemma SelfJoinLosesUtterance(c: Config, s: State, sp: Frame, si: Frame, t0: int, sampleRate: int)
    requires s.recording && s.frames == []
    requires c.isSpeech(sp) && !c.isSpeech(si) && c.silenceTimeout == 1000
    ensures var r := Run(c, s, Burst(sp, 10, t0, 30) + Burst(si, 34, t0 + 300, 30));
      && !r.recording && |r.frames| == 43
      && WavOf(r.frames, sampleRate).Some?
      && StopExportAsWritten(true, r.frames, sampleRate, Worker) == None
  {
    TenSpeechThenSilence(c, s, sp, si, t0);
  }

  class AudioRecorder {
    const sampleRate: int
    const frameDuration: int  // milliseconds
    const frameLength: int
    const aggressiveness: int
    const silenceTimeout: int  // milliseconds
    /** The voice-activity classifier at the configured aggressiveness. */
    const isSpeech: Frame -> bool

    var isRecording: bool
    var lastSpeechDetected: int
    var recordedFrames: seq<Frame>
    /** The frames taken off the queue since the session started. */
    ghost var history: seq<Tick>

    function Settings(): Config
    {
      Config(isSpeech, silenceTimeout)
    }

    /** The loop's view of the recorder's fields. */
    function Snapshot(): State
      reads this
    {
      State(isRecording, recordedFrames, lastSpeechDetected)
    }

    ghost predicate Valid()
      reads this
    {
      Inv(Settings(), Snapshot(), history)
    }

    constructor (isSpeech: Frame -> bool, sampleRate: int := 16000, frameDuration: int := 30)
      ensures this.isSpeech == isSpeech
      ensures this.sampleRate == sampleRate && this.frameDuration == frameDuration
      ensures frameLength == FrameLength(sampleRate, frameDuration)
      ensures aggressiveness == 3 && silenceTimeout == 1000
      ensures !isRecording && recordedFrames == [] && lastSpeechDetected == InitialLastSpeech
      ensures history == [] && Valid()
    {
      this.sampleRate := sampleRate;
      this.frameDuration := frameDuration;
      this.frameLength := FrameLength(sampleRate, frameDuration);
      this.aggressiveness := 3;
      this.isSpeech := isSpeech;
      this.silenceTimeout := 1000;
      isRecording := false;
      lastSpeechDetected := InitialLastSpeech;
      recordedFrames := [];
      history := [];
      new;
      InvInitial(Settings(), false);
    }

    /** Exports the buffer; an empty buffer exports nothing. The buffer itself is left as it is. */
    method SaveAndSendAudio() returns (sent: Option<Wav>)
      ensures sent.None? <==> recordedFrames == []
      ensures sent == WavOf(recordedFrames, sampleRate)
    {
      if recordedFrames == [] {
        return None;
      }
      sent := Some(Wav(1, 2, sampleRate, ToBytes(Concat(recordedFrames))));
    }

    /** Opens a session: a no-op while one is open, otherwise a reset of the buffer and the last-speech time. */
    method Start()
      requires Valid()
      modifies this
      ensures Valid()
      ensures old(isRecording) ==> unchanged(this)
      ensures !old(isRecording) ==> && isRecording && recordedFrames == []
                                    && lastSpeechDetected == InitialLastSpeech && history == []
    {
      if isRecording {
        return;
      }
      isRecording := true;
      recordedFrames := [];
      lastSpeechDetected := InitialLastSpeech;
      history := [];
      InvInitial(Settings(), true);
    }

    /**
      Closes the session and exports what the buffer holds. While no session
      is open it does nothing and exports nothing, so a second stop is a no-op.
     */
    method Stop() returns (sent: Option<Wav>)
      modifies this`isRecording
      ensures !isRecording
      ensures sent == if old(isRecording) then WavOf(recordedFrames, sampleRate) else None
    {
      if !isRecording {
        return None;
      }
      isRecording := false;
      sent := SaveAndSendAudio();
    }

    /**
      One pass of the processing loop on the frame `t` taken off the queue:
      speech is appended and refreshes the last-speech time; silence before
      any speech is dropped; silence inside an utterance is appended as a
      pause while it is within the timeout of the last speech, and otherwise
      ends the session without being appended, exporting the buffer (the
      export `stop_recording` evidently intends on this path; as written the
      self-join raises first, see `StopExportAsWritten`).
     */
    method Step(t: Tick) returns (outcome: Outcome, sent: Option<Wav>)
      requires Valid() && isRecording
      modifies this
      ensures Valid()
      ensures Snapshot() == Next(Settings(), old(Snapshot()), t)
      ensures history == old(history) + [t]
      ensures isSpeech(t.frame) ==>
                && outcome == Kept && isRecording
                && recordedFrames == old(recordedFrames) + [t.frame] && lastSpeechDetected == t.now
      ensures !isSpeech(t.frame) && old(recordedFrames) == [] ==>
                && outcome == Discarded && isRecording
                && recordedFrames == [] && lastSpeechDetected == old(lastSpeechDetected)
      ensures !isSpeech(t.frame) && old(recordedFrames) != [] && t.now - old(lastSpeechDetected) <= silenceTimeout ==>
                && outcome == Paused && isRecording
                && recordedFrames == old(recordedFrames) + [t.frame] && lastSpeechDetected == old(lastSpeechDetected)
      ensures !isSpeech(t.frame) && old(recordedFrames) != [] && t.now - old(lastSpeechDetected) > silenceTimeout ==>
                && outcome == TimedOut && !isRecording
                && recordedFrames == old(recordedFrames) && lastSpeechDetected == old(lastSpeechDetected)
      ensures sent == if outcome == TimedOut then WavOf(recordedFrames, sampleRate) else None
    {
      NextPreservesInv(Settings(), Snapshot(), history, t);
      sent := None;
      if isSpeech(t.frame) {
        lastSpeechDetected := t.now;
        recordedFrames := recordedFrames + [t.frame];
        outcome := Kept;
      } else if recordedFrames != [] && t.now - lastSpeechDetected > silenceTimeout {
        sent := Stop();
        outcome := TimedOut;
      } else if recordedFrames != [] {
        recordedFrames := recordedFrames + [t.frame];
        outcome := Paused;
      } else {
        outcome := Discarded;
      }
      history := history + [t];
    }

    /**
      The processing loop over the frames waiting in the queue, taken in FIFO
      order while the session is open. It ends when the queue is drained or
      when a silence timeout has closed the session, in which case the buffer
      has been exported.
     */
    method ProcessAudio(queue: seq<Tick>) returns (taken: nat, sent: Option<Wav>)
      requires Valid()
      modifies this
      ensures Valid()
      ensures Snapshot() == Run(Settings(), old(Snapshot()), queue)
      ensures taken == Taken(Settings(), old(Snapshot()), queue)
      ensures history == old(history) + queue[..taken]
      ensures taken < |queue| ==> !isRecording
      ensures sent == if old(isRecording) && !isRecording then WavOf(recordedFrames, sampleRate) else None
    {
      ghost var s0 := Snapshot();
      taken, sent := 0, None;
      while isRecording && taken < |queue|
        invariant Valid()
        invariant taken <= |queue|
        invariant Run(Settings(), Snapshot(), queue[taken..]) == Run(Settings(), s0, queue)
        invariant Taken(Settings(), s0, queue) == taken + Taken(Settings(), Snapshot(), queue[taken..])
        invariant history == old(history) + queue[..taken]
        invariant sent == if s0.recording && !isRecording then WavOf(recordedFrames, sampleRate) else None
        decreases |queue| - taken
      {
        RunUnfold(Settings(), Snapshot(), queue, taken);
        var outcome;
        outcome, sent := Step(queue[taken]);
        taken := taken + 1;
      }
      RunDone(Settings(), Snapshot(), queue[taken..]);
    }
  }
}
