# Speech-buffering recorder: a Dafny model

This project models the `AudioRecorder` class of `audio_recorder.py`. The class
captures microphone audio in fixed frames and classifies each frame as speech
or silence. It keeps only the audio of one utterance. When the speaker has
been silent for too long, it ends the session and is meant to export that
utterance. As written, that export is never reached (see "## Findings").

The model has three modules:

- `Samples` (samples.dfy): 16-bit samples, frames, joining frames end to end,
  and the raw little-endian byte image that is written into the WAV container.
  Reading the bytes back gives the same samples.
- `Assembler` (assembler.dfy): the per-frame decision of the processing loop
  as pure functions (`Decide`, `Next`). `Run` and `Taken` give the loop over
  a snapshot of the queue. `Inv` is the invariant the buffer keeps. The lemmas
  state what whole runs do.
- `Recording` (audio_recorder.dfy): the
  `AudioRecorder` class. It has the source's fields (`isRecording`,
  `recordedFrames`, `lastSpeechDetected`, the configuration constants). Its
  methods are `Step` (one loop iteration), `ProcessAudio` (the loop),
  `Start`, `Stop` and `SaveAndSendAudio`. Each method is proved against the
  `Assembler` functions. The class also keeps a ghost `history` of the frames
  taken off the queue since the session started.

The model makes three abstractions:

- The voice-activity classifier is a fixed function `isSpeech: Frame -> bool`,
  given to the constructor.
- The clock is an integer number of milliseconds, read when each frame is
  taken off the queue. It is carried in `Tick.now`. The one-second silence
  timeout is `1000`.
- Frames are sequences of `int16` samples.

The code has no Idle/Recording state. The recorder is inside an utterance
exactly when `recordedFrames` is non-empty. A silence timeout does not
return to an idle state: it calls `stop_recording`, which ends the session.
So one session yields at most one utterance. The timeout test is strict
(`now - lastSpeech > timeout`).

## What the loop does on a timeout and on a pause

- A timeout ends the session. The silent frame calls `stop_recording` and
  leaves the loop (audio_recorder.py:52-53). `Assembler.RunDone` states that
  the loop takes nothing more once the session has ended.
- Silent frames within the timeout of the last speech are kept as pauses
  (audio_recorder.py:54-55). Take 10 speech frames and then 34 silent frames,
  30 ms apart. The 34th silent frame is the first one more than 1000 ms after
  the last speech. So the buffer holds 10 + 33 = 43 frames.
  `Assembler.TenSpeechThenSilence` proves this.
- `time.time()` is read when a frame is processed, not when it was captured
  (audio_recorder.py:46, 51). So `Tick.now` is the processing time.

## Model

| member | source | states |
|---|---|---|
| `Recording.FrameLength` | audio_recorder.py:14-17 | The frame length is `sample_rate * frame_duration / 1000`, truncated toward zero. For a non-negative product, `r*1000 <= p < r*1000 + 1000`. For a negative product, the bound is mirrored. |
| `Recording.DefaultFrameLength` | audio_recorder.py:14-17 | The defaults, 16000 Hz and 30 ms, give 480 samples per frame. |
| `Recording.WavOf` | audio_recorder.py:59-69 | An empty buffer exports nothing. Otherwise the export is a mono container with 2-byte samples at the recorder's rate. Its data is two bytes per buffered sample and reads back as the joined buffer. |
| `Recording.AudioRecorder.constructor` | audio_recorder.py:14-23 | It stores the rate, the duration and the derived frame length. Aggressiveness is 3 and the timeout is 1000 ms. The recorder starts not recording, with an empty buffer, last-speech time 0 and the invariant holding. |
| `Recording.AudioRecorder.SaveAndSendAudio` | audio_recorder.py:57-69 | Nothing is exported exactly when the buffer is empty. Otherwise the export is `WavOf` of the buffer. |
| `Recording.AudioRecorder.Start` | audio_recorder.py:92-99 | While a session is open, it changes nothing. Otherwise it sets recording, empties the buffer, sets last-speech to 0 and starts a new history. The invariant is kept. |
| `Recording.AudioRecorder.Stop` | audio_recorder.py:116-127 | It changes only the recording flag, and afterwards the recorder is not recording. It exports the buffer only if a session was open. So a second stop exports nothing and changes nothing. |
| `Recording.AudioRecorder.Step` | audio_recorder.py:42-55 | Speech is appended and sets last-speech to `now`. Silence with an empty buffer is discarded and changes nothing. Silence within the timeout is appended as a pause, and last-speech is unchanged. Silence beyond the timeout (strict `>`) ends the session and is not appended. It then exports the unchanged buffer, which is what `stop_recording` evidently intends (see "## Findings"). The invariant is kept, and the frame joins the history. |
| `Recording.AudioRecorder.ProcessAudio` | audio_recorder.py:38-55 | The loop over a queue snapshot ends in `Run` of the old state. It takes exactly the first `Taken` frames, in FIFO order, and adds them to the history. It leaves frames unconsumed only after the session has ended. It exports the buffer, as evidently intended, exactly when this loop ended the session. |
| `Assembler.Taken` | audio_recorder.py:40-42 | The loop takes a prefix of the queue, no longer than the queue. It takes at least one frame whenever a session is open and the queue is non-empty. |
| `Assembler.InvInitial` | audio_recorder.py:97-99 | A freshly reset session (empty buffer, last-speech 0, empty history) satisfies the invariant. |
| `Assembler.NextPreservesInv` | audio_recorder.py:44-55 | One step keeps the invariant. The buffer is empty or opens with a speech frame. It is an order-preserving subsequence of the consumed frames. While the session is open, it is exactly the frames consumed from some point on, and every frame consumed before that point is silent. So no speech frame is ever dropped. Last-speech is the time of the last consumed speech frame. |
| `Assembler.RunPreservesInv` | audio_recorder.py:38-55 | Any run of steps keeps the same invariant, relative to the history plus the frames consumed. |
| `Assembler.RunStopsOnlyOnTimeout` | audio_recorder.py:40-53 | If frames are left over, the session has ended. If it has ended, at least one frame was consumed. The last one consumed was silent and came more than the timeout after the last speech (strict `>`). The buffer is non-empty and is the buffer from before that frame, so the frame was not appended. |
| `Assembler.RunDone` | audio_recorder.py:40-53 | Once the session has ended, or the queue is empty, the loop consumes nothing and changes nothing. So there is at most one utterance per session. |
| `Assembler.RunAppend` | audio_recorder.py:40-42 | Running over two queue segments in turn equals running over their concatenation, in state and in frames consumed. |
| `Assembler.RunSilenceStaysEmpty` | audio_recorder.py:48-55 | Silence never starts an utterance. From an empty buffer, any run of silent frames leaves the state unchanged and consumes every frame. |
| `Assembler.RunKeepsUtterance` | audio_recorder.py:44-55 | Suppose an utterance is open or opens with speech, and every silent frame lies within the timeout of the last speech before it. Then every frame is appended in order and the session stays open. Last-speech ends as the last speech time. Two bursts separated by a short pause become one utterance. |
| `Assembler.RunEndsUtterance` | audio_recorder.py:50-53 | A silent frame more than the timeout after the last speech, with a non-empty buffer, ends the session. It is consumed but not appended, and nothing after it is consumed. |
| `Assembler.SpeechThenSilence` | audio_recorder.py:44-55 | Take `n` speech frames and then `m` silent frames, `period` ms apart, where only the last silent frame is beyond the timeout. The session ends holding the `n` speech frames and `m-1` pauses. |
| `Assembler.TenSpeechThenSilence` | audio_recorder.py:44-55 | Ten 30 ms speech frames, then 34 silent ones, with the 1000 ms timeout: the session ends with 43 frames buffered. |
| `Recording.StopExportAsWritten` | audio_recorder.py:116-127 | As written, `stop_recording` exports only when a session is open, the buffer is non-empty and the caller is the main thread. The export is then `WavOf` of the buffer. |
| `Recording.SelfJoinLosesUtterance` | audio_recorder.py:50-53 | After 10 speech and 34 silent 30 ms frames the loop ends the session with 43 frames. That buffer would export as a non-empty container. But `stop_recording`, called from the processing thread, exports nothing, because its self-join (line 124) raises first. |
| `Samples.Concat` | audio_recorder.py:69 | Joining frames gives as many samples as the frames hold. It begins with the first frame. |
| `Samples.ConcatAppend` | audio_recorder.py:69 | Joining a buffer with one more frame appends that frame's samples. |
| `Samples.ConcatUniform` | audio_recorder.py:69 | When every frame has `n` samples, the joined buffer has `n` times the frame count. |
| `Samples.ToBytes` | audio_recorder.py:69 | The byte image has two bytes per sample. |
| `Samples.ToBytesAt` | audio_recorder.py:69 | For sample `i`, byte `2i` plus 256 times byte `2i+1` is the sample modulo 65536 (two's complement, low byte first). |
| `Samples.FromBytesToBytes` | audio_recorder.py:69 | Reading back the byte image of a sample buffer gives the buffer. |
| `Samples.ToBytesFromBytes` | audio_recorder.py:69 | Every even-length byte string is the image of the samples read from it, so the encoding is a bijection. |

## Left out

- Audio capture: the `sounddevice` input stream, its callback and its start, stop and close calls (audio_recorder.py:29-36, 106-113, 122-123) are device I/O.
- The float-to-`int16` scaling of the callback (audio_recorder.py:35) is floating-point arithmetic. Frames are taken to be `int16` already.
- The `webrtcvad` classifier (audio_recorder.py:18, 25-27) is a foreign library. It is the oracle `isSpeech`. `aggressiveness` is recorded but has no effect in the model.
- `time.time()` is a float clock. The model uses integer milliseconds and a timeout of `1000`.
- Threads, the `Queue` and the busy-polling `if not empty` loop (audio_recorder.py:40-42, 102-103) are concurrency. `ProcessAudio` runs over a finite snapshot of the queue. A concurrent `stop_recording` from the main thread during a step is not modelled.
- `process_thread.join()` (audio_recorder.py:124) is modelled only by its effect on the export (`Recording.StopExportAsWritten`). The `RuntimeError` it raises in the processing thread is not modelled further. See "## Findings".
- WAV file writing, MP3 encoding, the HTTP POST, printing and temp-file removal (audio_recorder.py:63-90) are I/O and foreign calls. So are the console messages at audio_recorder.py:60, 114 and 126. The export ends at the `Wav` value: header fields plus sample bytes.
- The `__main__` driver (audio_recorder.py:129-138): its sleep loop and keyboard interrupt are process control.
- audio_recorder_windows.py, record_audio.py and app.py are not part of this model. They are fixed-duration device recording scripts and a web endpoint around a foreign transcription model.
- `Recording.FrameLength`: the division is exact here. Python divides in floating point first, which can differ only for products beyond 2^53.
- `Samples.ToBytes`: assumes the little-endian byte order of `tobytes()` on the usual hosts.
- `Recording.AudioRecorder.Step`: requires an open session. The Python loop body only runs while `is_recording` holds.

## Findings

| source | as written | input that shows it | evidently intended | confidence | as-written member | corrected member |
|---|---|---|---|---|---|---|
| audio_recorder.py:124 | On a timeout, `stop_recording` runs in the processing thread (line 52). There it joins its own thread, which raises `RuntimeError` before `save_and_send_audio` (line 127). Nothing is exported. | 10 speech frames, then 34 silent frames, 30 ms apart, with the 1000 ms timeout. | Export the 43-frame buffer when the timeout ends the session. | not executed | `Recording.SelfJoinLosesUtterance` | `Recording.AudioRecorder.Step` |
