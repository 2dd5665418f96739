/**
  The speech/silence buffering logic of the recorder's processing loop, as
  pure functions over its state. A frame is taken from the queue together
  with the clock reading (in milliseconds) at the moment it is processed; the
  voice-activity classifier is an oracle `isSpeech` on frames.

  There is no separate Idle state: the recorder is "inside an utterance"
  exactly when its buffer is non-empty, and a silence timeout ends the whole
  session (the recording flag drops) instead of returning to an idle state.
 */
module Assembler {
  import opened Samples

  /** A frame taken from the queue, with the clock reading when it was taken. */
  datatype Tick = Tick(frame: Frame, now: int)

  /** The classifier and the silence timeout (milliseconds). */
  datatype Config = Config(isSpeech: Frame -> bool, silenceTimeout: int)

  /** The fields the loop reads and writes: the recording flag, the buffer, the time of the last speech frame. */
  datatype State = State(recording: bool, frames: seq<Frame>, lastSpeech: int)

  /** The four things a processed frame can cause. */
  datatype Outcome =
    | Kept       // speech: appended, last-speech time refreshed
    | Paused     // silence inside an utterance: appended as a pause
    | Discarded  // silence before any speech: dropped
    | TimedOut   // silence too long after the last speech: the session ends

  /** The value of the last-speech field right after a session starts. */
  const InitialLastSpeech := 0

  function Decide(s: State, speech: bool, now: int, timeout: int): Outcome
  {
    if speech then Kept
    else if s.frames != [] && now - s.lastSpeech > timeout then TimedOut
    else if s.frames != [] then Paused
    else Discarded
  }

  /** One iteration of the processing loop on the frame `t`. */
  function Next(c: Config, s: State, t: Tick): State
  {
    match Decide(s, c.isSpeech(t.frame), t.now, c.silenceTimeout)
    case Kept => s.(frames := s.frames + [t.frame], lastSpeech := t.now)
    case Paused => s.(frames := s.frames + [t.frame])
    case Discarded => s
    case TimedOut => s.(recording := false)
  }

  /** The loop run over a queue snapshot, in FIFO order, while the session is recording. */
  function Run(c: Config, s: State, ticks: seq<Tick>): State
    decreases |ticks|
  {
    if ticks == [] || !s.recording then s else Run(c, Next(c, s, ticks[0]), ticks[1..])
  }

  /**
    How many frames the loop takes off the queue: the consumed frames are the
    prefix `ticks[..Taken(c, s, ticks)]`, and a frame is taken whenever the
    session is open and the queue is not empty.
   */
  function Taken(c: Config, s: State, ticks: seq<Tick>): (n: nat)
    ensures n <= |ticks|
    ensures s.recording && ticks != [] ==> n >= 1
    decreases |ticks|
  {
    if ticks == [] || !s.recording then 0
    else 1 + Taken(c, Next(c, s, ticks[0]), ticks[1..])
  }

  function FramesOf(h: seq<Tick>): (fs: seq<Frame>)
  {
    seq(|h|, i requires 0 <= i < |h| => h[i].frame)
  }

  /** The clock reading of the last speech frame in `h`, or `d` when `h` holds none. */
  function LastSpeechIn(c: Config, h: seq<Tick>, d: int): int
  {
    if h == [] then d
    else LastSpeechIn(c, h[1..], if c.isSpeech(h[0].frame) then h[0].now else d)
  }

  /** `idx` picks out `a` from `b` at strictly increasing positions. */
  ghost predicate Embeds<T>(idx: seq<int>, a: seq<T>, b: seq<T>)
  {
    && |idx| == |a|
    && (forall k :: 0 <= k < |idx| ==> 0 <= idx[k] < |b| && a[k] == b[idx[k]])
    && (forall j, k :: 0 <= j < k < |idx| ==> idx[j] < idx[k])
  }

  /** `a` is an order-preserving subsequence of `b`. */
  ghost predicate IsSubsequence<T>(a: seq<T>, b: seq<T>)
  {
    exists idx :: Embeds(idx, a, b)
  }

  /**
    `a` is the frames of the tail `hist[k..]` for some `k` such that every
    frame before `k` is silent: nothing after the first speech frame is
    missing, and no speech frame before it was dropped.
   */
  ghost predicate IsTailOf(c: Config, a: seq<Frame>, hist: seq<Tick>)
  {
    exists k :: TailFrom(c, a, hist, k)
  }

  /** `a` is the frames of `hist[k..]`, and every frame before `k` is silent. */
  ghost predicate TailFrom(c: Config, a: seq<Frame>, hist: seq<Tick>, k: int)
  {
    && 0 <= k <= |hist| && a == FramesOf(hist[k..])
    && (forall i :: 0 <= i < k ==> !c.isSpeech(hist[i].frame))
  }

  /**
    What the buffer and the last-speech field are, given the frames `hist`
    consumed since the session started: the buffer is empty or opens with a
    speech frame, it is an order-preserving subsequence of the consumed
    frames, and while the session is open it is exactly the contiguous tail
    of them that starts at the first speech frame (every frame before that
    tail is silent). The last-speech field is
    the time of the last consumed speech frame (its initial value while there
    has been none).
   */
  ghost predicate Inv(c: Config, s: State, hist: seq<Tick>)
  {
    && (s.frames == [] || c.isSpeech(s.frames[0]))
    && IsSubsequence(s.frames, FramesOf(hist))
    && (s.recording ==> IsTailOf(c, s.frames, hist))
    && s.lastSpeech == LastSpeechIn(c, hist, InitialLastSpeech)
  }

  /** A freshly started session satisfies the invariant. */
  lemma InvInitial(c: Config, recording: bool)
    ensures Inv(c, State(recording, [], InitialLastSpeech), [])
  {
    assert Embeds<Frame>([], [], FramesOf([]));
    var none: seq<Tick> := [];
    assert TailFrom(c, [], none, 0);
  }

  /** A frame consumed and appended keeps the buffer a contiguous tail. */
  lemma TailSnoc(c: Config, a: seq<Frame>, hist: seq<Tick>, t: Tick)
    requires IsTailOf(c, a, hist)
    ensures IsTailOf(c, a + [t.frame], hist + [t])
  {
    var k :| TailFrom(c, a, hist, k);
    var h := hist + [t];
    assert h[k..] == hist[k..] + [t];
    assert FramesOf(hist[k..] + [t]) == FramesOf(hist[k..]) + [t.frame];
    assert forall i :: 0 <= i < k ==> h[i] == hist[i];
    assert TailFrom(c, a + [t.frame], h, k);
  }

  /** A silent frame dropped before any speech keeps the empty buffer the empty tail. */
  lemma TailDiscard(c: Config, hist: seq<Tick>, t: Tick)
    requires IsTailOf(c, [], hist) && !c.isSpeech(t.frame)
    ensures IsTailOf(c, [], hist + [t])
  {
    var k :| TailFrom(c, [], hist, k);
    assert k == |hist| by {
      assert |FramesOf(hist[k..])| == |hist| - k;
    }
    var h := hist + [t];
    forall i | 0 <= i < |h|
      ensures !c.isSpeech(h[i].frame)
    {
      if i < |hist| {
        assert h[i] == hist[i];
      }
    }
    assert TailFrom(c, [], h, |h|);
  }

  lemma SubsequenceSnoc<T>(a: seq<T>, b: seq<T>, x: T)
    requires IsSubsequence(a, b)
    ensures IsSubsequence(a + [x], b + [x])
  {
    var idx :| Embeds(idx, a, b);
    assert Embeds(idx + [|b|], a + [x], b + [x]);
  }

  lemma SubsequenceWiden<T>(a: seq<T>, b: seq<T>, x: T)
    requires IsSubsequence(a, b)
    ensures IsSubsequence(a, b + [x])
  {
    var idx :| Embeds(idx, a, b);
    assert Embeds(idx, a, b + [x]);
  }

  lemma FramesOfAppend(a: seq<Tick>, b: seq<Tick>)
    ensures FramesOf(a + b) == FramesOf(a) + FramesOf(b)
  {
  }

  lemma {:induction false} LastSpeechAppend(c: Config, a: seq<Tick>, b: seq<Tick>, d: int)
    ensures LastSpeechIn(c, a + b, d) == LastSpeechIn(c, b, LastSpeechIn(c, a, d))
  {
    if a != [] {
      assert (a + b)[1..] == a[1..] + b;
      LastSpeechAppend(c, a[1..], b, if c.isSpeech(a[0].frame) then a[0].now else d);
    } else {
      assert a + b == b;
    }
  }

  /** Silence never moves the last-speech time. */
  lemma {:induction false} LastSpeechSilent(c: Config, h: seq<Tick>, d: int)
    requires forall i :: 0 <= i < |h| ==> !c.isSpeech(h[i].frame)
    ensures LastSpeechIn(c, h, d) == d
  {
    if h != [] {
      LastSpeechSilent(c, h[1..], d);
    }
  }

  lemma LastSpeechEndsWithSpeech(c: Config, h: seq<Tick>, d: int)
    requires h != [] && c.isSpeech(h[|h| - 1].frame)
    ensures LastSpeechIn(c, h, d) == h[|h| - 1].now
  {
    var n := |h| - 1;
    assert h == h[..n] + [h[n]];
    LastSpeechAppend(c, h[..n], [h[n]], d);
  }

  /** One iteration keeps the invariant, the processed frame joining the consumed history. */
  lemma NextPreservesInv(c: Config, s: State, hist: seq<Tick>, t: Tick)
    requires Inv(c, s, hist)
    ensures Inv(c, Next(c, s, t), hist + [t])
  {
    var s' := Next(c, s, t);
    assert FramesOf(hist + [t]) == FramesOf(hist) + [t.frame];
    LastSpeechAppend(c, hist, [t], InitialLastSpeech);
    assert LastSpeechIn(c, [t], s.lastSpeech) == if c.isSpeech(t.frame) then t.now else s.lastSpeech;
    if s'.frames == s.frames + [t.frame] {
      SubsequenceSnoc(s.frames, FramesOf(hist), t.frame);
      assert s.frames == [] ==> c.isSpeech(t.frame);
      if s.recording {
        TailSnoc(c, s.frames, hist, t);
      }
    } else {
      SubsequenceWiden(s.frames, FramesOf(hist), t.frame);
      if s'.recording {
        TailDiscard(c, hist, t);
      }
    }
  }

  /** The history after the first frame and `k` more is the history plus the first `k + 1` frames. */
  lemma HistoryStep(hist: seq<Tick>, ticks: seq<Tick>, k: nat)
    requires k < |ticks|
    ensures hist + [ticks[0]] + ticks[1..][..k] == hist + ticks[..k + 1]
  {
    assert [ticks[0]] + ticks[1..][..k] == ticks[..k + 1];
  }

  /** A whole run keeps the invariant, with every consumed frame added to the history. */
  lemma {:induction false} RunPreservesInv(c: Config, s: State, hist: seq<Tick>, ticks: seq<Tick>)
    requires Inv(c, s, hist)
    ensures Inv(c, Run(c, s, ticks), hist + ticks[..Taken(c, s, ticks)])
    decreases |ticks|
  {
    if ticks == [] || !s.recording {
      assert hist + ticks[..0] == hist;
    } else {
      var t := ticks[0];
      var s' := Next(c, s, t);
      NextPreservesInv(c, s, hist, t);
      RunPreservesInv(c, s', hist + [t], ticks[1..]);
      var k := Taken(c, s', ticks[1..]);
      assert Run(c, s, ticks) == Run(c, s', ticks[1..]);
      assert Taken(c, s, ticks) == 1 + k;
      HistoryStep(hist, ticks, k);
    }
  }

  /**
    The loop leaves frames on the queue only after the session has ended, and
    an open session ends only on a silent frame with an utterance in the
    buffer, taken more than the timeout after the last speech: the last
    frame taken is that silent frame, and it is not appended.
   */
  lemma {:induction false} RunStopsOnlyOnTimeout(c: Config, s: State, ticks: seq<Tick>)
    requires s.recording
    ensures Taken(c, s, ticks) < |ticks| ==> !Run(c, s, ticks).recording
    ensures !Run(c, s, ticks).recording ==>
              && Taken(c, s, ticks) >= 1
              && !c.isSpeech(ticks[Taken(c, s, ticks) - 1].frame)
              && Run(c, s, ticks).frames != []
              && ticks[Taken(c, s, ticks) - 1].now - Run(c, s, ticks).lastSpeech > c.silenceTimeout
              && Run(c, s, ticks).frames == Run(c, s, ticks[..Taken(c, s, ticks) - 1]).frames
    decreases |ticks|
  {
    if ticks != [] {
      var s' := Next(c, s, ticks[0]);
      if s'.recording {
        RunStopsOnlyOnTimeout(c, s', ticks[1..]);
        var k := Taken(c, s', ticks[1..]);
        if k >= 1 {
          assert ticks[1 + k - 1] == ticks[1..][k - 1];
          assert ticks[..k][1..] == ticks[1..][..k - 1];
        }
      } else {
        assert ticks[..0] == [];
        assert Run(c, s', ticks[1..]) == s';
        assert Taken(c, s', ticks[1..]) == 0;
      }
    }
  }

  /** The loop over the queue from position `i` on, one iteration unfolded. */
  lemma RunUnfold(c: Config, s: State, ticks: seq<Tick>, i: nat)
    requires s.recording && i < |ticks|
    ensures Run(c, s, ticks[i..]) == Run(c, Next(c, s, ticks[i]), ticks[i + 1..])
    ensures Taken(c, s, ticks[i..]) == 1 + Taken(c, Next(c, s, ticks[i]), ticks[i + 1..])
    ensures ticks[..i + 1] == ticks[..i] + [ticks[i]]
  {
    assert ticks[i..][1..] == ticks[i + 1..];
    assert ticks[..i + 1] == ticks[..i] + [ticks[i]];
  }

  /**
    The loop does nothing more once the queue is drained or the session has
    ended; in particular a session that has ended takes no further frame, so
    a session yields at most one utterance.
   */
  lemma RunDone(c: Config, s: State, ticks: seq<Tick>)
    requires !s.recording || ticks == []
    ensures Run(c, s, ticks) == s && Taken(c, s, ticks) == 0
  {
  }

  /** Running over a concatenated queue is running over each part in turn. */
  lemma {:induction false} RunAppend(c: Config, s: State, a: seq<Tick>, b: seq<Tick>)
    ensures Run(c, s, a + b) == Run(c, Run(c, s, a), b)
    ensures Taken(c, s, a + b) == Taken(c, s, a) + Taken(c, Run(c, s, a), b)
    decreases |a|
  {
    if a == [] {
      assert a + b == b;
    } else if !s.recording {
    } else {
      assert (a + b)[1..] == a[1..] + b;
      RunAppend(c, Next(c, s, a[0]), a[1..], b);
    }
  }

  /** Silence never opens an utterance: with an empty buffer, silent frames are all discarded. */
  lemma {:induction false} RunSilenceStaysEmpty(c: Config, s: State, ticks: seq<Tick>)
    requires s.frames == []
    requires forall i :: 0 <= i < |ticks| ==> !c.isSpeech(ticks[i].frame)
    ensures Run(c, s, ticks) == s
    ensures s.recording ==> Taken(c, s, ticks) == |ticks|
  {
    if ticks != [] && s.recording {
      RunSilenceStaysEmpty(c, s, ticks[1..]);
    }
  }

  /**
    While every silent frame comes within the timeout of the last speech frame
    before it, every frame is kept in order, nothing is left on the queue and
    the session goes on; two speech bursts separated by a short pause become
    one utterance.
   */
  lemma {:induction false} RunKeepsUtterance(c: Config, s: State, ticks: seq<Tick>)
    requires s.recording
    requires s.frames != [] || (ticks != [] && c.isSpeech(ticks[0].frame))
    requires forall i :: 0 <= i < |ticks| && !c.isSpeech(ticks[i].frame) ==>
               ticks[i].now - LastSpeechIn(c, ticks[..i], s.lastSpeech) <= c.silenceTimeout
    ensures Run(c, s, ticks) == State(true, s.frames + FramesOf(ticks), LastSpeechIn(c, ticks, s.lastSpeech))
    ensures Taken(c, s, ticks) == |ticks|
    decreases |ticks|
  {
    if ticks == [] {
      assert s.frames + [] == s.frames;
    } else {
      var t := ticks[0];
      var rest := ticks[1..];
      var d := if c.isSpeech(t.frame) then t.now else s.lastSpeech;
      if !c.isSpeech(t.frame) {
        assert ticks[..0] == [];
      }
      var s' := Next(c, s, t);
      assert s' == State(true, s.frames + [t.frame], d);
      forall i | 0 <= i < |rest| && !c.isSpeech(rest[i].frame)
        ensures rest[i].now - LastSpeechIn(c, rest[..i], d) <= c.silenceTimeout
      {
        assert ticks[..i + 1][1..] == rest[..i];
        assert ticks[i + 1] == rest[i];
      }
      RunKeepsUtterance(c, s', rest);
      assert FramesOf(ticks) == [t.frame] + FramesOf(rest);
      assert s.frames + [t.frame] + FramesOf(rest) == s.frames + FramesOf(ticks);
    }
  }

  /** A silent frame arriving too long after the last speech ends the session and is not kept. */
  lemma RunEndsUtterance(c: Config, s: State, t: Tick, rest: seq<Tick>)
    requires s.recording && s.frames != []
    requires !c.isSpeech(t.frame) && t.now - s.lastSpeech > c.silenceTimeout
    ensures Run(c, s, [t] + rest) == s.(recording := false)
    ensures Taken(c, s, [t] + rest) == 1
  {
    assert ([t] + rest)[1..] == rest;
  }

  /** `n` copies of frame `f` taken `period` milliseconds apart, the first at time `t0`. */
  function Burst(f: Frame, n: nat, t0: int, period: int): (ts: seq<Tick>)
  {
    seq(n, i requires 0 <= i < n => Tick(f, t0 + period * i))
  }

  function Repeat(f: Frame, n: nat): seq<Frame>
  {
    seq(n, _ => f)
  }

  lemma GapArith(p: int, n: int, j: int)
    ensures p * n + p * j - p * (n - 1) == p * (j + 1)
  {
    assert p * (n - 1) == p * n - p;
    assert p * (j + 1) == p * j + p;
  }

  lemma MulMono(p: int, x: int, y: int)
    requires p > 0 && x <= y
    ensures p * x <= p * y
  {
  }

  /** The silent frame at position `i` after a speech burst is within `period * k` of the burst's last frame. */
  lemma BurstPauseAt(c: Config, sp: Frame, si: Frame, n: nat, k: nat, t0: int, period: int, d: int, i: nat)
    requires c.isSpeech(sp) && !c.isSpeech(si)
    requires n >= 1 && period > 0 && period * k <= c.silenceTimeout
    requires n <= i < n + k
    ensures var ab := Burst(sp, n, t0, period) + Burst(si, k, t0 + period * n, period);
      ab[i].now - LastSpeechIn(c, ab[..i], d) <= c.silenceTimeout
  {
    var a := Burst(sp, n, t0, period);
    var b := Burst(si, k, t0 + period * n, period);
    var ab := a + b;
    var lastSpeech := t0 + period * (n - 1);
    LastSpeechEndsWithSpeech(c, a, d);
    assert ab[..i] == a + b[..i - n];
    LastSpeechAppend(c, a, b[..i - n], d);
    LastSpeechSilent(c, b[..i - n], lastSpeech);
    assert ab[i] == b[i - n];
    assert ab[i].now == t0 + period * n + period * (i - n);
    GapArith(period, n, i - n);
    MulMono(period, i - n + 1, k);
  }

  /** The silent frames after a speech burst are all within `period * k` of its last frame. */
  lemma BurstPausesWithinTimeout(c: Config, sp: Frame, si: Frame, n: nat, k: nat, t0: int, period: int, d: int)
    requires c.isSpeech(sp) && !c.isSpeech(si)
    requires n >= 1 && period > 0 && period * k <= c.silenceTimeout
    ensures var ab := Burst(sp, n, t0, period) + Burst(si, k, t0 + period * n, period);
      forall i :: 0 <= i < |ab| && !c.isSpeech(ab[i].frame) ==>
        ab[i].now - LastSpeechIn(c, ab[..i], d) <= c.silenceTimeout
  {
    var ab := Burst(sp, n, t0, period) + Burst(si, k, t0 + period * n, period);
    forall i | 0 <= i < |ab| && !c.isSpeech(ab[i].frame)
      ensures ab[i].now - LastSpeechIn(c, ab[..i], d) <= c.silenceTimeout
    {
      assert n <= i;
      BurstPauseAt(c, sp, si, n, k, t0, period, d, i);
    }
  }

  /** A speech burst followed by `k` pauses within the timeout is kept whole and the session goes on. */
  lemma BurstThenPausesKept(c: Config, s: State, sp: Frame, si: Frame, n: nat, k: nat, t0: int, period: int)
    requires s.recording && s.frames == []
    requires c.isSpeech(sp) && !c.isSpeech(si)
    requires n >= 1 && period > 0 && period * k <= c.silenceTimeout
    ensures var ab := Burst(sp, n, t0, period) + Burst(si, k, t0 + period * n, period);
      && Run(c, s, ab) == State(true, Repeat(sp, n) + Repeat(si, k), t0 + period * (n - 1))
      && Taken(c, s, ab) == |ab|
  {
    var a := Burst(sp, n, t0, period);
    var b := Burst(si, k, t0 + period * n, period);
    var ab := a + b;
    BurstPausesWithinTimeout(c, sp, si, n, k, t0, period, s.lastSpeech);
    RunKeepsUtterance(c, s, ab);
    assert FramesOf(ab) == Repeat(sp, n) + Repeat(si, k);
    LastSpeechEndsWithSpeech(c, a, s.lastSpeech);
    LastSpeechAppend(c, a, b, s.lastSpeech);
    LastSpeechSilent(c, b, t0 + period * (n - 1));
  }

  /**
    From an empty buffer, `n` speech frames followed by `m` silent frames, all
    `period` ms apart, where only the last silent frame lies beyond the
    timeout: the session ends holding the speech frames and the first `m - 1`
    silent frames, the last-speech time is that of the final speech frame, and
    the whole queue is consumed.
   */
  lemma SpeechThenSilence(c: Config, s: State, sp: Frame, si: Frame, n: nat, m: nat, t0: int, period: int)
    requires s.recording && s.frames == []
    requires c.isSpeech(sp) && !c.isSpeech(si)
    requires n >= 1 && m >= 1
    requires period * (m - 1) <= c.silenceTimeout < period * m
    ensures var ticks := Burst(sp, n, t0, period) + Burst(si, m, t0 + period * n, period);
      && Run(c, s, ticks) == State(false, Repeat(sp, n) + Repeat(si, m - 1), t0 + period * (n - 1))
      && Taken(c, s, ticks) == |ticks|
  {
    assert period > 0 by {
      if period <= 0 {
        MulMono(m, period, 0);
      }
    }
    var ab := Burst(sp, n, t0, period) + Burst(si, m - 1, t0 + period * n, period);
    var last := Tick(si, t0 + period * n + period * (m - 1));
    assert Burst(si, m, t0 + period * n, period) == Burst(si, m - 1, t0 + period * n, period) + [last];
    var ticks := ab + [last];
    assert Burst(sp, n, t0, period) + Burst(si, m, t0 + period * n, period) == ticks;
    BurstThenPausesKept(c, s, sp, si, n, m - 1, t0, period);
    var mid := Run(c, s, ab);
    assert last.now - mid.lastSpeech == period * m;
    RunEndsUtterance(c, mid, last, []);
    assert [last] + [] == [last];
    RunAppend(c, s, ab, [last]);
  }

  /**
    Ten 30 ms speech frames and then thirty-four 30 ms silent frames with the
    one-second timeout: the session ends on the thirty-fourth silent frame
    (1020 ms after the last speech), and the buffer then holds 43 frames,
    the ten speech frames and the thirty-three pause frames before it.
   */
  lemma TenSpeechThenSilence(c: Config, s: State, sp: Frame, si: Frame, t0: int)
    requires s.recording && s.frames == []
    requires c.isSpeech(sp) && !c.isSpeech(si) && c.silenceTimeout == 1000
    ensures var r := Run(c, s, Burst(sp, 10, t0, 30) + Burst(si, 34, t0 + 300, 30));
      && !r.recording && |r.frames| == 43
      && r.frames == Repeat(sp, 10) + Repeat(si, 33)
  {
    SpeechThenSilence(c, s, sp, si, 10, 34, t0, 30);
  }
}
