/**
  The display side of `VideoPlayerFFMPEG`: the bounded queue of decoded
  frames between the display thread and the render thread, the draw step in
  its lock-step and skip-ahead forms, seek requests and their servicing,
  restart, the display thread's virtual clock, and the audio gain property.

  Every critical section of the player is one atomic step over `Player`.
  The display thread's busy-wait for queue space is the `pending` slot: a
  frame that has been taken from the decoder but not yet handed to the queue.
  The decoder is an oracle: a tick is told which frame, if any, the decoder
  would hand out.
*/
module VideoPlayer {
  import opened Wrappers

  /** Capacity the display queue is created with. */
  const MaxSize: nat := 20

  type Bytes = seq<bv8>

  /**
    A decoded video frame. `buffer` is `None` when the frame's native pixel
    buffer is a null pointer; `id` is the frame's position in decode order.
  */
  datatype Frame = Frame(id: nat, buffer: Option<Bytes>) {
    predicate IsNull() {
      buffer.None?
    }
  }

  /**
    The display thread's virtual clock, a Kotlin `Double`. `Never` is the
    IEEE positive infinity that `nextFrame += 1.0 / duration` produces when
    the frame rate is 0: no time reaches it, and `now - nextFrame` is then
    negative infinity, so the clock is never resynchronised either.
  */
  datatype Clock = At(t: real) | Never

  /** The audio output, present only when the player plays audio. */
  datatype AudioOut = AudioOut(gain: real)

  /** Calls the player makes into the decoder and the audio output. */
  datatype Effect = AudioFlush | AudioResume | DecoderSeek(position: real) | DecoderRestart

  /**
    The player's state. The first group is the player's own state; the
    second records what has happened so far: frames shown on the colour
    buffer, frames released (unreferenced), calls to collaborators, frames
    taken from the decoder, and frames pushed to and popped from the queue.
  */
  datatype Player = Player(
    allowFrameSkipping: bool,
    hasColorBuffer: bool,
    hasDecoder: bool,
    audioOut: Option<AudioOut>,
    queue: seq<Frame>,
    pending: Option<Frame>,
    seekRequested: bool,
    seekPosition: real,
    nextFrame: Clock,
    written: seq<Frame>,
    released: multiset<Frame>,
    effects: seq<Effect>,
    pulled: seq<Frame>,
    pushed: seq<Frame>,
    popped: seq<Frame>)

  /** The player once `play()` has started its threads. */
  function Started(allowFrameSkipping: bool, hasColorBuffer: bool, audioOut: Option<AudioOut>): Player {
    Player(allowFrameSkipping, hasColorBuffer, true, audioOut, [], None, false, -1.0, At(0.0), [], multiset{}, [], [], [], [])
  }

  /** The backpressure predicate the decoder polls. */
  predicate DisplayQueueFull(queue: seq<Frame>) {
    |queue| >= MaxSize - 1
  }

  function PendingFrames(p: Player): multiset<Frame> {
    if p.pending.Some? then multiset{p.pending.value} else multiset{}
  }

  /**
    What the model promises holds between steps: the queue stays below the
    full mark and never holds a null frame; it is FIFO (everything pushed was
    either popped, in order, or is still queued, in order); every frame taken
    from the decoder is in exactly one place (queued, waiting, or released);
    and only non-null, already popped frames are ever shown.
  */
  ghost predicate Inv(p: Player) {
    && |p.queue| <= MaxSize - 1
    && (forall i :: 0 <= i < |p.queue| ==> !p.queue[i].IsNull())
    && p.pushed == p.popped + p.queue
    && multiset(p.pulled) == p.released + multiset(p.queue) + PendingFrames(p)
    && (forall i :: 0 <= i < |p.written| ==> !p.written[i].IsNull())
    && multiset(p.written) <= multiset(p.popped)
  }

  /** A started player has no frames anywhere, no seek pending, and its clock at 0. */
  lemma StartedInv(allowFrameSkipping: bool, hasColorBuffer: bool, audioOut: Option<AudioOut>)
    ensures var p := Started(allowFrameSkipping, hasColorBuffer, audioOut);
      && Inv(p)
      && p.queue == [] && p.pending.None? && p.pulled == []
      && !p.seekRequested && p.seekPosition == -1.0
      && p.nextFrame == At(0.0)
  {
  }

  /**
    With the single producer waiting on `DisplayQueueFull`, the queue never
    reaches its capacity: it reads as full exactly at one below it.
  */
  lemma FullOnlyAtBound(p: Player)
    requires Inv(p)
    ensures |p.queue| < MaxSize
    ensures DisplayQueueFull(p.queue) <==> |p.queue| == MaxSize - 1
  {
  }

  /** Every frame is released at most once, as long as the decoder hands out each frame once. */
  lemma ReleasedAtMostOnce(p: Player, f: Frame)
    requires Inv(p)
    requires multiset(p.pulled)[f] <= 1
    ensures p.released[f] <= 1
  {
  }

  // ---------------------------------------------------------------- draining

  /** Pops every queued frame and releases it, oldest first. */
  function Drain(p: Player): (r: Player)
    ensures r == p.(queue := [], released := p.released + multiset(p.queue), popped := p.popped + p.queue)
    decreases |p.queue|
  {
    if |p.queue| == 0 then p
    else
      var f := p.queue[0];
      var rest := p.(queue := p.queue[1..], released := p.released + multiset{f}, popped := p.popped + [f]);
      assert p.queue == [f] + rest.queue;
      assert rest.popped + rest.queue == p.popped + p.queue;
      assert rest.released + multiset(rest.queue) == p.released + multiset(p.queue);
      Drain(rest)
  }

  lemma DrainPreservesInv(p: Player)
    requires Inv(p)
    ensures Inv(Drain(p))
  {
    var r := Drain(p);
    assert multiset(r.written) <= multiset(p.popped) <= multiset(r.popped);
  }

  // ----------------------------------------------------------------- drawing

  /** The frame a draw shows: only a non-null frame, and only when there is a colour buffer. */
  function Shown(f: Frame, hasColorBuffer: bool): seq<Frame> {
    if hasColorBuffer && !f.IsNull() then [f] else []
  }

  /** One lock-step draw: pop at most one frame, show it if it has pixels, release it. */
  function DrawLockStep(p: Player): (r: Player)
    ensures |p.queue| == 0 ==> r == p
    ensures |p.queue| > 0 ==>
      && r.queue == p.queue[1..]
      && r.popped == p.popped + [p.queue[0]]
      && r.released == p.released + multiset{p.queue[0]}
      && (r.written == p.written + [p.queue[0]] <==> p.hasColorBuffer && !p.queue[0].IsNull())
      && (r.written == p.written <==> !p.hasColorBuffer || p.queue[0].IsNull())
      && r == p.(queue := r.queue, popped := r.popped, released := r.released, written := r.written)
  {
    if |p.queue| == 0 then p
    else
      var f := p.queue[0];
      p.(queue := p.queue[1..], popped := p.popped + [f],
         written := p.written + Shown(f, p.hasColorBuffer), released := p.released + multiset{f})
  }

  lemma DrawLockStepPreservesInv(p: Player)
    requires Inv(p)
    ensures Inv(DrawLockStep(p))
  {
    if |p.queue| > 0 {
      var r := DrawLockStep(p);
      var f := p.queue[0];
      assert p.queue == [f] + p.queue[1..];
      assert multiset(r.written) <= multiset(p.written) + multiset{f};
    }
  }

  /** `n` successive lock-step draws. */
  function DrawLockStepTimes(p: Player, n: nat): Player
    decreases n
  {
    if n == 0 then p else DrawLockStepTimes(DrawLockStep(p), n - 1)
  }

  /** One lock-step draw of a queue of non-null frames shows and releases its head and keeps the rest. */
  lemma LockStepShowsHead(p: Player)
    requires p.hasColorBuffer && |p.queue| > 0
    requires forall i :: 0 <= i < |p.queue| ==> !p.queue[i].IsNull()
    ensures var q := DrawLockStep(p);
      && q.hasColorBuffer
      && q.queue == p.queue[1..]
      && q.written == p.written + [p.queue[0]]
      && q.released == p.released + multiset{p.queue[0]}
      && (forall i :: 0 <= i < |q.queue| ==> !q.queue[i].IsNull())
  {
    var q := DrawLockStep(p);
    forall i | 0 <= i < |q.queue| ensures !q.queue[i].IsNull() {
      assert q.queue[i] == p.queue[i + 1];
    }
  }

  /**
    With a colour buffer and no null frames queued, `n` lock-step draws show
    exactly the first `n` queued frames, in decode order, and release each.
  */
  lemma {:induction false} LockStepDrawsInOrder(p: Player, n: nat)
    requires p.hasColorBuffer
    requires n <= |p.queue|
    requires forall i :: 0 <= i < |p.queue| ==> !p.queue[i].IsNull()
    ensures DrawLockStepTimes(p, n).written == p.written + p.queue[..n]
    ensures DrawLockStepTimes(p, n).queue == p.queue[n..]
    ensures DrawLockStepTimes(p, n).released == p.released + multiset(p.queue[..n])
    decreases n
  {
    if n > 0 {
      var q := DrawLockStep(p);
      assert DrawLockStepTimes(p, n) == DrawLockStepTimes(q, n - 1);
      LockStepShowsHead(p);
      LockStepDrawsInOrder(q, n - 1);
      SplitHead(p.queue, n);
    }
  }

  /** The first `n` elements of a sequence are its head followed by the first `n - 1` of its tail. */
  lemma SplitHead(s: seq<Frame>, n: nat)
    requires 0 < n <= |s|
    ensures s[..n] == [s[0]] + s[1..][..n - 1]
    ensures multiset(s[..n]) == multiset{s[0]} + multiset(s[1..][..n - 1])
    ensures s[n..] == s[1..][n - 1..]
  {
    assert s[..n] == [s[0]] + s[1..][..n - 1];
  }

  /** The outcome of one skip-ahead draw: all queued frames popped and released, only the last one shown. */
  ghost predicate SkipAheadDrawn(p: Player, r: Player) {
    && r.queue == []
    && r.popped == p.popped + p.queue
    && r.released == p.released + multiset(p.queue)
    && r.written == p.written + (if |p.queue| == 0 then [] else Shown(p.queue[|p.queue| - 1], p.hasColorBuffer))
    && r == p.(queue := [], popped := r.popped, released := r.released, written := r.written)
  }

  /** One skip-ahead draw: drain the queue, showing only the last frame drained. */
  method DrawSkipAhead(p: Player) returns (r: Player)
    ensures r.queue == []
    ensures r.released == p.released + multiset(p.queue)
    ensures |p.queue| == 0 ==> r.written == p.written
    ensures |p.queue| > 0 ==> r.written == p.written + Shown(p.queue[|p.queue| - 1], p.hasColorBuffer)
    ensures r.popped == p.popped + p.queue
    ensures r == p.(queue := [], popped := r.popped, released := r.released, written := r.written)
  {
    var queue, popped, written, released := p.queue, p.popped, p.written, p.released;
    ghost var i := 0;
    while |queue| > 0
      invariant 0 <= i <= |p.queue|
      invariant queue == p.queue[i..]
      invariant popped == p.popped + p.queue[..i]
      invariant released == p.released + multiset(p.queue[..i])
      invariant |queue| > 0 || i == 0 ==> written == p.written
      invariant |queue| == 0 && i > 0 ==> written == p.written + Shown(p.queue[i - 1], p.hasColorBuffer)
      decreases |queue|
    {
      var frame := queue[0];
      assert p.queue[..i + 1] == p.queue[..i] + [frame];
      assert multiset(p.queue[..i + 1]) == multiset(p.queue[..i]) + multiset{frame};
      queue := queue[1..];
      i := i + 1;
      popped := popped + [frame];
      if |queue| == 0 {
        written := written + Shown(frame, p.hasColorBuffer);
      }
      released := released + multiset{frame};
    }
    assert p.queue[..i] == p.queue;
    r := p.(queue := queue, popped := popped, written := written, released := released);
  }

  lemma SkipAheadPreservesInv(p: Player, r: Player)
    requires Inv(p) && SkipAheadDrawn(p, r)
    ensures Inv(r)
  {
    if |p.queue| > 0 {
      var f := p.queue[|p.queue| - 1];
      assert f in multiset(p.queue);
      assert multiset(r.popped) == multiset(p.popped) + multiset(p.queue);
      assert multiset(r.written) <= multiset(p.written) + multiset{f};
      assert multiset(p.written) + multiset{f} <= multiset(r.popped);
    } else {
      assert r == p;
    }
  }

  /** `draw()`: the configured draw step. */
  method Draw(p: Player) returns (r: Player)
    ensures !p.allowFrameSkipping ==> r == DrawLockStep(p)
    ensures p.allowFrameSkipping ==> SkipAheadDrawn(p, r)
    ensures Inv(p) ==> Inv(r)
  {
    if !p.allowFrameSkipping {
      r := DrawLockStep(p);
      if Inv(p) {
        DrawLockStepPreservesInv(p);
      }
    } else {
      r := DrawSkipAhead(p);
      if Inv(p) {
        SkipAheadPreservesInv(p, r);
      }
    }
  }

  // ------------------------------------------------------- seek and restart

  /** `seek(t)`: only records the request; the display thread services it. */
  function Seek(p: Player, position: real): (r: Player)
    ensures r.seekRequested && r.seekPosition == position
    ensures r == p.(seekRequested := r.seekRequested, seekPosition := r.seekPosition)
  {
    p.(seekRequested := true, seekPosition := position)
  }

  /** Two requests before servicing leave the second one: the last writer wins. */
  lemma SeekLastWriterWins(p: Player, a: real, b: real)
    ensures Seek(Seek(p, a), b) == Seek(p, b)
  {
  }

  lemma SeekPreservesInv(p: Player, position: real)
    requires Inv(p)
    ensures Inv(Seek(p, position))
  {
  }

  /** Calls made around a decoder call: flush the audio before it, resume it after. */
  function AroundAudio(p: Player, call: Effect): seq<Effect> {
    if p.audioOut.Some? then [AudioFlush, call, AudioResume] else [call]
  }

  /**
    The display thread's seek servicing: empty the queue releasing every
    frame, seek the decoder inside an audio flush/resume, clear the request.
  */
  function ServiceSeek(p: Player): (r: Player)
    ensures !p.seekRequested ==> r == p
    ensures p.seekRequested ==>
      && r.queue == [] && !r.seekRequested
      && r.released == p.released + multiset(p.queue)
      && r.popped == p.popped + p.queue
      && |p.effects| < |r.effects| && DecoderSeek(p.seekPosition) in r.effects[|p.effects|..]
      && r == p.(queue := [], released := r.released, popped := r.popped, effects := r.effects, seekRequested := false)
  {
    if !p.seekRequested then p
    else
      var d := Drain(p);
      d.(effects := d.effects + AroundAudio(p, DecoderSeek(p.seekPosition)), seekRequested := false)
  }

  lemma ServiceSeekPreservesInv(p: Player)
    requires Inv(p)
    ensures Inv(ServiceSeek(p))
  {
    DrainPreservesInv(p);
  }

  /**
    A seek followed by its servicing empties the queue however many frames
    it held, releases each of them once, and seeks the decoder to the
    requested position between flushing and resuming the audio.
  */
  lemma SeekThenService(p: Player, t: real)
    ensures var r := ServiceSeek(Seek(p, t));
      && r.queue == [] && !r.seekRequested
      && r.released == p.released + multiset(p.queue)
      && r.effects == p.effects + AroundAudio(p, DecoderSeek(t))
  {
  }

  /** `restart()`: empty the queue releasing every frame, restart the decoder, flush the audio. */
  function Restart(p: Player): (r: Player)
    ensures r.queue == []
    ensures r.released == p.released + multiset(p.queue)
    ensures r.popped == p.popped + p.queue
    ensures r.effects == p.effects + (if p.hasDecoder then [DecoderRestart] else []) + (if p.audioOut.Some? then [AudioFlush] else [])
    ensures r.seekRequested == p.seekRequested && r.seekPosition == p.seekPosition
    ensures r.written == p.written && r.pending == p.pending && r.nextFrame == p.nextFrame
    ensures r == p.(queue := [], released := r.released, popped := r.popped, effects := r.effects)
  {
    var d := Drain(p);
    d.(effects := d.effects + (if p.hasDecoder then [DecoderRestart] else []) + (if p.audioOut.Some? then [AudioFlush] else []))
  }

  lemma RestartPreservesInv(p: Player)
    requires Inv(p)
    ensures Inv(Restart(p))
  {
    DrainPreservesInv(p);
  }

  /**
    Restarting while a seek is pending empties the queue but leaves the seek
    pending: the next tick still services it.
  */
  lemma RestartKeepsPendingSeek(p: Player, t: real)
    ensures Restart(Seek(p, t)).seekRequested
    ensures Restart(Seek(p, t)).queue == []
    ensures ServiceSeek(Restart(Seek(p, t))).effects[|Restart(Seek(p, t)).effects|..] == AroundAudio(p, DecoderSeek(t))
  {
  }

  // ------------------------------------------------------------ display tick

  /** The decoder's seek-completed callback: the virtual clock starts over at 0. */
  function SeekCompleted(p: Player): (r: Player)
    ensures r.nextFrame == At(0.0)
    ensures r == p.(nextFrame := r.nextFrame)
  {
    p.(nextFrame := At(0.0))
  }

  /**
    Clock resynchronisation: when the clock lags `now` by more than
    `duration * 2`, it jumps to `now`. `duration` is the stream's frame
    rate, so the threshold is twice the rate in seconds, not two frame
    periods.
  */
  function Resync(nextFrame: Clock, now: real, duration: real): (r: Clock)
    ensures r == nextFrame || r == At(now)
    ensures nextFrame.Never? ==> r == Never
    ensures nextFrame.At? && duration >= 0.0 ==> r.At? && r.t >= nextFrame.t && now - r.t <= duration * 2.0
    ensures nextFrame.At? && now - nextFrame.t > duration * 2.0 ==> r == At(now)
    ensures nextFrame.At? && now - nextFrame.t <= duration * 2.0 ==> r == nextFrame
  {
    match nextFrame
    case Never => Never
    case At(t) => if now - t > duration * 2.0 then At(now) else nextFrame
  }

  /** `now >= nextFrame`: a frame is due. */
  predicate Due(clock: Clock, now: real) {
    clock.At? && now >= clock.t
  }

  /**
    `nextFrame += 1.0 / duration`: one frame period later, or positive
    infinity when the frame rate is 0.
  */
  function Advance(clock: Clock, duration: real): (r: Clock)
    ensures duration == 0.0 || clock.Never? ==> r == Never
    ensures duration != 0.0 && clock.At? ==> r == At(clock.t + 1.0 / duration)
  {
    if duration == 0.0 then Never
    else match clock
      case Never => Never
      case At(t) => At(t + FramePeriod(duration))
  }

  /**
    The end of the display thread's busy-wait: when the queue has room, the
    waiting frame is pushed, or released if its buffer is null; while the
    queue is full the thread keeps waiting and nothing changes.
  */
  function Deliver(p: Player): (r: Player)
    requires p.pending.Some?
    ensures DisplayQueueFull(p.queue) ==> r == p
    ensures !DisplayQueueFull(p.queue) ==> r.pending.None?
    ensures !DisplayQueueFull(p.queue) && p.pending.value.IsNull() ==>
      r.queue == p.queue && r.pushed == p.pushed && r.released == p.released + multiset{p.pending.value}
    ensures !DisplayQueueFull(p.queue) && !p.pending.value.IsNull() ==>
      r.queue == p.queue + [p.pending.value] && r.pushed == p.pushed + [p.pending.value] && r.released == p.released
    ensures r == p.(queue := r.queue, pushed := r.pushed, released := r.released, pending := r.pending)
  {
    if DisplayQueueFull(p.queue) then p
    else
      var f := p.pending.value;
      if !f.IsNull() then p.(queue := p.queue + [f], pushed := p.pushed + [f], pending := None)
      else p.(released := p.released + multiset{f}, pending := None)
  }

  /**
    One pass of the display thread's loop. A thread still waiting for queue
    space only retries the delivery. Otherwise it services a pending seek,
    resynchronises the clock, and, once the clock is due, takes the frame
    `decoded` from the decoder (if there is one), advances the clock by one
    frame period and delivers the frame.
  */
  function Tick(p: Player, now: real, duration: real, decoded: Option<Frame>): (r: Player)
    ensures p.pending.Some? && DisplayQueueFull(p.queue) ==> r == p
    ensures p.pending.Some? ==> r.pulled == p.pulled && r.seekRequested == p.seekRequested
    ensures p.pending.None? ==> !r.seekRequested
    ensures p.pending.None? ==> r.pulled == p.pulled || (decoded.Some? && r.pulled == p.pulled + [decoded.value])
    ensures p.pending.None? && p.seekRequested ==>
      && r.effects == p.effects + AroundAudio(p, DecoderSeek(p.seekPosition))
      && r.popped == p.popped + p.queue
      && p.released + multiset(p.queue) <= r.released
    ensures p.pending.None? && !p.seekRequested ==> r.effects == p.effects && r.popped == p.popped
    ensures p.pending.Some? ==> r.effects == p.effects && r.popped == p.popped
    ensures p.pending.Some? && !DisplayQueueFull(p.queue) && !p.pending.value.IsNull() ==>
      r.queue == p.queue + [p.pending.value] && r.pending.None?
    ensures p.pending.Some? && !DisplayQueueFull(p.queue) && p.pending.value.IsNull() ==>
      r.queue == p.queue && r.pending.None? && r.released == p.released + multiset{p.pending.value}
    ensures r.written == p.written && r.audioOut == p.audioOut
    ensures |r.queue| <= |p.queue| + 1
  {
    if p.pending.Some? then Deliver(p) else TickReady(p, now, duration, decoded)
  }

  /** A pass of a thread that is not waiting: seek servicing, then the clock and at most one frame. */
  function TickReady(p: Player, now: real, duration: real, decoded: Option<Frame>): (r: Player)
    requires p.pending.None?
    ensures !r.seekRequested
    ensures r.pulled == p.pulled || (decoded.Some? && r.pulled == p.pulled + [decoded.value])
    ensures p.seekRequested ==>
      && r.effects == p.effects + AroundAudio(p, DecoderSeek(p.seekPosition))
      && r.popped == p.popped + p.queue
      && p.released + multiset(p.queue) <= r.released
    ensures !p.seekRequested ==> r.effects == p.effects && r.popped == p.popped
    ensures r.written == p.written && r.audioOut == p.audioOut
    ensures |r.queue| <= |p.queue| + 1
    ensures var q := ServiceSeek(p).queue; var due := Due(Resync(p.nextFrame, now, duration), now);
      && (due && decoded.Some? && !DisplayQueueFull(q) && !decoded.value.IsNull() ==>
            r.queue == q + [decoded.value] && r.pending.None?)
      && (due && decoded.Some? && DisplayQueueFull(q) ==> r.pending == decoded && r.queue == q)
      && (!(due && decoded.Some?) ==> r.pending.None? && r.queue == q && r.pulled == p.pulled)
  {
    var s := ServiceSeek(p);
    assert s.nextFrame == p.nextFrame && s.pending.None?;
    assert s.pulled == p.pulled && s.written == p.written && s.audioOut == p.audioOut && |s.queue| <= |p.queue|;
    Poll(s, now, duration, decoded)
  }

  /** The part of a tick after seek servicing: clock resynchronisation, then at most one frame. */
  function Poll(p: Player, now: real, duration: real, decoded: Option<Frame>): (r: Player)
    requires p.pending.None?
    ensures r.pulled == p.pulled || (decoded.Some? && r.pulled == p.pulled + [decoded.value])
    ensures r.queue == p.queue || (decoded.Some? && !decoded.value.IsNull() && r.queue == p.queue + [decoded.value])
    ensures r.seekRequested == p.seekRequested && r.seekPosition == p.seekPosition && r.written == p.written
    ensures r.effects == p.effects && r.popped == p.popped && r.audioOut == p.audioOut
    ensures p.released <= r.released
    ensures var due := Due(Resync(p.nextFrame, now, duration), now);
      && (due && decoded.Some? && !DisplayQueueFull(p.queue) && !decoded.value.IsNull() ==>
            r.queue == p.queue + [decoded.value] && r.pending.None? && r.released == p.released)
      && (due && decoded.Some? && !DisplayQueueFull(p.queue) && decoded.value.IsNull() ==>
            r.queue == p.queue && r.pending.None? && r.released == p.released + multiset{decoded.value})
      && (due && decoded.Some? && DisplayQueueFull(p.queue) ==> r.pending == decoded && r.queue == p.queue)
      && (!(due && decoded.Some?) ==> r.pending.None? && r.queue == p.queue && r.pulled == p.pulled)
  {
    var clock := Resync(p.nextFrame, now, duration);
    if Due(clock, now) && decoded.Some? then Deliver(TakeFrame(p, Advance(clock, duration), decoded.value))
    else p.(nextFrame := clock)
  }

  /** One frame period of a stream with frame rate `duration`. */
  function FramePeriod(duration: real): real
    requires duration != 0.0
  {
    1.0 / duration
  }

  /** The display thread takes `f` from the decoder and holds it until the queue has room. */
  function TakeFrame(p: Player, nextFrame: Clock, f: Frame): (r: Player)
    ensures r.pending == Some(f) && r.pulled == p.pulled + [f] && r.nextFrame == nextFrame
    ensures r == p.(nextFrame := nextFrame, pending := Some(f), pulled := r.pulled)
  {
    p.(nextFrame := nextFrame, pending := Some(f), pulled := p.pulled + [f])
  }

  /**
    The clock of a tick that was not waiting: it is resynchronised, then
    advances by exactly one frame period for the one frame taken from the
    decoder, and not at all when no frame was taken.
  */
  lemma TickClock(p: Player, now: real, duration: real, decoded: Option<Frame>)
    requires p.pending.None?
    ensures var r := Tick(p, now, duration, decoded);
      var clock := Resync(p.nextFrame, now, duration);
      && |r.pulled| - |p.pulled| == (if Due(clock, now) && decoded.Some? then 1 else 0)
      && r.nextFrame == (if |r.pulled| > |p.pulled| then Advance(clock, duration) else clock)
  {
    var s := ServiceSeek(p);
    assert s.nextFrame == p.nextFrame && s.pulled == p.pulled && s.pending.None?;
  }

  /**
    A tick never queues a null frame: the queue only grows by the frame
    taken from the decoder, and only when it has pixels.
  */
  lemma TickQueuesOnlyFrames(p: Player, now: real, duration: real, decoded: Option<Frame>)
    ensures var r := Tick(p, now, duration, decoded);
      var before := if p.pending.Some? then p.queue else ServiceSeek(p).queue;
      var source := if p.pending.Some? then p.pending else decoded;
      || r.queue == before
      || (source.Some? && !source.value.IsNull() && r.queue == before + [source.value])
  {
    var r := Tick(p, now, duration, decoded);
    if p.pending.Some? {
      var f := p.pending.value;
      if !DisplayQueueFull(p.queue) && !f.IsNull() {
        assert r.queue == p.queue + [f];
      }
    } else if decoded.Some? {
      var f := decoded.value;
      var s := ServiceSeek(p);
      var clock := Resync(s.nextFrame, now, duration);
      if Due(clock, now) && !DisplayQueueFull(s.queue) && !f.IsNull() {
        assert r == Deliver(TakeFrame(s, Advance(clock, duration), f));
      }
    }
  }

  lemma TickPreservesInv(p: Player, now: real, duration: real, decoded: Option<Frame>)
    requires Inv(p)
    ensures Inv(Tick(p, now, duration, decoded))
  {
    if p.pending.Some? {
      DeliverPreservesInv(p);
    } else {
      ServiceSeekPreservesInv(p);
      PollPreservesInv(ServiceSeek(p), now, duration, decoded);
    }
  }

  lemma PollPreservesInv(p: Player, now: real, duration: real, decoded: Option<Frame>)
    requires p.pending.None?
    requires Inv(p)
    ensures Inv(Poll(p, now, duration, decoded))
  {
    if Due(Resync(p.nextFrame, now, duration), now) && decoded.Some? {
      PollDuePreservesInv(p, now, duration, decoded);
    } else {
      ClockPreservesInv(p, Resync(p.nextFrame, now, duration));
    }
  }

  lemma PollDuePreservesInv(p: Player, now: real, duration: real, decoded: Option<Frame>)
    requires p.pending.None?
    requires Inv(p)
    requires Due(Resync(p.nextFrame, now, duration), now) && decoded.Some?
    ensures Inv(Poll(p, now, duration, decoded))
  {
    var next := Advance(Resync(p.nextFrame, now, duration), duration);
    PollTakesPreservesInv(p, next, decoded.value);
    assert Poll(p, now, duration, decoded) == Deliver(TakeFrame(p, next, decoded.value));
  }

  lemma PollTakesPreservesInv(p: Player, nextFrame: Clock, f: Frame)
    requires p.pending.None?
    requires Inv(p)
    ensures Inv(Deliver(TakeFrame(p, nextFrame, f)))
  {
    TakeFramePreservesInv(p, nextFrame, f);
    DeliverPreservesInv(TakeFrame(p, nextFrame, f));
  }

  lemma TakeFramePreservesInv(p: Player, nextFrame: Clock, f: Frame)
    requires p.pending.None?
    requires Inv(p)
    ensures Inv(TakeFrame(p, nextFrame, f))
  {
    var w := TakeFrame(p, nextFrame, f);
    assert multiset(w.pulled) == multiset(p.pulled) + multiset{f};
  }

  lemma ClockPreservesInv(p: Player, nextFrame: Clock)
    requires Inv(p)
    ensures Inv(p.(nextFrame := nextFrame))
  {
  }

  lemma DeliverPreservesInv(p: Player)
    requires p.pending.Some?
    requires Inv(p)
    ensures Inv(Deliver(p))
  {
    var r := Deliver(p);
    if !DisplayQueueFull(p.queue) && !p.pending.value.IsNull() {
      assert r.pushed == r.popped + r.queue;
    }
  }

  /**
    After the seek-completed reset, the first tick at a time later than two
    frame rates resynchronises the clock to that time and takes a frame at once.
  */
  lemma SeekCompletedRestartsClock(p: Player, now: real, duration: real, f: Frame)
    requires duration > 0.0
    requires p.pending.None? && !p.seekRequested
    requires now > duration * 2.0
    ensures var r := Tick(SeekCompleted(p), now, duration, Some(f));
      r.nextFrame == At(now + 1.0 / duration) && r.pulled == p.pulled + [f]
  {
  }

  /**
    With a frame rate of 0, the first frame taken sends the clock to
    infinity; from then on no tick takes a frame, whatever the time, until
    a seek completes and resets the clock.
  */
  lemma ZeroRateStalls(p: Player, now: real, decoded: Option<Frame>)
    requires p.pending.None?
    ensures var r := Tick(p, now, 0.0, decoded);
      r.pulled != p.pulled ==> r.nextFrame == Never
  {
    TickClock(p, now, 0.0, decoded);
  }

  /** A clock at infinity is never due, so a tick takes no frame and leaves the clock there. */
  lemma StalledClockTakesNothing(p: Player, now: real, duration: real, decoded: Option<Frame>)
    requires p.pending.None? && p.nextFrame == Never
    ensures Tick(p, now, duration, decoded).pulled == p.pulled
    ensures Tick(p, now, duration, decoded).nextFrame == Never
  {
    TickClock(p, now, duration, decoded);
    assert ServiceSeek(p).nextFrame == Never;
  }

  // -------------------------------------------------------------- audio gain

  /** The gain read back from the player: the audio output's, or 1.0 without audio. */
  function AudioGain(p: Player): (g: real)
    ensures p.audioOut.None? ==> g == 1.0
    ensures p.audioOut.Some? ==> g == p.audioOut.value.gain
  {
    match p.audioOut
    case Some(ao) => ao.gain
    case None => 1.0
  }

  /** Setting the gain reaches the audio output when there is one and is dropped otherwise. */
  function SetAudioGain(p: Player, value: real): (r: Player)
    ensures r.audioOut.Some? <==> p.audioOut.Some?
    ensures r == p.(audioOut := r.audioOut)
  {
    match p.audioOut
    case Some(ao) => p.(audioOut := Some(ao.(gain := value)))
    case None => p
  }

  /** Reading the gain after setting it gives the value set, or 1.0 for a player without audio. */
  /** Setting the gain touches none of the frame bookkeeping, so it keeps `Inv`. */
  lemma SetAudioGainPreservesInv(p: Player, value: real)
    requires Inv(p)
    ensures Inv(SetAudioGain(p, value))
  {
  }

  lemma AudioGainRoundTrip(p: Player, value: real)
    ensures AudioGain(SetAudioGain(p, value)) == (if p.audioOut.Some? then value else 1.0)
  {
  }
}
