/*
  The game world's clock, pause counter, deterministic random numbers and
  the local control-packet loopback (Level and Level::AbstractClient in
  game/src/tank/Level.cpp).  Configuration variables and the global
  environment the source reads are passed in as a Settings value.
*/
module Level {
  import opened Wrappers
  import PassabilityField

  /** Side of one cell of the object grids, in world units. */
  const LOCATION_SIZE: int := 128
  /** Side of one passability cell, in world units. */
  const CELL_SIZE: int := 32
  /** Largest value of the game's random generator (the Microsoft C runtime value). */
  const RAND_MAX: int := 0x7FFF

  datatype GameType = Unset | Editor | Deathmatch | Intro

  /** The state a local player's controller reports for one step. */
  datatype ControlPacket = ControlPacket(state: nat)

  /** Configuration and environment values TimeStep reads: `sv_speed`
      (percent), `cl_dtwindow`, `sv_fps`, `cl_latency`, `cl_boost`,
      `sv_timelimit` (minutes) and the global pause counter. */
  datatype Settings = Settings(speed: real, dtWindow: int, fps: real, latency: int,
                               boost: real, timeLimit: int, envPause: int)

  /** Number of object-grid locations along a side of `cells` passability cells. */
  function LocationCount(cells: int): (n: int)
    requires cells >= 0
    ensures n >= 0
    ensures n * LOCATION_SIZE >= cells * CELL_SIZE
    ensures (n - 1) * LOCATION_SIZE < cells * CELL_SIZE || (cells == 0 && n == 0)
  {
    cells * CELL_SIZE / LOCATION_SIZE + (if (cells * CELL_SIZE) % LOCATION_SIZE != 0 then 1 else 0)
  }

  /** Next state of the linear congruential generator; `unsigned long` wraps modulo 2^32. */
  function NextSeed(seed: bv32): bv32
  {
    seed * 214013 + 2531011
  }

  /** The number net_rand returns once the generator has reached state `seed`. */
  function RandOf(seed: bv32): (r: int)
    ensures 0 <= r <= RAND_MAX
  {
    ((seed >> 16) & 0x7FFF) as int
  }

  /** The numbers `count` successive calls of net_rand return from state `seed`. */
  function RandStream(seed: bv32, count: nat): (rs: seq<int>)
    ensures |rs| == count
    ensures forall i :: 0 <= i < count ==> 0 <= rs[i] <= RAND_MAX
    decreases count
  {
    if count == 0 then [] else [RandOf(NextSeed(seed))] + RandStream(NextSeed(seed), count - 1)
  }

  /** Two levels seeded alike draw the same numbers; a stream splits at any point. */
  lemma {:induction false} RandStreamSplit(seed: bv32, m: nat, n: nat)
    ensures RandStream(seed, m + n) == RandStream(seed, m) + RandStream(SeedAfter(seed, m), n)
    decreases m
  {
    if m > 0 {
      RandStreamSplit(NextSeed(seed), m - 1, n);
    }
  }

  function SeedAfter(seed: bv32, count: nat): bv32
    decreases count
  {
    if count == 0 then seed else SeedAfter(NextSeed(seed), count - 1)
  }

  /** net_frand: a random number scaled into [0, max]. */
  function FRandOf(seed: bv32, max: real): (f: real)
    requires max >= 0.0
    ensures 0.0 <= f <= max
  {
    var q := RandOf(seed) as real / RAND_MAX as real;
    ScaleBelow(q, max);
    q * max
  }

  lemma ScaleBelow(q: real, max: real)
    requires 0.0 <= q <= 1.0 && max >= 0.0
    ensures 0.0 <= q * max <= max
  {
    assert max - q * max == (1.0 - q) * max;
  }

  /** The pause counter after PauseLocal(pause) and the PauseSound call it
      makes (Some(true): sounds stop, Some(false): sounds resume). */
  function PauseStep(count: int, envPause: int, pause: bool): (int, Option<bool>)
  {
    if pause then
      (count + 1, if count + envPause == 0 then Some(true) else None)
    else
      (count - 1, if count - 1 + envPause == 0 then Some(false) else None)
  }

  /** What the sound system does with a PauseSound command. */
  function ApplySound(paused: bool, cmd: Option<bool>): bool
  {
    match cmd
    case Some(p) => p
    case None => paused
  }

  /** Sounds are paused exactly while the local and global pause counters
      sum to a positive value, whichever way PauseLocal is called. */
  lemma PauseKeepsSoundInSync(count: int, envPause: int, paused: bool, pause: bool)
    requires paused == (count + envPause > 0)
    requires !pause ==> count + envPause > 0
    ensures var (c, cmd) := PauseStep(count, envPause, pause);
            ApplySound(paused, cmd) == (c + envPause > 0)
  {
  }

  /** Pausing then unpausing restores the counter, and the two sound
      commands cancel out. */
  lemma PauseRoundTrip(count: int, envPause: int)
    requires count + envPause >= 0
    ensures var (c1, cmd1) := PauseStep(count, envPause, true);
            var (c2, cmd2) := PauseStep(c1, envPause, false);
            c2 == count && (cmd1 == Some(true) <==> cmd2 == Some(false))
  {
  }

  function Sum(s: seq<real>): real
  {
    if |s| == 0 then 0.0 else Sum(s[..|s| - 1]) + s[|s| - 1]
  }

  lemma {:induction false} SumAtLeast(s: seq<real>, lo: real)
    requires forall i :: 0 <= i < |s| ==> lo <= s[i]
    ensures |s| as real * lo <= Sum(s)
  {
    if |s| > 0 {
      SumAtLeast(s[..|s| - 1], lo);
    }
  }

  lemma {:induction false} SumAtMost(s: seq<real>, hi: real)
    requires forall i :: 0 <= i < |s| ==> s[i] <= hi
    ensures Sum(s) <= |s| as real * hi
  {
    if |s| > 0 {
      SumAtMost(s[..|s| - 1], hi);
    }
  }

  /** The mean of the frame-time window is at least its smallest entry ... */
  lemma MeanAtLeast(s: seq<real>, lo: real)
    requires |s| > 0
    requires forall i :: 0 <= i < |s| ==> lo <= s[i]
    ensures lo <= Sum(s) / |s| as real
  {
    SumAtLeast(s, lo);
    var n := |s| as real;
    assert Sum(s) / n - lo == (Sum(s) - n * lo) / n;
  }

  /** ... and at most its largest. */
  lemma MeanAtMost(s: seq<real>, hi: real)
    requires |s| > 0
    requires forall i :: 0 <= i < |s| ==> s[i] <= hi
    ensures Sum(s) / |s| as real <= hi
  {
    SumAtMost(s, hi);
    var n := |s| as real;
    assert hi - Sum(s) / n == (n * hi - Sum(s)) / n;
  }

  /** The average of the frame times kept in the window, summed front to back. */
  method Mean(w: seq<real>) returns (mean: real)
    requires |w| > 0
    ensures mean == Sum(w) / |w| as real
  {
    var total := 0.0;
    var i := 0;
    while i < |w|
      invariant 0 <= i <= |w|
      invariant total == Sum(w[..i])
    {
      assert w[..i + 1][..i] == w[..i];
      total := total + w[i];
      i := i + 1;
    }
    assert w[..i] == w;
    mean := total / |w| as real;
  }

  /** The last `window` entries of `s` (all of it when shorter). */
  function LastN(s: seq<real>, window: int): (r: seq<real>)
    ensures |r| <= |s|
    ensures window >= 0 ==> |r| == if |s| <= window then |s| else window
    ensures forall i :: 0 <= i < |r| ==> r[i] == s[|s| - |r| + i]
  {
    if window < 0 || |s| <= window then (if window < 0 then [] else s) else s[|s| - window..]
  }

  /** Drops entries from the front of the deque until at most `window` remain. */
  method TrimToWindow(s: seq<real>, window: int) returns (w: seq<real>)
    requires window > 0
    ensures w == LastN(s, window)
  {
    w := s;
    while |w| > window
      invariant |w| <= |s| && w == s[|s| - |w|..]
      invariant |w| < |s| ==> |w| >= window
      decreases |w|
    {
      w := w[1..];
    }
  }

  /** A queue of control-packet vectors sent and received in order; the
      local game's stand-in for the network. */
  class AbstractClient {
    var queue: seq<seq<ControlPacket>>

    constructor ()
      ensures queue == []
    {
      queue := [];
    }

    method Send(ctrl: seq<ControlPacket>)
      modifies this
      ensures queue == old(queue) + [ctrl]
    {
      queue := queue + [ctrl];
    }

    method Recv() returns (ok: bool, result: seq<ControlPacket>)
      modifies this
      ensures ok == (old(queue) != [])
      ensures ok ==> result == old(queue)[0] && queue == old(queue)[1..]
      ensures !ok ==> queue == old(queue)
    {
      if queue != [] {
        result := queue[0];
        queue := queue[1..];
        ok := true;
      } else {
        result := [];
        ok := false;
      }
    }

    method Reset()
      modifies this
      ensures queue == []
    {
      queue := [];
    }
  }

  /** One operation on the loopback queue. */
  datatype QueueOp = SendOp(ctrl: seq<ControlPacket>) | RecvOp

  /** The queue and the vectors received after running `ops` on `queue`. */
  function RunQueue(queue: seq<seq<ControlPacket>>, ops: seq<QueueOp>): (seq<seq<ControlPacket>>, seq<seq<ControlPacket>>)
  {
    if |ops| == 0 then (queue, [])
    else
      var (q, got) := RunQueue(queue, ops[..|ops| - 1]);
      match ops[|ops| - 1]
      case SendOp(c) => (q + [c], got)
      case RecvOp => if q == [] then (q, got) else (q[1..], got + [q[0]])
  }

  function Sent(ops: seq<QueueOp>): seq<seq<ControlPacket>>
  {
    if |ops| == 0 then []
    else Sent(ops[..|ops| - 1]) + (match ops[|ops| - 1] case SendOp(c) => [c] case RecvOp => [])
  }

  /** The loopback is first-in first-out: what was received followed by
      what is still queued is what was queued followed by what was sent. */
  lemma {:induction false} RunQueueFifo(queue: seq<seq<ControlPacket>>, ops: seq<QueueOp>)
    ensures RunQueue(queue, ops).1 + RunQueue(queue, ops).0 == queue + Sent(ops)
  {
    if |ops| > 0 {
      var init := ops[..|ops| - 1];
      RunQueueFifo(queue, init);
      var (q, got) := RunQueue(queue, init);
      match ops[|ops| - 1]
      case SendOp(c) =>
        assert Sent(ops) == Sent(init) + [c];
        assert got + (q + [c]) == (got + q) + [c];
      case RecvOp =>
        assert Sent(ops) == Sent(init);
        if q != [] {
          assert got + q == got + [q[0]] + q[1..];
        }
    }
  }

  class Level {
    var steps: nat
    var pause: int
    var time: real
    var timeBuffer: real
    var droppedFrames: real
    var limitHit: bool
    var frozen: bool
    var modeEditor: bool
    var ctrlSentCount: int
    var locationsX: int
    var locationsY: int
    var sx: real
    var sy: real
    var seed: bv32
    var gameType: GameType
    /** Recent frame times for the `cl_dtwindow` filter. */
    var dts: seq<real>
    /** The controls most recently handed to the players by Step. */
    var applied: seq<ControlPacket>
    /** Whether the sound system is paused (the effect of PauseSound). */
    var soundPaused: bool
    const field: PassabilityField.Field
    const client: AbstractClient

    /** In a local game every control vector counted as sent is still waiting in the loopback. */
    ghost predicate Valid()
      reads this, field, field.cells, client
    {
      field.Valid() && ctrlSentCount == |client.queue|
      && forall i :: 0 <= i < |dts| ==> dts[i] >= 0.0
    }

    constructor ()
      ensures Valid() && fresh(field) && fresh(client)
      ensures steps == 0 && pause == 0 && time == 0.0 && timeBuffer == 0.0 && seed == 1
      ensures !limitHit && !frozen && ctrlSentCount == 0 && gameType == Unset
      ensures locationsX == 0 && locationsY == 0 && field.cells == null
    {
      steps, pause, time, timeBuffer, droppedFrames := 0, 0, 0.0, 0.0, 0.0;
      limitHit, frozen, modeEditor := false, false, false;
      ctrlSentCount := 0;
      locationsX, locationsY, sx, sy := 0, 0, 0.0, 0.0;
      seed := 1;
      gameType := Unset;
      dts, applied := [], [];
      soundPaused := false;
      field := new PassabilityField.Field();
      client := new AbstractClient();
    }

    /** Resets the per-game variables (objects are destroyed elsewhere). */
    method Clear()
      requires Valid()
      modifies this`ctrlSentCount, this`modeEditor, this`pause, this`time, this`timeBuffer
      modifies this`limitHit, this`frozen, this`gameType, this`droppedFrames, client
      ensures Valid()
      ensures ctrlSentCount == 0 && pause == 0 && time == 0.0 && timeBuffer == 0.0 && droppedFrames == 0.0
      ensures !modeEditor && !limitHit && !frozen && gameType == Unset && client.queue == []
      ensures seed == old(seed) && locationsX == old(locationsX) && locationsY == old(locationsY)
    {
      ctrlSentCount := 0;
      modeEditor := false;
      pause := 0;
      time := 0.0;
      timeBuffer := 0.0;
      limitHit := false;
      frozen := false;
      gameType := Unset;
      droppedFrames := 0.0;
      client.Reset();
    }

    /** Sizes the level to X by Y passability cells: the location counts the
        object grids are sized to (a fresh Actor.Grid of that size stands for
        each of them) and a passability field one cell larger. */
    method Resize(X: int, Y: int)
      requires Valid() && X >= 0 && Y >= 0
      modifies this, field
      ensures Valid()
      ensures locationsX == LocationCount(X) && locationsY == LocationCount(Y)
      ensures sx == (X * CELL_SIZE) as real && sy == (Y * CELL_SIZE) as real
      ensures field.cx == X + 1 && field.cy == Y + 1 && field.cells != null
      ensures forall y, x :: 0 <= y < field.cy && 0 <= x < field.cx ==> field.cells[y, x].objects == []
      ensures ctrlSentCount == old(ctrlSentCount) && client.queue == old(client.queue)
    {
      locationsX := LocationCount(X);
      locationsY := LocationCount(Y);
      sx := (X * CELL_SIZE) as real;
      sy := (Y * CELL_SIZE) as real;
      field.Resize(X + 1, Y + 1);
    }

    /** Raises (`p`) or lowers the local pause counter, stopping sounds when
        the game becomes paused and resuming them when it resumes. */
    method PauseLocal(p: bool, envPause: int) returns (soundCmd: Option<bool>)
      requires !p ==> pause + envPause > 0
      modifies this`pause, this`soundPaused
      ensures (pause, soundCmd) == PauseStep(old(pause), envPause, p)
      ensures soundPaused == ApplySound(old(soundPaused), soundCmd)
    {
      soundCmd := None;
      if p {
        if pause + envPause == 0 {
          soundCmd := Some(true);
          soundPaused := true;
        }
        pause := pause + 1;
      } else {
        pause := pause - 1;
        if pause + envPause == 0 {
          soundCmd := Some(false);
          soundPaused := false;
        }
      }
    }

    /** net_rand: advances the generator and returns bits 16..30 of its state. */
    method NetRand() returns (r: int)
      modifies this`seed
      ensures seed == NextSeed(old(seed))
      ensures r == RandOf(seed) && 0 <= r <= RAND_MAX
    {
      seed := NextSeed(seed);
      r := RandOf(seed);
    }

    /** Ends the round once the time limit is reached. */
    method HitLimit(envPause: int)
      requires !limitHit
      modifies this`pause, this`soundPaused, this`limitHit
      ensures limitHit && pause == old(pause) + 1
      ensures soundPaused == (old(pause) + envPause == 0 || old(soundPaused))
    {
      var _ := PauseLocal(true, envPause);
      limitHit := true;
    }

    /** The time-limit check at the end of a frame: the round ends once the
        level time reaches `sv_timelimit` minutes. */
    method EndRoundIfDue(s: Settings)
      requires !limitHit
      modifies this`pause, this`soundPaused, this`limitHit
      ensures limitHit == (s.timeLimit != 0 && (s.timeLimit * 60) as real <= time)
      ensures pause == old(pause) + (if limitHit then 1 else 0)
      ensures soundPaused == (old(soundPaused) || (limitHit && old(pause) + s.envPause == 0))
    {
      if s.timeLimit != 0 && (s.timeLimit * 60) as real <= time {
        HitLimit(s.envPause);
      }
    }

    /** One fixed simulation step with the controls `ctrl`. */
    method Step(ctrl: seq<ControlPacket>, dt: real)
      modifies this`steps, this`time, this`timeBuffer, this`droppedFrames, this`applied
      ensures steps == old(steps) + 1
      ensures time == old(time) + dt && timeBuffer == old(timeBuffer) - dt
      ensures droppedFrames == (if old(droppedFrames) - dt > 0.0 then old(droppedFrames) - dt else 0.0)
      ensures applied == (if frozen then old(applied) else ctrl)
    {
      steps := steps + 1;
      time := time + dt;
      timeBuffer := timeBuffer - dt;
      droppedFrames := if droppedFrames - dt > 0.0 then droppedFrames - dt else 0.0;
      if !frozen {
        applied := ctrl;
      }
    }

    /** The `cl_dtwindow` filter: appends the frame time, keeps the last
        `window` entries and returns their mean. */
    method FilterDt(dt: real, window: int) returns (mean: real)
      requires Valid() && window > 1 && dt >= 0.0
      modifies this`dts
      ensures Valid()
      ensures dts == LastN(old(dts) + [dt], window) && |dts| > 0
      ensures mean == Sum(dts) / |dts| as real && mean >= 0.0
    {
      var w := TrimToWindow(dts + [dt], window);
      assert forall i :: 0 <= i < |w| ==> w[i] >= 0.0 by {
        assert forall i :: 0 <= i < |dts + [dt]| ==> (dts + [dt])[i] >= 0.0;
      }
      MeanAtLeast(w, 0.0);
      dts := w;
      mean := Mean(w);
    }

    /** Hands the local players' controls to the loopback while at most
        `cl_latency` vectors are in flight. */
    method SendLocal(localCtrl: seq<ControlPacket>, latency: int)
      requires Valid()
      modifies this`ctrlSentCount, client
      ensures Valid()
      ensures ctrlSentCount == old(ctrlSentCount) + (if old(ctrlSentCount) <= latency then 1 else 0)
      ensures client.queue == if old(ctrlSentCount) <= latency then old(client.queue) + [localCtrl] else old(client.queue)
    {
      if ctrlSentCount <= latency {
        client.Send(localCtrl);
        ctrlSentCount := ctrlSentCount + 1;
      }
    }

    /** Adds the frame time (times `cl_boost`) to the time buffer, capped at
        two fixed steps, and runs one step with the oldest waiting vector
        when the buffer is positive. */
    method ConsumeBuffer(dt: real, boost: real, fps: real) returns (stepped: bool)
      requires Valid() && fps > 0.0 && dt >= 0.0
      modifies this`timeBuffer, this`ctrlSentCount, this`steps, this`time, this`droppedFrames, this`applied, client
      ensures Valid()
      ensures timeBuffer <= 2.0 / fps
      ensures stepped == (old(client.queue) != [] && old(timeBuffer) + dt * boost > 0.0)
      ensures stepped ==> time == old(time) + dt && client.queue == old(client.queue)[1..]
                          && (!frozen ==> applied == old(client.queue)[0])
      ensures !stepped ==> time == old(time) && client.queue == old(client.queue) && applied == old(applied)
      ensures ctrlSentCount == old(ctrlSentCount) - (if stepped then 1 else 0)
      ensures timeBuffer == (if old(timeBuffer) + dt * boost < 2.0 / fps then old(timeBuffer) + dt * boost else 2.0 / fps)
                            - (if stepped then dt else 0.0)
      ensures steps == old(steps) + (if stepped then 1 else 0)
      ensures droppedFrames == if stepped && old(droppedFrames) - dt > 0.0 then old(droppedFrames) - dt
                               else if stepped then 0.0 else old(droppedFrames)
    {
      var buffered := timeBuffer + dt * boost;
      timeBuffer := if buffered < 2.0 / fps then buffered else 2.0 / fps;
      stepped := false;
      if timeBuffer > 0.0 {
        var ok, cpv := client.Recv();
        if ok {
          Step(cpv, dt);
          ctrlSentCount := ctrlSentCount - 1;
          stepped := true;
        }
      }
    }

    /** One frame of a local game: filters the frame time, sends the local
        players' controls while fewer than `cl_latency` + 1 vectors are in
        flight, and runs one simulation step when the time buffer allows and
        a vector is waiting.  Returns whether it stepped. */
    method TimeStep(frameDt: real, s: Settings, localCtrl: seq<ControlPacket>) returns (stepped: bool)
      requires Valid()
      requires !((s.envPause + pause > 0 && gameType != Intro) || limitHit) ==>
                 s.fps > 0.0 && frameDt * s.speed / 100.0 >= 0.0 && !modeEditor
      modifies this, client
      ensures Valid()
      ensures (old(s.envPause + pause > 0 && gameType != Intro) || old(limitHit)) ==>
                !stepped && time == old(time) && client.queue == old(client.queue) && pause == old(pause)
      ensures !(old(s.envPause + pause > 0 && gameType != Intro) || old(limitHit)) ==>
                timeBuffer <= 2.0 / s.fps && steps == 0
                && ctrlSentCount <= (if old(ctrlSentCount) > s.latency + 1 then old(ctrlSentCount) else s.latency + 1)
      ensures !stepped ==> time == old(time)
      ensures stepped ==> time >= old(time)
      ensures stepped && !frozen ==>
                var q := if old(ctrlSentCount) <= s.latency then old(client.queue) + [localCtrl] else old(client.queue);
                |q| > 0 && applied == q[0]
      ensures !(old(s.envPause + pause > 0 && gameType != Intro) || old(limitHit)) ==>
                limitHit == (s.timeLimit != 0 && (s.timeLimit * 60) as real <= time)
                && pause == old(pause) + (if limitHit then 1 else 0)
                && soundPaused == (old(soundPaused) || (limitHit && old(pause) + s.envPause == 0))
    {
      stepped := false;
      if (s.envPause + pause > 0 && gameType != Intro) || limitHit {
        return;
      }
      stepped := RunFrame(frameDt * s.speed / 100.0, s, localCtrl);
    }

    /** The part of TimeStep past the pause and time-limit check, on the frame
        time `dt` already scaled by `sv_speed`. */
    method RunFrame(dt: real, s: Settings, localCtrl: seq<ControlPacket>) returns (stepped: bool)
      requires Valid() && !limitHit
      requires s.fps > 0.0 && dt >= 0.0
      modifies this, client
      ensures Valid()
      ensures timeBuffer <= 2.0 / s.fps && steps == 0
      ensures ctrlSentCount <= (if old(ctrlSentCount) > s.latency + 1 then old(ctrlSentCount) else s.latency + 1)
      ensures !stepped ==> time == old(time)
      ensures stepped ==> time >= old(time)
      ensures stepped && !frozen ==>
                var q := if old(ctrlSentCount) <= s.latency then old(client.queue) + [localCtrl] else old(client.queue);
                |q| > 0 && applied == q[0]
      ensures limitHit == (s.timeLimit != 0 && (s.timeLimit * 60) as real <= time)
      ensures pause == old(pause) + (if limitHit then 1 else 0)
      ensures soundPaused == (old(soundPaused) || (limitHit && old(pause) + s.envPause == 0))
    {
      var step := dt;
      if s.dtWindow > 1 {
        step := FilterDt(dt, s.dtWindow);
      }
      ghost var q := if ctrlSentCount <= s.latency then client.queue + [localCtrl] else client.queue;
      SendLocal(localCtrl, s.latency);
      assert client.queue == q;
      stepped := ConsumeBuffer(step, s.boost, s.fps);
      assert stepped && !frozen ==> |q| > 0 && applied == q[0];
      EndRoundIfDue(s);
      steps := 0;
    }
  }
}
