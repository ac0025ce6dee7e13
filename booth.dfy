/**
 * The photo booth's session state machine (booth.py, class BoothView): the
 * top-level states, the timed shoot sequence, the per-tick event dispatch of
 * the main loop, and the hand-over of the strip to the mailer. Rendering,
 * the camera, the text prompt and the wall clock are outside the model: each
 * tick receives the clock reading `now`, the polled events, the address the
 * prompt returned, and the size the image decoder reports for each capture.
 */
module Booth {
  import opened Wrappers
  import opened Phases
  import opened Geometry
  import opened Naming
  import opened Strip
  import opened EmailPolicy
  import opened Events

  /** Seconds the 'Get Ready!' prompt stays up (booth.py:33). */
  const ReadyWait: int := 5
  /** Seconds between 3, 2, 1 (booth.py:34). */
  const CountdownWait: int := 1
  /** Photos per session (booth.py:35). */
  const ShotCount: int := 3
  /** Frame rate while shooting (booth.py:294). */
  const ShootingFps: int := 60

  /** The top-level states (booth.py:39-44); `Quit` is declared there but never entered. */
  datatype BoothState = Waiting | Shooting | Email | Thanks | Quit

  /** The address and strip file handed to the background mailer. */
  datatype Dispatch = Dispatch(address: string, path: string)

  /** What the main loop reads in one iteration. */
  datatype TickInput = TickInput(now: int, events: seq<Event>, entered: Option<string>)

  /**
   * How long a shooting phase lasts, given how many photos the session has
   * taken: the long prompt before the first countdown, the doubled wait after
   * a shot (time for the camera), the short wait otherwise.
   */
  function PhaseWait(phase: ShootPhase, taken: int): int
  {
    match phase
    case GetReady => ReadyWait
    case CountdownThree => if taken > 0 then 2 * CountdownWait else CountdownWait
    case _ => CountdownWait
  }

  /**
   * The state a running tick that began in `from` leaves behind: waiting
   * stays waiting unless a start event arrives (a session just started does
   * not move within its own tick), shooting stays or moves on to email, email
   * goes to thanks and thanks back to waiting.
   */
  ghost predicate MayFollow(from: BoothState, input: TickInput, to: BoothState)
  {
    match from
    case Waiting => to == (if AnyStart(input.events) then Shooting else Waiting)
    case Shooting => to == Shooting || to == Email
    case Email => to == Thanks
    case Thanks => to == Waiting
    case Quit => false
  }

  /** How many of the ticks, given the state each began in, left thanks: each starts a new session number. */
  ghost function ThanksLeft(inputs: seq<TickInput>, began: seq<BoothState>): nat
    requires |began| <= |inputs|
    decreases |began|
  {
    if began == [] then 0
    else
      var j := |began| - 1;
      ThanksLeft(inputs, began[..j])
        + (if began[j] == Thanks && !AnyStop(inputs[j].events) then 1 else 0)
  }

  /**
   * What the mailer is handed over the ticks, given the state each began in
   * and the session number the run started with: every running tick that
   * began in email and got an address the policy accepts hands over that
   * address and the strip of the session current at that tick.
   */
  ghost function Mailed(pid: nat, session: nat, inputs: seq<TickInput>, began: seq<BoothState>): seq<Dispatch>
    requires |began| <= |inputs|
    decreases |began|
  {
    if began == [] then []
    else
      var j := |began| - 1;
      Mailed(pid, session, inputs, began[..j])
        + (if began[j] == Email && !AnyStop(inputs[j].events) && ShouldSend(inputs[j].entered)
           then [Dispatch(inputs[j].entered.value, StripFileName(pid, session + ThanksLeft(inputs, began[..j])))]
           else [])
  }

  /** Appending the name of the next number to a list of numbered names keeps it numbered. */
  lemma AppendNumbered(names: seq<string>, nameOf: nat -> string)
    requires forall k :: 0 <= k < |names| ==> names[k] == nameOf(k)
    ensures forall k :: 0 <= k <= |names| ==> (names + [nameOf(|names|)])[k] == nameOf(k)
  {
  }

  /** Every address a run hands to the mailer passed the policy. */
  lemma {:induction false} MailedPassPolicy(pid: nat, session: nat, inputs: seq<TickInput>, began: seq<BoothState>)
    requires |began| <= |inputs|
    ensures forall d :: d in Mailed(pid, session, inputs, began) ==> ShouldSend(Some(d.address))
    decreases |began|
  {
    if began != [] {
      var j := |began| - 1;
      MailedPassPolicy(pid, session, inputs, began[..j]);
    }
  }

  /** Extending the trace by one tick extends the mail and the session count by that tick's share. */
  lemma TraceStep(pid: nat, session: nat, inputs: seq<TickInput>, began: seq<BoothState>, from: BoothState)
    requires |began| < |inputs|
    ensures var j, trace := |began|, began + [from];
      && ThanksLeft(inputs, trace)
         == ThanksLeft(inputs, began) + (if from == Thanks && !AnyStop(inputs[j].events) then 1 else 0)
      && Mailed(pid, session, inputs, trace)
         == Mailed(pid, session, inputs, began)
            + (if from == Email && !AnyStop(inputs[j].events) && ShouldSend(inputs[j].entered)
               then [Dispatch(inputs[j].entered.value, StripFileName(pid, session + ThanksLeft(inputs, began)))]
               else [])
  {
    var j, trace := |began|, began + [from];
    assert trace[..j] == began && trace[j] == from;
    assert ThanksLeft(inputs, trace)
      == ThanksLeft(inputs, began) + (if from == Thanks && !AnyStop(inputs[j].events) then 1 else 0);
  }

  /**
   * Where a run stands after `|began|` ticks of `inputs`, started in `start`
   * with session number `session`: `began` records the state each tick began
   * in; every tick but the last ran, and `running` says whether the last did;
   * each tick left the state the next one began in, as `MayFollow` allows,
   * and a last tick that ran left `now`; the mailer has been handed exactly
   * `Mailed`, and the session number is `sessionNow`.
   */
  ghost predicate RunSoFar(pid: nat, inputs: seq<TickInput>, start: BoothState, session: nat,
                           began: seq<BoothState>, running: bool, now: BoothState, sessionNow: nat,
                           dispatches: seq<Dispatch>)
  {
    && |began| <= |inputs|
    && (forall j {:trigger inputs[j]} :: 0 <= j < |began| - 1 ==> !AnyStop(inputs[j].events))
    && running == (began == [] || !AnyStop(inputs[|began| - 1].events))
    && (began == [] ==> now == start)
    && (began != [] ==> began[0] == start)
    && (forall j {:trigger inputs[j]} :: 0 <= j < |began| - 1 ==> MayFollow(began[j], inputs[j], began[j + 1]))
    && (began != [] && running ==> MayFollow(began[|began| - 1], inputs[|began| - 1], now))
    && dispatches == Mailed(pid, session, inputs, began)
    && sessionNow == session + ThanksLeft(inputs, began)
  }

  /**
   * One more tick that began in `from`, ran exactly when its events hold no
   * stop, left `to` as `MayFollow` allows, handed over at most the dispatch
   * for the current session's strip and moved the session number on only
   * when leaving thanks, extends where the run stands by that tick.
   */
  lemma RunSoFarStep(pid: nat, inputs: seq<TickInput>, start: BoothState, session: nat,
                     began: seq<BoothState>, from: BoothState, sessionNow: nat, dispatches: seq<Dispatch>,
                     running: bool, to: BoothState, sessionNext: nat, dispatch: Option<Dispatch>)
    requires RunSoFar(pid, inputs, start, session, began, true, from, sessionNow, dispatches)
    requires |began| < |inputs|
    requires running == !AnyStop(inputs[|began|].events)
    requires running ==> MayFollow(from, inputs[|began|], to)
    requires dispatch == (if running && from == Email && ShouldSend(inputs[|began|].entered)
                          then Some(Dispatch(inputs[|began|].entered.value, StripFileName(pid, sessionNow)))
                          else None)
    requires sessionNext == sessionNow + (if running && from == Thanks then 1 else 0)
    ensures RunSoFar(pid, inputs, start, session, began + [from], running, to, sessionNext,
                     dispatches + (if dispatch.Some? then [dispatch.value] else []))
  {
    TraceStep(pid, session, inputs, began, from);
    var trace := began + [from];
    assert forall j :: 0 <= j < |began| ==> trace[j] == began[j];
  }

  class BoothView {
    var state: BoothState
    var shootPhase: ShootPhase
    var phaseStart: int
    var countdown: int
    var shotsLeft: int
    var shotCounter: nat
    var sessionCounter: nat
    var images: seq<string>
    var fps: int
    const baseFps: int
    const pid: nat

    /**
     * The session invariant: photos taken plus photos left is always the
     * quota, a session that is shooting still has a photo to take, the shot
     * counter numbers the photos of the current session, each photo is named
     * after its session and position, and the current phase's wait is the one
     * its place in the sequence calls for.
     */
    ghost predicate Valid()
      reads this
    {
      && state != Quit
      && sessionCounter >= 1
      && 0 <= shotsLeft <= ShotCount
      && |images| + shotsLeft == ShotCount
      && (state == Shooting ==> shotsLeft > 0)
      && (state == Email || state == Thanks ==> shotsLeft == 0)
      && (state == Waiting ==> shotCounter == 0 && fps == baseFps)
      && (state != Waiting ==> shotCounter == |images| && fps == ShootingFps)
      && (state != Waiting ==>
            forall k :: 0 <= k < |images| ==> images[k] == CaptureFileName(pid, sessionCounter, k))
      && (state == Shooting ==> countdown == PhaseWait(shootPhase, |images|))
      && (state == Shooting && shootPhase == GetReady ==> images == [])
    }

    /** The state switch_state leaves behind when it starts a session at `now`. */
    ghost predicate StartedAt(now: int)
      reads this
    {
      && state == Shooting && shootPhase == GetReady && countdown == ReadyWait
      && shotsLeft == ShotCount && images == [] && phaseStart == now && fps == ShootingFps
    }

    /**
     * What shoot_state did between the state before and the state now, at
     * clock `now`. Nothing changes unless `now` is strictly past the phase's
     * start plus its wait. Then a countdown phase moves to the next phase with
     * the short wait; the shoot phase captures one photo, named after the
     * session and shot, appends it, counts it, and goes back to three with a
     * doubled wait, or on to the email state once the quota is met.
     */
    twostate predicate ShootStepped(now: int)
      reads this
    {
      && (now <= old(phaseStart) + old(countdown) ==> unchanged(this))
      && (now > old(phaseStart) + old(countdown) && old(shootPhase) != Shoot ==>
            && state == Shooting && shootPhase == Next(old(shootPhase))
            && countdown == CountdownWait && phaseStart == now
            && images == old(images) && shotsLeft == old(shotsLeft) && shotCounter == old(shotCounter)
            && sessionCounter == old(sessionCounter) && fps == old(fps))
      && (now > old(phaseStart) + old(countdown) && old(shootPhase) == Shoot ==> ShotTaken(now))
    }

    /**
     * What a shot did at clock `now`: the photo, named after the session and
     * shot, is appended and counted, one is taken from the quota, and the
     * sequence goes back to three with a doubled wait, or on to the email
     * state once the quota is used up.
     */
    twostate predicate ShotTaken(now: int)
      reads this
    {
      && images == old(images) + [CaptureFileName(pid, sessionCounter, old(shotCounter))]
      && shotsLeft == old(shotsLeft) - 1 && shotCounter == old(shotCounter) + 1
      && shootPhase == CountdownThree && countdown == 2 * CountdownWait && phaseStart == now
      && state == (if shotsLeft == 0 then Email else Shooting)
      && sessionCounter == old(sessionCounter) && fps == old(fps)
    }

    /**
     * What collect_email did between the state before and the state now: the
     * strip holds exactly the session's three photos, in the order they were
     * taken, each placed as generate_strip places it, and is saved under the
     * session's strip name; the address and strip go to the mailer exactly
     * when the policy accepts the address; the booth is in thanks and nothing
     * else changed.
     */
    twostate predicate EmailCollected(entered: Option<string>, sizeOf: string -> Dims,
                                      new strip: StripJob, new dispatch: Option<Dispatch>)
      reads this
    {
      && state == Thanks
      && shootPhase == old(shootPhase) && countdown == old(countdown) && phaseStart == old(phaseStart)
      && shotsLeft == old(shotsLeft) && shotCounter == old(shotCounter) && images == old(images)
      && sessionCounter == old(sessionCounter) && fps == old(fps)
      && strip.path == StripFileName(pid, sessionCounter)
      && |images| == ShotCount && |strip.placements| == ShotCount
      && (forall k :: 0 <= k < ShotCount ==>
            && images[k] == CaptureFileName(pid, sessionCounter, k)
            && Positive(sizeOf(images[k]))
            && strip.placements[k] == Place(images[k], sizeOf(images[k]), SlotPositions[k]))
      && (dispatch.Some? <==> ShouldSend(entered))
      && (dispatch.Some? ==> dispatch.value == Dispatch(entered.value, strip.path))
    }

    /** The image decoder reports a positive size for every file this booth can capture. */
    ghost predicate CapturesDecode(sizeOf: string -> Dims)
    {
      forall session: nat, shot: nat :: Positive(sizeOf(CaptureFileName(pid, session, shot)))
    }

    /** BoothView.__init__ without the display and camera set-up (booth.py:84-102). */
    constructor (fps: int, pid: nat, now: int)
      ensures Valid()
      ensures state == Waiting && shootPhase == GetReady && phaseStart == now && countdown == ReadyWait
      ensures shotsLeft == ShotCount && shotCounter == 0 && sessionCounter == 1 && images == []
      ensures this.fps == fps && baseFps == fps && this.pid == pid
    {
      baseFps := fps;
      this.fps := fps;
      countdown := ReadyWait;
      state := Waiting;
      shootPhase := GetReady;
      phaseStart := now;
      shotsLeft := ShotCount;
      shotCounter := 0;
      sessionCounter := 1;
      images := [];
      this.pid := pid;
    }

    /**
     * switch_state (booth.py:290-305): entering shooting resets the sequence
     * and the session's photos, entering waiting restores the idle frame rate,
     * and only leaving thanks starts a new session number.
     */
    method SwitchState(target: BoothState, now: int)
      modifies this
      ensures state == target
      ensures target == Shooting ==> StartedAt(now)
      ensures target != Shooting ==>
        && shootPhase == old(shootPhase) && countdown == old(countdown) && phaseStart == old(phaseStart)
        && shotsLeft == old(shotsLeft) && images == old(images)
        && fps == (if target == Waiting then baseFps else old(fps))
      ensures old(state) == Thanks ==> shotCounter == 0 && sessionCounter == old(sessionCounter) + 1
      ensures old(state) != Thanks ==> shotCounter == old(shotCounter) && sessionCounter == old(sessionCounter)
    {
      if target == Shooting {
        countdown := ReadyWait;
        fps := ShootingFps;
        shootPhase := GetReady;
        shotsLeft := ShotCount;
        images := [];
        phaseStart := now;
      } else if target == Waiting {
        fps := baseFps;
      }
      if state == Thanks {
        shotCounter := 0;
        sessionCounter := sessionCounter + 1;
      }
      state := target;
    }

    /**
     * The event loop of run (booth.py:107-118): every polled event is looked
     * at; a quit or Escape ends the loop (later events are still handled), and
     * Return or the button starts a session only while waiting.
     */
    method HandleEvents(events: seq<Event>, now: int) returns (running: bool)
      requires Valid()
      modifies this
      ensures Valid()
      ensures running == !AnyStop(events)
      ensures old(state) == Waiting && AnyStart(events) ==>
        StartedAt(now) && shotCounter == old(shotCounter) && sessionCounter == old(sessionCounter)
      ensures !(old(state) == Waiting && AnyStart(events)) ==> unchanged(this)
    {
      running := true;
      var i := 0;
      while i < |events|
        invariant 0 <= i <= |events|
        invariant Valid()
        invariant running == !AnyStop(events[..i])
        invariant old(state) == Waiting && AnyStart(events[..i]) ==>
          StartedAt(now) && shotCounter == old(shotCounter) && sessionCounter == old(sessionCounter)
        invariant !(old(state) == Waiting && AnyStart(events[..i])) ==> unchanged(this)
      {
        var e := events[i];
        match e {
          case QuitEvent =>
            running := false;
          case KeyDown(key) =>
            if key == Escape {
              running := false;
            } else if key == Return && state == Waiting {
              SwitchState(Shooting, now);
            }
          case UserEvent(action) =>
            if action == ButtonPressed && state == Waiting {
              SwitchState(Shooting, now);
            }
          case OtherEvent =>
        }
        assert events[..i + 1] == events[..i] + [e];
        i := i + 1;
      }
      assert events[..i] == events;
    }

    /** shoot_state (booth.py:142-164), with the effect `ShootStepped` describes. */
    method ShootState(now: int)
      requires Valid() && state == Shooting
      modifies this
      ensures Valid()
      ensures ShootStepped(now)
    {
      var frameTime := now;
      if frameTime > phaseStart + countdown {
        if shootPhase != Shoot {
          phaseStart := now;
          countdown := CountdownWait;
          shootPhase := Next(shootPhase);
        } else {
          TakeShot(now);
        }
      }
    }

    /**
     * The shoot phase of shoot_state once its wait is over (booth.py:146,
     * 150-163): capture the session's next photo, count it, and go back to
     * three, or on to the email state once the quota is used up. A shooting
     * session always has a photo left, so the `shots_left` test never fails.
     */
    method TakeShot(now: int)
      requires Valid() && state == Shooting && shootPhase == Shoot
      modifies this
      ensures Valid()
      ensures ShotTaken(now)
    {
      phaseStart := now;
      if shotsLeft != 0 {
        var filename := CaptureFileName(pid, sessionCounter, shotCounter);
        var session := sessionCounter;
        AppendNumbered(images, (k: nat) => CaptureFileName(pid, session, k));
        images := images + [filename];
        shotCounter := shotCounter + 1;
        shotsLeft := shotsLeft - 1;
        shootPhase := Next(shootPhase);
        countdown := CountdownWait * 2;
        if shotsLeft == 0 {
          SwitchState(Email, now);
        }
      }
    }

    /**
     * collect_email (booth.py:170-195): composite the strip from this
     * session's photos, take the address the prompt returned, hand address and
     * strip to the mailer if the policy accepts the address, and go to thanks,
     * with the effect `EmailCollected` describes. The invariant guarantees the
     * strip gets exactly the session's photos, in the order they were taken.
     */
    method CollectEmail(now: int, entered: Option<string>, sizeOf: string -> Dims)
      returns (strip: StripJob, dispatch: Option<Dispatch>)
      requires Valid() && state == Email
      requires forall k :: 0 <= k < |images| ==> Positive(sizeOf(images[k]))
      modifies this
      ensures Valid()
      ensures EmailCollected(entered, sizeOf, strip, dispatch)
    {
      var generated := GenerateStrip(images, sizeOf, pid, sessionCounter);
      strip := generated.value;
      var sendEmail := ShouldSend(entered);
      if sendEmail {
        dispatch := Some(Dispatch(entered.value, strip.path));
      } else {
        dispatch := None;
      }
      SwitchState(Thanks, now);
    }

    /**
     * The state half of one iteration of run (booth.py:121-129): waiting only
     * renders, shooting runs the shoot step, email collects the address, and
     * thanks goes straight back to waiting.
     */
    method Step(now: int, entered: Option<string>, sizeOf: string -> Dims)
      returns (strip: Option<StripJob>, dispatch: Option<Dispatch>)
      requires Valid()
      requires CapturesDecode(sizeOf)
      modifies this
      ensures Valid()
      ensures old(state) == Waiting ==> unchanged(this)
      ensures old(state) == Shooting ==> ShootStepped(now)
      ensures old(state) == Email ==> strip.Some? && EmailCollected(entered, sizeOf, strip.value, dispatch)
      ensures old(state) != Email ==> strip == None && dispatch == None
      ensures old(state) == Thanks ==>
        && state == Waiting && fps == baseFps && shotCounter == 0 && images == old(images)
        && shootPhase == old(shootPhase) && countdown == old(countdown) && phaseStart == old(phaseStart)
        && shotsLeft == old(shotsLeft)
      ensures sessionCounter == old(sessionCounter) + (if old(state) == Thanks then 1 else 0)
    {
      strip, dispatch := None, None;
      if state == Waiting {
        // wait_state only draws the dimmed preview and the prompt.
      } else if state == Shooting {
        ShootState(now);
      } else if state == Email {
        var s, d := CollectEmail(now, entered, sizeOf);
        strip, dispatch := Some(s), d;
      } else if state == Thanks {
        SwitchState(Waiting, now);
      }
    }

    /**
     * One iteration of run's loop (booth.py:106-133): handle the polled
     * events, stop if one of them was a quit, otherwise run the current
     * state's step. The session number moves only when a thanks state is left,
     * and then by exactly one.
     */
    method Tick(input: TickInput, sizeOf: string -> Dims)
      returns (running: bool, strip: Option<StripJob>, dispatch: Option<Dispatch>)
      requires Valid()
      requires CapturesDecode(sizeOf)
      modifies this
      ensures Valid()
      ensures running == !AnyStop(input.events)
      ensures old(state) == Waiting && AnyStart(input.events) ==> StartedAt(input.now)
      ensures old(state) == Waiting && !AnyStart(input.events) ==> unchanged(this)
      ensures running && old(state) == Shooting ==> ShootStepped(input.now)
      ensures running && old(state) == Email ==>
        strip.Some? && EmailCollected(input.entered, sizeOf, strip.value, dispatch)
      ensures !(running && old(state) == Email) ==> strip == None && dispatch == None
      ensures dispatch == (if running && old(state) == Email && ShouldSend(input.entered)
                           then Some(Dispatch(input.entered.value, StripFileName(pid, sessionCounter)))
                           else None)
      ensures running && old(state) == Thanks ==>
        && state == Waiting && fps == baseFps && shotCounter == 0 && images == old(images)
        && shootPhase == old(shootPhase) && countdown == old(countdown) && phaseStart == old(phaseStart)
        && shotsLeft == old(shotsLeft)
      ensures !running && old(state) != Waiting ==> unchanged(this)
      ensures running ==> MayFollow(old(state), input, state)
      ensures sessionCounter == old(sessionCounter) + (if running && old(state) == Thanks then 1 else 0)
    {
      strip, dispatch := None, None;
      running := HandleEvents(input.events, input.now);
      if running {
        strip, dispatch := Step(input.now, input.entered, sizeOf);
      }
    }

    /**
     * run (booth.py:104-135): iterate until a tick's events ask to quit or
     * the inputs run out. `began` records the state each processed tick began
     * in; it is a legal trace from the initial state, the mailer is handed
     * exactly what `Mailed` says for it, and the session number has moved on
     * once for every thanks state left.
     */
    method Run(inputs: seq<TickInput>, sizeOf: string -> Dims)
      returns (processed: nat, dispatches: seq<Dispatch>, ghost began: seq<BoothState>)
      requires Valid()
      requires CapturesDecode(sizeOf)
      modifies this
      ensures Valid()
      ensures processed <= |inputs| && |began| == processed
      ensures forall j :: 0 <= j < processed - 1 ==> !AnyStop(inputs[j].events)
      ensures processed < |inputs| ==> processed > 0 && AnyStop(inputs[processed - 1].events)
      ensures processed > 0 ==> began[0] == old(state)
      ensures forall j {:trigger inputs[j]} :: 0 <= j < processed - 1 ==> MayFollow(began[j], inputs[j], began[j + 1])
      ensures processed > 0 && !AnyStop(inputs[processed - 1].events) ==>
        MayFollow(began[processed - 1], inputs[processed - 1], state)
      ensures dispatches == Mailed(pid, old(sessionCounter), inputs, began)
      ensures forall d :: d in dispatches ==> ShouldSend(Some(d.address))
      ensures sessionCounter == old(sessionCounter) + ThanksLeft(inputs, began)
    {
      processed, dispatches, began := 0, [], [];
      var running := true;
      while running && processed < |inputs|
        invariant Valid()
        invariant processed == |began|
        invariant RunSoFar(pid, inputs, old(state), old(sessionCounter), began, running, state, sessionCounter, dispatches)
      {
        ghost var from, sessionNow := state, sessionCounter;
        var strip, dispatch;
        running, strip, dispatch := Tick(inputs[processed], sizeOf);
        RunSoFarStep(pid, inputs, old(state), old(sessionCounter), began, from, sessionNow, dispatches,
                     running, state, sessionCounter, dispatch);
        began := began + [from];
        if dispatch.Some? {
          dispatches := dispatches + [dispatch.value];
        }
        processed := processed + 1;
      }
      MailedPassPolicy(pid, old(sessionCounter), inputs, began);
    }
  }

  /**
   * From the start of a session at time 0 to the first shot: the step at 5
   * does nothing (the wait has not been exceeded), then get ready, three, two,
   * one each end one second past their wait.
   */
  method StartAndCountDown(booth: BoothView)
    requires booth.Valid() && booth.state == Waiting
    modifies booth
    ensures booth.Valid() && booth.state == Shooting && booth.shootPhase == Shoot
    ensures booth.images == [] && booth.phaseStart == 12 && booth.countdown == CountdownWait
    ensures booth.sessionCounter == old(booth.sessionCounter)
  {
    var running := booth.HandleEvents([KeyDown(Return)], 0);
    assert AnyStart([KeyDown(Return)]) by { assert IsStart([KeyDown(Return)][0]); }
    booth.ShootState(5);
    assert booth.shootPhase == GetReady;
    booth.ShootState(6);
    booth.ShootState(8);
    booth.ShootState(10);
    booth.ShootState(12);
  }

  /**
   * One shot and the countdown to the next: the capture at `t` (one second
   * past the shoot phase's wait), then three, two, one with the doubled wait
   * after the capture.
   */
  method ShotAndCountDown(booth: BoothView, t: int)
    requires booth.Valid() && booth.state == Shooting && booth.shootPhase == Shoot
    requires booth.shotsLeft > 1 && t == booth.phaseStart + 2
    modifies booth
    ensures booth.Valid() && booth.state == Shooting && booth.shootPhase == Shoot
    ensures booth.images == old(booth.images) + [CaptureFileName(booth.pid, booth.sessionCounter, |old(booth.images)|)]
    ensures booth.phaseStart == t + 7 && booth.shotsLeft == old(booth.shotsLeft) - 1
    ensures booth.sessionCounter == old(booth.sessionCounter)
  {
    booth.ShootState(t);
    booth.ShootState(t + 3);
    booth.ShootState(t + 5);
    booth.ShootState(t + 7);
  }

  /**
   * One whole session driven through the contracts above, with the waits of
   * booth.py:33-35: a Return key at time 0 starts it, each later step comes
   * one second after its phase's wait has run out, three photos are taken,
   * the strip holds them in order and goes to the address entered, and the
   * next tick opens session 2.
   */
  method SessionScenario(pid: nat, sizeOf: string -> Dims)
    returns (strip: StripJob, dispatch: Option<Dispatch>, nextSession: int)
    requires forall session: nat, shot: nat :: Positive(sizeOf(CaptureFileName(pid, session, shot)))
    ensures strip.path == StripFileName(pid, 1)
    ensures |strip.placements| == 3
    ensures strip.placements[0].source == CaptureFileName(pid, 1, 0)
    ensures strip.placements[1].source == CaptureFileName(pid, 1, 1)
    ensures strip.placements[2].source == CaptureFileName(pid, 1, 2)
    ensures dispatch == Some(Dispatch("guest@party.org", StripFileName(pid, 1)))
    ensures nextSession == 2
  {
    var booth := new BoothView(5, pid, 0);
    StartAndCountDown(booth);
    ShotAndCountDown(booth, 14);
    ShotAndCountDown(booth, 23);
    booth.ShootState(32);
    assert booth.state == Email;
    strip, dispatch := booth.CollectEmail(33, Some("guest@party.org"), sizeOf);
    var s, d := booth.Step(34, None, sizeOf);
    nextSession := booth.sessionCounter;
  }
}
