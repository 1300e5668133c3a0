/** The light entities: the whole strip, whose animation loop sends one
    brightness-waved frame per tick, and the section entities, each of which
    owns one slot of the strip's section colours. Task scheduling, sleeping
    and the executor are abstracted: the loop is modelled by the guard that
    creates its task, its start, and one tick of its body. */
module Light {
  import opened Common
  import opened Const
  import opened ColorManager
  import opened Coordinator
  import Packet

  /** The update-loop task handle: none, created but not yet started, or
      running its loop. */
  datatype LoopTask = NoTask | Pending | Active

  /** async_set_wave on the coordinator's values: each given argument goes
      through the coordinator, amplitude first. */
  function SetWaveState(s: CoordinatorState, amplitude: Option<int>, speed: Option<int>): CoordinatorState {
    var a := if amplitude.Some? then WithAmplitude(s, amplitude.value) else s;
    if speed.Some? then WithSpeed(a, speed.value) else a
  }

  /** A call without arguments leaves everything as it was, and a call that
      keeps the coordinator in step leaves it in step. */
  lemma SetWaveStateKeepsSynced(s: CoordinatorState, amplitude: Option<int>, speed: Option<int>)
    requires Synced(s)
    ensures Synced(SetWaveState(s, amplitude, speed))
    ensures speed.Some? ==> StepsMatchSpeed(SetWaveState(s, amplitude, speed))
    ensures amplitude == None && speed == None ==> SetWaveState(s, amplitude, speed) == s
  {
    var a := if amplitude.Some? then WithAmplitude(s, amplitude.value) else s;
    UpdatesKeepSynced(s, if amplitude.Some? then amplitude.value else 0);
    UpdatesKeepSynced(a, if speed.Some? then speed.value else 0);
    if speed.Some? {
      SpeedUpdateFixesSteps(a, speed.value);
    }
  }

  function Abs(x: int): int {
    if x < 0 then -x else x
  }

  /** |x| for reals. */
  function AbsReal(x: real): real {
    if x < 0.0 then -x else x
  }

  /** An amplitude times a value in [-1, 1] is at most the amplitude. */
  lemma ScaledSineBound(a: real, s: real)
    requires -1.0 <= s <= 1.0
    ensures AbsReal(a * s) <= AbsReal(a)
  {
    if a >= 0.0 {
      assert a * s <= a * 1.0;
      assert a * (-1.0) <= a * s;
    } else {
      assert a * 1.0 <= a * s;
      assert a * s <= a * (-1.0);
    }
  }

  /** Truncating and clamping a brightness moved by at most |amp| keeps it
      within |amp| of where it started. */
  lemma ClampedWaveNear(b: int, amp: int, y: real)
    requires 0 <= b <= 255 && AbsReal(y) <= Abs(amp) as real
    ensures b - Abs(amp) <= Clamp(TruncReal(b as real + y), 0, 255) <= b + Abs(amp)
  {
    var t := TruncReal(b as real + y);
    assert (t as real) < b as real + y + 1.0 && (t as real) > b as real + y - 1.0;
    assert (t as real) < (b + Abs(amp) + 1) as real;
    assert (t as real) > (b - Abs(amp) - 1) as real;
  }

  /** The argument of the sine for one LED: its phase along the strip plus
      the wave step times speed / 100. */
  function WaveArgument(ledIndex: int, numLeds: int, waveStep: int, speed: int): real
    requires numLeds != 1
  {
    2.0 * Pi * (ledIndex as real) / ((numLeds - 1) as real) + (waveStep as real) * ((speed as real) / 100.0)
  }

  /** The same for a sine value in [-1, 1] scaled by the amplitude. */
  lemma WaveNear(b: int, amp: int, s: real)
    requires 0 <= b <= 255 && -1.0 <= s <= 1.0
    ensures b - Abs(amp) <= Clamp(TruncReal(b as real + (amp as real) * s), 0, 255) <= b + Abs(amp)
  {
    ScaledSineBound(amp as real, s);
    assert AbsReal(amp as real) == Abs(amp) as real;
    ClampedWaveNear(b, amp, (amp as real) * s);
  }

  /** _calculate_brightness_wave, with `sine` standing for math.sin: the
      strip brightness when there is no wave, otherwise the brightness moved
      by amplitude * sin(phase) and clamped to a byte; one LED with a wave
      divides by zero. */
  function BrightnessWave(brightness: int, amplitude: int, speed: int, waveStep: int, numLeds: int,
                          ledIndex: int, sine: real -> real): (r: Result<int, Fault>)
    ensures amplitude == 0 ==> r == Ok(brightness)
    ensures r.Err? <==> amplitude != 0 && numLeds == 1
    ensures r.Err? ==> r.error == ZeroDivision
    ensures amplitude != 0 && r.Ok? ==> 0 <= r.value <= 255
  {
    if amplitude == 0 then Ok(brightness)
    else if numLeds - 1 == 0 then Err(ZeroDivision)
    else
      var offset := (amplitude as real) * sine(WaveArgument(ledIndex, numLeds, waveStep, speed));
      Ok(Clamp(TruncReal(brightness as real + offset), 0, 255))
  }

  /** With a sine bounded by 1, the wave moves no LED further from the strip
      brightness than the amplitude. */
  lemma BrightnessWaveNear(brightness: int, amplitude: int, speed: int, waveStep: int, numLeds: int,
                           ledIndex: int, sine: real -> real)
    requires 0 <= brightness <= 255
    requires forall x :: -1.0 <= sine(x) <= 1.0
    ensures var r := BrightnessWave(brightness, amplitude, speed, waveStep, numLeds, ledIndex, sine);
      r.Ok? ==> 0 <= r.value <= 255 &&
                brightness - Abs(amplitude) <= r.value <= brightness + Abs(amplitude)
  {
    var r := BrightnessWave(brightness, amplitude, speed, waveStep, numLeds, ledIndex, sine);
    if amplitude != 0 && numLeds != 1 {
      var s := sine(WaveArgument(ledIndex, numLeds, waveStep, speed));
      var c := Clamp(TruncReal(brightness as real + (amplitude as real) * s), 0, 255);
      assert r.Ok? && r.value == c;
      WaveNear(brightness, amplitude, s);
    }
  }

  /** The argument of the sine with the one-LED case guarded: a single LED
      has phase 0 along the strip. */
  function GuardedWaveArgument(ledIndex: int, numLeds: int, waveStep: int, speed: int): real {
    if numLeds == 1 then (waveStep as real) * ((speed as real) / 100.0)
    else WaveArgument(ledIndex, numLeds, waveStep, speed)
  }

  /** The wave brightness as evidently intended: the same as BrightnessWave
      wherever that succeeds, and a phase of 0 instead of a division by zero
      on a one-LED strip, so it never raises. */
  function GuardedBrightnessWave(brightness: int, amplitude: int, speed: int, waveStep: int, numLeds: int,
                                 ledIndex: int, sine: real -> real): (r: int)
    ensures amplitude == 0 ==> r == brightness
    ensures amplitude != 0 ==> 0 <= r <= 255
    ensures numLeds != 1 ==> BrightnessWave(brightness, amplitude, speed, waveStep, numLeds, ledIndex, sine) == Ok(r)
  {
    if amplitude == 0 then brightness
    else
      var arg := GuardedWaveArgument(ledIndex, numLeds, waveStep, speed);
      var r := Clamp(TruncReal(brightness as real + (amplitude as real) * sine(arg)), 0, 255);
      assert numLeds != 1 ==> sine(arg) == sine(WaveArgument(ledIndex, numLeds, waveStep, speed));
      assert numLeds != 1 ==> BrightnessWave(brightness, amplitude, speed, waveStep, numLeds, ledIndex, sine).value == r;
      r
  }

  /** With a sine bounded by 1, the guarded wave keeps every LED, a lone one
      included, within the amplitude of the strip brightness. */
  lemma GuardedBrightnessWaveNear(brightness: int, amplitude: int, speed: int, waveStep: int, numLeds: int,
                                  ledIndex: int, sine: real -> real)
    requires 0 <= brightness <= 255
    requires forall x :: -1.0 <= sine(x) <= 1.0
    ensures var r := GuardedBrightnessWave(brightness, amplitude, speed, waveStep, numLeds, ledIndex, sine);
      0 <= r <= 255 && brightness - Abs(amplitude) <= r <= brightness + Abs(amplitude)
  {
    if amplitude != 0 {
      WaveNear(brightness, amplitude, sine(GuardedWaveArgument(ledIndex, numLeds, waveStep, speed)));
    }
  }

  /** The turn-off frame of black section colours can always be built for
      the section counts the setup form allows. */
  lemma BlackFrameBuilds(n: nat)
    requires n <= MaxSections
    ensures Packet.LedFrame(Repeat(Black, n), true).Ok?
  {
    Packet.LedFrameOkIff(Repeat(Black, n), true);
  }

  /** The LED counts the setup form accepts: 1 to 100. */
  predicate FormAcceptsLeds(numLeds: int) {
    1 <= numLeds <= MaxConfigLeds
  }

  /** The LED counts whose colour frames fit the single length byte of a
      frame: 1 to 84. This is the bound the setup form evidently intends. */
  predicate FrameFitsLeds(numLeds: int) {
    1 <= numLeds <= Packet.MaxFrameColors
  }

  class GoveeRazerStrip {
    const host: string
    const port: int
    const numLeds: nat
    const numSections: nat
    const updateInterval: real
    const coordinator: GoveeWaveCoordinator
    const wave: StripWave
    const protocol: Packet.GoveeProtocol
    const colorManager: GoveeColorManager

    var isOn: bool
    var brightness: int
    var effect: string
    var waveStep: int
    var running: bool
    var updateTask: LoopTask

    ghost predicate Valid()
      reads this, colorManager
    {
      colorManager.Valid() && colorManager.numLeds == numLeds && colorManager.numSections == numSections
    }

    constructor (host: string, port: int, numLeds: nat, numSections: nat, updateInterval: real,
                 coordinator: GoveeWaveCoordinator)
      ensures Valid()
      ensures this.host == host && this.port == port && this.updateInterval == updateInterval
      ensures this.numLeds == numLeds && this.numSections == numSections && this.coordinator == coordinator
      ensures !isOn && brightness == DefaultBrightness && effect == EffectStretched
      ensures wave.amplitude == coordinator.amplitude && wave.speed == coordinator.speed
      ensures waveStep == 0 && wave.waveSteps == StaticWaveSteps && wave.colorFlowSpeed == None
      ensures colorManager.sectionColors == Repeat(Black, numSections)
      ensures protocol.lastEnableTime == 0.0 && protocol.sent == []
      ensures updateTask == NoTask && !running
      ensures fresh(wave) && fresh(protocol) && fresh(colorManager)
    {
      this.host := host;
      this.port := port;
      this.numLeds := numLeds;
      this.numSections := numSections;
      this.updateInterval := updateInterval;
      this.coordinator := coordinator;
      isOn := false;
      brightness := DefaultBrightness;
      effect := EffectStretched;
      wave := new StripWave(coordinator.amplitude, coordinator.speed);
      waveStep := 0;
      protocol := new Packet.GoveeProtocol(host, port);
      colorManager := new GoveeColorManager(numLeds, numSections);
      updateTask := NoTask;
      running := false;
    }

    /** _start_update_loop: a task is created only when there is none. */
    method StartUpdateLoop()
      modifies this
      ensures updateTask == if old(updateTask) == NoTask then Pending else old(updateTask)
      ensures isOn == old(isOn) && brightness == old(brightness) && effect == old(effect)
      ensures waveStep == old(waveStep) && running == old(running)
    {
      if updateTask == NoTask {
        updateTask := Pending;
      }
    }

    /** _stop_update_loop: the loop is told to stop, cancelled and dropped. */
    method StopUpdateLoop()
      modifies this
      ensures !running && updateTask == NoTask
      ensures isOn == old(isOn) && brightness == old(brightness) && effect == old(effect)
      ensures waveStep == old(waveStep)
    {
      running := false;
      updateTask := NoTask;
    }

    /** async_turn_on: brightness and effect change only when given; a loop
      task is started only when none is running, so there is never a
      second one. */
    method TurnOn(brightnessArg: Option<int>, effectArg: Option<string>)
      modifies this
      ensures isOn
      ensures brightness == if brightnessArg.Some? then brightnessArg.value else old(brightness)
      ensures effect == if effectArg.Some? then effectArg.value else old(effect)
      ensures waveStep == old(waveStep) && running == old(running)
      ensures updateTask == if !old(running) && old(updateTask) == NoTask then Pending else old(updateTask)
      ensures old(updateTask) != NoTask ==> updateTask == old(updateTask)
    {
      if brightnessArg.Some? {
        brightness := brightnessArg.value;
      }
      if effectArg.Some? {
        effect := effectArg.value;
      }
      isOn := true;
      if !running {
        StartUpdateLoop();
      }
    }

    /** async_turn_off: the loop stops, then one black frame of
      `numSections` colours goes out with the gradient flag set. */
    method TurnOff(now: real, enableDelivered: bool, delivered: bool) returns (outcome: Outcome)
      modifies this, protocol
      ensures !isOn && !running && updateTask == NoTask
      ensures brightness == old(brightness) && effect == old(effect) && waveStep == old(waveStep)
      ensures protocol.sent == old(protocol.sent)
        + Packet.ColorSendLog(old(protocol.lastEnableTime), now, Repeat(Black, numSections), true, enableDelivered, delivered)
      ensures protocol.lastEnableTime ==
        if Packet.KeepAliveDue(old(protocol.lastEnableTime), now) && enableDelivered then now
        else old(protocol.lastEnableTime)
      ensures numSections <= MaxSections ==> outcome == Pass
    {
      isOn := false;
      StopUpdateLoop();
      outcome := protocol.SendColors(Repeat(Black, numSections), numLeds, true, now, enableDelivered, delivered);
      if numSections <= MaxSections {
        BlackFrameBuilds(numSections);
      }
    }

    /** async_set_wave: each given argument is pushed through the
      coordinator and then stored in the strip. */
    method SetWave(amplitude: Option<int>, speed: Option<int>)
      requires coordinator.Valid()
      modifies wave, coordinator, coordinator.Targets()
      ensures coordinator.Valid() && coordinator.Targets() == old(coordinator.Targets())
      ensures coordinator.strip == old(coordinator.strip)
      ensures coordinator.amplitudeEntity == old(coordinator.amplitudeEntity)
      ensures coordinator.speedEntity == old(coordinator.speedEntity)
      ensures coordinator.colorFlowEntity == old(coordinator.colorFlowEntity)
      ensures coordinator.State() == SetWaveState(old(coordinator.State()), amplitude, speed)
      ensures wave.amplitude == if amplitude.Some? then amplitude.value else old(wave.amplitude)
      ensures wave.speed == if speed.Some? then speed.value else old(wave.speed)
      ensures wave.waveSteps == if speed.Some? then WaveSteps(speed.value) else old(wave.waveSteps)
      ensures wave.colorFlowSpeed == old(wave.colorFlowSpeed)
    {
      if amplitude.Some? {
        SetAmplitude(amplitude.value);
      }
      if speed.Some? {
        SetSpeed(speed.value);
      }
    }

    /** The amplitude half of async_set_wave. */
    method SetAmplitude(amplitude: int)
      requires coordinator.Valid()
      modifies wave, coordinator, coordinator.Targets()
      ensures coordinator.Valid() && coordinator.Targets() == old(coordinator.Targets())
      ensures coordinator.strip == old(coordinator.strip)
      ensures coordinator.amplitudeEntity == old(coordinator.amplitudeEntity)
      ensures coordinator.speedEntity == old(coordinator.speedEntity)
      ensures coordinator.colorFlowEntity == old(coordinator.colorFlowEntity)
      ensures coordinator.State() == WithAmplitude(old(coordinator.State()), amplitude)
      ensures wave.amplitude == amplitude && wave.speed == old(wave.speed)
      ensures wave.waveSteps == old(wave.waveSteps) && wave.colorFlowSpeed == old(wave.colorFlowSpeed)
    {
      coordinator.UpdateAmplitude(amplitude);
      wave.amplitude := amplitude;
    }

    /** The speed half of async_set_wave. */
    method SetSpeed(speed: int)
      requires coordinator.Valid()
      modifies wave, coordinator, coordinator.Targets()
      ensures coordinator.Valid() && coordinator.Targets() == old(coordinator.Targets())
      ensures coordinator.strip == old(coordinator.strip)
      ensures coordinator.amplitudeEntity == old(coordinator.amplitudeEntity)
      ensures coordinator.speedEntity == old(coordinator.speedEntity)
      ensures coordinator.colorFlowEntity == old(coordinator.colorFlowEntity)
      ensures coordinator.State() == WithSpeed(old(coordinator.State()), speed)
      ensures wave.speed == speed && wave.waveSteps == WaveSteps(speed)
      ensures wave.amplitude == old(wave.amplitude) && wave.colorFlowSpeed == old(wave.colorFlowSpeed)
    {
      coordinator.UpdateSpeed(speed);
      wave.speed := speed;
      wave.waveSteps := WaveSteps(speed);
    }

    /** _calculate_brightness_wave on the strip's current fields. */
    function CalculateBrightnessWave(ledIndex: int, sine: real -> real): (r: Result<int, Fault>)
      reads this, wave
      ensures wave.amplitude == 0 ==> r == Ok(brightness)
      ensures r.Err? <==> wave.amplitude != 0 && numLeds == 1
      ensures r.Err? ==> r.error == ZeroDivision
      ensures wave.amplitude != 0 && r.Ok? ==> 0 <= r.value <= 255
    {
      BrightnessWave(brightness, wave.amplitude, wave.speed, waveStep, numLeds, ledIndex, sine)
    }

    /** The brightness-waved frame of the loop body: each LED's colour
      scaled by its wave brightness, or the fault the wave raises. */
    function WaveFrame(base: seq<RGB>, sine: real -> real): (r: Result<seq<RGB>, Fault>)
      reads this, wave
      ensures r.Ok? ==> |r.value| == |base|
    {
      if |base| > 0 && wave.amplitude != 0 && numLeds == 1 then Err(ZeroDivision)
      else Ok(seq(|base|, i requires 0 <= i < |base| && CalculateBrightnessWave(i, sine).Ok? reads this, wave =>
                ScaleColor(base[i], CalculateBrightnessWave(i, sine).value)))
    }

    /** A frame of byte colours stays byte colours, and no channel gets
      brighter, when the strip brightness is a byte. */
    lemma WaveFrameDims(base: seq<RGB>, sine: real -> real)
      requires 0 <= brightness <= 255
      requires forall j :: 0 <= j < |base| ==> InByteRange(base[j])
      ensures WaveFrame(base, sine).Ok? ==>
        forall j :: 0 <= j < |base| ==>
          var c := WaveFrame(base, sine).value[j];
          InByteRange(c) && c.r <= base[j].r && c.g <= base[j].g && c.b <= base[j].b
    {
      if WaveFrame(base, sine).Ok? {
        forall j | 0 <= j < |base|
          ensures var c := WaveFrame(base, sine).value[j];
            InByteRange(c) && c.r <= base[j].r && c.g <= base[j].g && c.b <= base[j].b
        {
          ScaleColorBounds(base[j], CalculateBrightnessWave(j, sine).value);
        }
      }
    }

    /** The colour loop of the update loop body. */
    method ApplyWave(base: seq<RGB>, sine: real -> real) returns (r: Result<seq<RGB>, Fault>)
      ensures r == WaveFrame(base, sine)
    {
      var finalColors: seq<RGB> := [];
      for i := 0 to |base|
        invariant |finalColors| == i
        invariant i > 0 ==> CalculateBrightnessWave(0, sine).Ok?
        invariant forall j :: 0 <= j < i ==>
          finalColors[j] == ScaleColor(base[j], CalculateBrightnessWave(j, sine).value)
      {
        var ledBrightness := CalculateBrightnessWave(i, sine);
        if ledBrightness.Err? {
          return Err(ledBrightness.error);
        }
        var c := base[i];
        finalColors := finalColors + [ScaleColor(c, ledBrightness.value)];
      }
      assert finalColors == WaveFrame(base, sine).value;
      return Ok(finalColors);
    }

    /** The frame one "on" tick sends: the effect frame, waved. */
    function TickFrame(sine: real -> real): (r: Result<seq<RGB>, Fault>)
      reads this, wave, colorManager
      requires Valid()
      ensures r.Ok? ==> |r.value| == numLeds
      ensures numSections == 0 ==> r == Err(ZeroDivision)
    {
      if numSections == 0 then Err(ZeroDivision)
      else
        FrameMatchesReference(EffectOf(effect), numLeds, colorManager.sectionColors);
        WaveFrame(EffectFrame(effect, numLeds, colorManager.sectionColors), sine)
    }

    /** As written: with the 100 LEDs the setup form accepts, every frame a
      tick builds is rejected by the packet builder. */
    lemma FormMaximumNeverSends(sine: real -> real)
      requires Valid() && numLeds == MaxConfigLeds
      ensures FormAcceptsLeds(numLeds) && !FrameFitsLeds(numLeds)
      ensures TickFrame(sine).Ok? ==>
        Packet.LedFrame(TickFrame(sine).value, effect == EffectStretched) == Err(ByteOutOfRange)
    {
      if TickFrame(sine).Ok? {
        Packet.ConfigMaximumOverflows(TickFrame(sine).value, effect == EffectStretched);
      }
    }

    /** As written: a strip of one LED with a wave raises the division by
      zero of _calculate_brightness_wave on every tick, so it never sends a
      colour frame. */
    lemma OneLedWaveNeverSends(sine: real -> real)
      requires Valid() && numSections >= 1 && numLeds == 1 && wave.amplitude != 0
      ensures FrameFitsLeds(numLeds)
      ensures TickFrame(sine) == Err(ZeroDivision)
    {
      FrameMatchesReference(EffectOf(effect), numLeds, colorManager.sectionColors);
    }

    /** Corrected: with at most 84 LEDs, byte section colours and a byte
      brightness, every tick builds its frame and the packet builder accepts
      it (a single LED still needs a zero amplitude, see BrightnessWave). */
    lemma TickFrameSends(sine: real -> real)
      requires Valid() && numSections >= 1 && FrameFitsLeds(numLeds)
      requires numLeds == 1 ==> wave.amplitude == 0
      requires 0 <= brightness <= 255
      requires forall i :: 0 <= i < numSections ==> InByteRange(colorManager.sectionColors[i])
      ensures TickFrame(sine).Ok?
      ensures Packet.LedFrame(TickFrame(sine).value, effect == EffectStretched).Ok?
    {
      var base := EffectFrame(effect, numLeds, colorManager.sectionColors);
      FrameInByteRange(EffectOf(effect), numLeds, colorManager.sectionColors);
      WaveFrameDims(base, sine);
      var colors := TickFrame(sine).value;
      assert Packet.AllInByteRange(colors);
      Packet.LedFrameOkIff(colors, effect == EffectStretched);
    }

    /** The loop's start: it marks itself running and sends Enable(true). */
    method LoopBegins(now: real, delivered: bool)
      requires updateTask == Pending
      modifies this, protocol
      ensures running && updateTask == Active
      ensures isOn == old(isOn) && brightness == old(brightness) && effect == old(effect)
      ensures waveStep == old(waveStep)
      ensures protocol.sent == old(protocol.sent) + (if delivered then [Packet.EnableFrame(true)] else [])
      ensures protocol.lastEnableTime == if delivered then now else old(protocol.lastEnableTime)
    {
      running := true;
      updateTask := Active;
      protocol.SendEnable(true, now, delivered);
    }

    /** One pass of the loop body, no sleep. When the strip is on it builds
      and sends the waved frame (gradient flag exactly for the stretched
      effect) and then advances the wave step with Python's `%`. Whatever
      raises ends the pass at that point; the loop goes on after it. */
    method Tick(now: real, sine: real -> real, enableDelivered: bool, delivered: bool)
      returns (outcome: Outcome)
      requires Valid() && running
      modifies this, protocol
      ensures running && isOn == old(isOn) && brightness == old(brightness) && effect == old(effect)
      ensures updateTask == old(updateTask)
      ensures !isOn ==>
        (outcome == Pass && waveStep == old(waveStep) &&
         protocol.sent == old(protocol.sent) && protocol.lastEnableTime == old(protocol.lastEnableTime))
      ensures isOn && old(TickFrame(sine)).Err? ==>
        (outcome == Fail(old(TickFrame(sine)).error) && waveStep == old(waveStep) &&
         protocol.sent == old(protocol.sent) && protocol.lastEnableTime == old(protocol.lastEnableTime))
      ensures isOn && old(TickFrame(sine)).Ok? ==>
        (protocol.sent == old(protocol.sent)
           + Packet.ColorSendLog(old(protocol.lastEnableTime), now, old(TickFrame(sine)).value,
                                 effect == EffectStretched, enableDelivered, delivered) &&
         protocol.lastEnableTime ==
           (if Packet.KeepAliveDue(old(protocol.lastEnableTime), now) && enableDelivered then now
            else old(protocol.lastEnableTime)))
      ensures isOn && old(TickFrame(sine)).Ok? ==>
        var frame := Packet.LedFrame(old(TickFrame(sine)).value, effect == EffectStretched);
        && (frame.Err? ==> outcome == Fail(frame.error) && waveStep == old(waveStep))
        && (frame.Ok? && wave.waveSteps == 0 ==> outcome == Fail(ZeroDivision) && waveStep == old(waveStep))
        && (frame.Ok? && wave.waveSteps != 0 ==>
              (outcome == Pass && waveStep == PyMod(old(waveStep) + 1, wave.waveSteps)))
    {
      if !isOn {
        return Pass;
      }
      var finalColors := BuildFrame(sine);
      if finalColors.Err? {
        return Fail(finalColors.error);
      }
      outcome := SendFrame(finalColors.value, now, enableDelivered, delivered);
    }

    /** The sending half of the loop body: the frame goes out, and only when
      nothing raised does the wave step advance. */
    method SendFrame(colors: seq<RGB>, now: real, enableDelivered: bool, delivered: bool)
      returns (outcome: Outcome)
      modifies this, protocol
      ensures running == old(running) && isOn == old(isOn) && brightness == old(brightness)
      ensures effect == old(effect) && updateTask == old(updateTask)
      ensures protocol.sent == old(protocol.sent)
        + Packet.ColorSendLog(old(protocol.lastEnableTime), now, colors, effect == EffectStretched,
                              enableDelivered, delivered)
      ensures protocol.lastEnableTime ==
        if Packet.KeepAliveDue(old(protocol.lastEnableTime), now) && enableDelivered then now
        else old(protocol.lastEnableTime)
      ensures var frame := Packet.LedFrame(colors, effect == EffectStretched);
        && (frame.Err? ==> outcome == Fail(frame.error) && waveStep == old(waveStep))
        && (frame.Ok? && wave.waveSteps == 0 ==> outcome == Fail(ZeroDivision) && waveStep == old(waveStep))
        && (frame.Ok? && wave.waveSteps != 0 ==>
              (outcome == Pass && waveStep == PyMod(old(waveStep) + 1, wave.waveSteps)))
    {
      outcome := protocol.SendColors(colors, numLeds, effect == EffectStretched,
                                     now, enableDelivered, delivered);
      if outcome.Fail? {
        return;
      }
      if wave.waveSteps == 0 {
        return Fail(ZeroDivision);
      }
      waveStep := PyMod(waveStep + 1, wave.waveSteps);
    }

    /** The colour half of the loop body: the effect frame, then the wave. */
    method BuildFrame(sine: real -> real) returns (r: Result<seq<RGB>, Fault>)
      requires Valid()
      ensures r == TickFrame(sine)
    {
      if numSections == 0 {
        return Err(ZeroDivision);
      }
      var baseColors := colorManager.GenerateEffectColors(effect);
      r := ApplyWave(baseColors, sine);
    }
  }

  class GoveeRazerSection {
    const strip: GoveeRazerStrip
    const sectionIndex: int
    var rgbColor: RGB
    var brightness: int

    /** A section starts white at full brightness. */
    constructor (strip: GoveeRazerStrip, sectionIndex: int)
      ensures this.strip == strip && this.sectionIndex == sectionIndex
      ensures rgbColor == RGB(255, 255, 255) && brightness == 255
    {
      this.strip := strip;
      this.sectionIndex := sectionIndex;
      rgbColor := RGB(255, 255, 255);
      brightness := 255;
    }

    /** async_turn_on: stores what it is given, writes the scaled colour into
      its own section only, and turns the strip on if it is off. */
    method TurnOn(rgb: Option<RGB>, brightnessArg: Option<int>)
      requires strip.Valid()
      modifies this, strip, strip.colorManager
      ensures strip.Valid()
      ensures rgbColor == if rgb.Some? then rgb.value else old(rgbColor)
      ensures brightness == if brightnessArg.Some? then brightnessArg.value else old(brightness)
      ensures 0 <= sectionIndex < strip.numSections ==>
        strip.colorManager.GetSectionColor(sectionIndex) == Some(ScaleColor(rgbColor, brightness))
      ensures forall j :: j != sectionIndex ==>
        strip.colorManager.GetSectionColor(j) == old(strip.colorManager.GetSectionColor(j))
      ensures !(0 <= sectionIndex < strip.numSections) ==>
        strip.colorManager.sectionColors == old(strip.colorManager.sectionColors)
      ensures strip.isOn
      ensures strip.brightness == old(strip.brightness) && strip.effect == old(strip.effect)
      ensures strip.waveStep == old(strip.waveStep) && strip.running == old(strip.running)
      ensures strip.updateTask ==
        if !old(strip.isOn) && !old(strip.running) && old(strip.updateTask) == NoTask then Pending
        else old(strip.updateTask)
    {
      if rgb.Some? {
        rgbColor := rgb.value;
      }
      if brightnessArg.Some? {
        brightness := brightnessArg.value;
      }
      var adjusted := ScaleColor(rgbColor, brightness);
      strip.colorManager.SetSectionColor(sectionIndex, adjusted);
      if !strip.isOn {
        strip.TurnOn(None, None);
      }
    }

    /** async_turn_off: blacks out this section; the strip stays on or off
      as it was. */
    method TurnOff()
      requires strip.Valid()
      modifies strip.colorManager
      ensures strip.Valid()
      ensures 0 <= sectionIndex < strip.numSections ==>
        strip.colorManager.GetSectionColor(sectionIndex) == Some(Black)
      ensures forall j :: j != sectionIndex ==>
        strip.colorManager.GetSectionColor(j) == old(strip.colorManager.GetSectionColor(j))
      ensures !(0 <= sectionIndex < strip.numSections) ==>
        strip.colorManager.sectionColors == old(strip.colorManager.sectionColors)
      ensures strip.isOn == old(strip.isOn)
    {
      strip.colorManager.SetSectionColor(sectionIndex, Black);
    }
  }
}
