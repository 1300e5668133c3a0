/** The wave coordinator: one shared record of the wave parameters
    (amplitude, speed, colour-flow speed) that pushes every change to the
    number entities showing them and to the light strip animating them. */
module Coordinator {
  import opened Common
  import opened Const

  /** The double nearest to pi, as Python's math module gives it. */
  const Pi: real := 3.141592653589793

  /** Animation period for a wave speed: 100 steps for a still wave,
      otherwise `round(2*pi / (speed / 100) + 1)` rounded half to even. */
  function WaveSteps(speed: int): (r: int)
    ensures speed == 0 ==> r == StaticWaveSteps
    ensures speed != 0 ==>
      var x := 200.0 * Pi / (speed as real) + 1.0;
      x - 0.5 <= r as real <= x + 0.5
  {
    if speed == 0 then StaticWaveSteps
    else RoundHalfEven(2.0 * Pi / ((speed as real) / 100.0) + 1.0)
  }

  /** a / d moves against d for a positive numerator. */
  lemma QuotientBounds(a: real, d: real, lo: real, hi: real)
    requires a > 0.0 && 0.0 < lo <= d <= hi
    ensures a / hi <= a / d <= a / lo
  {
    assert a / d * d == a;
    assert a / hi * hi == a;
    assert a / lo * lo == a;
    assert a / hi * d <= a / hi * hi;
    assert a / d * lo <= a / d * d;
  }

  /** Over the speeds the wave service accepts (-100..100) the period is
      never 0: at least 7 for a forward wave, at most -5 for a backward
      one, and 629 / -627 at the slowest speeds. */
  lemma WaveStepsRange(speed: int)
    requires -100 <= speed <= 100
    ensures speed > 0 ==> 7 <= WaveSteps(speed) <= 629
    ensures speed < 0 ==> -627 <= WaveSteps(speed) <= -5
    ensures WaveSteps(speed) != 0
  {
    if speed > 0 {
      QuotientBounds(2.0 * Pi, (speed as real) / 100.0, 0.01, 1.0);
    } else if speed < 0 {
      QuotientBounds(2.0 * Pi, -(speed as real) / 100.0, 0.01, 1.0);
      assert 2.0 * Pi / ((speed as real) / 100.0) == -(2.0 * Pi / (-(speed as real) / 100.0));
    }
  }

  /** The defaults give a period of 22 steps for the default speed. */
  lemma DefaultSpeedSteps()
    ensures WaveSteps(DefaultSpeed) == 22
  {
    var x := 2.0 * Pi / ((DefaultSpeed as real) / 100.0) + 1.0;
    assert 21.5 < x < 22.5 by {
      assert (x - 1.0) * 0.3 == 2.0 * Pi;
    }
  }

  /** A number entity: the value it shows. Writing its state back to the
      host is left out. */
  class NumberEntity {
    var value: int

    constructor (value: int)
      ensures this.value == value
    {
      this.value := value;
    }
  }

  /** The wave attributes of the light strip that the coordinator writes:
      `_amplitude`, `_speed`, `_wave_steps` and `_color_flow_speed`. The
      strip never sets the last one itself, so it is absent until the
      coordinator first writes it. */
  class StripWave {
    var amplitude: int
    var speed: int
    var waveSteps: int
    var colorFlowSpeed: Option<int>

    constructor (amplitude: int, speed: int)
      ensures this.amplitude == amplitude && this.speed == speed
      ensures waveSteps == StaticWaveSteps && colorFlowSpeed == None
    {
      this.amplitude := amplitude;
      this.speed := speed;
      waveSteps := StaticWaveSteps;
      colorFlowSpeed := None;
    }
  }

  /** Value snapshot of a strip's wave attributes. */
  datatype WaveState = WaveState(amplitude: int, speed: int, waveSteps: int, colorFlowSpeed: Option<int>)

  /** Value snapshot of the coordinator together with what each bound
      entity holds (`None` where no entity is bound). */
  datatype CoordinatorState = CoordinatorState(
    amplitude: int, speed: int, colorFlowSpeed: int,
    strip: Option<WaveState>,
    amplitudeShown: Option<int>, speedShown: Option<int>, colorFlowShown: Option<int>)

  function InitialState(): CoordinatorState {
    CoordinatorState(DefaultAmplitude, DefaultSpeed, DefaultColorFlowSpeed, None, None, None, None)
  }

  function ShowIfBound(shown: Option<int>, v: int): Option<int> {
    if shown.Some? then Some(v) else None
  }

  /** update_amplitude on values. */
  function WithAmplitude(s: CoordinatorState, v: int): CoordinatorState {
    s.(amplitude := v,
       amplitudeShown := ShowIfBound(s.amplitudeShown, v),
       strip := if s.strip.Some? then Some(s.strip.value.(amplitude := v)) else None)
  }

  /** update_speed on values: the strip also gets the period for `v`. */
  function WithSpeed(s: CoordinatorState, v: int): CoordinatorState {
    s.(speed := v,
       speedShown := ShowIfBound(s.speedShown, v),
       strip := if s.strip.Some? then Some(s.strip.value.(speed := v, waveSteps := WaveSteps(v))) else None)
  }

  /** update_color_flow_speed on values. */
  function WithColorFlowSpeed(s: CoordinatorState, v: int): CoordinatorState {
    s.(colorFlowSpeed := v,
       colorFlowShown := ShowIfBound(s.colorFlowShown, v),
       strip := if s.strip.Some? then Some(s.strip.value.(colorFlowSpeed := Some(v))) else None)
  }

  /** Every bound entity shows the coordinator's value, and a bound strip
      animates with the coordinator's amplitude and speed. */
  predicate Synced(s: CoordinatorState) {
    (s.amplitudeShown.Some? ==> s.amplitudeShown.value == s.amplitude) &&
    (s.speedShown.Some? ==> s.speedShown.value == s.speed) &&
    (s.colorFlowShown.Some? ==> s.colorFlowShown.value == s.colorFlowSpeed) &&
    (s.strip.Some? ==>
       s.strip.value.amplitude == s.amplitude && s.strip.value.speed == s.speed &&
       (s.strip.value.colorFlowSpeed.Some? ==> s.strip.value.colorFlowSpeed.value == s.colorFlowSpeed))
  }

  /** A bound strip's period is the one its speed calls for. */
  predicate StepsMatchSpeed(s: CoordinatorState) {
    s.strip.Some? ==> s.strip.value.waveSteps == WaveSteps(s.strip.value.speed)
  }

  /** Each update keeps every bound entity in step with the coordinator. */
  lemma UpdatesKeepSynced(s: CoordinatorState, v: int)
    requires Synced(s)
    ensures Synced(WithAmplitude(s, v))
    ensures Synced(WithSpeed(s, v))
    ensures Synced(WithColorFlowSpeed(s, v))
  {
  }

  /** After a speed update a bound strip's period matches its speed; the
      other updates keep that match. */
  lemma SpeedUpdateFixesSteps(s: CoordinatorState, v: int)
    ensures StepsMatchSpeed(WithSpeed(s, v))
    ensures StepsMatchSpeed(s) ==> StepsMatchSpeed(WithAmplitude(s, v))
    ensures StepsMatchSpeed(s) ==> StepsMatchSpeed(WithColorFlowSpeed(s, v))
  {
  }

  /** A strip fresh from its constructor, bound to a fresh coordinator, is in
      step on amplitude and speed but not on its period: it keeps 100 steps
      although the default speed calls for 22. */
  lemma FreshStripPeriod(w: WaveState)
    requires w == WaveState(DefaultAmplitude, DefaultSpeed, StaticWaveSteps, None)
    ensures Synced(InitialState().(strip := Some(w)))
    ensures !StepsMatchSpeed(InitialState().(strip := Some(w)))
  {
    DefaultSpeedSteps();
  }

  /** Repeating an update changes nothing, and only the last of two updates
      of one parameter is kept. */
  lemma UpdatesLastWriteWins(s: CoordinatorState, a: int, b: int)
    ensures WithAmplitude(WithAmplitude(s, a), b) == WithAmplitude(s, b)
    ensures WithSpeed(WithSpeed(s, a), b) == WithSpeed(s, b)
    ensures WithColorFlowSpeed(WithColorFlowSpeed(s, a), b) == WithColorFlowSpeed(s, b)
    ensures WithAmplitude(WithAmplitude(s, a), a) == WithAmplitude(s, a)
  {
  }

  /** Updates of different parameters touch disjoint attributes, so their
      order does not matter. */
  lemma UpdatesCommute(s: CoordinatorState, a: int, b: int)
    ensures WithAmplitude(WithSpeed(s, a), b) == WithSpeed(WithAmplitude(s, b), a)
    ensures WithAmplitude(WithColorFlowSpeed(s, a), b) == WithColorFlowSpeed(WithAmplitude(s, b), a)
    ensures WithSpeed(WithColorFlowSpeed(s, a), b) == WithColorFlowSpeed(WithSpeed(s, b), a)
  {
  }

  /** With nothing bound, an update only records the value. */
  lemma UnboundUpdatesOnlyRecord(s: CoordinatorState, v: int)
    requires s.strip == None && s.amplitudeShown == None && s.speedShown == None && s.colorFlowShown == None
    ensures WithAmplitude(s, v) == s.(amplitude := v)
    ensures WithSpeed(s, v) == s.(speed := v)
    ensures WithColorFlowSpeed(s, v) == s.(colorFlowSpeed := v)
  {
  }

  class GoveeWaveCoordinator {
    var amplitude: int
    var speed: int
    var colorFlowSpeed: int
    var strip: Option<StripWave>
    var amplitudeEntity: Option<NumberEntity>
    var speedEntity: Option<NumberEntity>
    var colorFlowEntity: Option<NumberEntity>

    /** The bound number entities are three different objects. */
    ghost predicate Valid()
      reads this
    {
      (amplitudeEntity.Some? && speedEntity.Some? ==> amplitudeEntity.value != speedEntity.value) &&
      (amplitudeEntity.Some? && colorFlowEntity.Some? ==> amplitudeEntity.value != colorFlowEntity.value) &&
      (speedEntity.Some? && colorFlowEntity.Some? ==> speedEntity.value != colorFlowEntity.value)
    }

    /** The objects an update may write. */
    ghost function Targets(): set<object>
      reads this
    {
      (if strip.Some? then {strip.value} else {}) +
      (if amplitudeEntity.Some? then {amplitudeEntity.value} else {}) +
      (if speedEntity.Some? then {speedEntity.value} else {}) +
      (if colorFlowEntity.Some? then {colorFlowEntity.value} else {})
    }

    ghost function State(): CoordinatorState
      reads this, Targets()
    {
      CoordinatorState(
        amplitude, speed, colorFlowSpeed,
        if strip.Some? then
          Some(WaveState(strip.value.amplitude, strip.value.speed, strip.value.waveSteps, strip.value.colorFlowSpeed))
        else None,
        if amplitudeEntity.Some? then Some(amplitudeEntity.value.value) else None,
        if speedEntity.Some? then Some(speedEntity.value.value) else None,
        if colorFlowEntity.Some? then Some(colorFlowEntity.value.value) else None)
    }

    constructor ()
      ensures Valid() && State() == InitialState()
    {
      amplitude := DefaultAmplitude;
      speed := DefaultSpeed;
      colorFlowSpeed := DefaultColorFlowSpeed;
      strip := None;
      amplitudeEntity := None;
      speedEntity := None;
      colorFlowEntity := None;
    }

    /** The light platform registers its strip. */
    method BindStrip(w: StripWave)
      modifies this
      ensures strip == Some(w)
      ensures amplitude == old(amplitude) && speed == old(speed) && colorFlowSpeed == old(colorFlowSpeed)
      ensures amplitudeEntity == old(amplitudeEntity) && speedEntity == old(speedEntity)
      ensures colorFlowEntity == old(colorFlowEntity)
    {
      strip := Some(w);
    }

    /** The number platform registers its amplitude and speed entities. */
    method BindNumbers(a: NumberEntity, s: NumberEntity)
      requires a != s
      requires colorFlowEntity.Some? ==> colorFlowEntity.value != a && colorFlowEntity.value != s
      modifies this
      ensures Valid()
      ensures amplitudeEntity == Some(a) && speedEntity == Some(s)
      ensures amplitude == old(amplitude) && speed == old(speed) && colorFlowSpeed == old(colorFlowSpeed)
      ensures strip == old(strip) && colorFlowEntity == old(colorFlowEntity)
    {
      amplitudeEntity := Some(a);
      speedEntity := Some(s);
    }

    method UpdateAmplitude(value: int)
      requires Valid()
      modifies this, Targets()
      ensures Valid() && Targets() == old(Targets())
      ensures State() == WithAmplitude(old(State()), value)
      ensures amplitudeEntity.Some? ==> amplitudeEntity.value.value == value
      ensures strip.Some? ==> strip.value.amplitude == value
      ensures strip == old(strip) && amplitudeEntity == old(amplitudeEntity)
      ensures speedEntity == old(speedEntity) && colorFlowEntity == old(colorFlowEntity)
    {
      amplitude := value;
      if amplitudeEntity.Some? {
        amplitudeEntity.value.value := value;
      }
      if strip.Some? {
        strip.value.amplitude := value;
      }
    }

    method UpdateSpeed(value: int)
      requires Valid()
      modifies this, Targets()
      ensures Valid() && Targets() == old(Targets())
      ensures State() == WithSpeed(old(State()), value)
      ensures speedEntity.Some? ==> speedEntity.value.value == value
      ensures strip.Some? ==> strip.value.speed == value && strip.value.waveSteps == WaveSteps(value)
      ensures strip == old(strip) && amplitudeEntity == old(amplitudeEntity)
      ensures speedEntity == old(speedEntity) && colorFlowEntity == old(colorFlowEntity)
    {
      speed := value;
      if speedEntity.Some? {
        speedEntity.value.value := value;
      }
      if strip.Some? {
        strip.value.speed := value;
        strip.value.waveSteps := WaveSteps(value);
      }
    }

    method UpdateColorFlowSpeed(value: int)
      requires Valid()
      modifies this, Targets()
      ensures Valid() && Targets() == old(Targets())
      ensures State() == WithColorFlowSpeed(old(State()), value)
      ensures colorFlowEntity.Some? ==> colorFlowEntity.value.value == value
      ensures strip.Some? ==> strip.value.colorFlowSpeed == Some(value)
      ensures strip == old(strip) && amplitudeEntity == old(amplitudeEntity)
      ensures speedEntity == old(speedEntity) && colorFlowEntity == old(colorFlowEntity)
    {
      colorFlowSpeed := value;
      if colorFlowEntity.Some? {
        colorFlowEntity.value.value := value;
      }
      if strip.Some? {
        strip.value.colorFlowSpeed := Some(value);
      }
    }
  }
}
