/** Defaults and limits of the integration, with the values its constants
    module gives them. */
module Const {
  const DefaultPort := 4003
  const DefaultNumLeds := 10
  const DefaultNumSections := 5
  const DefaultBrightness := 128
  const DefaultAmplitude := 50
  const DefaultSpeed := 30
  const DefaultColorFlowSpeed := 0

  const MinSections := 2
  const MaxSections := 10
  /** Upper bound the setup form accepts for the number of LEDs. */
  const MaxConfigLeds := 100

  const EffectDouble := "double"
  const EffectMirror := "mirror"
  const EffectStretched := "stretched"

  /** Animation period used when the wave speed is 0. */
  const StaticWaveSteps := 100
  /** Seconds after which the next colour send re-sends Enable. */
  const KeepAliveSeconds := 30.0
}
