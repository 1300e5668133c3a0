# Govee Razer LED controller: a Dafny model

This project models the core of a Home Assistant integration that drives a
Govee LED strip over the Govee "razer" UDP protocol. It covers three parts.

- **The wire protocol** (`Packet`, `Bits`):
  - the binary frame `[0xBB, 0x00, len, command, payload…, checksum]`, whose checksum is the running XOR of every byte before it;
  - the Enable and LED-data payloads;
  - the transport object, which re-sends Enable before a colour frame when more than 30 seconds have passed.

  The socket is a log of the frames handed to it. Whether a send reaches the socket is a parameter.
- **The colour manager** (`ColorManager`):
  - the per-section colour list;
  - exact integer interpolation;
  - the three effects (double, mirror, stretched), each expanding the sections into exactly `num_leds` LED colours.

  Every effect is proved equal, LED by LED, to an independent reference definition. Its shape properties are proved on that reference: repetition, palindrome, section starts, interpolation bounds.
- **The entities** (`Light`, `Coordinator`):
  - the strip light, with its on/off, brightness, effect and wave state, the task guard of its animation loop, and one tick of that loop;
  - the per-section lights;
  - the wave coordinator, which pushes amplitude, speed and colour-flow speed into whichever number entities and strip are bound to it.

  The coordinator's updates are also given as pure transitions on value snapshots (`CoordinatorState`). Idempotence, last-write-wins, commutation and the in-step invariant are proved on those.

Python semantics are written out where they matter:
- `int()` truncates toward zero (`TruncDiv`, `TruncReal`);
- `%` is floor-mod (`PyMod`);
- `round` rounds half to even (`RoundHalfEven`);
- `bytes([...])` raises for a value outside 0..255 (`Fault.ByteOutOfRange`);
- division by zero raises (`Fault.ZeroDivision`).

`math.sin` is a function parameter. `time.time()` is a `now` parameter.

LED 0 of the stretched effect is section 0's colour when each section gets at least two LEDs, otherwise the last section's colour (custom_components/govee_razer_led/govee_protocol.py:199-213, `ColorManager.StretchedFirst`).

The setup form accepts up to 100 LEDs, but a frame's length byte only fits 84 colours. With 100 LEDs every animation frame therefore raises while the strip is on, and the model makes this an explicit `Err(ByteOutOfRange)` (`Packet.ConfigMaximumOverflows`, `Light.GoveeRazerStrip.FormMaximumNeverSends`). Only the turn-off frame still goes out: it carries `num_sections` black colours, at most 10, and no wave (`Light.BlackFrameBuilds`). The protocol-consistent bound of 84 LEDs is `Light.FrameFitsLeds`. Under it every tick's frame is accepted, provided a one-LED strip has amplitude 0 (`Light.GoveeRazerStrip.TickFrameSends`). The strip itself still accepts any LED count, as the code does, so the failing path stays in the model.

A strip of one LED with a non-zero amplitude divides by `num_leds - 1` in the wave brightness. Every tick while the strip is on then raises `ZeroDivisionError` before its frame is sent (`Light.GoveeRazerStrip.OneLedWaveNeverSends`). The turn-off black frame still goes out, since it does not use the wave. `Light.GuardedBrightnessWave` gives a lone LED phase 0 instead. It agrees with the code wherever the code succeeds, and it never raises. The strip model keeps the code's behaviour.

## Model

| member | source | states |
|---|---|---|
| Common.TruncReal | custom_components/light.py:238 | `int()` of a real truncates toward zero: within one below for x >= 0, within one above for x < 0 |
| Common.PyMod | custom_components/light.py:271 | Python `%`: result in [0, m) for m > 0, in (m, 0] for m < 0, congruent to a mod m |
| Common.RoundHalfEven | custom_components/light.py:223 | `round()`: nearest integer, ties to the even one |
| Common.Clamp | custom_components/light.py:238 | `max(lo, min(hi, x))` lies in [lo, hi], is x inside, the near bound outside |
| Common.ScaleChannel | custom_components/light.py:257-259 | a scaled channel is the largest r with r·255 ≤ c·b, so it truncates c·b/255 |
| Common.ScaleColor | custom_components/light.py:371-372 | a byte colour scaled by a byte brightness stays a byte colour and no channel increases |
| Common.ScaleChannelBounds | custom_components/light.py:257-260 | a channel scaled by brightness b/255 lies in [0, c], is c when b = 255 and 0 when b = 0 |
| Common.ScaleColorBounds | custom_components/light.py:371-372 | a byte colour scaled by a byte brightness stays a byte colour, no channel increases, b = 255 leaves it unchanged |
| Bits.XorBound | custom_components/govee_razer_led/govee_protocol.py:30-33 | XOR of two numbers below 2^n stays below 2^n, so the checksum is a byte |
| Bits.XorAssoc | custom_components/govee_razer_led/govee_protocol.py:30-33 | XOR is associative, so the running checksum can be split at any point |
| Bits.XorCancel | custom_components/govee_razer_led/govee_protocol.py:30-33 | a ^ b == 0 only when a == b |
| Bits.XorEnableHeader | custom_components/govee_razer_led/govee_protocol.py:16-19 | the XOR of the Enable header 0xBB 0x00 0x01 0xB1 is 0x0B |
| Packet.XorFoldAppend | custom_components/govee_razer_led/govee_protocol.py:28-33 | the checksum of a + b is the XOR of the checksums of a and b |
| Packet.Checksum | custom_components/govee_razer_led/govee_protocol.py:28-33 | the accumulator loop returns the running XOR of all bytes |
| Packet.CreatePacket | custom_components/govee_razer_led/govee_protocol.py:35-47 | the packet is the header, payload and checksum frame; a payload of 256 bytes or more raises |
| Packet.FrameLayout | custom_components/govee_razer_led/govee_protocol.py:37-47 | a frame is 5 bytes longer than its payload, with magic, size byte, length, command and payload in place |
| Packet.FrameXorZero | custom_components/govee_razer_led/govee_protocol.py:46-47 | the XOR over a whole frame, checksum included, is 0 |
| Packet.ParseFrame | custom_components/govee_razer_led/govee_protocol.py:35-47 | a receiver reading a built frame recovers its command and payload |
| Packet.ParseOnlyFrames | custom_components/govee_razer_led/govee_protocol.py:35-47 | every byte string a receiver accepts is the frame of what it reads from it |
| Packet.EnableFrameBytes | custom_components/govee_razer_led/govee_protocol.py:55-58 | Enable(on) is BB 00 01 B1 01 0A and Enable(off) is BB 00 01 B1 00 0B |
| Packet.ColorData | custom_components/govee_razer_led/govee_protocol.py:87-94 | the payload loop builds `[flag, count, r, g, b, …]` or raises for a count or channel outside a byte |
| Packet.ColorsRoundTrip | custom_components/govee_razer_led/govee_protocol.py:93-94 | the channel bytes decode back to the colour list |
| Packet.ColorPayload | custom_components/govee_razer_led/govee_protocol.py:87-94 | builds if and only if there are fewer than 256 colours and every channel is a byte; then `[flag, count]` followed by channel bytes that decode back to the colours; otherwise ByteOutOfRange |
| Packet.LedFrame | custom_components/govee_razer_led/govee_protocol.py:87-96 | a built colour frame is 3·n + 7 bytes with magic byte, length 2 + 3·n and command 0xB0, and XORs to zero; a failure is ByteOutOfRange |
| Packet.LedFrameOkIff | custom_components/govee_razer_led/govee_protocol.py:87-96 | a colour frame can be built if and only if there are at most 84 colours and every channel is a byte |
| Packet.LedFrameDecodes | custom_components/govee_razer_led/govee_protocol.py:87-96 | a built colour frame parses to command 0xB0, the gradient flag, the colour count and the colours |
| Packet.ConfigMaximumOverflows | custom_components/govee_razer_led/govee_protocol.py:91-96 | 100 colours, the setup maximum, always raise |
| Packet.ColorSendLogShape | custom_components/govee_razer_led/govee_protocol.py:82-100 | a colour send logs Enable first exactly when the keep-alive was due and delivered, and the colour frame last exactly when it was built and delivered |
| Packet.GoveeProtocol.constructor | custom_components/govee_razer_led/govee_protocol.py:21-26 | nothing sent yet, last Enable time 0 |
| Packet.GoveeProtocol.SendEnable | custom_components/govee_razer_led/govee_protocol.py:55-66 | a delivered Enable is logged and refreshes the timestamp; a failed one changes nothing |
| Packet.GoveeProtocol.SendColors | custom_components/govee_razer_led/govee_protocol.py:68-109 | keep-alive Enable when more than 30 s passed, then the colour frame; the outcome is the fault of building it, if any; `num_leds` has no effect |
| ColorManager.LerpProperties | custom_components/govee_razer_led/govee_protocol.py:145-147 | interpolation starts at the start colour, ends at the end colour, and every channel lies between the two |
| ColorManager.EffectOf | custom_components/govee_razer_led/govee_protocol.py:162-199 | "double" and "mirror" select their effects; every other name selects stretched |
| ColorManager.PadTo | custom_components/govee_razer_led/govee_protocol.py:214-217 | padding gives exactly n entries: the pattern's first n, then the fill colour |
| ColorManager.NextSectionWraps | custom_components/govee_razer_led/govee_protocol.py:206 | the next section index is (i + 1) % sections and wraps to 0 after the last |
| ColorManager.FrameMatchesReference | custom_components/govee_razer_led/govee_protocol.py:152-217 | every effect frame has exactly `num_leds` entries, each equal to the reference definition of that LED |
| ColorManager.DoubleFrameRepeats | custom_components/govee_razer_led/govee_protocol.py:162-176 | double: the second block of sections·k LEDs repeats the first, and both fit on the strip |
| ColorManager.DoubleRepeats | custom_components/govee_razer_led/govee_protocol.py:162-176 | the same on the reference LED colours |
| ColorManager.MirrorFramePalindrome | custom_components/govee_razer_led/govee_protocol.py:178-197 | mirror: the first 2·sections·k LEDs read the same reversed and fit on the strip |
| ColorManager.MirrorPalindrome | custom_components/govee_razer_led/govee_protocol.py:178-197 | the same on the reference LED colours |
| ColorManager.StretchedFirst | custom_components/govee_razer_led/govee_protocol.py:199-215 | stretched: LED 0 is section 0's colour when each section gets at least 2 LEDs, else the last section's |
| ColorManager.StretchedBetween | custom_components/govee_razer_led/govee_protocol.py:199-210 | stretched: each run starts at its section's colour, and every channel lies between that section and the next |
| ColorManager.StretchedExample | custom_components/govee_razer_led/govee_protocol.py:199-217 | five sections on 10 LEDs give the five colours, the last again, then section 0 four times |
| ColorManager.InterpolationSegment | custom_components/govee_razer_led/govee_protocol.py:208-210 | `interpolate(s, e, k - 1)[:-1]` is the section's run of interpolated colours |
| ColorManager.GoveeColorManager.constructor | custom_components/govee_razer_led/govee_protocol.py:122-126 | every section starts black |
| ColorManager.GoveeColorManager.GetSectionColor | custom_components/govee_razer_led/govee_protocol.py:133-137 | the stored colour for an index in range, None otherwise |
| ColorManager.GoveeColorManager.SetSectionColor | custom_components/govee_razer_led/govee_protocol.py:128-131 | replaces only the given in-range section; out of range nothing changes |
| ColorManager.GoveeColorManager.Interpolate | custom_components/govee_razer_led/govee_protocol.py:139-150 | steps = 0 gives [start], steps < 0 gives [], otherwise steps + 1 truncated linear blends |
| ColorManager.GoveeColorManager.AppendBlock | custom_components/govee_razer_led/govee_protocol.py:171-172 | the inner loop appends exactly k copies of the colour |
| ColorManager.GoveeColorManager.AppendForward | custom_components/govee_razer_led/govee_protocol.py:184-187 | the section loop appends every section in order, k LEDs each |
| ColorManager.GoveeColorManager.DoubleColors | custom_components/govee_razer_led/govee_protocol.py:164-172 | the double loops produce the section blocks twice |
| ColorManager.GoveeColorManager.MirrorColors | custom_components/govee_razer_led/govee_protocol.py:180-193 | the mirror loops produce the blocks forward then backward |
| ColorManager.GoveeColorManager.SectionSegment | custom_components/govee_razer_led/govee_protocol.py:205-210 | one pass of the stretched loop yields the section's run towards the next section |
| ColorManager.GoveeColorManager.AppendBackward | custom_components/govee_razer_led/govee_protocol.py:190-193 | the reversed loop appends the sections in reverse order, k LEDs each |
| ColorManager.GoveeColorManager.AppendStretched | custom_components/govee_razer_led/govee_protocol.py:201-213 | the interpolation loop plus the last section is the stretched pattern |
| ColorManager.GoveeColorManager.FillToLength | custom_components/govee_razer_led/govee_protocol.py:214-217 | the fill loop and final slice give exactly `num_leds` entries |
| ColorManager.GoveeColorManager.GenerateEffectColors | custom_components/govee_razer_led/govee_protocol.py:152-217 | returns the named effect's frame over the current section colours, exactly `num_leds` long |
| Coordinator.WaveSteps | custom_components/govee_razer_led/__init__.py:45-49 | 100 steps at speed 0, otherwise the integer nearest to 200π/speed + 1 |
| Coordinator.WaveStepsRange | custom_components/govee_razer_led/__init__.py:45-49 | for speeds -100..100 the period is never 0: 7..629 forward, -627..-5 backward |
| Coordinator.DefaultSpeedSteps | custom_components/govee_razer_led/__init__.py:47 | the default speed 30 calls for a period of 22 steps |
| Coordinator.FreshStripPeriod | custom_components/light.py:128-131 | a fresh strip copies amplitude and speed but keeps 100 steps, not the 22 its speed calls for |
| Coordinator.UpdatesKeepSynced | custom_components/govee_razer_led/__init__.py:27-58 | every update keeps each bound entity showing the coordinator's value |
| Coordinator.SpeedUpdateFixesSteps | custom_components/govee_razer_led/__init__.py:42-49 | after a speed update a bound strip's period matches its speed, and the other updates keep that |
| Coordinator.UpdatesLastWriteWins | custom_components/govee_razer_led/__init__.py:27-58 | repeating an update is idempotent, and of two updates of one parameter the last wins |
| Coordinator.UpdatesCommute | custom_components/govee_razer_led/__init__.py:27-58 | updates of different parameters commute |
| Coordinator.UnboundUpdatesOnlyRecord | custom_components/govee_razer_led/__init__.py:30-57 | with nothing bound an update changes only the coordinator's own field |
| Coordinator.GoveeWaveCoordinator.constructor | custom_components/govee_razer_led/__init__.py:17-25 | amplitude 50, speed 30, colour-flow 0, nothing bound |
| Coordinator.GoveeWaveCoordinator.BindStrip | custom_components/light.py:70 | registers the strip and changes nothing else |
| Coordinator.GoveeWaveCoordinator.BindNumbers | custom_components/number.py:33-34 | registers two distinct number entities and changes nothing else |
| Coordinator.GoveeWaveCoordinator.UpdateAmplitude | custom_components/govee_razer_led/__init__.py:27-34 | the new state is `WithAmplitude` of the old: coordinator, bound entity and strip amplitude set |
| Coordinator.GoveeWaveCoordinator.UpdateSpeed | custom_components/govee_razer_led/__init__.py:36-49 | the new state is `WithSpeed` of the old: speed set everywhere bound, and the strip's period recomputed |
| Coordinator.GoveeWaveCoordinator.UpdateColorFlowSpeed | custom_components/govee_razer_led/__init__.py:51-58 | the new state is `WithColorFlowSpeed` of the old, and the strip gains its colour-flow speed |
| Light.SetWaveStateKeepsSynced | custom_components/light.py:213-225 | set_wave keeps the coordinator in step, fixes the strip's period when a speed is given, and with no arguments changes nothing |
| Light.BrightnessWave | custom_components/light.py:230-238 | no wave returns the strip brightness; one LED with a wave divides by zero; otherwise the result is clamped to [0, 255] |
| Light.BrightnessWaveNear | custom_components/light.py:235-238 | with a sine bounded by 1, a wave brightness is within the amplitude of the strip brightness |
| Light.BlackFrameBuilds | custom_components/light.py:206-209 | the turn-off frame of black section colours can be built for every allowed section count |
| Light.GoveeRazerStrip.constructor | custom_components/light.py:112-139 | off, brightness 128, effect stretched, amplitude and speed from the coordinator, step 0 of 100, no task, not running, black sections |
| Light.GoveeRazerStrip.StartUpdateLoop | custom_components/light.py:283-286 | a task is created only when there is none |
| Light.GoveeRazerStrip.StopUpdateLoop | custom_components/light.py:288-297 | not running and no task afterwards |
| Light.GoveeRazerStrip.TurnOn | custom_components/light.py:186-197 | turns on; brightness and effect change only when given; a task is created only when not running and none exists, and an existing task is never replaced |
| Light.GoveeRazerStrip.TurnOff | custom_components/light.py:201-211 | off, loop stopped and task cleared, then one frame of `num_sections` black colours with the gradient flag set, which builds for allowed section counts |
| Light.GoveeRazerStrip.SetWave | custom_components/light.py:213-225 | coordinator state moves by `SetWaveState`; the strip takes each given argument, the period `WaveSteps(speed)`, and keeps what is not given |
| Light.GoveeRazerStrip.SetAmplitude | custom_components/light.py:214-216 | the coordinator moves by `WithAmplitude` with its bindings kept, and the strip's amplitude becomes the argument |
| Light.GoveeRazerStrip.SetSpeed | custom_components/light.py:218-225 | the coordinator moves by `WithSpeed` with its bindings kept, and the strip's speed and period follow the argument |
| Light.GoveeRazerStrip.CalculateBrightnessWave | custom_components/light.py:230-238 | the strip brightness without a wave, a division by zero for one LED with a wave, otherwise a value in [0, 255] |
| Light.GoveeRazerStrip.WaveFrameDims | custom_components/light.py:255-260 | waving a frame of byte colours keeps byte colours and never brightens a channel |
| Light.GoveeRazerStrip.ApplyWave | custom_components/light.py:254-260 | the colour loop scales each LED by its wave brightness, or raises the division by zero of the first LED |
| Light.GoveeRazerStrip.TickFrame | custom_components/light.py:251-260 | a tick's frame, when it builds, has exactly `num_leds` colours; with no sections it raises |
| ColorManager.FrameInByteRange | custom_components/govee_razer_led/govee_protocol.py:152-217 | byte section colours give a frame of exactly `num_leds` byte colours, for every effect |
| Light.GoveeRazerStrip.FormMaximumNeverSends | custom_components/config_flow.py:64-66 | a strip with the 100 LEDs the setup form accepts builds frames that the packet builder always rejects |
| Light.GoveeRazerStrip.TickFrameSends | custom_components/light.py:251-268 | with at most 84 LEDs, byte section colours, a byte brightness and, for a one-LED strip, amplitude 0, a tick's frame builds and is accepted by the packet builder |
| Light.GoveeRazerStrip.OneLedWaveNeverSends | custom_components/light.py:230-238 | a one-LED strip with a non-zero amplitude fails every tick taken while it is on with a division by zero, although 1 LED fits the 84-LED bound |
| Light.GuardedBrightnessWave | custom_components/light.py:230-238 | the wave with phase 0 for a lone LED: equals `BrightnessWave` whenever there is more than one LED, never raises, is the strip brightness without a wave and lies in [0, 255] with one |
| Light.GuardedBrightnessWaveNear | custom_components/light.py:235-238 | with a sine bounded by 1, the guarded wave keeps every LED, a lone one included, within the amplitude of the strip brightness |
| Light.GoveeRazerStrip.BuildFrame | custom_components/light.py:251-260 | the effect frame followed by the wave loop yields the tick's frame `TickFrame` |
| Light.GoveeRazerStrip.SendFrame | custom_components/light.py:262-271 | the frame is sent with keep-alive, and the step advances by Python `%` only when nothing raised |
| Light.GoveeRazerStrip.LoopBegins | custom_components/light.py:242-245 | the loop marks itself running and sends Enable(true) |
| Light.GoveeRazerStrip.Tick | custom_components/light.py:249-271 | off: nothing happens; on: the waved frame is sent with the gradient flag exactly for "stretched", and only if nothing raised does the step become `(step + 1) % wave_steps` |
| Light.GoveeRazerSection.constructor | custom_components/light.py:324-325 | a section starts white at brightness 255 |
| Light.GoveeRazerSection.TurnOn | custom_components/light.py:362-381 | stores the given colour and brightness, writes the scaled colour into its own section only, turns the strip on if it is off |
| Light.GoveeRazerSection.TurnOff | custom_components/light.py:383-387 | writes black into its own section only; the strip stays on or off as it was |

## Findings

| source | as written | input that shows it | evidently intended | confidence | as-written member | corrected member |
|---|---|---|---|---|---|---|
| custom_components/config_flow.py:65 | the setup form accepts up to 100 LEDs, but `len(data)` at custom_components/govee_razer_led/govee_protocol.py:41 must fit one byte, so an LED-data payload of `2 + 3·n` bytes raises for n ≥ 85 | `num_leds = 100`: while the strip is on, every animation frame has a 302-byte payload and `bytes([...])` raises on each tick; only the turn-off frame of `num_sections` black colours still goes out | accept at most 84 LEDs, the largest count whose payload fits the length byte | high; derived from the code, not executed | Light.GoveeRazerStrip.FormMaximumNeverSends | Light.GoveeRazerStrip.TickFrameSends |
| custom_components/light.py:235 | the phase divides by `num_leds - 1`, which is 0 for the one-LED strip the setup form accepts | `num_leds = 1` with the default amplitude 50: `_calculate_brightness_wave` raises ZeroDivisionError on each tick while the strip is on, so no animation frame is sent; only the turn-off black frame still goes out | give a lone LED phase 0, so it still waves in time | high; derived from the code, not executed | Light.GoveeRazerStrip.OneLedWaveNeverSends | Light.GuardedBrightnessWave |

## Left out

- Sockets, JSON wrapping and time:
  - the UDP socket, `_wrap_json` (base64 and JSON) and `close` are not modelled;
  - the log records the binary frame that would be wrapped;
  - whether a send reaches the socket is a boolean parameter;
  - the clock is a `now` parameter.
- asyncio:
  - task creation, cancellation and awaiting, `asyncio.sleep`, the executor and the one-second back-off after an error are not modelled;
  - the loop is modelled as its start (`LoopBegins`) and one pass of its body (`Tick`), whose `Outcome` is the exception the loop catches;
  - interleavings of coroutines are not modelled;
  - the task handle is never "done" while held, because every path that ends the loop also clears the handle, so the `done()` half of the guard does not appear.
- Home Assistant glue: entity properties, `async_write_ha_state`, service and platform registration, and setup/unload are not modelled. `number.py` is modelled only through the coordinator bindings it makes.
- Colour flow: no entity for the colour-flow speed is created anywhere, so no binding for one is modelled. The colour-flow speed is stored and never read.
- ScaleChannel: is the exact `trunc(c * b / 255)`. The source computes `int(c * (b / 255.0))` in floating point, which is one less for 12 byte pairs (for example c = 51, b = 155 gives 30 rather than 31).
- Common.TruncReal: the wave brightness uses exact reals for `math.pi`, `math.sin` and the phase, so float rounding of the phase and of the offset is not modelled.
- Coordinator.WaveSteps: uses exact reals. For every speed in -100..100 the exact value lies at least 0.009 from a rounding tie, so it rounds as the float expression does.
- ColorManager.GoveeColorManager.Interpolate: uses exact rational blending. The float expression in the source truncates to the same integers for channel values of the size used here.
- Light.GoveeRazerStrip.Tick: requires the loop to be running, which is the loop condition around the body modelled.
