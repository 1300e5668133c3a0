/** GoveeColorManager: the per-section colours of a strip and their
    expansion into one colour per LED for the double, mirror and stretched
    effects. */
module ColorManager {
  import opened Common
  import opened Const

  // ---------------------------------------------------------------------
  // Interpolation

  /** One channel of entry `i` of interpolate(a, b, steps):
      int(a + (b - a) * i / steps), with int() rounding toward zero. */
  function LerpChannel(a: int, b: int, i: int, steps: int): int
    requires steps > 0
  {
    TruncDiv(a * steps + (b - a) * i, steps)
  }

  function Lerp(s: RGB, e: RGB, i: int, steps: int): RGB
    requires steps > 0
  {
    RGB(LerpChannel(s.r, e.r, i, steps), LerpChannel(s.g, e.g, i, steps), LerpChannel(s.b, e.b, i, steps))
  }

  function Min(a: int, b: int): int { if a <= b then a else b }
  function Max(a: int, b: int): int { if a <= b then b else a }

  lemma TruncDivExact(a: int, d: int)
    requires d > 0
    ensures TruncDiv(a * d, d) == a
  {
    if a >= 0 {
      MulMono(0, a, d);
      DivOfRange(a * d, d, a);
    } else {
      assert (-a) * d == -(a * d);
      MulMono(0, -a, d);
      DivOfRange(-(a * d), d, -a);
    }
  }

  /** int() of a rational between lo and hi stays between lo and hi. */
  lemma TruncDivBetween(n: int, d: int, lo: int, hi: int)
    requires d > 0 && lo * d <= n <= hi * d
    ensures lo <= TruncDiv(n, d) <= hi
  {
    var q := TruncDiv(n, d);
    TruncDivBounds(n, d);
    if n >= 0 {
      MulCancelLe(q, hi, d);
      assert (q + 1) * d == q * d + d;
      MulCancelLt(lo, q + 1, d);
    } else {
      assert (q - 1) * d == q * d - d;
      MulCancelLt(q - 1, hi, d);
      MulCancelLe(lo, q, d);
    }
  }

  lemma LerpChannelEnds(a: int, b: int, steps: int)
    requires steps > 0
    ensures LerpChannel(a, b, 0, steps) == a
    ensures LerpChannel(a, b, steps, steps) == b
  {
    TruncDivExact(a, steps);
    assert a * steps + (b - a) * steps == b * steps;
    TruncDivExact(b, steps);
  }

  lemma LerpChannelBetween(a: int, b: int, i: int, steps: int)
    requires steps > 0 && 0 <= i <= steps
    ensures Min(a, b) <= LerpChannel(a, b, i, steps) <= Max(a, b)
  {
    var n := a * steps + (b - a) * i;
    assert b * steps == a * steps + (b - a) * steps;
    if a <= b {
      MulMono(0, i, b - a);
      MulMono(i, steps, b - a);
      TruncDivBetween(n, steps, a, b);
    } else {
      MulMono(0, i, a - b);
      MulMono(i, steps, a - b);
      assert (b - a) * i == -((a - b) * i);
      assert (b - a) * steps == -((a - b) * steps);
      TruncDivBetween(n, steps, b, a);
    }
  }

  /** The first entry is the start colour, the last the end colour, and every
      channel in between lies between the two endpoint channels. */
  lemma LerpProperties(s: RGB, e: RGB, i: int, steps: int)
    requires steps > 0 && 0 <= i <= steps
    ensures Lerp(s, e, 0, steps) == s && Lerp(s, e, steps, steps) == e
    ensures Min(s.r, e.r) <= Lerp(s, e, i, steps).r <= Max(s.r, e.r)
    ensures Min(s.g, e.g) <= Lerp(s, e, i, steps).g <= Max(s.g, e.g)
    ensures Min(s.b, e.b) <= Lerp(s, e, i, steps).b <= Max(s.b, e.b)
  {
    LerpChannelEnds(s.r, e.r, steps);
    LerpChannelEnds(s.g, e.g, steps);
    LerpChannelEnds(s.b, e.b, steps);
    LerpChannelBetween(s.r, e.r, i, steps);
    LerpChannelBetween(s.g, e.g, i, steps);
    LerpChannelBetween(s.b, e.b, i, steps);
  }

  // ---------------------------------------------------------------------
  // Effect patterns, built the way the code appends them

  datatype Effect = Double | Mirror | Stretched

  /** "double" and "mirror" by name; every other name is the stretched
      default. */
  function EffectOf(name: string): (e: Effect)
    ensures e == Double <==> name == EffectDouble
    ensures e == Mirror <==> name == EffectMirror
  {
    if name == EffectDouble then Double
    else if name == EffectMirror then Mirror
    else Stretched
  }

  /** The pattern padded with `fill` up to `n` entries, then cut to `n`. */
  function PadTo(pattern: seq<RGB>, n: nat, fill: RGB): (r: seq<RGB>)
    ensures |r| == n
    ensures forall j :: 0 <= j < n && j < |pattern| ==> r[j] == pattern[j]
    ensures forall j :: |pattern| <= j < n ==> r[j] == fill
  {
    if |pattern| >= n then pattern[..n] else pattern + Repeat(fill, n - |pattern|)
  }

  /** Each colour of `cs` in order, repeated `k` times. */
  function Blocks(cs: seq<RGB>, k: nat): (r: seq<RGB>)
    ensures |r| == |cs| * k
    decreases |cs|
  {
    if |cs| == 0 then [] else Blocks(cs[..|cs| - 1], k) + Repeat(cs[|cs| - 1], k)
  }

  function Reverse(cs: seq<RGB>): (r: seq<RGB>)
    ensures |r| == |cs|
    ensures forall j :: 0 <= j < |cs| ==> r[j] == cs[|cs| - 1 - j]
  {
    seq(|cs|, j requires 0 <= j < |cs| => cs[|cs| - 1 - j])
  }

  /** interpolated[:-1] for one section: the entries a section adds. */
  function Segment(s: RGB, e: RGB, perSection: int): (r: seq<RGB>)
    ensures |r| == if perSection >= 2 then perSection - 1 else 0
  {
    if perSection >= 2
    then seq(perSection - 1, i requires 0 <= i < perSection - 1 => Lerp(s, e, i, perSection - 1))
    else []
  }

  /** The section after section i, wrapping to 0: (i + 1) % sections. */
  function NextSection(i: nat, sections: nat): (r: nat)
    requires i < sections
    ensures r < sections
  {
    if i + 1 == sections then 0 else i + 1
  }

  lemma NextSectionWraps(i: nat, sections: nat)
    requires i < sections
    ensures NextSection(i, sections) == (i + 1) % sections
  {
    if i + 1 < sections {
      DivOfRange(i + 1, sections, 0);
    } else {
      DivOfRange(i + 1, sections, 1);
    }
  }

  /** The segment of every section, each blending towards the next
      section's colour (the last one wraps to section 0). */
  function SegmentList(cs: seq<RGB>, perSection: int): (r: seq<seq<RGB>>)
    ensures |r| == |cs|
  {
    seq(|cs|, i requires 0 <= i < |cs| => Segment(cs[i], cs[NextSection(i, |cs|)], perSection))
  }

  /** The parts joined in order. */
  function Concat(parts: seq<seq<RGB>>): seq<RGB>
  {
    if |parts| == 0 then [] else Concat(parts[..|parts| - 1]) + parts[|parts| - 1]
  }

  /** LEDs per section of the double effect: (n // 2) // sections. */
  function DoubleWidth(n: nat, sections: nat): nat
    requires sections >= 1
  {
    (n / 2) / sections
  }

  /** LEDs per section of the mirror effect: n // (2 * sections). */
  function MirrorWidth(n: nat, sections: nat): nat
    requires sections >= 1
  {
    DivNonneg(n, 2 * sections);
    n / (2 * sections)
  }

  /** Interpolated LEDs each section adds in the stretched effect. */
  function StretchedWidth(n: nat, sections: nat): nat
    requires sections >= 1
  {
    var per := n / sections;
    if per >= 2 then per - 1 else 0
  }

  function Pattern(effect: Effect, n: nat, cs: seq<RGB>): seq<RGB>
    requires |cs| >= 1
  {
    match effect
    case Double =>
      var k := DoubleWidth(n, |cs|);
      Blocks(cs, k) + Blocks(cs, k)
    case Mirror =>
      var k := MirrorWidth(n, |cs|);
      Blocks(cs, k) + Blocks(Reverse(cs), k)
    case Stretched =>
      Concat(SegmentList(cs, n / |cs|)) + [cs[|cs| - 1]]
  }

  /** generate_effect_colors: the effect's pattern, padded with section 0's
      colour and cut to exactly `n` LEDs. */
  function LedColors(effect: Effect, n: nat, cs: seq<RGB>): seq<RGB>
    requires |cs| >= 1
  {
    PadTo(Pattern(effect, n, cs), n, cs[0])
  }

  function EffectFrame(name: string, n: nat, cs: seq<RGB>): seq<RGB>
    requires |cs| >= 1
  {
    LedColors(EffectOf(name), n, cs)
  }

  // ---------------------------------------------------------------------
  // Reference definitions: the colour of LED j computed directly

  /** An index below sections * k lies in block j / k, one of the sections. */
  lemma BlockIndex(j: int, k: int, sections: int)
    requires 0 <= j < sections * k && k >= 0 && sections >= 0
    ensures k > 0 && 0 <= j / k < sections
  {
    PositiveFactors(sections, k);
    assert (j / k) * k <= j;
    MulCancelLt(j / k, sections, k);
  }

  /** Double: sections * k LEDs of blocks, the same again, then section 0. */
  function DoubleLed(n: nat, cs: seq<RGB>, j: nat): RGB
    requires |cs| >= 1
  {
    var k := DoubleWidth(n, |cs|);
    var h := |cs| * k;
    if j < h then BlockIndex(j, k, |cs|); cs[j / k]
    else if j < 2 * h then BlockIndex(j - h, k, |cs|); cs[(j - h) / k]
    else cs[0]
  }

  /** Mirror: the blocks forward, then backward, then section 0. */
  function MirrorLed(n: nat, cs: seq<RGB>, j: nat): RGB
    requires |cs| >= 1
  {
    var k := MirrorWidth(n, |cs|);
    var h := |cs| * k;
    if j < h then BlockIndex(j, k, |cs|); cs[j / k]
    else if j < 2 * h then BlockIndex(j - h, k, |cs|); cs[|cs| - 1 - (j - h) / k]
    else cs[0]
  }

  /** Stretched: LED j of section i = j / w blends section i towards section
      i + 1 (wrapping) at step j % w of w; then the last section's colour;
      then section 0. */
  function StretchedLed(n: nat, cs: seq<RGB>, j: nat): RGB
    requires |cs| >= 1
  {
    var w := StretchedWidth(n, |cs|);
    var h := |cs| * w;
    if j < h then
      BlockIndex(j, w, |cs|);
      var i := j / w;
      Lerp(cs[i], cs[NextSection(i, |cs|)], j % w, w)
    else if j == h then cs[|cs| - 1]
    else cs[0]
  }

  function LedColor(effect: Effect, n: nat, cs: seq<RGB>, j: nat): RGB
    requires |cs| >= 1
  {
    match effect
    case Double => DoubleLed(n, cs, j)
    case Mirror => MirrorLed(n, cs, j)
    case Stretched => StretchedLed(n, cs, j)
  }

  // ---------------------------------------------------------------------
  // The appended frame agrees with the reference definitions

  /** Entry j of the blocks belongs to colour j / k. */
  lemma {:induction false} BlocksAt(cs: seq<RGB>, k: nat, j: int)
    requires 0 <= j < |cs| * k
    ensures k > 0 && 0 <= j / k < |cs|
    ensures Blocks(cs, k)[j] == cs[j / k]
    decreases |cs|
  {
    BlockIndex(j, k, |cs|);
    var m := |cs| - 1;
    var init := cs[..m];
    assert |cs| * k == m * k + k;
    if j < m * k {
      BlocksAt(init, k, j);
    } else {
      DivOfRange(j, k, m);
    }
  }

  /** Parts of equal width w: Concat has Times(|parts|, w) entries. */
  lemma {:induction false} ConcatLength(parts: seq<seq<RGB>>, w: nat)
    requires forall x :: 0 <= x < |parts| ==> |parts[x]| == w
    ensures |Concat(parts)| == Times(|parts|, w)
    decreases |parts|
  {
    if |parts| > 0 {
      ConcatLength(parts[..|parts| - 1], w);
    }
  }

  /** Parts of equal width w: entry t of part i sits at Times(i, w) + t. */
  lemma {:induction false} ConcatAt(parts: seq<seq<RGB>>, w: nat, i: nat, t: nat)
    requires forall x :: 0 <= x < |parts| ==> |parts[x]| == w
    requires i < |parts| && t < w
    ensures Times(i, w) + t < |Concat(parts)|
    ensures Concat(parts)[Times(i, w) + t] == parts[i][t]
    decreases |parts|
  {
    var init := parts[..|parts| - 1];
    ConcatLength(init, w);
    if i < |parts| - 1 {
      ConcatAt(init, w, i, t);
    }
  }

  lemma DoubleAt(n: nat, cs: seq<RGB>, j: nat)
    requires |cs| >= 1 && j < n
    ensures LedColors(Double, n, cs)[j] == DoubleLed(n, cs, j)
  {
    var k := DoubleWidth(n, |cs|);
    var h := |cs| * k;
    DivMulBelow(n / 2, |cs|);
    var b := Blocks(cs, k);
    assert Pattern(Double, n, cs) == b + b;
    if j < h {
      BlocksAt(cs, k, j);
    } else if j < 2 * h {
      BlocksAt(cs, k, j - h);
    }
  }

  lemma MirrorAt(n: nat, cs: seq<RGB>, j: nat)
    requires |cs| >= 1 && j < n
    ensures LedColors(Mirror, n, cs)[j] == MirrorLed(n, cs, j)
  {
    var k := MirrorWidth(n, |cs|);
    var h := |cs| * k;
    DivMulBelow(n, 2 * |cs|);
    assert 2 * h == (2 * |cs|) * k;
    var b, r := Blocks(cs, k), Blocks(Reverse(cs), k);
    assert Pattern(Mirror, n, cs) == b + r;
    if j < h {
      BlocksAt(cs, k, j);
    } else if j < 2 * h {
      BlocksAt(Reverse(cs), k, j - h);
    }
  }

  lemma StretchedAt(n: nat, cs: seq<RGB>, j: nat)
    requires |cs| >= 1 && j < n
    ensures LedColors(Stretched, n, cs)[j] == StretchedLed(n, cs, j)
  {
    var per := n / |cs|;
    var w := StretchedWidth(n, |cs|);
    var parts := SegmentList(cs, per);
    ConcatLength(parts, w);
    TimesIsMul(|cs|, w);
    if j < |cs| * w {
      BlockIndex(j, w, |cs|);
      var i, t := j / w, j % w;
      DivModTimes(j, w);
      ConcatAt(parts, w, i, t);
    }
  }

  /** Every LED of the frame has the colour its reference definition
      gives it. */
  lemma FrameMatchesReference(effect: Effect, n: nat, cs: seq<RGB>)
    requires |cs| >= 1
    ensures |LedColors(effect, n, cs)| == n
    ensures forall j :: 0 <= j < n ==> LedColors(effect, n, cs)[j] == LedColor(effect, n, cs, j)
  {
    forall j | 0 <= j < n
      ensures LedColors(effect, n, cs)[j] == LedColor(effect, n, cs, j)
    {
      match effect
      case Double => DoubleAt(n, cs, j);
      case Mirror => MirrorAt(n, cs, j);
      case Stretched => StretchedAt(n, cs, j);
    }
  }

  // ---------------------------------------------------------------------
  // Properties of the effects, stated on the reference definitions

  /** Double: the second run of sections * k LEDs repeats the first, and
      both fit on the strip. */
  lemma DoubleRepeats(n: nat, cs: seq<RGB>, j: nat)
    requires |cs| >= 1
    requires j < |cs| * DoubleWidth(n, |cs|)
    ensures 2 * (|cs| * DoubleWidth(n, |cs|)) <= n
    ensures DoubleLed(n, cs, j) == DoubleLed(n, cs, j + |cs| * DoubleWidth(n, |cs|))
  {
    DivMulBelow(n / 2, |cs|);
  }

  /** Mirror: the first 2 * sections * k LEDs read the same backwards. */
  lemma MirrorPalindrome(n: nat, cs: seq<RGB>, j: nat)
    requires |cs| >= 1
    requires j < 2 * (|cs| * MirrorWidth(n, |cs|))
    ensures 2 * (|cs| * MirrorWidth(n, |cs|)) <= n
    ensures MirrorLed(n, cs, j) == MirrorLed(n, cs, 2 * (|cs| * MirrorWidth(n, |cs|)) - 1 - j)
  {
    var ns := |cs|;
    var k := MirrorWidth(n, ns);
    var h := ns * k;
    DivMulBelow(n, 2 * ns);
    assert 2 * h == (2 * ns) * k;
    // i is the index in the forward half, h - 1 - i its image in the backward half
    var i := if j < h then j else 2 * h - 1 - j;
    BlockIndex(i, k, ns);
    var q, r := i / k, i % k;
    assert i == q * k + r;
    assert h - 1 - i == (ns - 1 - q) * k + (k - 1 - r);
    DivOfRange(h - 1 - i, k, ns - 1 - q);
  }

  /** Double, on the frame itself: the second block repeats the first. */
  lemma DoubleFrameRepeats(n: nat, cs: seq<RGB>)
    requires |cs| >= 1
    ensures var m := |cs| * DoubleWidth(n, |cs|);
      && 2 * m <= n
      && forall j :: 0 <= j < m ==> LedColors(Double, n, cs)[j] == LedColors(Double, n, cs)[j + m]
  {
    var m := |cs| * DoubleWidth(n, |cs|);
    DivMulBelow(n / 2, |cs|);
    FrameMatchesReference(Double, n, cs);
    forall j | 0 <= j < m
      ensures LedColors(Double, n, cs)[j] == LedColors(Double, n, cs)[j + m]
    {
      DoubleRepeats(n, cs, j);
    }
  }

  /** Mirror, on the frame itself: the first 2 * sections * k LEDs read the
      same backwards. */
  lemma MirrorFramePalindrome(n: nat, cs: seq<RGB>)
    requires |cs| >= 1
    ensures var m := 2 * (|cs| * MirrorWidth(n, |cs|));
      && m <= n
      && forall j :: 0 <= j < m ==> LedColors(Mirror, n, cs)[j] == LedColors(Mirror, n, cs)[m - 1 - j]
  {
    var m := 2 * (|cs| * MirrorWidth(n, |cs|));
    DivMulBelow(n, 2 * |cs|);
    assert m == (2 * |cs|) * MirrorWidth(n, |cs|);
    FrameMatchesReference(Mirror, n, cs);
    forall j | 0 <= j < m
      ensures LedColors(Mirror, n, cs)[j] == LedColors(Mirror, n, cs)[m - 1 - j]
    {
      MirrorPalindrome(n, cs, j);
    }
  }

  /** Stretched: LED 0 shows section 0 when every section gets at least two
      LEDs, and the last section otherwise. */
  lemma StretchedFirst(n: nat, cs: seq<RGB>)
    requires |cs| >= 1
    ensures StretchedLed(n, cs, 0) == if n / |cs| >= 2 then cs[0] else cs[|cs| - 1]
  {
    var w := StretchedWidth(n, |cs|);
    if w > 0 {
      assert 0 < |cs| * w;
      LerpProperties(cs[0], cs[NextSection(0, |cs|)], 0, w);
    } else {
      assert |cs| * w == 0;
    }
  }

  /** Stretched: the section colours appear at the start of their runs and
      every interpolated channel stays between the two sections it blends. */
  lemma StretchedBetween(n: nat, cs: seq<RGB>, j: nat)
    requires |cs| >= 1
    requires j < |cs| * StretchedWidth(n, |cs|)
    ensures StretchedWidth(n, |cs|) > 0 && j / StretchedWidth(n, |cs|) < |cs|
    ensures var w := StretchedWidth(n, |cs|);
      var i := j / w;
      var s, e, c := cs[i], cs[NextSection(i, |cs|)], StretchedLed(n, cs, j);
      && (j % w == 0 ==> c == s)
      && Min(s.r, e.r) <= c.r <= Max(s.r, e.r)
      && Min(s.g, e.g) <= c.g <= Max(s.g, e.g)
      && Min(s.b, e.b) <= c.b <= Max(s.b, e.b)
  {
    var w := StretchedWidth(n, |cs|);
    BlockIndex(j, w, |cs|);
    var i := j / w;
    LerpProperties(cs[i], cs[NextSection(i, |cs|)], j % w, w);
  }

  /** One LED of any effect shows a byte colour when every section does:
      blocks copy a section and blends stay between two. */
  lemma LedColorInByteRange(effect: Effect, n: nat, cs: seq<RGB>, j: nat)
    requires |cs| >= 1
    requires forall i :: 0 <= i < |cs| ==> InByteRange(cs[i])
    ensures InByteRange(LedColor(effect, n, cs, j))
  {
    match effect
    case Double =>
      var k := DoubleWidth(n, |cs|);
      if j < 2 * (|cs| * k) && j >= |cs| * k {
        BlockIndex(j - |cs| * k, k, |cs|);
      } else if j < |cs| * k {
        BlockIndex(j, k, |cs|);
      }
    case Mirror =>
      var k := MirrorWidth(n, |cs|);
      if j < 2 * (|cs| * k) && j >= |cs| * k {
        BlockIndex(j - |cs| * k, k, |cs|);
      } else if j < |cs| * k {
        BlockIndex(j, k, |cs|);
      }
    case Stretched =>
      if j < |cs| * StretchedWidth(n, |cs|) {
        StretchedBetween(n, cs, j);
      }
  }

  /** Section colours that are bytes give a frame of byte colours, for every
      effect. */
  lemma FrameInByteRange(effect: Effect, n: nat, cs: seq<RGB>)
    requires |cs| >= 1
    requires forall i :: 0 <= i < |cs| ==> InByteRange(cs[i])
    ensures |LedColors(effect, n, cs)| == n
    ensures forall j :: 0 <= j < n ==> InByteRange(LedColors(effect, n, cs)[j])
  {
    FrameMatchesReference(effect, n, cs);
    forall j | 0 <= j < n
      ensures InByteRange(LedColors(effect, n, cs)[j])
    {
      LedColorInByteRange(effect, n, cs, j);
    }
  }

  /** Five sections red, green, blue, yellow, white on a 10-LED strip. */
  const ExampleSections := [RGB(255, 0, 0), RGB(0, 255, 0), RGB(0, 0, 255), RGB(255, 255, 0), RGB(255, 255, 255)]

  /** Each section keeps its own colour for one LED, white repeats, the rest
      pads with red. */
  const ExampleFrame := ExampleSections + [RGB(255, 255, 255)] + Repeat(RGB(255, 0, 0), 4)

  lemma StretchedExampleLed(j: nat)
    requires j < 10
    ensures StretchedLed(10, ExampleSections, j) == ExampleFrame[j]
  {
    assert StretchedWidth(10, 5) == 1;
    if j < 5 {
      LerpProperties(ExampleSections[j], ExampleSections[NextSection(j, 5)], 0, 1);
    }
  }

  /** The stretched frame of the example. */
  lemma StretchedExample()
    ensures EffectFrame(EffectStretched, 10, ExampleSections) == ExampleFrame
  {
    assert EffectOf(EffectStretched) == Stretched;
    var frame := LedColors(Stretched, 10, ExampleSections);
    forall j | 0 <= j < 10
      ensures frame[j] == ExampleFrame[j]
    {
      StretchedAt(10, ExampleSections, j);
      StretchedExampleLed(j);
    }
  }

  /** interpolate(start, end, per - 1)[:-1] is the section's segment. */
  lemma InterpolationSegment(s: RGB, e: RGB, perSection: int, r: seq<RGB>)
    requires perSection - 1 == 0 ==> r == [s]
    requires perSection - 1 < 0 ==> r == []
    requires perSection - 1 > 0 ==>
      (|r| == perSection && forall i :: 0 <= i <= perSection - 1 ==> r[i] == Lerp(s, e, i, perSection - 1))
    ensures (if |r| == 0 then [] else r[..|r| - 1]) == Segment(s, e, perSection)
  {
  }

  // ---------------------------------------------------------------------
  // The colour manager

  class GoveeColorManager {
    const numLeds: nat
    const numSections: nat
    var sectionColors: seq<RGB>

    ghost predicate Valid()
      reads this
    {
      |sectionColors| == numSections
    }

    /** Every section starts black. */
    constructor (numLeds: nat, numSections: nat)
      ensures Valid()
      ensures this.numLeds == numLeds && this.numSections == numSections
      ensures sectionColors == Repeat(Black, numSections)
    {
      this.numLeds := numLeds;
      this.numSections := numSections;
      sectionColors := Repeat(Black, numSections);
    }

    /** The stored colour of an existing section; None for any other index. */
    function GetSectionColor(section: int): (r: Option<RGB>)
      reads this
      requires Valid()
      ensures r.Some? <==> 0 <= section < numSections
      ensures r.Some? ==> r.value == sectionColors[section]
    {
      if 0 <= section < numSections then Some(sectionColors[section]) else None
    }

    /** Replaces one section's colour; an index outside the sections is
        silently ignored. */
    method SetSectionColor(section: int, rgb: RGB)
      requires Valid()
      modifies this
      ensures Valid()
      ensures 0 <= section < numSections ==> GetSectionColor(section) == Some(rgb)
      ensures forall j :: j != section ==> GetSectionColor(j) == old(GetSectionColor(j))
      ensures !(0 <= section < numSections) ==> sectionColors == old(sectionColors)
    {
      if 0 <= section < numSections {
        sectionColors := sectionColors[section := rgb];
      }
    }

    /** interpolate: `steps + 1` blended colours from start to end, the
        start colour alone for 0 steps, nothing for negative steps. */
    method Interpolate(startColor: RGB, endColor: RGB, steps: int) returns (result: seq<RGB>)
      ensures steps == 0 ==> result == [startColor]
      ensures steps < 0 ==> result == []
      ensures steps > 0 ==>
        (|result| == steps + 1 && forall i :: 0 <= i <= steps ==> result[i] == Lerp(startColor, endColor, i, steps))
    {
      if steps == 0 {
        return [startColor];
      }
      result := [];
      if steps < 0 {
        return;
      }
      for i := 0 to steps + 1
        invariant |result| == i
        invariant forall j :: 0 <= j < i ==> result[j] == Lerp(startColor, endColor, j, steps)
      {
        var r := TruncDiv(startColor.r * steps + (endColor.r - startColor.r) * i, steps);
        var g := TruncDiv(startColor.g * steps + (endColor.g - startColor.g) * i, steps);
        var b := TruncDiv(startColor.b * steps + (endColor.b - startColor.b) * i, steps);
        result := result + [RGB(r, g, b)];
      }
    }

    /** One `for _ in range(k): colors.append(color)` loop. */
    method AppendBlock(colors: seq<RGB>, color: RGB, k: nat) returns (out: seq<RGB>)
      ensures out == colors + Repeat(color, k)
    {
      out := colors;
      for t := 0 to k
        invariant out == colors + Repeat(color, t)
      {
        assert Repeat(color, t + 1) == Repeat(color, t) + [color];
        out := out + [color];
      }
    }

    /** Appends the blocks of every section, first to last. */
    method AppendForward(colors: seq<RGB>, k: nat) returns (out: seq<RGB>)
      requires Valid()
      ensures out == colors + Blocks(sectionColors, k)
    {
      out := colors;
      for section := 0 to numSections
        invariant out == colors + Blocks(sectionColors[..section], k)
      {
        out := AppendBlock(out, sectionColors[section], k);
        assert sectionColors[..section + 1][..section] == sectionColors[..section];
      }
      assert sectionColors[..numSections] == sectionColors;
    }

    /** Appends the blocks of every section, last to first. */
    method AppendBackward(colors: seq<RGB>, k: nat) returns (out: seq<RGB>)
      requires Valid()
      ensures out == colors + Blocks(Reverse(sectionColors), k)
    {
      out := colors;
      ghost var backward := Reverse(sectionColors);
      for section := numSections downto 0
        invariant out == colors + Blocks(backward[..numSections - section], k)
      {
        out := AppendBlock(out, sectionColors[section], k);
        assert backward[..numSections - section][..numSections - section - 1]
            == backward[..numSections - section - 1];
      }
      assert backward[..numSections] == backward;
    }

    /** One pass of the stretched loop: interpolated[:-1] from section i
        towards the next section. */
    method SectionSegment(i: nat, ledsPerSection: int) returns (head: seq<RGB>)
      requires Valid() && i < numSections
      ensures head == Segment(sectionColors[i], sectionColors[NextSection(i, numSections)], ledsPerSection)
    {
      var startColor := sectionColors[i];
      var endColor := sectionColors[(i + 1) % numSections];
      NextSectionWraps(i, numSections);
      var interpolated := Interpolate(startColor, endColor, ledsPerSection - 1);
      InterpolationSegment(startColor, endColor, ledsPerSection, interpolated);
      head := if |interpolated| == 0 then [] else interpolated[..|interpolated| - 1];
    }

    /** The stretched loop: for each section, interpolated[:-1] towards the
        next one, then the last section's colour. */
    method AppendStretched() returns (colors: seq<RGB>)
      requires Valid() && numSections >= 1
      ensures colors == Pattern(Stretched, numLeds, sectionColors)
    {
      colors := [];
      var ledsPerSection := numLeds / numSections;
      ghost var parts := SegmentList(sectionColors, ledsPerSection);
      for i := 0 to numSections
        invariant colors == Concat(parts[..i])
      {
        var head := SectionSegment(i, ledsPerSection);
        assert parts[..i + 1][..i] == parts[..i];
        colors := colors + head;
      }
      assert parts[..numSections] == parts;
      colors := colors + [sectionColors[numSections - 1]];
    }

    /** The `while len(colors) < num_leds` padding followed by `[:num_leds]`. */
    method FillToLength(pattern: seq<RGB>, fill: RGB) returns (colors: seq<RGB>)
      ensures colors == PadTo(pattern, numLeds, fill)
    {
      colors := pattern;
      while |colors| < numLeds
        invariant |pattern| <= |colors|
        invariant |colors| > |pattern| ==> |colors| <= numLeds
        invariant colors == pattern + Repeat(fill, |colors| - |pattern|)
        decreases numLeds - |colors|
      {
        assert Repeat(fill, |colors| + 1 - |pattern|) == Repeat(fill, |colors| - |pattern|) + [fill];
        colors := colors + [fill];
      }
      colors := colors[..numLeds];
    }

    /** The double loop: every section's block, twice over. */
    method DoubleColors() returns (pattern: seq<RGB>)
      requires Valid() && numSections >= 1
      ensures pattern == Pattern(Double, numLeds, sectionColors)
    {
      var ledsPerRepeat := numLeds / 2;
      var ledsPerSection := ledsPerRepeat / numSections;
      pattern := AppendForward([], ledsPerSection);
      pattern := AppendForward(pattern, ledsPerSection);
    }

    /** The mirror loops: every section's block forward, then backward. */
    method MirrorColors() returns (pattern: seq<RGB>)
      requires Valid() && numSections >= 1
      ensures pattern == Pattern(Mirror, numLeds, sectionColors)
    {
      var ledsPerSection := numLeds / (2 * numSections);
      pattern := AppendForward([], ledsPerSection);
      pattern := AppendBackward(pattern, ledsPerSection);
    }

    /** generate_effect_colors: one colour per LED, the frame of the named
        effect over the current section colours. */
    method GenerateEffectColors(effect: string) returns (colors: seq<RGB>)
      requires Valid() && numSections >= 1
      ensures colors == EffectFrame(effect, numLeds, sectionColors)
      ensures |colors| == numLeds
    {
      var pattern: seq<RGB>;
      if effect == EffectDouble {
        pattern := DoubleColors();
      } else if effect == EffectMirror {
        pattern := MirrorColors();
      } else {
        pattern := AppendStretched();
      }
      assert pattern == Pattern(EffectOf(effect), numLeds, sectionColors);
      colors := FillToLength(pattern, sectionColors[0]);
    }
  }
}
