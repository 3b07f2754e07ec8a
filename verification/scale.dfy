/**
 * The interval schemes of Scale::setScheme: for each scale type, the
 * semitone offsets of the 14 notes of two octaves above the key. The
 * comments beside each table give the step formula (whole = 2, half = 1,
 * 3*half = 3) that the table is meant to repeat over both octaves.
 */
module Scales {
  import opened Results

  /** The scheme of a scale: fourteen semitone offsets, two octaves of seven notes. */
  type SchemeTable = s: seq<int> | |s| == 14 witness [0, 0, 0, 0, 0, 0, 0, 0, 0, 0, 0, 0, 0, 0]

  /** The eight named scale types, and any other value the enum may hold. */
  datatype ScaleType =
    | Major | Minor | Dorian | Phrygian | Lydian | Mixolydian | MajorBlues | MinorBlues
    | Unlisted(code: int)

  const MajorScheme: seq<int> := [0, 2, 4, 5, 7, 9, 11, 12, 14, 16, 17, 19, 21, 23]
  const MinorScheme: seq<int> := [0, 2, 3, 5, 7, 8, 10, 12, 14, 15, 17, 19, 20, 22]
  const DorianScheme: seq<int> := [0, 2, 3, 5, 7, 9, 10, 12, 14, 15, 17, 19, 21, 22]
  const PhrygianScheme: seq<int> := [0, 1, 3, 5, 7, 8, 10, 12, 13, 15, 17, 19, 20, 22]
  const LydianScheme: seq<int> := [0, 2, 4, 6, 7, 9, 10, 11, 13, 15, 17, 18, 20, 22]
  const MixolydianScheme: seq<int> := [0, 2, 4, 5, 7, 9, 10, 12, 14, 16, 17, 19, 21, 22]
  const MajorBluesScheme: seq<int> := [0, 2, 3, 4, 7, 9, 12, 14, 15, 16, 19, 21, 24, 26]
  const MinorBluesScheme: seq<int> := [0, 3, 5, 6, 7, 10, 12, 15, 17, 18, 19, 22, 24, 27]

  /** The table setScheme assigns for a scale type; the default branch assigns none. */
  function Scheme(t: ScaleType): (s: Option<seq<int>>)
    ensures s.Some? <==> !t.Unlisted?
    ensures s.Some? ==> |s.value| == 14 && s.value[0] == 0
    ensures s.Some? ==> forall i :: 0 <= i < |s.value| ==> 0 <= s.value[i] <= 27
  {
    match t
    case Major => Some(MajorScheme)
    case Minor => Some(MinorScheme)
    case Dorian => Some(DorianScheme)
    case Phrygian => Some(PhrygianScheme)
    case Lydian => Some(LydianScheme)
    case Mixolydian => Some(MixolydianScheme)
    case MajorBlues => Some(MajorBluesScheme)
    case MinorBlues => Some(MinorBluesScheme)
    case Unlisted(_) => None
  }

  /*
   * The step formulas written in the comments beside the tables, one octave
   * long (whole = 2, half = 1, 3*half = 3).
   */
  const MajorFormula: seq<int> := [2, 2, 1, 2, 2, 2, 1]
  const MinorFormula: seq<int> := [2, 1, 2, 2, 1, 2, 2]
  const DorianFormula: seq<int> := [2, 1, 2, 2, 2, 1, 2]
  const PhrygianFormula: seq<int> := [1, 2, 2, 2, 1, 2, 2]
  const LydianFormula: seq<int> := [2, 2, 2, 1, 2, 2, 1]
  const MixolydianFormula: seq<int> := [2, 2, 1, 2, 2, 1, 2]
  const MajorBluesFormula: seq<int> := [2, 1, 1, 3, 2, 3]
  const MinorBluesFormula: seq<int> := [3, 2, 1, 1, 3, 2]

  /** The formula commented beside the table of a scale type. */
  function Formula(t: ScaleType): (f: seq<int>)
    requires !t.Unlisted?
    ensures f != [] && forall k :: 0 <= k < |f| ==> 1 <= f[k] <= 3
  {
    match t
    case Major => MajorFormula
    case Minor => MinorFormula
    case Dorian => DorianFormula
    case Phrygian => PhrygianFormula
    case Lydian => LydianFormula
    case Mixolydian => MixolydianFormula
    case MajorBlues => MajorBluesFormula
    case MinorBlues => MinorBluesFormula
  }

  // ---------------------------------------------------------------------
  // Step formulas and what they imply
  // ---------------------------------------------------------------------

  /** Step k of the formula taken over and over: the formula starts again after each octave. */
  function Step(f: seq<int>, k: nat): int
    requires f != []
    decreases k
  {
    if k < |f| then f[k] else Step(f, k - |f|)
  }

  /** `s` starts at 0 and climbs by the formula's steps, starting the formula over after each octave. */
  predicate FollowsFormula(s: seq<int>, f: seq<int>) {
    && s != [] && f != [] && s[0] == 0
    && forall k :: 0 <= k < |s| - 1 ==> s[k + 1] - s[k] == Step(f, k)
  }

  /** Entry i + p is entry i raised by an octave (12 semitones). */
  predicate RepeatsEvery(s: seq<int>, p: nat) {
    forall i :: 0 <= i < |s| - p ==> s[i + p] == s[i] + 12
  }

  predicate StrictlyIncreasing(s: seq<int>) {
    forall i, j :: 0 <= i < j < |s| ==> s[i] < s[j]
  }

  /** The sum of m consecutive steps of the repeated formula, starting at step i. */
  function Window(f: seq<int>, i: nat, m: nat): int
    requires f != []
    decreases m
  {
    if m == 0 then 0 else Step(f, i) + Window(f, i + 1, m - 1)
  }

  lemma {:induction false} WindowSnoc(f: seq<int>, i: nat, m: nat)
    requires f != []
    ensures Window(f, i, m + 1) == Window(f, i, m) + Step(f, i + m)
    decreases m
  {
    if m > 0 {
      WindowSnoc(f, i + 1, m - 1);
    }
  }

  /** A window one formula long sums to the whole formula, wherever it starts. */
  lemma {:induction false} FullWindow(f: seq<int>, i: nat)
    requires f != []
    ensures Window(f, i, |f|) == Window(f, 0, |f|)
    decreases i
  {
    if i > 0 {
      FullWindow(f, i - 1);
      WindowSnoc(f, i - 1, |f|);
      assert Step(f, i - 1 + |f|) == Step(f, i - 1);
    }
  }

  /** Following the formula, the distance from entry i to entry i + m is the window of those m steps. */
  lemma {:induction false} DistanceIsWindow(s: seq<int>, f: seq<int>, i: nat, m: nat)
    requires FollowsFormula(s, f) && i + m < |s|
    ensures s[i + m] - s[i] == Window(f, i, m)
    decreases m
  {
    if m > 0 {
      DistanceIsWindow(s, f, i + 1, m - 1);
    }
  }

  lemma {:induction false} StepPositive(f: seq<int>, k: nat)
    requires f != [] && forall j :: 0 <= j < |f| ==> f[j] > 0
    ensures Step(f, k) > 0
    decreases k
  {
    if k >= |f| {
      StepPositive(f, k - |f|);
    }
  }

  lemma {:induction false} WindowPositive(f: seq<int>, i: nat, m: nat)
    requires f != [] && forall k :: 0 <= k < |f| ==> f[k] > 0
    ensures m > 0 ==> Window(f, i, m) > 0
    decreases m
  {
    if m > 0 {
      StepPositive(f, i);
      WindowPositive(f, i + 1, m - 1);
    }
  }

  /** A formula of whole octaves repeats the table one octave higher after each full formula. */
  lemma FormulaRepeatsOctave(s: seq<int>, f: seq<int>)
    requires FollowsFormula(s, f) && Window(f, 0, |f|) == 12
    ensures RepeatsEvery(s, |f|)
  {
    forall i | 0 <= i < |s| - |f|
      ensures s[i + |f|] == s[i] + 12
    {
      DistanceIsWindow(s, f, i, |f|);
      FullWindow(f, i);
    }
  }

  /** Positive steps make the table strictly increasing. */
  lemma FormulaAscends(s: seq<int>, f: seq<int>)
    requires FollowsFormula(s, f) && forall k :: 0 <= k < |f| ==> f[k] > 0
    ensures StrictlyIncreasing(s)
  {
    forall i, j | 0 <= i < j < |s|
      ensures s[i] < s[j]
    {
      DistanceIsWindow(s, f, i, j - i);
      WindowPositive(f, i, j - i);
    }
  }

  // ---------------------------------------------------------------------
  // The eight tables against their formulas
  // ---------------------------------------------------------------------

  /** Every formula spans exactly one octave. */
  lemma FormulasSpanAnOctave(t: ScaleType)
    requires !t.Unlisted?
    ensures Window(Formula(t), 0, |Formula(t)|) == 12
  {
    match t {
      case Major => assert Window(MajorFormula, 0, 7) == 12;
      case Minor => assert Window(MinorFormula, 0, 7) == 12;
      case Dorian => assert Window(DorianFormula, 0, 7) == 12;
      case Phrygian => assert Window(PhrygianFormula, 0, 7) == 12;
      case Lydian => assert Window(LydianFormula, 0, 7) == 12;
      case Mixolydian => assert Window(MixolydianFormula, 0, 7) == 12;
      case MajorBlues => assert Window(MajorBluesFormula, 0, 6) == 12;
      case MinorBlues => assert Window(MinorBluesFormula, 0, 6) == 12;
    }
  }

  /** Every table except LYDIAN climbs exactly by its formula, over both octaves. */
  lemma SchemeFollowsFormula(t: ScaleType)
    requires !t.Unlisted? && t != Lydian
    ensures FollowsFormula(Scheme(t).value, Formula(t))
  {
    match t {
      case Major => MajorFollowsFormula();
      case Minor => MinorFollowsFormula();
      case Dorian => DorianFollowsFormula();
      case Phrygian => PhrygianFollowsFormula();
      case Mixolydian => MixolydianFollowsFormula();
      case MajorBlues => MajorBluesFollowsFormula();
      case MinorBlues => MinorBluesFollowsFormula();
    }
  }

  lemma MajorFollowsFormula()
    ensures FollowsFormula(MajorScheme, MajorFormula)
  {
    forall k | 0 <= k < 13
      ensures MajorScheme[k + 1] - MajorScheme[k] == Step(MajorFormula, k)
    {
      if k >= |MajorFormula| {
        assert Step(MajorFormula, k) == Step(MajorFormula, k - |MajorFormula|);
      }
    }
  }

  lemma MinorFollowsFormula()
    ensures FollowsFormula(MinorScheme, MinorFormula)
  {
    forall k | 0 <= k < 13
      ensures MinorScheme[k + 1] - MinorScheme[k] == Step(MinorFormula, k)
    {
      if k >= |MinorFormula| {
        assert Step(MinorFormula, k) == Step(MinorFormula, k - |MinorFormula|);
      }
    }
  }

  lemma DorianFollowsFormula()
    ensures FollowsFormula(DorianScheme, DorianFormula)
  {
    forall k | 0 <= k < 13
      ensures DorianScheme[k + 1] - DorianScheme[k] == Step(DorianFormula, k)
    {
      if k >= |DorianFormula| {
        assert Step(DorianFormula, k) == Step(DorianFormula, k - |DorianFormula|);
      }
    }
  }

  lemma PhrygianFollowsFormula()
    ensures FollowsFormula(PhrygianScheme, PhrygianFormula)
  {
    forall k | 0 <= k < 13
      ensures PhrygianScheme[k + 1] - PhrygianScheme[k] == Step(PhrygianFormula, k)
    {
      if k >= |PhrygianFormula| {
        assert Step(PhrygianFormula, k) == Step(PhrygianFormula, k - |PhrygianFormula|);
      }
    }
  }

  lemma MixolydianFollowsFormula()
    ensures FollowsFormula(MixolydianScheme, MixolydianFormula)
  {
    forall k | 0 <= k < 13
      ensures MixolydianScheme[k + 1] - MixolydianScheme[k] == Step(MixolydianFormula, k)
    {
      if k >= |MixolydianFormula| {
        assert Step(MixolydianFormula, k) == Step(MixolydianFormula, k - |MixolydianFormula|);
      }
    }
  }

  lemma MajorBluesFollowsFormula()
    ensures FollowsFormula(MajorBluesScheme, MajorBluesFormula)
  {
    forall k | 0 <= k < 13
      ensures MajorBluesScheme[k + 1] - MajorBluesScheme[k] == Step(MajorBluesFormula, k)
    {
      if k >= |MajorBluesFormula| {
        assert Step(MajorBluesFormula, k) == Step(MajorBluesFormula, k - |MajorBluesFormula|);
      }
    }
  }

  lemma MinorBluesFollowsFormula()
    ensures FollowsFormula(MinorBluesScheme, MinorBluesFormula)
  {
    forall k | 0 <= k < 13
      ensures MinorBluesScheme[k + 1] - MinorBluesScheme[k] == Step(MinorBluesFormula, k)
    {
      if k >= |MinorBluesFormula| {
        assert Step(MinorBluesFormula, k) == Step(MinorBluesFormula, k - |MinorBluesFormula|);
      }
    }
  }

  /**
   * The LYDIAN table follows its formula for its first six entries, but
   * its entry 6 is 10 where the formula gives 9 + 2 = 11.
   */
  lemma LydianBreaksFormula()
    ensures LydianScheme[..6] == [0, 2, 4, 6, 7, 9]
    ensures forall k :: 0 <= k < 5 ==> LydianScheme[k + 1] - LydianScheme[k] == LydianFormula[k]
    ensures LydianScheme[6] == 10 && LydianScheme[5] + LydianFormula[5] == 11
    ensures !FollowsFormula(LydianScheme, LydianFormula)
  {
    assert LydianScheme[5 + 1] - LydianScheme[5] != Step(LydianFormula, 5);
  }

  /** Every table is strictly increasing. */
  lemma SchemeAscends(t: ScaleType)
    requires !t.Unlisted?
    ensures StrictlyIncreasing(Scheme(t).value)
  {
    if t == Lydian {
      var s := LydianScheme;
      var steps := [2, 2, 2, 1, 2, 1, 1, 2, 2, 2, 1, 2, 2];
      assert FollowsFormula(s, steps);
      FormulaAscends(s, steps);
    } else {
      SchemeFollowsFormula(t);
      FormulaAscends(Scheme(t).value, Formula(t));
    }
  }

  /**
   * The two octaves repeat: entry i + 7 is entry i plus 12 for the five
   * seven-note modes other than LYDIAN, and entry i + 6 is entry i plus 12
   * for the two six-note blues scales; LYDIAN does not repeat.
   */
  lemma OctaveRepetition(t: ScaleType)
    requires !t.Unlisted?
    ensures t in {Major, Minor, Dorian, Phrygian, Mixolydian} ==> RepeatsEvery(Scheme(t).value, 7)
    ensures t in {MajorBlues, MinorBlues} ==> RepeatsEvery(Scheme(t).value, 6)
    ensures t == Lydian ==> !RepeatsEvery(Scheme(t).value, 7) && LydianScheme[7] != LydianScheme[0] + 12
  {
    if t != Lydian {
      SchemeRepeatsAfterFormula(t);
    } else {
      assert LydianScheme[0 + 7] != LydianScheme[0] + 12;
    }
  }

  /** Every table except LYDIAN repeats one octave higher after one full formula. */
  lemma SchemeRepeatsAfterFormula(t: ScaleType)
    requires !t.Unlisted? && t != Lydian
    ensures RepeatsEvery(Scheme(t).value, |Formula(t)|)
  {
    SchemeFollowsFormula(t);
    FormulasSpanAnOctave(t);
    FormulaRepeatsOctave(Scheme(t).value, Formula(t));
  }

  // ---------------------------------------------------------------------
  // The Scale object
  // ---------------------------------------------------------------------

  /**
   * A scale: its type and key, fixed at construction, and the interval
   * scheme that setScheme fills in.
   */
  class Scale {
    const scaleType: ScaleType
    const key: string
    var scheme: SchemeTable

    /** The constructor leaves the fourteen entries of the scheme uninitialised; their contents are a parameter here. */
    constructor(scaleType: ScaleType, key: string, uninitialised: SchemeTable)
      ensures this.scaleType == scaleType && this.key == key && scheme == uninitialised
    {
      this.scaleType := scaleType;
      this.key := key;
      scheme := uninitialised;
    }

    /**
     * setScheme switches on the stored scale type, not on its argument:
     * the argument has no effect. The default branch leaves the scheme as
     * it was; nothing but the scheme changes.
     */
    method SetScheme(scaleType: ScaleType)
      modifies this`scheme
      ensures scheme == if Scheme(this.scaleType).Some? then Scheme(this.scaleType).value else old(scheme)
    {
      match this.scaleType {
        case Major => scheme := MajorScheme;
        case Minor => scheme := MinorScheme;
        case Dorian => scheme := DorianScheme;
        case Phrygian => scheme := PhrygianScheme;
        case Lydian => scheme := LydianScheme;
        case Mixolydian => scheme := MixolydianScheme;
        case MajorBlues => scheme := MajorBluesScheme;
        case MinorBlues => scheme := MinorBluesScheme;
        case Unlisted(_) =>
      }
    }
  }
}
