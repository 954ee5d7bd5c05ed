/** The scores of the alert rollup: from the priority queue to risk, attention and
    readiness, and from there along a chain of three-way averages. */
module ScoreChain {
  import opened Basics
  import opened Bps

  /** Services by action level, and the concentration figures of the queue. */
  datatype Queue = Queue(intervene: nat, watch: nat, calm: nat,
                         hhi: nat, leaderGap: nat, gini: nat, evenness: nat)

  ghost predicate QueueOk(q: Queue) {
    q.intervene + q.watch + q.calm < U64 && q.hhi <= 10_000 && q.leaderGap <= 10_000
  }

  function SatMul(a: nat, b: nat): nat {
    Min(a * b, U64 - 1)
  }

  function Actionable(q: Queue): nat {
    SatAdd(q.intervene, q.watch)
  }

  function Size(q: Queue): nat {
    q.intervene + q.watch + q.calm
  }

  function CriticalBps(q: Queue): nat {
    RatioBps(q.intervene, Size(q))
  }

  function Risk(q: Queue): nat {
    if Size(q) == 0 then 0
    else
      var actionable := SatMul(RatioBps(Actionable(q), Size(q)), 40);
      var critical := SatMul(CriticalBps(q), 40);
      SatAdd(SatAdd(SatAdd(actionable, critical), SatMul(q.hhi, 10)), SatMul(q.leaderGap, 10)) / 100
  }

  datatype Band = NoRisk | Low | Elevated | High | Extreme

  function RiskBand(risk: nat, size: nat): Band {
    if size == 0 || risk == 0 then NoRisk
    else if risk >= 7_500 then Extreme
    else if risk >= 5_000 then High
    else if risk >= 2_500 then Elevated
    else Low
  }

  function ResponseSla(b: Band): nat {
    match b
    case Extreme => 1_800
    case High => 7_200
    case Elevated => 21_600
    case Low => 86_400
    case NoRisk => 0
  }

  /** Load level and multiplier in one: idle, light, medium, heavy. */
  function SlaMultiplier(size: nat): nat {
    if size == 0 then 0 else if size <= 2 then 10_000 else if size <= 5 then 12_500 else 15_000
  }

  function Sla(q: Queue): nat {
    ResponseSla(RiskBand(Risk(q), Size(q)))
  }

  function EffectiveSla(q: Queue): nat {
    if Sla(q) == 0 then 0 else (Sla(q) * SlaMultiplier(Size(q)) + 9_999) / 10_000
  }

  function Slippage(q: Queue): nat {
    if Sla(q) == 0 then 0 else RatioBps(SatSub(EffectiveSla(q), Sla(q)), Sla(q))
  }

  function AdjustedRisk(q: Queue): nat {
    Risk(q) * SlaMultiplier(Size(q)) / 10_000
  }

  function RiskDelta(q: Queue): nat {
    SatSub(AdjustedRisk(q), Risk(q))
  }

  function Polarization(q: Queue): nat {
    if Actionable(q) == 0 then 0 else RatioBps(AbsDiff(q.intervene, q.watch), Actionable(q))
  }

  function Balance(q: Queue): nat {
    if Actionable(q) == 0 then 0 else SatSub(10_000, Polarization(q))
  }

  function WeightedUnits(q: Queue): nat {
    SatAdd(SatAdd(SatMul(q.intervene, 3), SatMul(q.watch, 2)), q.calm)
  }

  function Pressure(q: Queue): nat {
    if Size(q) == 0 then 0 else WeightedUnits(q) * 10_000 / (Size(q) * 3)
  }

  function Attention(q: Queue): nat {
    if Actionable(q) == 0 then 0 else (AdjustedRisk(q) + Pressure(q)) / 2
  }

  function AttentionDelta(q: Queue): nat {
    if Actionable(q) == 0 then 0 else AbsDiff(Attention(q), Risk(q))
  }

  function Readiness(q: Queue): nat {
    if Actionable(q) == 0 then 0 else SatSub(10_000, (Attention(q) + Pressure(q)) / 2)
  }

  function Stability(q: Queue): nat {
    if Actionable(q) == 0 then 0 else SatSub(Readiness(q), AttentionDelta(q) / 2)
  }

  // Bounds of the base figures.

  lemma SharesAreBps(q: Queue)
    requires QueueOk(q) && Size(q) > 0
    ensures CriticalBps(q) <= RatioBps(Actionable(q), Size(q)) <= 10_000
  {
    RatioOfPart(q.intervene, Actionable(q), Size(q));
  }

  /** The risk score is a basis-point figure: its weights add up to 100, and
      nothing in it saturates. */
  lemma RiskBound(q: Queue)
    requires QueueOk(q)
    ensures Risk(q) <= 10_000
    ensures Size(q) == 0 ==> Risk(q) == 0
  {
    if Size(q) > 0 {
      SharesAreBps(q);
    }
  }

  /** Adjusting for load never lowers the risk and adds at most half of it, so its
      delta never saturates. */
  lemma AdjustedRiskBound(q: Queue)
    requires QueueOk(q)
    ensures Risk(q) <= AdjustedRisk(q) <= 15_000
    ensures AdjustedRisk(q) == Risk(q) + RiskDelta(q) && RiskDelta(q) <= 5_000
  {
    RiskBound(q);
    var m := SlaMultiplier(Size(q));
    if Size(q) > 0 {
      MulMonotone(Risk(q), 10_000, m);
      MulMonotone(Risk(q), m, 15_000);
    }
  }

  /** The response time slips by nothing, a quarter or a half: decided by the size
      of the queue alone, once there is any risk. */
  lemma SlippageValues(q: Queue)
    requires QueueOk(q)
    ensures Slippage(q) == if Risk(q) == 0 || Size(q) <= 2 then 0 else if Size(q) <= 5 then 2_500 else 5_000
  {
    RiskBound(q);
    if Sla(q) > 0 {
      SlippageTable(Sla(q), SlaMultiplier(Size(q)));
    }
  }

  lemma SlippageTable(sla: nat, multiplier: nat)
    requires sla in {1_800, 7_200, 21_600, 86_400} && multiplier in {10_000, 12_500, 15_000}
    ensures RatioBps(SatSub((sla * multiplier + 9_999) / 10_000, sla), sla) == multiplier - 10_000
  {
    var slip := SatSub((sla * multiplier + 9_999) / 10_000, sla);
    if sla == 1_800 {
      assert slip == if multiplier == 10_000 then 0 else if multiplier == 12_500 then 450 else 900;
    } else if sla == 7_200 {
      assert slip == if multiplier == 10_000 then 0 else if multiplier == 12_500 then 1_800 else 3_600;
    } else if sla == 21_600 {
      assert slip == if multiplier == 10_000 then 0 else if multiplier == 12_500 then 5_400 else 10_800;
    } else {
      assert slip == if multiplier == 10_000 then 0 else if multiplier == 12_500 then 21_600 else 43_200;
    }
  }

  lemma UnitsBound(q: Queue)
    requires QueueOk(q)
    ensures WeightedUnits(q) <= 3 * Size(q)
  {
  }

  lemma PressureBound(q: Queue)
    requires QueueOk(q)
    ensures Pressure(q) <= 10_000
  {
    if Size(q) > 0 {
      UnitsBound(q);
      DivBounds(WeightedUnits(q) * 10_000, Size(q) * 3, 10_001);
    }
  }

  lemma AttentionBound(q: Queue)
    requires QueueOk(q)
    ensures Attention(q) <= 12_500
    ensures Readiness(q) <= 10_000 && Stability(q) <= Readiness(q)
    ensures Attention(q) <= 10_000 ==> Actionable(q) == 0 || Readiness(q) == 10_000 - (Attention(q) + Pressure(q)) / 2
  {
    AdjustedRiskBound(q);
    PressureBound(q);
  }

  /** Nothing to act on polarises nothing; otherwise the gap is part of the whole. */
  lemma BalanceBound(q: Queue)
    requires QueueOk(q)
    ensures Polarization(q) <= 10_000 && Balance(q) <= 10_000
    ensures Actionable(q) > 0 ==> Balance(q) == 10_000 - Polarization(q)
  {
    if Actionable(q) > 0 {
      RatioOfPart(AbsDiff(q.intervene, q.watch), Actionable(q), Actionable(q));
    }
  }

  // What the base figures are, between whole basis points.

  /** The share in basis points, rounded down. */
  ghost predicate IsShare(bps: nat, part: nat, whole: nat) {
    bps * whole <= 10_000 * part < (bps + 1) * whole
  }

  lemma ShareOf(part: nat, whole: nat)
    requires part <= whole && whole > 0
    ensures IsShare(RatioBps(part, whole), part, whole)
  {
    RatioOfPart(part, part, whole);
    DivParts(part * 10_000, whole);
  }

  /** Forty parts of the services that call for action, forty of those that call for
      intervention, ten of the concentration and ten of the lead. */
  lemma RiskIsWeighted(q: Queue) returns (acting: nat, critical: nat)
    requires QueueOk(q) && Size(q) > 0
    ensures IsShare(acting, q.intervene + q.watch, q.intervene + q.watch + q.calm)
    ensures IsShare(critical, q.intervene, q.intervene + q.watch + q.calm)
    ensures
      var weighted := 40 * acting + 40 * critical + 10 * q.hhi + 10 * q.leaderGap;
      100 * Risk(q) <= weighted < 100 * Risk(q) + 100
  {
    acting, critical := RatioBps(Actionable(q), Size(q)), CriticalBps(q);
    SharesAreBps(q);
    ShareOf(Actionable(q), Size(q));
    ShareOf(q.intervene, Size(q));
  }

  /** The risk as it is for one or two services, by a quarter more for up to five,
      and by half more beyond. */
  lemma LoadAdjustsRisk(q: Queue)
    requires QueueOk(q)
    ensures
      var n, risk, adjusted := q.intervene + q.watch + q.calm, Risk(q), AdjustedRisk(q);
      && (n <= 2 ==> adjusted == risk)
      && (2 < n <= 5 ==> 4 * adjusted <= 5 * risk < 4 * adjusted + 4)
      && (n > 5 ==> 2 * adjusted <= 3 * risk < 2 * adjusted + 2)
  {
    RiskBound(q);
  }

  /** Half an hour, two hours, six hours or a day, by quarters of the risk scale, and
      as much more as the load asks for. */
  lemma ResponseTimes(q: Queue)
    requires QueueOk(q)
    ensures
      var n, risk, sla, effective := q.intervene + q.watch + q.calm, Risk(q), Sla(q), EffectiveSla(q);
      && (sla == 0 <==> risk == 0)
      && (0 < risk < 2_500 ==> sla == 24 * 60 * 60) && (2_500 <= risk < 5_000 ==> sla == 6 * 60 * 60)
      && (5_000 <= risk < 7_500 ==> sla == 2 * 60 * 60) && (7_500 <= risk ==> sla == 30 * 60)
      && (n <= 2 ==> effective == sla) && (2 < n <= 5 ==> 4 * effective == 5 * sla)
      && (n > 5 ==> 2 * effective == 3 * sla)
  {
    RiskBound(q);
    if Sla(q) > 0 {
      StretchedSla(Sla(q), SlaMultiplier(Size(q)));
    }
  }

  lemma StretchedSla(sla: nat, multiplier: nat)
    requires sla in {1_800, 7_200, 21_600, 86_400} && multiplier in {10_000, 12_500, 15_000}
    ensures
      var effective := (sla * multiplier + 9_999) / 10_000;
      && (multiplier == 10_000 ==> effective == sla) && (multiplier == 12_500 ==> 4 * effective == 5 * sla)
      && (multiplier == 15_000 ==> 2 * effective == 3 * sla)
  {
  }

  /** Three for each intervention, two for each watch, one for each other service, out
      of three for all. */
  lemma PressureIsWeighted(q: Queue)
    requires QueueOk(q) && 3 * Size(q) < U64
    ensures Size(q) == 0 ==> Pressure(q) == 0
    ensures Size(q) > 0 ==> IsShare(Pressure(q), 3 * q.intervene + 2 * q.watch + q.calm, 3 * Size(q))
  {
    if Size(q) > 0 {
      DivParts(WeightedUnits(q) * 10_000, Size(q) * 3);
    }
  }

  lemma PolarizationIsShare(q: Queue)
    requires QueueOk(q) && Actionable(q) > 0
    ensures IsShare(Polarization(q), if q.intervene >= q.watch then q.intervene - q.watch else q.watch - q.intervene,
                    q.intervene + q.watch)
  {
    ShareOf(AbsDiff(q.intervene, q.watch), Actionable(q));
  }

  /** Attention is midway between adjusted risk and pressure, readiness what attention
      and pressure leave midway, and stability is readiness less half of how far
      attention and risk are apart. */
  lemma AttentionIsMidway(q: Queue)
    requires QueueOk(q)
    ensures
      var a, r, p, stable := Attention(q), Readiness(q), Pressure(q), Stability(q);
      && (q.intervene + q.watch == 0 ==> a == 0 && r == 0 && stable == 0 && AttentionDelta(q) == 0)
      && (q.intervene + q.watch > 0 ==>
            && 2 * a <= AdjustedRisk(q) + p <= 2 * a + 1
            && (a + p < 20_000 ==> 2 * (10_000 - r) <= a + p <= 2 * (10_000 - r) + 1) && (a + p >= 20_000 ==> r == 0)
            && (a >= Risk(q) ==> AttentionDelta(q) == a - Risk(q)) && (a < Risk(q) ==> AttentionDelta(q) == Risk(q) - a)
            && stable == (if r >= AttentionDelta(q) / 2 then r - AttentionDelta(q) / 2 else 0))
  {
  }

  // The chain.

  datatype Signal =
    | ReadinessScore | StabilityScore | BalanceScore | DiversitySignal
    | InverseGini | InverseCritical | InverseSpread | InverseAttention | InverseSlippage
    | InverseLeaderGap | InversePressure | InverseRisk | InverseRiskDelta | InversePolarization
    | InverseHhi | InverseAttentionDelta

  datatype Score =
    | Resilience | Coherence | Adaptability | Sustainability | Continuity | Recoverability
    | Regeneration | Restoration | Stewardship | Guardianship | Assurance | Vigilance
    | Oversight | Accountability | Verifiability | Auditability | Transparency | Legibility
    | Navigability | Interpretability | Explainability | Clarity | Comprehensibility
    | Intelligibility | Communicability | Articulability | Expressivity | Eloquence
    | Lucidity | Illumination | Clarion | Resonance | Cadence | Harmony

  datatype Input = From(score: Score) | Reading(signal: Signal)

  datatype Stage = Stage(first: Input, second: Input, third: Input)

  /** What each score is the average of. */
  function StageOf(s: Score): Stage {
    match s
    case Resilience => Stage(Reading(StabilityScore), Reading(BalanceScore), Reading(InverseGini))
    case Coherence => Stage(From(Resilience), Reading(StabilityScore), Reading(ReadinessScore))
    case Adaptability => Stage(From(Coherence), Reading(DiversitySignal), Reading(InverseCritical))
    case Sustainability => Stage(From(Adaptability), Reading(InverseSpread), Reading(InverseAttention))
    case Continuity => Stage(From(Sustainability), Reading(InverseSlippage), Reading(InverseLeaderGap))
    case Recoverability => Stage(From(Continuity), Reading(BalanceScore), Reading(InverseAttention))
    case Regeneration => Stage(From(Recoverability), From(Sustainability), Reading(InverseCritical))
    case Restoration => Stage(From(Regeneration), From(Continuity), Reading(InversePressure))
    case Stewardship => Stage(From(Restoration), From(Recoverability), Reading(InverseRisk))
    case Guardianship => Stage(From(Stewardship), From(Restoration), Reading(InverseLeaderGap))
    case Assurance => Stage(From(Guardianship), From(Stewardship), Reading(InverseRiskDelta))
    case Vigilance => Stage(From(Assurance), From(Guardianship), Reading(InversePolarization))
    case Oversight => Stage(From(Vigilance), From(Assurance), Reading(InverseHhi))
    case Accountability => Stage(From(Vigilance), From(Assurance), Reading(InverseHhi))
    case Verifiability => Stage(From(Accountability), From(Oversight), Reading(InverseRiskDelta))
    case Auditability => Stage(From(Verifiability), From(Accountability), Reading(InverseSpread))
    case Transparency => Stage(From(Auditability), From(Verifiability), Reading(InverseGini))
    case Legibility => Stage(From(Transparency), From(Auditability), Reading(DiversitySignal))
    case Navigability => Stage(From(Legibility), Reading(ReadinessScore), Reading(InverseLeaderGap))
    case Interpretability => Stage(From(Navigability), From(Transparency), Reading(InverseSpread))
    case Explainability => Stage(From(Interpretability), From(Legibility), Reading(InversePolarization))
    case Clarity => Stage(From(Explainability), From(Interpretability), Reading(InverseSpread))
    case Comprehensibility => Stage(From(Clarity), From(Explainability), Reading(InverseAttentionDelta))
    case Intelligibility => Stage(From(Comprehensibility), From(Clarity), Reading(InverseAttention))
    case Communicability => Stage(From(Intelligibility), From(Comprehensibility), Reading(InverseRiskDelta))
    case Articulability => Stage(From(Communicability), From(Intelligibility), Reading(InversePolarization))
    case Expressivity => Stage(From(Articulability), From(Communicability), Reading(InverseGini))
    case Eloquence => Stage(From(Expressivity), From(Articulability), Reading(InverseAttentionDelta))
    case Lucidity => Stage(From(Eloquence), From(Intelligibility), Reading(InversePolarization))
    case Illumination => Stage(From(Lucidity), From(Transparency), Reading(InverseAttention))
    case Clarion => Stage(From(Illumination), From(Eloquence), Reading(InverseAttentionDelta))
    case Resonance => Stage(From(Clarion), From(Communicability), Reading(InverseRiskDelta))
    case Cadence => Stage(From(Resonance), From(Eloquence), Reading(InverseAttentionDelta))
    case Harmony => Stage(From(Cadence), From(Resonance), From(Communicability))
  }

  /** The order in which the scores are computed. */
  function Position(s: Score): nat {
    match s
    case Resilience => 0 case Coherence => 1 case Adaptability => 2 case Sustainability => 3
    case Continuity => 4 case Recoverability => 5 case Regeneration => 6 case Restoration => 7
    case Stewardship => 8 case Guardianship => 9 case Assurance => 10 case Vigilance => 11
    case Oversight => 12 case Accountability => 13 case Verifiability => 14 case Auditability => 15
    case Transparency => 16 case Legibility => 17 case Navigability => 18 case Interpretability => 19
    case Explainability => 20 case Clarity => 21 case Comprehensibility => 22 case Intelligibility => 23
    case Communicability => 24 case Articulability => 25 case Expressivity => 26 case Eloquence => 27
    case Lucidity => 28 case Illumination => 29 case Clarion => 30 case Resonance => 31
    case Cadence => 32 case Harmony => 33
  }

  predicate Earlier(i: Input, s: Score) {
    i.From? ==> Position(i.score) < Position(s)
  }

  lemma StagesLookBack(s: Score)
    ensures Earlier(StageOf(s).first, s) && Earlier(StageOf(s).second, s) && Earlier(StageOf(s).third, s)
  {
    FirstLooksBack(s);
    SecondLooksBack(s);
    ThirdLooksBack(s);
  }

  lemma FirstLooksBack(s: Score)
    ensures Earlier(StageOf(s).first, s)
  {
  }

  lemma SecondLooksBack(s: Score)
    ensures Earlier(StageOf(s).second, s)
  {
  }

  lemma ThirdLooksBack(s: Score)
    ensures Earlier(StageOf(s).third, s)
  {
  }

  function Avg3(a: nat, b: nat, c: nat): nat {
    (a + b + c) / 3
  }

  type Signals = Signal -> nat

  function Value(signals: Signals, s: Score): nat
    decreases Position(s), 1
  {
    StagesLookBack(s);
    var stage := StageOf(s);
    Avg3(Take(signals, stage.first, s), Take(signals, stage.second, s), Take(signals, stage.third, s))
  }

  function Take(signals: Signals, i: Input, s: Score): nat
    requires Earlier(i, s)
    decreases Position(s), 0
  {
    match i
    case From(t) => Value(signals, t)
    case Reading(g) => signals(g)
  }

  function Inverse(bps: nat): nat {
    SatSub(10_000, bps)
  }

  /** How far resilience, stability and readiness are apart. */
  function CoherenceDelta(q: Queue, resilience: nat): nat {
    var high := Max(resilience, Max(Stability(q), Readiness(q)));
    var low := Min(resilience, Min(Stability(q), Readiness(q)));
    SatSub(high, low)
  }

  function ResilienceOf(q: Queue): nat {
    Avg3(Stability(q), Balance(q), Inverse(q.gini))
  }

  function SignalOf(q: Queue, g: Signal): nat {
    match g
    case ReadinessScore => Readiness(q)
    case StabilityScore => Stability(q)
    case BalanceScore => Balance(q)
    case DiversitySignal => Min(SatMul(q.evenness, 10), 10_000)
    case InverseGini => Inverse(q.gini)
    case InverseCritical => Inverse(CriticalBps(q))
    case InverseSpread => Inverse(CoherenceDelta(q, ResilienceOf(q)))
    case InverseAttention => Inverse(Attention(q))
    case InverseSlippage => Inverse(Slippage(q))
    case InverseLeaderGap => Inverse(q.leaderGap)
    case InversePressure => Inverse(Pressure(q))
    case InverseRisk => Inverse(AdjustedRisk(q))
    case InverseRiskDelta => Inverse(RiskDelta(q))
    case InversePolarization => Inverse(Polarization(q))
    case InverseHhi => Inverse(q.hhi)
    case InverseAttentionDelta => Inverse(AttentionDelta(q))
  }

  function SignalsOf(q: Queue): Signals {
    (g: Signal) => SignalOf(q, g)
  }

  /** A score of the rollup; all of them are zero when nothing calls for action. */
  function ScoreBps(q: Queue, s: Score): nat {
    if Actionable(q) == 0 then 0 else Value(SignalsOf(q), s)
  }

  /** An input of the chain, with the scores as `v` gives them. */
  function InputBy(v: Score -> nat, signals: Signals, i: Input): nat {
    match i
    case From(t) => v(t)
    case Reading(g) => signals(g)
  }

  // The recurrences of the source, in its order.

  ghost predicate FirstFollow(v: Score -> nat, g: Signals) {
    && v(Resilience) == (g(StabilityScore) + g(BalanceScore) + g(InverseGini)) / 3
    && v(Coherence) == (v(Resilience) + g(StabilityScore) + g(ReadinessScore)) / 3
    && v(Adaptability) == (v(Coherence) + g(DiversitySignal) + g(InverseCritical)) / 3
    && v(Sustainability) == (v(Adaptability) + g(InverseSpread) + g(InverseAttention)) / 3
    && v(Continuity) == (v(Sustainability) + g(InverseSlippage) + g(InverseLeaderGap)) / 3
  }

  ghost predicate SecondFollow(v: Score -> nat, g: Signals) {
    && v(Recoverability) == (v(Continuity) + g(BalanceScore) + g(InverseAttention)) / 3
    && v(Regeneration) == (v(Recoverability) + v(Sustainability) + g(InverseCritical)) / 3
    && v(Restoration) == (v(Regeneration) + v(Continuity) + g(InversePressure)) / 3
    && v(Stewardship) == (v(Restoration) + v(Recoverability) + g(InverseRisk)) / 3
  }

  ghost predicate ThirdFollow(v: Score -> nat, g: Signals) {
    && v(Guardianship) == (v(Stewardship) + v(Restoration) + g(InverseLeaderGap)) / 3
    && v(Assurance) == (v(Guardianship) + v(Stewardship) + g(InverseRiskDelta)) / 3
    && v(Vigilance) == (v(Assurance) + v(Guardianship) + g(InversePolarization)) / 3
    && v(Oversight) == (v(Vigilance) + v(Assurance) + g(InverseHhi)) / 3
  }

  ghost predicate FourthFollow(v: Score -> nat, g: Signals) {
    && v(Accountability) == (v(Vigilance) + v(Assurance) + g(InverseHhi)) / 3
    && v(Verifiability) == (v(Accountability) + v(Oversight) + g(InverseRiskDelta)) / 3
    && v(Auditability) == (v(Verifiability) + v(Accountability) + g(InverseSpread)) / 3
    && v(Transparency) == (v(Auditability) + v(Verifiability) + g(InverseGini)) / 3
  }

  ghost predicate FifthFollow(v: Score -> nat, g: Signals) {
    && v(Legibility) == (v(Transparency) + v(Auditability) + g(DiversitySignal)) / 3
    && v(Navigability) == (v(Legibility) + g(ReadinessScore) + g(InverseLeaderGap)) / 3
    && v(Interpretability) == (v(Navigability) + v(Transparency) + g(InverseSpread)) / 3
    && v(Explainability) == (v(Interpretability) + v(Legibility) + g(InversePolarization)) / 3
  }

  ghost predicate SixthFollow(v: Score -> nat, g: Signals) {
    && v(Clarity) == (v(Explainability) + v(Interpretability) + g(InverseSpread)) / 3
    && v(Comprehensibility) == (v(Clarity) + v(Explainability) + g(InverseAttentionDelta)) / 3
    && v(Intelligibility) == (v(Comprehensibility) + v(Clarity) + g(InverseAttention)) / 3
    && v(Communicability) == (v(Intelligibility) + v(Comprehensibility) + g(InverseRiskDelta)) / 3
  }

  ghost predicate SeventhFollow(v: Score -> nat, g: Signals) {
    && v(Articulability) == (v(Communicability) + v(Intelligibility) + g(InversePolarization)) / 3
    && v(Expressivity) == (v(Articulability) + v(Communicability) + g(InverseGini)) / 3
    && v(Eloquence) == (v(Expressivity) + v(Articulability) + g(InverseAttentionDelta)) / 3
  }

  ghost predicate EighthFollow(v: Score -> nat, g: Signals) {
    && v(Lucidity) == (v(Eloquence) + v(Intelligibility) + g(InversePolarization)) / 3
    && v(Illumination) == (v(Lucidity) + v(Transparency) + g(InverseAttention)) / 3
    && v(Clarion) == (v(Illumination) + v(Eloquence) + g(InverseAttentionDelta)) / 3
  }

  ghost predicate LastFollow(v: Score -> nat, g: Signals) {
    && v(Resonance) == (v(Clarion) + v(Communicability) + g(InverseRiskDelta)) / 3
    && v(Cadence) == (v(Resonance) + v(Eloquence) + g(InverseAttentionDelta)) / 3
    && v(Harmony) == (v(Cadence) + v(Resonance) + v(Communicability)) / 3
  }

  /** All of them. */
  ghost predicate FollowsSource(v: Score -> nat, g: Signals) {
    && FirstFollow(v, g) && SecondFollow(v, g) && ThirdFollow(v, g)
    && FourthFollow(v, g) && FifthFollow(v, g) && SixthFollow(v, g)
    && SeventhFollow(v, g) && EighthFollow(v, g) && LastFollow(v, g)
  }

  ghost predicate IsAverage(v: Score -> nat, g: Signals, s: Score) {
    v(s) == (InputBy(v, g, StageOf(s).first) + InputBy(v, g, StageOf(s).second) + InputBy(v, g, StageOf(s).third)) / 3
  }

  lemma FirstDoFollow(v: Score -> nat, g: Signals)
    requires forall s :: IsAverage(v, g, s)
    ensures FirstFollow(v, g)
  {
    assert IsAverage(v, g, Resilience) && IsAverage(v, g, Coherence) && IsAverage(v, g, Adaptability);
    assert IsAverage(v, g, Sustainability) && IsAverage(v, g, Continuity);
  }

  lemma SecondDoFollow(v: Score -> nat, g: Signals)
    requires forall s :: IsAverage(v, g, s)
    ensures SecondFollow(v, g)
  {
    assert IsAverage(v, g, Recoverability) && IsAverage(v, g, Regeneration) && IsAverage(v, g, Restoration);
    assert IsAverage(v, g, Stewardship);
  }

  lemma ThirdDoFollow(v: Score -> nat, g: Signals)
    requires forall s :: IsAverage(v, g, s)
    ensures ThirdFollow(v, g)
  {
    assert IsAverage(v, g, Guardianship) && IsAverage(v, g, Assurance) && IsAverage(v, g, Vigilance);
    assert IsAverage(v, g, Oversight);
  }

  lemma FourthDoFollow(v: Score -> nat, g: Signals)
    requires forall s :: IsAverage(v, g, s)
    ensures FourthFollow(v, g)
  {
    assert IsAverage(v, g, Accountability) && IsAverage(v, g, Verifiability) && IsAverage(v, g, Auditability);
    assert IsAverage(v, g, Transparency);
  }

  lemma FifthDoFollow(v: Score -> nat, g: Signals)
    requires forall s :: IsAverage(v, g, s)
    ensures FifthFollow(v, g)
  {
    assert IsAverage(v, g, Legibility) && IsAverage(v, g, Navigability) && IsAverage(v, g, Interpretability);
    assert IsAverage(v, g, Explainability);
  }

  lemma SixthDoFollow(v: Score -> nat, g: Signals)
    requires forall s :: IsAverage(v, g, s)
    ensures SixthFollow(v, g)
  {
    assert IsAverage(v, g, Clarity) && IsAverage(v, g, Comprehensibility) && IsAverage(v, g, Intelligibility);
    assert IsAverage(v, g, Communicability);
  }

  lemma SeventhDoFollow(v: Score -> nat, g: Signals)
    requires forall s :: IsAverage(v, g, s)
    ensures SeventhFollow(v, g)
  {
    assert IsAverage(v, g, Articulability) && IsAverage(v, g, Expressivity) && IsAverage(v, g, Eloquence);
  }

  lemma EighthDoFollow(v: Score -> nat, g: Signals)
    requires forall s :: IsAverage(v, g, s)
    ensures EighthFollow(v, g)
  {
    assert IsAverage(v, g, Lucidity) && IsAverage(v, g, Illumination) && IsAverage(v, g, Clarion);
  }

  lemma LastDoFollow(v: Score -> nat, g: Signals)
    requires forall s :: IsAverage(v, g, s)
    ensures LastFollow(v, g)
  {
    assert IsAverage(v, g, Resonance) && IsAverage(v, g, Cadence) && IsAverage(v, g, Harmony);
  }

  lemma ValueIsAverage(v: Score -> nat, signals: Signals, s: Score)
    requires forall t :: v(t) == Value(signals, t)
    ensures IsAverage(v, signals, s)
  {
    StagesLookBack(s);
    var stage := StageOf(s);
    TakeIsInput(v, signals, stage.first, s);
    TakeIsInput(v, signals, stage.second, s);
    TakeIsInput(v, signals, stage.third, s);
    ValueUnfolds(signals, s, stage);
  }

  lemma TakeIsInput(v: Score -> nat, signals: Signals, i: Input, s: Score)
    requires Earlier(i, s) && forall t :: v(t) == Value(signals, t)
    ensures Take(signals, i, s) == InputBy(v, signals, i)
  {
  }

  lemma ValueUnfolds(signals: Signals, s: Score, stage: Stage)
    requires stage == StageOf(s)
    ensures Earlier(stage.first, s) && Earlier(stage.second, s) && Earlier(stage.third, s)
    ensures Value(signals, s)
         == (Take(signals, stage.first, s) + Take(signals, stage.second, s) + Take(signals, stage.third, s)) / 3
  {
    StagesLookBack(s);
  }

  /** The chain is that of the source: each score is the average the source takes. */
  lemma ScoresFollow(signals: Signals, v: Score -> nat)
    requires forall s :: v(s) == Value(signals, s)
    ensures FollowsSource(v, signals)
  {
    forall s ensures IsAverage(v, signals, s) {
      ValueIsAverage(v, signals, s);
    }
    FollowAll(v, signals);
  }

  lemma FollowAll(v: Score -> nat, g: Signals)
    requires forall s :: IsAverage(v, g, s)
    ensures FollowsSource(v, g)
  {
    FirstDoFollow(v, g);
    SecondDoFollow(v, g);
    ThirdDoFollow(v, g);
    FourthDoFollow(v, g);
    FifthDoFollow(v, g);
    SixthDoFollow(v, g);
    SeventhDoFollow(v, g);
    EighthDoFollow(v, g);
    LastDoFollow(v, g);
  }

  // Properties of the chain.

  lemma AverageBetween(a: nat, b: nat, c: nat)
    ensures Min(a, Min(b, c)) <= Avg3(a, b, c) <= Max(a, Max(b, c))
  {
  }

  /** Whatever bounds every signal bounds every score. */
  lemma {:induction false} ScoresWithin(signals: Signals, s: Score, low: nat, high: nat)
    requires forall g :: low <= signals(g) <= high
    ensures low <= Value(signals, s) <= high
    decreases Position(s), 1
  {
    StagesLookBack(s);
    var stage := StageOf(s);
    InputWithin(signals, stage.first, s, low, high);
    InputWithin(signals, stage.second, s, low, high);
    InputWithin(signals, stage.third, s, low, high);
  }

  lemma {:induction false} InputWithin(signals: Signals, i: Input, s: Score, low: nat, high: nat)
    requires (forall g :: low <= signals(g) <= high) && Earlier(i, s)
    ensures low <= Take(signals, i, s) <= high
    decreases Position(s), 0
  {
    if i.From? {
      ScoresWithin(signals, i.score, low, high);
    }
  }

  /** Better signals never make a worse score, anywhere along the chain. */
  lemma {:induction false} ScoresAreMonotone(a: Signals, b: Signals, s: Score)
    requires forall g :: a(g) <= b(g)
    ensures Value(a, s) <= Value(b, s)
    decreases Position(s), 1
  {
    StagesLookBack(s);
    var stage := StageOf(s);
    InputsAreMonotone(a, b, stage.first, s);
    InputsAreMonotone(a, b, stage.second, s);
    InputsAreMonotone(a, b, stage.third, s);
  }

  lemma {:induction false} InputsAreMonotone(a: Signals, b: Signals, i: Input, s: Score)
    requires (forall g :: a(g) <= b(g)) && Earlier(i, s)
    ensures Take(a, i, s) <= Take(b, i, s)
    decreases Position(s), 0
  {
    if i.From? {
      ScoresAreMonotone(a, b, i.score);
    }
  }

  lemma TakeIsTheSame(signals: Signals, i: Input, s: Score, t: Score)
    requires Earlier(i, s) && Earlier(i, t)
    ensures Take(signals, i, s) == Take(signals, i, t)
  {
  }

  lemma SameStage(signals: Signals, s: Score, t: Score, stage: Stage)
    requires StageOf(s) == stage && StageOf(t) == stage
    ensures Value(signals, s) == Value(signals, t)
  {
    StagesLookBack(s);
    StagesLookBack(t);
    TakeIsTheSame(signals, stage.first, s, t);
    TakeIsTheSame(signals, stage.second, s, t);
    TakeIsTheSame(signals, stage.third, s, t);
  }

  /** Two scores of the chain are always the same number. */
  lemma OversightIsAccountability(q: Queue, s: Score, t: Score)
    requires s.Oversight? && t.Accountability?
    ensures ScoreBps(q, s) == ScoreBps(q, t)
  {
    SameStage(SignalsOf(q), s, t, StageOf(s));
  }

  lemma SignalIsBps(q: Queue, g: Signal)
    requires QueueOk(q)
    ensures 0 <= SignalOf(q, g) <= 10_000
  {
    if g == ReadinessScore || g == StabilityScore {
      AttentionBound(q);
    } else if g == BalanceScore {
      BalanceBound(q);
    }
  }

  /** `signal` is what is missing of `figure` to 10000, and nothing beyond that. */
  ghost predicate Missing(signal: nat, figure: nat) {
    (signal == 0 && figure >= 10_000) || signal + figure == 10_000
  }

  /** The figure whose absence a signal reports. */
  ghost function FigureOf(q: Queue, g: Signal): Option<nat> {
    match g
    case InverseGini => Some(q.gini)
    case InverseHhi => Some(q.hhi)
    case InverseLeaderGap => Some(q.leaderGap)
    case InverseCritical => Some(CriticalBps(q))
    case InversePressure => Some(Pressure(q))
    case InverseRisk => Some(AdjustedRisk(q))
    case InverseRiskDelta => Some(RiskDelta(q))
    case InverseSlippage => Some(Slippage(q))
    case InversePolarization => Some(Polarization(q))
    case InverseAttention => Some(Attention(q))
    case InverseAttentionDelta => Some(AttentionDelta(q))
    case InverseSpread => Some(CoherenceDelta(q, ResilienceOf(q)))
    case _ => None
  }

  lemma InverseIsMissing(figure: nat)
    ensures Missing(Inverse(figure), figure)
  {
  }

  lemma SignalReportsAbsence(q: Queue, g: Signal)
    ensures FigureOf(q, g).Some? ==> Missing(SignalOf(q, g), FigureOf(q, g).value)
  {
    if FigureOf(q, g).Some? {
      InverseIsMissing(FigureOf(q, g).value);
    }
  }

  lemma DiversityIsEvenness(q: Queue)
    requires q.evenness < U64 / 10
    ensures q.evenness <= 1_000 ==> SignalOf(q, DiversitySignal) == 10 * q.evenness
    ensures q.evenness > 1_000 ==> SignalOf(q, DiversitySignal) == 10_000
  {
  }

  /** The spread that is read is the largest of resilience, stability and readiness
      less the smallest. */
  lemma SpreadMeans(q: Queue, resilience: nat)
    ensures
      var d, a, b := CoherenceDelta(q, resilience), Stability(q), Readiness(q);
      && d in {AbsDiff(resilience, a), AbsDiff(resilience, b), AbsDiff(a, b)}
      && d >= AbsDiff(resilience, a) && d >= AbsDiff(resilience, b) && d >= AbsDiff(a, b)
    ensures 3 * ResilienceOf(q) <= Stability(q) + Balance(q) + SignalOf(q, InverseGini) < 3 * ResilienceOf(q) + 3
  {
  }

  lemma SignalsAreBps(q: Queue)
    requires QueueOk(q)
    ensures forall g :: 0 <= SignalsOf(q)(g) <= 10_000
  {
    forall g ensures 0 <= SignalsOf(q)(g) <= 10_000 {
      SignalIsBps(q, g);
    }
  }

  /** Every score, for every queue, is between 0 and 10000 basis points. */
  lemma AllScoresAreBps(q: Queue, s: Score)
    requires QueueOk(q)
    ensures ScoreBps(q, s) <= 10_000
    ensures Readiness(q) <= 10_000 && Stability(q) <= 10_000
  {
    AttentionBound(q);
    SignalsAreBps(q);
    ScoresWithin(SignalsOf(q), s, 0, 10_000);
  }
}
