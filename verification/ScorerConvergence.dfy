/** What happens when every proposal is fed back as the next request's current weights while the evidence stays the
    same: the distance to the target shrinks by one step per round, and the benefit gate treats all full-size rounds
    alike. */
module ScorerConvergence {
  import opened Domain
  import opened OrderStatistics
  import opened RealArithmetic
  import opened Candidates
  import opened NodeWeights
  import opened Scorer
  import opened ScorerProperties

  // ---------------------------------------------------------------- one round

  ghost predicate GapsScaled(E: seq<NodeMetric>, c: Weights, c': Weights, t: Weights, k: real) {
    forall i :: 0 <= i < |E| ==> Gap(c', t, E[i].nodeId) == k * Gap(c, t, E[i].nodeId)
  }

  lemma GapsScaledSplit(E: seq<NodeMetric>, c: Weights, c': Weights, t: Weights, k: real)
    requires E != [] && GapsScaled(E, c, c', t, k)
    ensures GapsScaled(E[..|E| - 1], c, c', t, k)
    ensures Gap(c', t, E[|E| - 1].nodeId) == k * Gap(c, t, E[|E| - 1].nodeId)
  {
    hide Gap;
  }

  lemma DistanceParts(E: seq<NodeMetric>, c: Weights, t: Weights)
    ensures E == [] ==> Distance(E, c, t) == 0.0
    ensures E != [] ==> Distance(E, c, t) == Max(Distance(E[..|E| - 1], c, t), Gap(c, t, E[|E| - 1].nodeId))
  {
  }

  lemma MaxScaled(a: real, b: real, a': real, b': real, k: real)
    requires k >= 0.0 && a' == k * a && b' == k * b
    ensures Max(a', b') == k * Max(a, b)
  {
    if a >= b { Scale(a, b, k); } else { Scale(b, a, k); }
  }

  lemma ScaledZero(k: real, x: real)
    requires x == 0.0
    ensures k * x == 0.0
  {
  }

  lemma {:induction false} DistanceScaled(E: seq<NodeMetric>, c: Weights, c': Weights, t: Weights, k: real)
    requires k >= 0.0 && GapsScaled(E, c, c', t, k)
    ensures Distance(E, c', t) == k * Distance(E, c, t)
    decreases |E|
  {
    hide *;
    DistanceParts(E, c, t);
    DistanceParts(E, c', t);
    if E == [] {
      ScaledZero(k, Distance(E, c, t));
    } else {
      var last := |E| - 1;
      GapsScaledSplit(E, c, c', t, k);
      DistanceScaled(E[..last], c, c', t, k);
      MaxScaled(Distance(E[..last], c, t), Gap(c, t, E[last].nodeId),
                Distance(E[..last], c', t), Gap(c', t, E[last].nodeId), k);
    }
  }

  lemma GapsAfterMove(E: seq<NodeMetric>, c: Weights, t: Weights, fraction: real)
    requires 0.0 <= fraction <= 1.0 && t.Keys == Ids(E)
    ensures GapsScaled(E, c, Moved(c, t, fraction), t, 1.0 - fraction)
  {
    hide Moved;
    hide Gap;
    forall i | 0 <= i < |E|
      ensures Gap(Moved(c, t, fraction), t, E[i].nodeId) == (1.0 - fraction) * Gap(c, t, E[i].nodeId)
    {
      MemberId(E, i);
      GapMoved(c, t, fraction, E[i].nodeId);
    }
  }

  /** One round brings the weights closer by exactly min(step, distance). */
  lemma RoundDistance(E: seq<NodeMetric>, c: Weights, t: Weights, step: real)
    requires step >= 0.0 && t.Keys == Ids(E)
    ensures var d := Distance(E, c, t);
            Distance(E, Moved(c, t, FactorFor(step, d)), t) == d - Min(step, d)
  {
    hide *;
    var d := Distance(E, c, t);
    var fraction := FactorFor(step, d);
    DistanceLaw(E, c, t);
    FactorForLaw(step, d);
    GapsAfterMove(E, c, t, fraction);
    DistanceScaled(E, c, Moved(c, t, fraction), t, 1.0 - fraction);
    Remainder(fraction, d);
  }

  lemma Remainder(fraction: real, d: real)
    ensures (1.0 - fraction) * d == d - fraction * d
  {
  }

  lemma AtTargetIff(E: seq<NodeMetric>, c: Weights, t: Weights)
    ensures Distance(E, c, t) == 0.0 <==> forall id :: id in Ids(E) ==> Get(c, id) == Get(t, id)
  {
    DistanceLaw(E, c, t);
    if Distance(E, c, t) == 0.0 {
      forall id | id in Ids(E) ensures Get(c, id) == Get(t, id) {
        assert Gap(c, t, id) <= 0.0;
      }
    }
  }

  /** Positive weights of total 1 over all candidates pass through normalisation unchanged. */
  lemma NormaliseFixed(E: seq<NodeMetric>, w: Weights)
    requires E != [] && w.Keys == Ids(E) && Dot(E, w, One) == 1.0
    requires forall id :: id in w ==> w[id] > 0.0
    ensures Normalise(E, w) == w
  {
    PositiveSumIsMass(E, E, w);
    PositiveSumSign(E, w);
    assert SomePositive(E, w) by { MemberId(E, 0); assert Get(w, E[0].nodeId) > 0.0; }
    forall id | id in Ids(E) ensures Get(w, id) / 1.0 == w[id] { }
  }

  lemma {:induction false} PositiveSumIsMass(E: seq<NodeMetric>, E0: seq<NodeMetric>, w: Weights)
    requires E <= E0 && w.Keys == Ids(E0)
    requires forall id :: id in w ==> w[id] > 0.0
    ensures PositiveSum(E, w) == Dot(E, w, One)
    decreases |E|
  {
    if E != [] {
      var last := |E| - 1;
      PositiveSumIsMass(E[..last], E0, w);
      MemberId(E0, last);
      TermOne(w, E[last]);
    }
  }

  // ---------------------------------------------------------------- many rounds, no gate

  ghost function Iterate(cfg: Config, E: seq<NodeMetric>, signals: map<string, Signal>, c: Weights, k: nat): Weights
    requires E != []
  {
    if k == 0 then c else NextWeights(cfg, E, signals, Iterate(cfg, E, signals, c, k - 1))
  }

  ghost predicate Setting(cfg: Config, E: seq<NodeMetric>, signals: map<string, Signal>) {
    E != [] && DistinctIds(E) && NonNegativeSeverities(signals) && cfg.maximumWeightStep > 0.0
  }

  ghost function StartDistance(E: seq<NodeMetric>, signals: map<string, Signal>, c: Weights): real
    requires E != []
  {
    Distance(E, c, TargetOf(E, signals))
  }

  lemma NextDistance(cfg: Config, E: seq<NodeMetric>, signals: map<string, Signal>, c: Weights)
    requires Setting(cfg, E, signals)
    ensures StartDistance(E, signals, c) >= 0.0
    ensures var d := StartDistance(E, signals, c);
            StartDistance(E, signals, NextWeights(cfg, E, signals, c)) == d - Min(cfg.maximumWeightStep, d)
  {
    hide TargetOf;
    hide Moved;
    hide Distance;
    hide FactorFor;
    TargetKeys(E, signals);
    DistanceLaw(E, c, TargetOf(E, signals));
    RoundDistance(E, c, TargetOf(E, signals), cfg.maximumWeightStep);
  }

  /** What is left of distance d after k steps. */
  function Left(d: real, step: real, k: nat): real { Max(0.0, d - k as real * step) }

  lemma LeftNext(d: real, step: real, k: nat)
    requires step > 0.0 && d >= 0.0 && k > 0
    ensures Left(d, step, k) == Left(d, step, k - 1) - Min(step, Left(d, step, k - 1))
  {
    assert k as real * step == (k - 1) as real * step + step;
    Product((k - 1) as real, step);
  }

  lemma {:induction false} IterateDistance(cfg: Config, E: seq<NodeMetric>, signals: map<string, Signal>, c: Weights,
      k: nat)
    requires Setting(cfg, E, signals)
    ensures StartDistance(E, signals, c) >= 0.0
    ensures StartDistance(E, signals, Iterate(cfg, E, signals, c, k))
            == Left(StartDistance(E, signals, c), cfg.maximumWeightStep, k)
  {
    hide StartDistance;
    hide NextWeights;
    NextDistance(cfg, E, signals, c);
    if k > 0 {
      hide Left;
      IterateDistance(cfg, E, signals, c, k - 1);
      NextDistance(cfg, E, signals, Iterate(cfg, E, signals, c, k - 1));
      LeftNext(StartDistance(E, signals, c), cfg.maximumWeightStep, k);
    }
  }

  lemma CeilAtMost(q: real, k: nat)
    ensures k as real >= q <==> k >= Ceil(q)
  {
  }

  lemma QuotientAtMost(d: real, step: real, x: real)
    requires step > 0.0
    ensures x * step >= d <==> x >= d / step
  {
    var q := d / step;
    assert q * step == d;
    if x >= q { Scale(x, q, step); } else { StrictScale(q, x, step); }
  }

  lemma CeilQuotient(d: real, step: real, k: nat)
    requires step > 0.0
    ensures k as real * step >= d <==> k >= Ceil(d / step)
  {
    hide Ceil;
    QuotientAtMost(d, step, k as real);
    CeilAtMost(d / step, k);
  }

  /** The target is hit after exactly ceil(distance / step) rounds, and kept. */
  lemma RoundsToTarget(cfg: Config, E: seq<NodeMetric>, signals: map<string, Signal>, c: Weights, k: nat)
    requires Setting(cfg, E, signals)
    ensures (forall id :: id in Ids(E) ==> Get(Iterate(cfg, E, signals, c, k), id) == Get(TargetOf(E, signals), id))
            <==> k >= Ceil(StartDistance(E, signals, c) / cfg.maximumWeightStep)
  {
    hide TargetOf;
    hide Iterate;
    hide Distance;
    hide Get;
    IterateDistance(cfg, E, signals, c, k);
    CeilQuotient(StartDistance(E, signals, c), cfg.maximumWeightStep, k);
    AtTargetIff(E, Iterate(cfg, E, signals, c, k), TargetOf(E, signals));
  }

  // ---------------------------------------------------------------- the benefit along the way

  /** How much lower the target's penalty is. */
  ghost function Gain(E: seq<NodeMetric>, signals: map<string, Signal>, c: Weights): real
    requires E != []
  {
    Benefit(E, c, TargetOf(E, signals))
  }

  /** The share of the full move made by one round. */
  ghost function RoundShare(cfg: Config, E: seq<NodeMetric>, signals: map<string, Signal>, c: Weights): real
    requires E != []
  {
    FactorFor(cfg.maximumWeightStep, StartDistance(E, signals, c))
  }

  lemma RoundGain(cfg: Config, E: seq<NodeMetric>, signals: map<string, Signal>, c: Weights)
    requires Setting(cfg, E, signals)
    ensures Benefit(E, c, NextWeights(cfg, E, signals, c)) == RoundShare(cfg, E, signals, c) * Gain(E, signals, c)
  {
    hide TargetOf;
    hide Dot;
    hide Moved;
    hide Distance;
    hide FactorFor;
    TargetKeys(E, signals);
    EffectsLaw(E, c, TargetOf(E, signals), RoundShare(cfg, E, signals, c));
  }

  lemma GainAfter(cfg: Config, E: seq<NodeMetric>, signals: map<string, Signal>, c: Weights)
    requires Setting(cfg, E, signals)
    ensures Gain(E, signals, NextWeights(cfg, E, signals, c))
            == (1.0 - RoundShare(cfg, E, signals, c)) * Gain(E, signals, c)
  {
    hide TargetOf;
    hide Dot;
    hide NextWeights;
    hide RoundShare;
    RoundGain(cfg, E, signals, c);
    Remainder(RoundShare(cfg, E, signals, c), Gain(E, signals, c));
  }

  lemma RoundShareLaw(cfg: Config, E: seq<NodeMetric>, signals: map<string, Signal>, c: Weights)
    requires Setting(cfg, E, signals)
    ensures var d := StartDistance(E, signals, c);
            && RoundShare(cfg, E, signals, c) * d == Min(cfg.maximumWeightStep, d)
            && StartDistance(E, signals, NextWeights(cfg, E, signals, c)) == (1.0 - RoundShare(cfg, E, signals, c)) * d
  {
    hide StartDistance;
    hide NextWeights;
    hide FactorFor;
    NextDistance(cfg, E, signals, c);
    FactorForLaw(cfg.maximumWeightStep, StartDistance(E, signals, c));
    Remainder(RoundShare(cfg, E, signals, c), StartDistance(E, signals, c));
  }

  /** The remaining gain shrinks in proportion to the remaining distance. */
  lemma {:induction false} IterateGain(cfg: Config, E: seq<NodeMetric>, signals: map<string, Signal>, c: Weights,
      k: nat)
    requires Setting(cfg, E, signals)
    ensures var ck := Iterate(cfg, E, signals, c, k);
            StartDistance(E, signals, c) * Gain(E, signals, ck) == StartDistance(E, signals, ck) * Gain(E, signals, c)
  {
    hide Gain;
    hide NextWeights;
    hide RoundShare;
    hide StartDistance;
    if k > 0 {
      var before := Iterate(cfg, E, signals, c, k - 1);
      IterateGain(cfg, E, signals, c, k - 1);
      GainAfter(cfg, E, signals, before);
      RoundShareLaw(cfg, E, signals, before);
      Proportion(RoundShare(cfg, E, signals, before), StartDistance(E, signals, c), StartDistance(E, signals, before),
                 Gain(E, signals, c), Gain(E, signals, before));
    }
  }

  lemma Proportion(fraction: real, d0: real, d: real, g0: real, g: real)
    requires d0 * g == d * g0
    ensures d0 * ((1.0 - fraction) * g) == ((1.0 - fraction) * d) * g0
  {
    assert d0 * ((1.0 - fraction) * g) == (1.0 - fraction) * (d0 * g);
    assert ((1.0 - fraction) * d) * g0 == (1.0 - fraction) * (d * g0);
  }

  /** The benefit of round k, times the starting distance, is min(step, remaining distance) times the total gain: every
      full-size round has the same benefit, step / distance of the total. */
  lemma RoundBenefit(cfg: Config, E: seq<NodeMetric>, signals: map<string, Signal>, c: Weights, k: nat)
    requires Setting(cfg, E, signals)
    ensures var ck := Iterate(cfg, E, signals, c, k);
            Benefit(E, ck, NextWeights(cfg, E, signals, ck)) * StartDistance(E, signals, c)
            == Min(cfg.maximumWeightStep, StartDistance(E, signals, ck)) * Gain(E, signals, c)
  {
    hide Gain;
    hide NextWeights;
    hide RoundShare;
    hide StartDistance;
    hide Benefit;
    hide Iterate;
    var ck := Iterate(cfg, E, signals, c, k);
    IterateGain(cfg, E, signals, c, k);
    RoundGain(cfg, E, signals, ck);
    RoundShareLaw(cfg, E, signals, ck);
    ShareOfGain(RoundShare(cfg, E, signals, ck), StartDistance(E, signals, c),
                StartDistance(E, signals, ck), Gain(E, signals, c), Gain(E, signals, ck));
  }

  lemma ShareOfGain(fraction: real, d0: real, d: real, g0: real, g: real)
    requires d0 * g == d * g0
    ensures fraction * g * d0 == fraction * d * g0
  {
    assert fraction * g * d0 == fraction * (d0 * g);
    assert fraction * d * g0 == fraction * (d * g0);
  }

  // ---------------------------------------------------------------- the gated loop

  /** The weights in force after one more evaluation: the proposal if there is one, else unchanged. */
  ghost function Adopt(cfg: Config, E: seq<NodeMetric>, signals: map<string, Signal>, w: Weights): Weights
    requires E != []
  {
    match Decide(cfg, E, w, signals)
    case Ok(p) => p.proposed
    case Err(_) => w
  }

  ghost function Loop(cfg: Config, E: seq<NodeMetric>, signals: map<string, Signal>, w: Weights, k: nat): Weights
    requires E != []
  {
    if k == 0 then w else Adopt(cfg, E, signals, Loop(cfg, E, signals, w, k - 1))
  }

  ghost predicate Accepts(cfg: Config, E: seq<NodeMetric>, signals: map<string, Signal>, c: Weights)
    requires E != []
  {
    Benefit(E, c, NextWeights(cfg, E, signals, c)) >= cfg.benefitMargin
  }

  lemma DecideStep(cfg: Config, E: seq<NodeMetric>, signals: map<string, Signal>, w: Weights)
    requires Setting(cfg, E, signals)
    ensures var c := Normalise(E, w);
            if Accepts(cfg, E, signals, c)
            then Decide(cfg, E, w, signals).Ok? && Decide(cfg, E, w, signals).value.current == c
                 && Adopt(cfg, E, signals, w) == NextWeights(cfg, E, signals, c)
                 && Normalise(E, Adopt(cfg, E, signals, w)) == NextWeights(cfg, E, signals, c)
            else Decide(cfg, E, w, signals).Err? && Adopt(cfg, E, signals, w) == w
  {
    hide Normalise;
    hide NextWeights;
    hide Benefit;
    hide Dot;
    var c := Normalise(E, w);
    StepWeights(cfg, E, w, signals);
    NormaliseFixed(E, NextWeights(cfg, E, signals, c));
  }

  /** As long as every round is accepted, the loop follows the ungated iteration. */
  lemma {:induction false} LoopFollows(cfg: Config, E: seq<NodeMetric>, signals: map<string, Signal>, w: Weights,
      k: nat)
    requires Setting(cfg, E, signals)
    requires forall j: nat :: j < k ==> Accepts(cfg, E, signals, Iterate(cfg, E, signals, Normalise(E, w), j))
    ensures Normalise(E, Loop(cfg, E, signals, w, k)) == Iterate(cfg, E, signals, Normalise(E, w), k)
  {
    hide Normalise;
    hide NextWeights;
    hide Accepts;
    hide Adopt;
    if k > 0 {
      LoopFollows(cfg, E, signals, w, k - 1);
      DecideStep(cfg, E, signals, Loop(cfg, E, signals, w, k - 1));
    }
  }

  /** A rejected round is rejected for ever: nothing changes any more. */
  lemma {:induction false} LoopStuck(cfg: Config, E: seq<NodeMetric>, signals: map<string, Signal>, w: Weights, k: nat)
    requires Setting(cfg, E, signals)
    requires !Accepts(cfg, E, signals, Normalise(E, w))
    ensures Loop(cfg, E, signals, w, k) == w && Decide(cfg, E, Loop(cfg, E, signals, w, k), signals).Err?
  {
    hide Normalise;
    hide Decide;
    hide Accepts;
    hide Adopt;
    DecideStep(cfg, E, signals, w);
    if k > 0 { LoopStuck(cfg, E, signals, w, k - 1); }
  }

  lemma PaysIff(benefit: real, margin: real, distance: real, share: real, gain: real)
    requires distance > 0.0 && benefit * distance == share * gain
    ensures benefit >= margin <==> share * gain >= margin * distance
  {
    if benefit >= margin { Scale(benefit, margin, distance); } else { StrictScale(margin, benefit, distance); }
  }

  /** A move by `share` units of distance, out of the whole starting distance, is worth the margin. */
  ghost predicate Pays(cfg: Config, E: seq<NodeMetric>, signals: map<string, Signal>, c: Weights, share: real)
    requires E != []
  {
    share * Gain(E, signals, c) >= cfg.benefitMargin * StartDistance(E, signals, c)
  }

  /** Round k of the ungated iteration clears the gate exactly when its share of the total gain does. */
  lemma GateAt(cfg: Config, E: seq<NodeMetric>, signals: map<string, Signal>, c: Weights, k: nat)
    requires Setting(cfg, E, signals) && StartDistance(E, signals, c) > 0.0
    ensures Accepts(cfg, E, signals, Iterate(cfg, E, signals, c, k)) <==>
            Pays(cfg, E, signals, c,
                 Min(cfg.maximumWeightStep, Left(StartDistance(E, signals, c), cfg.maximumWeightStep, k)))
  {
    hide Gain;
    hide NextWeights;
    hide StartDistance;
    hide Benefit;
    hide Iterate;
    hide Left;
    hide Min;
    var ck := Iterate(cfg, E, signals, c, k);
    var share := Min(cfg.maximumWeightStep, Left(StartDistance(E, signals, c), cfg.maximumWeightStep, k));
    RoundBenefit(cfg, E, signals, c, k);
    IterateDistance(cfg, E, signals, c, k);
    PaysIff(Benefit(E, ck, NextWeights(cfg, E, signals, ck)), cfg.benefitMargin, StartDistance(E, signals, c),
            share, Gain(E, signals, c));
  }

  /** Round k still moves by a full step. */
  predicate FullRound(d: real, step: real, k: nat) { (k + 1) as real * step <= d }

  lemma FullRoundLaw(d: real, step: real, k: nat, j: nat)
    requires step > 0.0 && FullRound(d, step, k) && j <= k
    ensures d > 0.0 && Min(step, Left(d, step, j)) == step
  {
    Scale((k + 1) as real, (j + 1) as real, step);
    assert (j + 1) as real * step == j as real * step + step;
    Product(j as real, step);
  }

  lemma FullRoundGate(cfg: Config, E: seq<NodeMetric>, signals: map<string, Signal>, c: Weights, k: nat, j: nat)
    requires Setting(cfg, E, signals) && j <= k
    requires FullRound(StartDistance(E, signals, c), cfg.maximumWeightStep, k)
    ensures Accepts(cfg, E, signals, Iterate(cfg, E, signals, c, j)) <==>
            Pays(cfg, E, signals, c, cfg.maximumWeightStep)
  {
    hide *;
    SettingStep(cfg, E, signals);
    FullRoundLaw(StartDistance(E, signals, c), cfg.maximumWeightStep, k, j);
    GateAt(cfg, E, signals, c, j);
  }

  lemma SettingStep(cfg: Config, E: seq<NodeMetric>, signals: map<string, Signal>)
    requires Setting(cfg, E, signals)
    ensures cfg.maximumWeightStep > 0.0 && E != []
  {
  }

  lemma DecideIff(cfg: Config, E: seq<NodeMetric>, signals: map<string, Signal>, w: Weights)
    requires Setting(cfg, E, signals)
    ensures Decide(cfg, E, w, signals).Ok? <==> Accepts(cfg, E, signals, Normalise(E, w))
  {
    hide Normalise;
    hide NextWeights;
    hide Benefit;
  }

  /** The gate rejects the first full-size round, and then everything for ever, or admits every full-size round; which
      of the two is decided by one comparison: step times total gain against margin times starting distance. */
  lemma GateAllOrNothing(cfg: Config, E: seq<NodeMetric>, signals: map<string, Signal>, w: Weights, k: nat)
    requires Setting(cfg, E, signals)
    requires FullRound(StartDistance(E, signals, Normalise(E, w)), cfg.maximumWeightStep, k)
    ensures if Pays(cfg, E, signals, Normalise(E, w), cfg.maximumWeightStep)
            then Decide(cfg, E, Loop(cfg, E, signals, w, k), signals).Ok?
                 && Normalise(E, Loop(cfg, E, signals, w, k)) == Iterate(cfg, E, signals, Normalise(E, w), k)
            else Loop(cfg, E, signals, w, k) == w && Decide(cfg, E, Loop(cfg, E, signals, w, k), signals).Err?
  {
    hide *;
    SettingStep(cfg, E, signals);
    var c := Normalise(E, w);
    forall j: nat | j <= k
      ensures Accepts(cfg, E, signals, Iterate(cfg, E, signals, c, j)) <==>
              Pays(cfg, E, signals, c, cfg.maximumWeightStep)
    {
      FullRoundGate(cfg, E, signals, c, k, j);
    }
    if Pays(cfg, E, signals, c, cfg.maximumWeightStep) {
      LoopFollows(cfg, E, signals, w, k);
      DecideIff(cfg, E, signals, Loop(cfg, E, signals, w, k));
    } else {
      IterateZero(cfg, E, signals, c);
      LoopStuck(cfg, E, signals, w, k);
    }
  }

  lemma IterateZero(cfg: Config, E: seq<NodeMetric>, signals: map<string, Signal>, c: Weights)
    requires E != []
    ensures Iterate(cfg, E, signals, c, 0) == c
  {
  }

  /** Round k is the last, partial one. */
  predicate PartialRound(d: real, step: real, k: nat) { k as real * step < d < (k + 1) as real * step }

  /** The distance moved by the last round. */
  function LastMove(d: real, step: real, k: nat): real { d - k as real * step }

  lemma PartialRoundLaw(d: real, step: real, k: nat)
    requires step > 0.0 && PartialRound(d, step, k)
    ensures d > 0.0 && Min(step, Left(d, step, k)) == LastMove(d, step, k)
    ensures k > 0 ==> FullRound(d, step, k - 1)
  {
    assert (k + 1) as real * step == k as real * step + step;
    Product(k as real, step);
  }

  /** When the full-size rounds were admitted, the remaining partial round is the only one the gate can still stop: it
      passes exactly when the remaining distance's share of the gain clears the margin. */
  lemma GateOnLastRound(cfg: Config, E: seq<NodeMetric>, signals: map<string, Signal>, w: Weights, k: nat)
    requires Setting(cfg, E, signals)
    requires PartialRound(StartDistance(E, signals, Normalise(E, w)), cfg.maximumWeightStep, k)
    requires Pays(cfg, E, signals, Normalise(E, w), cfg.maximumWeightStep)
    ensures Decide(cfg, E, Loop(cfg, E, signals, w, k), signals).Ok? <==>
            Pays(cfg, E, signals, Normalise(E, w),
                 LastMove(StartDistance(E, signals, Normalise(E, w)), cfg.maximumWeightStep, k))
  {
    hide *;
    SettingStep(cfg, E, signals);
    var c, step := Normalise(E, w), cfg.maximumWeightStep;
    PartialRoundLaw(StartDistance(E, signals, c), step, k);
    forall j: nat | j < k ensures Accepts(cfg, E, signals, Iterate(cfg, E, signals, c, j)) {
      FullRoundGate(cfg, E, signals, c, k - 1, j);
    }
    GateAt(cfg, E, signals, c, k);
    LoopFollows(cfg, E, signals, w, k);
    DecideIff(cfg, E, signals, Loop(cfg, E, signals, w, k));
  }
}
