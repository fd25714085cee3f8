/**
 * The priority classifier (`calculate_priority` in triage.py).
 *
 * Four vital signs are mapped to one of five tier strings. A patient with
 * heart rate, blood pressure and oxygen saturation all zero is "Deceased";
 * anyone else gets a severity score summed from four bucketed sub-scores,
 * and the score is mapped to "Critical", "High", "Medium" or "Low".
 */
module Triage {

  const Deceased: string := "Deceased"
  const Critical: string := "Critical"
  const High: string := "High"
  const Medium: string := "Medium"
  const Low: string := "Low"

  /** Every literal the classifier can return, most severe first. */
  const Tiers: seq<string> := [Deceased, Critical, High, Medium, Low]

  /** The deceased short-circuit: the temperature plays no part in it. */
  predicate NoSigns(hr: int, bp: int, oxygen: int)
  {
    hr == 0 && bp == 0 && oxygen == 0
  }

  // ---------------------------------------------------------------------------
  // Sub-scores, one per vital sign
  // ---------------------------------------------------------------------------

  function HeartRatePoints(hr: int): (p: int)
    ensures p == 3 <==> hr < 40 || hr > 130
    ensures p == 2 <==> 40 <= hr <= 60 || 110 <= hr <= 130
    ensures p == 1 <==> 61 <= hr <= 109
  {
    if hr > 130 || hr < 40 then 3
    else if 40 <= hr <= 60 || 110 <= hr <= 130 then 2
    else 1
  }

  function BloodPressurePoints(bp: int): (p: int)
    ensures p == 3 <==> bp < 90 || bp > 180
    ensures p == 1 <==> 90 <= bp <= 180
  {
    if bp < 90 || bp > 180 then 3 else 1
  }

  function OxygenPoints(oxygen: int): (p: int)
    ensures p == 3 <==> oxygen < 90
    ensures p == 2 <==> 90 <= oxygen <= 95
    ensures p == 1 <==> oxygen > 95
  {
    if oxygen < 90 then 3
    else if 90 <= oxygen <= 95 then 2
    else 1
  }

  /** Temperature is only ever compared with 35 and 39; both ends are normal. */
  function TemperaturePoints(temp: real): (p: int)
    ensures p == 2 <==> temp > 39.0 || temp < 35.0
    ensures p == 0 <==> 35.0 <= temp <= 39.0
  {
    if temp > 39.0 || temp < 35.0 then 2 else 0
  }

  /** The severity score of a patient who is not deceased. */
  function Score(hr: int, bp: int, oxygen: int, temp: real): (s: int)
    ensures 3 <= s <= 11
    ensures s == 3 <==> 61 <= hr <= 109 && 90 <= bp <= 180 && oxygen > 95 && 35.0 <= temp <= 39.0
  {
    HeartRatePoints(hr) + BloodPressurePoints(bp) + OxygenPoints(oxygen) + TemperaturePoints(temp)
  }

  /** The threshold chain, checked from the highest threshold down. */
  function TierFor(score: int): (t: string)
    ensures t in Tiers[1..]
    ensures t != Deceased
  {
    if score >= 9 then Critical
    else if score >= 6 then High
    else if score >= 4 then Medium
    else Low
  }

  /** The classification `calculate_priority` computes. */
  function Priority(hr: int, bp: int, oxygen: int, temp: real): (t: string)
    ensures t in Tiers
    ensures t == Deceased <==> NoSigns(hr, bp, oxygen)
  {
    if NoSigns(hr, bp, oxygen) then Deceased else TierFor(Score(hr, bp, oxygen, temp))
  }

  /**
   * The classifier as the source runs it: an early return, then a local
   * score raised step by step by four if/elif chains, then the thresholds.
   */
  method CalculatePriority(hr: int, bp: int, oxygen: int, temp: real) returns (priority: string)
    ensures priority == Priority(hr, bp, oxygen, temp)
  {
    if hr == 0 && bp == 0 && oxygen == 0 {
      return Deceased;
    }

    var score := 0;

    if hr > 130 || hr < 40 {
      score := score + 3;
    } else if 40 <= hr <= 60 || 110 <= hr <= 130 {
      score := score + 2;
    } else {
      score := score + 1;
    }

    if bp < 90 || bp > 180 {
      score := score + 3;
    } else {
      score := score + 1;
    }

    if oxygen < 90 {
      score := score + 3;
    } else if 90 <= oxygen <= 95 {
      score := score + 2;
    } else {
      score := score + 1;
    }

    if temp > 39.0 || temp < 35.0 {
      score := score + 2;
    }

    if score >= 9 {
      priority := Critical;
    } else if score >= 6 {
      priority := High;
    } else if score >= 4 {
      priority := Medium;
    } else {
      priority := Low;
    }
  }

  // ---------------------------------------------------------------------------
  // Properties of the classification
  // ---------------------------------------------------------------------------

  /** The tier bands of the score: 9 and up, 6 to 8, 4 and 5, 3. */
  lemma TierBands(hr: int, bp: int, oxygen: int, temp: real)
    requires !NoSigns(hr, bp, oxygen)
    ensures var s, t := Score(hr, bp, oxygen, temp), Priority(hr, bp, oxygen, temp);
      && (t == Critical <==> 9 <= s <= 11)
      && (t == High <==> 6 <= s <= 8)
      && (t == Medium <==> 4 <= s <= 5)
      && (t == Low <==> s == 3)
  {
  }

  /** Only all-normal vitals give "Low"; the boundary values 35 and 39 are normal. */
  lemma LowExactlyWhenNormal(hr: int, bp: int, oxygen: int, temp: real)
    ensures Priority(hr, bp, oxygen, temp) == Low
        <==> 61 <= hr <= 109 && 90 <= bp <= 180 && oxygen > 95 && 35.0 <= temp <= 39.0
  {
  }

  /**
   * A heart rate of zero alone is not death: with any other sign present
   * the patient is scored, takes the +3 heart-rate bucket, and so is never
   * below "Medium".
   */
  lemma ZeroHeartRateIsScored(bp: int, oxygen: int, temp: real)
    requires bp != 0 || oxygen != 0
    ensures Priority(0, bp, oxygen, temp) == TierFor(Score(0, bp, oxygen, temp))
    ensures HeartRatePoints(0) == 3
    ensures Priority(0, bp, oxygen, temp) in {Critical, High, Medium}
  {
  }

  /** The temperature never decides whether a patient is deceased. */
  lemma DeceasedIgnoresTemperature(hr: int, bp: int, oxygen: int, t1: real, t2: real)
    ensures Priority(hr, bp, oxygen, t1) == Deceased <==> Priority(hr, bp, oxygen, t2) == Deceased
  {
  }

  /** Worked cases at and just beyond the heart-rate edge, and the maximum score. */
  lemma WorkedCases()
    ensures Score(130, 120, 96, 38.0) == 4 && Priority(130, 120, 96, 38.0) == Medium
    ensures Score(131, 120, 96, 38.0) == 5 && Priority(131, 120, 96, 38.0) == Medium
    ensures Score(150, 200, 85, 40.0) == 11 && Priority(150, 200, 85, 40.0) == Critical
    ensures Priority(0, 0, 0, 37.0) == Deceased
  {
  }
}
