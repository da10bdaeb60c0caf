/**
 * Condition assignment in `main`: the posture follows the parity of the
 * numeric subject ID, and the condition label written to the summary file
 * combines the ball-tossing condition, the posture and, in the
 * high-necessity script, the necessity level.
 */
module Condition {
  import opened Wrappers
  import opened Chars
  import opened Variants

  datatype Posture = Defensive | Neutral

  function PostureName(p: Posture): string {
    match p
    case Defensive => "defensive"
    case Neutral => "neutral"
  }

  /**
   * `'defensive' if int(subject_id) % 2 != 0 else 'neutral'`. An ID that
   * `int` cannot parse (the ID scene accepts letters) raises ValueError,
   * which ends the run in the top-level handler: None.
   */
  function AssignPosture(subjectId: string): (r: Option<Posture>)
    ensures r.Some? <==> ParseInt(subjectId).Some?
  {
    match ParseInt(subjectId)
    case None => None
    case Some(n) => Some(if n % 2 != 0 then Defensive else Neutral)
  }

  /** The posture is defensive exactly for an odd numeric ID and neutral exactly for an even one. */
  lemma PostureIffOdd(subjectId: string)
    ensures AssignPosture(subjectId) == Some(Defensive) <==> ParseInt(subjectId).Some? && ParseInt(subjectId).value % 2 == 1
    ensures AssignPosture(subjectId) == Some(Neutral) <==> ParseInt(subjectId).Some? && ParseInt(subjectId).value % 2 == 0
  {
  }

  /** Two numeric IDs ending in digits of the same parity get the same posture. */
  lemma PostureByLastDigit(a: string, b: string)
    requires a != [] && AllDecimal(a) && b != [] && AllDecimal(b)
    requires (a[|a| - 1] as int - '0' as int) % 2 == (b[|b| - 1] as int - '0' as int) % 2
    ensures AssignPosture(a) == AssignPosture(b)
  {
    ParityOfLastDigit(a);
    ParityOfLastDigit(b);
  }

  /** Scenario: ID "1601" is defensive, "1600" neutral, and "A7" raises. */
  lemma PostureScenarios()
    ensures AssignPosture("1601") == Some(Defensive)
    ensures AssignPosture("1600") == Some(Neutral)
    ensures AssignPosture("A7") == None
  {
    assert AllDecimal("1601") && AllDecimal("1600");
    ParityOfLastDigit("1601");
    ParityOfLastDigit("1600");
    assert !IsDecimal("A7"[0]);
  }

  /**
   * The condition label: f"Cyber{c}_Ext_{posture}_{necessity}" with
   * necessity 'high', f"Cyber{c}_External_{posture}", or f"Cyber{c}_{posture}".
   */
  function Label(v: Variant, p: Posture): string {
    match v
    case ExcExtHigh => "Cyber" + ConditionId(v) + "_Ext_" + PostureName(p) + "_high"
    case ExcExtLow => "Cyber" + ConditionId(v) + "_External_" + PostureName(p)
    case IncIntLow => "Cyber" + ConditionId(v) + "_" + PostureName(p)
  }

  /** The labels written out. */
  lemma LabelTexts()
    ensures Label(ExcExtHigh, Defensive) == "Cyber1_Ext_defensive_high"
    ensures Label(ExcExtHigh, Neutral) == "Cyber1_Ext_neutral_high"
    ensures Label(ExcExtLow, Defensive) == "Cyber1_External_defensive"
    ensures Label(ExcExtLow, Neutral) == "Cyber1_External_neutral"
    ensures Label(IncIntLow, Defensive) == "Cyber2_defensive"
    ensures Label(IncIntLow, Neutral) == "Cyber2_neutral"
  {
    assert "Cyber" + "1" == "Cyber1";
    assert "Cyber" + "2" == "Cyber2";
    assert "Cyber1" + "_Ext_" == "Cyber1_Ext_";
    assert "Cyber1_Ext_" + "defensive" + "_high" == "Cyber1_Ext_defensive_high";
    assert "Cyber1_Ext_" + "neutral" + "_high" == "Cyber1_Ext_neutral_high";
    assert "Cyber1" + "_External_" == "Cyber1_External_";
    assert "Cyber1_External_" + "defensive" == "Cyber1_External_defensive";
    assert "Cyber1_External_" + "neutral" == "Cyber1_External_neutral";
    assert "Cyber2" + "_" == "Cyber2_";
    assert "Cyber2_" + "defensive" == "Cyber2_defensive";
    assert "Cyber2_" + "neutral" == "Cyber2_neutral";
  }

  /** No two variant and posture pairs share a label: the label identifies the group. */
  lemma LabelInjective(v1: Variant, p1: Posture, v2: Variant, p2: Posture)
    requires Label(v1, p1) == Label(v2, p2)
    ensures v1 == v2 && p1 == p2
  {
    LabelTexts();
  }
}
