/** The mapping from the model's probability to the coarse diagnosis shown
    to the user and printed in the report. */
module Diagnosis {

  datatype Diagnosis = Normal | Moderate | Detected
  {
    /** The text the application shows for the diagnosis. */
    function Label(): string
    {
      match this
      case Normal => "Normal"
      case Moderate => "Possible Pneumonia (Moderate)"
      case Detected => "Pneumonia Detected"
    }

    /** How serious the diagnosis is: Normal < Moderate < Detected. */
    function Severity(): nat
    {
      match this
      case Normal => 0
      case Moderate => 1
      case Detected => 2
    }
  }

  const DetectedThreshold: real := 0.75
  const ModerateThreshold: real := 0.5

  /** The three-way threshold classifier; total on every probability. */
  function MapProbability(p: real): (d: Diagnosis)
    ensures d == Detected <==> p >= DetectedThreshold
    ensures d == Moderate <==> ModerateThreshold <= p < DetectedThreshold
    ensures d == Normal <==> p < ModerateThreshold
  {
    if p >= DetectedThreshold then Detected
    else if p >= ModerateThreshold then Moderate
    else Normal
  }

  /** A higher probability never gives a milder diagnosis. */
  lemma MapProbabilityMonotone(p: real, q: real)
    requires p <= q
    ensures MapProbability(p).Severity() <= MapProbability(q).Severity()
  {
  }

  /** The three diagnoses are told apart by their labels. */
  lemma LabelsDistinct(d: Diagnosis, e: Diagnosis)
    ensures d.Label() == e.Label() <==> d == e
  {
  }
}
