/**
 * The score colour rules of the analysis results view
 * (Frontend/src/components/AnalysisResults.tsx): the text colour, the bar gradient and the
 * ring stroke colour of a score, all cut at 80 and 60.
 */
module ScoreColors {

  /** The three bands a score falls into, best first. */
  datatype Band = Strong | Fair | Weak

  /** The reference partition: at least 80, at least 60, below 60. */
  function BandOf(score: real): Band {
    if score >= 80.0 then Strong else if score >= 60.0 then Fair else Weak
  }

  /** 0 for the best band, 2 for the worst. */
  function Rank(b: Band): nat {
    match b
    case Strong => 0
    case Fair => 1
    case Weak => 2
  }

  /** `getScoreColor` */
  function ScoreColor(score: real): (c: string)
    ensures c == "text-emerald-600" <==> score >= 80.0
    ensures c == "text-yellow-600" <==> 60.0 <= score < 80.0
    ensures c == "text-red-600" <==> score < 60.0
  {
    if score >= 80.0 then "text-emerald-600"
    else if score >= 60.0 then "text-yellow-600"
    else "text-red-600"
  }

  /** `getScoreBgColor` */
  function ScoreBgColor(score: real): (c: string)
    ensures c == "from-emerald-500 to-green-500" <==> score >= 80.0
    ensures c == "from-yellow-500 to-orange-500" <==> 60.0 <= score < 80.0
    ensures c == "from-red-500 to-pink-500" <==> score < 60.0
  {
    if score >= 80.0 then "from-emerald-500 to-green-500"
    else if score >= 60.0 then "from-yellow-500 to-orange-500"
    else "from-red-500 to-pink-500"
  }

  /** The stroke colour of the score ring. */
  function RingColor(score: real): (c: string)
    ensures c == "#059669" <==> score >= 80.0
    ensures c == "#d97706" <==> 60.0 <= score < 80.0
    ensures c == "#dc2626" <==> score < 60.0
  {
    if score >= 80.0 then "#059669" else if score >= 60.0 then "#d97706" else "#dc2626"
  }

  function TextColorOf(b: Band): string {
    match b
    case Strong => "text-emerald-600"
    case Fair => "text-yellow-600"
    case Weak => "text-red-600"
  }

  function GradientOf(b: Band): string {
    match b
    case Strong => "from-emerald-500 to-green-500"
    case Fair => "from-yellow-500 to-orange-500"
    case Weak => "from-red-500 to-pink-500"
  }

  function StrokeOf(b: Band): string {
    match b
    case Strong => "#059669"
    case Fair => "#d97706"
    case Weak => "#dc2626"
  }

  /** Text colour, bar gradient and ring colour of a score always name the same band. */
  lemma ColorsAgreeOnBand(score: real)
    ensures ScoreColor(score) == TextColorOf(BandOf(score))
    ensures ScoreBgColor(score) == GradientOf(BandOf(score))
    ensures RingColor(score) == StrokeOf(BandOf(score))
  {
  }

  /** The colours tell the bands apart: two scores get the same colour iff they are in the same band. */
  lemma ColorsSeparateBands(a: real, b: real)
    ensures ScoreColor(a) == ScoreColor(b) <==> BandOf(a) == BandOf(b)
    ensures ScoreBgColor(a) == ScoreBgColor(b) <==> BandOf(a) == BandOf(b)
    ensures RingColor(a) == RingColor(b) <==> BandOf(a) == BandOf(b)
  {
  }

  /** Raising a score never moves it to a worse band. */
  lemma BandMonotone(a: real, b: real)
    requires a <= b
    ensures Rank(BandOf(b)) <= Rank(BandOf(a))
  {
  }
}
