/** The seniority badge and gauges of the CV page: `levelInfo`
    (frontend/pages/cv.tsx:180-189) and the three segment widths
    (frontend/pages/cv.tsx:192-194), all read from `totalYears`, the month total divided
    by twelve. Percentages are exact rationals. */
module Seniority {

  import opened Dates
  import opened Experience

  datatype Level = Junior | Confirme | Senior

  /** The badge text. */
  function LabelText(l: Level): string {
    match l
    case Junior => "Junior"
    case Confirme => "Confirm\U{00E9}"
    case Senior => "S\U{00E9}nior"
  }

  /** What `levelInfo` returns: the badge and the fill of the gauge for the current level. */
  datatype LevelInfo = LevelInfo(level: Level, progressPct: real)

  function MinR(a: real, b: real): real {
    if a <= b then a else b
  }

  /** `totalYears`: months as a fraction of years. */
  function YearsOf(months: int): real {
    months as real / 12.0
  }

  /** `levelInfo`: Junior below five years, Confirmé below seven, Sénior from seven on. */
  function LevelOf(y: real): (r: LevelInfo)
    ensures y >= 0.0 ==> 0.0 <= r.progressPct <= 100.0
  {
    if y < 5.0 then LevelInfo(Junior, MinR(100.0, (y / 5.0) * 100.0))
    else if y < 7.0 then LevelInfo(Confirme, MinR(100.0, ((y - 5.0) / 2.0) * 100.0))
    else LevelInfo(Senior, 100.0)
  }

  /** `seg1Pct`: the Junior segment fills over the first five years. */
  function Seg1(y: real): (p: real)
    ensures y >= 0.0 ==> 0.0 <= p <= 100.0
  {
    if y < 5.0 then (y / 5.0) * 100.0 else 100.0
  }

  /** `seg2Pct`: the Confirmé segment fills between five and seven years. */
  function Seg2(y: real): (p: real)
    ensures 0.0 <= p <= 100.0
  {
    if y > 5.0 then MinR(((y - 5.0) / 2.0) * 100.0, 100.0) else 0.0
  }

  /** `seg3Pct`: the Sénior segment is empty or full, full only strictly after seven years. */
  function Seg3(y: real): (p: real)
    ensures p == 0.0 || p == 100.0
  {
    if y > 7.0 then 100.0 else 0.0
  }

  /** The badge read in whole months: Junior below 60, Confirmé from 60 to 83, Sénior from 84. */
  lemma LabelByMonths(months: int)
    ensures LevelOf(YearsOf(months)).level == Junior <==> months < 60
    ensures LevelOf(YearsOf(months)).level == Confirme <==> 60 <= months < 84
    ensures LevelOf(YearsOf(months)).level == Senior <==> months >= 84
  {
  }

  /** Every segment is non-decreasing in the number of years. */
  lemma SegmentsMonotone(y1: real, y2: real)
    requires y1 <= y2
    ensures Seg1(y1) <= Seg1(y2)
    ensures Seg2(y1) <= Seg2(y2)
    ensures Seg3(y1) <= Seg3(y2)
  {
  }

  /** The gauge of the current level is the segment of that level: the Junior gauge is the
      first segment, the Confirmé gauge the second (with the first one full). */
  lemma GaugeMatchesSegment(y: real)
    requires y >= 0.0
    ensures LevelOf(y).level == Junior ==> LevelOf(y).progressPct == Seg1(y) && Seg2(y) == 0.0
    ensures LevelOf(y).level == Confirme ==> LevelOf(y).progressPct == Seg2(y) && Seg1(y) == 100.0
    ensures LevelOf(y).level == Senior ==> Seg1(y) == 100.0 && Seg2(y) == 100.0
  {
  }

  /** At exactly seven years the badge already says Sénior but the third segment is still
      empty, because its test is a strict `>`; one more month fills it. */
  lemma SeniorBeforeThirdSegment()
    ensures LevelOf(YearsOf(84)).level == Senior && Seg3(YearsOf(84)) == 0.0
    ensures Seg3(YearsOf(85)) == 100.0
  {
  }

  /** The badge follows the experience total: a list totalling 84 months or more is Sénior. */
  lemma SeniorFromTotal(es: seq<Record>, now: YM)
    requires |es| > 0 && TotalMonths(es, now) >= 84
    ensures LevelOf(Summarize(es, now).totalYears).level == Senior
  {
    SummarizeYearsAndMonths(es, now);
    LabelByMonths(Summarize(es, now).totalMonths);
  }

  /** The line under the gauge: the display text with " d’XP", or "Pas de données" when
      there is no positive total. */
  function Caption(s: Summary): (t: string)
    ensures s.totalYears <= 0.0 ==> t == "Pas de donn\U{00E9}es"
  {
    if s.totalYears > 0.0 then s.pretty + " d\U{2019}XP" else "Pas de donn\U{00E9}es"
  }

  /** An empty list, and one whose total is zero, both show "Pas de données". */
  lemma CaptionWithoutExperience(es: seq<Record>, now: YM)
    requires |es| == 0 || TotalMonths(es, now) == 0
    ensures Caption(Summarize(es, now)) == "Pas de donn\U{00E9}es"
  {
    if |es| > 0 {
      SummarizeZeroTotal(es, now);
    }
  }
}
