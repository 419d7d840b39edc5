/**
  The match report of the `/match-resume/:id` route (app.js): the job's
  required skills are split and trimmed once, and every work-history row gets
  the row's own fields plus its `calculateSkillMatch` result, in input order.
*/
module MatchReport {
  import opened SkillParsing
  import opened SkillMatch
  import opened WorkHistory

  /** `{ ...entry, ...match }`: the row's fields followed by the two match fields (no name is shared). */
  datatype MatchedEntry = MatchedEntry(entry: Row, matchedSkills: seq<string>, matchPercentage: Percentage)

  /**
    One record per row, same order, each keeping its row and carrying the match
    of the job's tokens against that row's tokens. Because the job's tokens come
    from `split(',')`, which never yields an empty list, no percentage is NaN.
  */
  function MatchEntries(job: JobPosting, rows: seq<Row>): (r: seq<MatchedEntry>)
    ensures |r| == |rows|
    ensures forall i :: 0 <= i < |r| ==> r[i].entry == rows[i]
    ensures forall i, x :: 0 <= i < |r| ==>
              (x in r[i].matchedSkills <==>
               HasSkill(SplitTrim(job.requiredSkills), x) && HasSkill(SplitTrim(rows[i].skills), x))
    ensures forall i :: 0 <= i < |r| ==>
              r[i].matchPercentage.Percent? && 0.0 <= r[i].matchPercentage.value <= 100.0
  {
    var jobSkills := SplitTrim(job.requiredSkills);
    seq(|rows|, i requires 0 <= i < |rows| =>
      var m := CalculateSkillMatch(jobSkills, SplitTrim(rows[i].skills));
      MatchedEntry(rows[i], m.matchedSkills, m.matchPercentage))
  }

  /** Each record's match is exactly the scorer's result for that row. */
  lemma MatchEntriesUsesScorer(job: JobPosting, rows: seq<Row>, i: nat)
    requires i < |rows|
    ensures var e := MatchEntries(job, rows)[i];
            MatchResult(e.matchedSkills, e.matchPercentage)
            == CalculateSkillMatch(SplitTrim(job.requiredSkills), SplitTrim(rows[i].skills))
  {
  }
}
