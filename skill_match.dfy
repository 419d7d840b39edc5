/**
  The skill match scorer `calculateSkillMatch(jobSkills, userSkills)`
  (app.js): both lists are lower-cased into sets, the job skills the user also
  has are kept in the set's iteration order, and the percentage is
  `matched / distinct job skills * 100`. The division is unguarded, so an empty
  job list gives 0/0, which is NaN.
*/
module SkillMatch {
  import opened JsString
  import opened Sequences

  /** The exact value of the float the source computes; NaN for 0/0. */
  datatype Percentage = NaN | Percent(value: real)

  datatype MatchResult = MatchResult(matchedSkills: seq<string>, matchPercentage: Percentage)

  /** `skills.map(s => s.toLowerCase())`. */
  function LowerAll(skills: seq<string>): (r: seq<string>)
    ensures |r| == |skills|
    ensures forall i :: 0 <= i < |r| ==> r[i] == ToLower(skills[i])
  {
    if |skills| == 0 then [] else [ToLower(skills[0])] + LowerAll(skills[1..])
  }

  /** Lower-casing an already lower-cased list changes nothing. */
  lemma LowerAllIdempotent(skills: seq<string>)
    ensures LowerAll(LowerAll(skills)) == LowerAll(skills)
  {
    var l := LowerAll(skills);
    forall i | 0 <= i < |l| ensures ToLower(l[i]) == l[i] {
      ToLowerOfLower(l[i]);
    }
  }

  /** `x` is, after lower-casing, one of `skills`. */
  predicate HasSkill(skills: seq<string>, x: string)
  {
    x in LowerAll(skills)
  }

  /** `[...new Set(jobLower)].filter(x => userSet.has(x))`, again put through `new Set`. */
  function MatchedSkills(jobSkills: seq<string>, userSkills: seq<string>): (r: seq<string>)
    ensures forall x :: x in r <==> HasSkill(jobSkills, x) && HasSkill(userSkills, x)
    ensures NoDup(r)
    ensures FirstSeenOrder(r, LowerAll(jobSkills))
    ensures |r| <= |Dedup(LowerAll(jobSkills))|
    ensures |r| == |Dedup(LowerAll(jobSkills))| <==>
              forall x :: HasSkill(jobSkills, x) ==> HasSkill(userSkills, x)
  {
    var jobSet := Dedup(LowerAll(jobSkills));
    var userSet := Dedup(LowerAll(userSkills));
    var kept := Keep(jobSet, userSet);
    DedupOfNoDup(kept);
    DedupOrder(LowerAll(jobSkills));
    KeepOrder(jobSet, userSet, LowerAll(jobSkills));
    KeepAll(jobSet, userSet);
    Dedup(kept)
  }

  /**
    `calculateSkillMatch(jobSkills, userSkills)`. The matched skills are exactly
    the lower-cased skills common to both lists, each once, in the order of their
    first occurrence in the lower-cased job list. The percentage is NaN exactly
    when the job list is empty; otherwise it lies in [0, 100], is 100 exactly when
    the user has every job skill, and is the matched share of the distinct job
    skills.
  */
  function CalculateSkillMatch(jobSkills: seq<string>, userSkills: seq<string>): (r: MatchResult)
    ensures forall x :: x in r.matchedSkills <==> HasSkill(jobSkills, x) && HasSkill(userSkills, x)
    ensures NoDup(r.matchedSkills)
    ensures FirstSeenOrder(r.matchedSkills, LowerAll(jobSkills))
    ensures r.matchPercentage.NaN? <==> |jobSkills| == 0
    ensures r.matchPercentage.Percent? ==> 0.0 <= r.matchPercentage.value <= 100.0
    ensures r.matchPercentage.Percent? ==>
              (r.matchPercentage.value == 100.0 <==>
               forall x :: HasSkill(jobSkills, x) ==> HasSkill(userSkills, x))
    ensures r.matchPercentage == PercentOf(|r.matchedSkills|, |Dedup(LowerAll(jobSkills))|)
  {
    var matched := MatchedSkills(jobSkills, userSkills);
    MatchResult(matched, PercentOf(|matched|, |Dedup(LowerAll(jobSkills))|))
  }

  /**
    `(m / total) * 100` on the exact values: NaN for 0/0, otherwise the share of
    `m` in `total` scaled to [0, 100], reaching 100 exactly when `m == total`.
  */
  function PercentOf(m: nat, total: nat): (p: Percentage)
    ensures p.NaN? <==> total == 0
    ensures p.Percent? ==> p.value * (total as real) == 100.0 * (m as real)
    ensures p.Percent? && m <= total ==> 0.0 <= p.value <= 100.0
    ensures p.Percent? && m <= total ==> (p.value == 100.0 <==> m == total)
  {
    if total == 0 then NaN
    else
      var q := m as real / total as real;
      assert q * total as real == m as real;
      assert m <= total ==> q <= 1.0;
      assert q * 100.0 == 100.0 ==> q == 1.0;
      Percent(q * 100.0)
  }

  /** Scoring is case-insensitive: lower-casing either list, or both, first changes nothing. */
  lemma CaseInsensitive(jobSkills: seq<string>, userSkills: seq<string>)
    ensures CalculateSkillMatch(LowerAll(jobSkills), userSkills) == CalculateSkillMatch(jobSkills, userSkills)
    ensures CalculateSkillMatch(jobSkills, LowerAll(userSkills)) == CalculateSkillMatch(jobSkills, userSkills)
    ensures CalculateSkillMatch(LowerAll(jobSkills), LowerAll(userSkills))
            == CalculateSkillMatch(jobSkills, userSkills)
  {
    LowerAllIdempotent(jobSkills);
    LowerAllIdempotent(userSkills);
  }

  /**
    Mixed case is folded before matching: "SQL" and "Python" against "python"
    and "Java" match "python" alone, at 50 per cent.
  */
  lemma MixedCaseMatch()
    ensures CalculateSkillMatch(["SQL", "Python"], ["python", "Java"])
            == MatchResult(["python"], Percent(50.0))
  {
    var job, user := ["SQL", "Python"], ["python", "Java"];
    assert LowerAll(job) == ["sql", "python"] by {
      LowerSql();
      LowerPython();
    }
    assert LowerAll(user) == ["python", "java"] by {
      ToLowerOfLower("python");
      LowerJava();
    }
    CaseInsensitive(job, user);
    HalfMatch("sql", "python", "java");
  }

  lemma LowerSql()
    ensures ToLower("SQL") == "sql"
  {
  }

  lemma LowerPython()
    ensures ToLower("Python") == "python"
  {
  }

  lemma LowerJava()
    ensures ToLower("Java") == "java"
  {
  }

  /**
    Two required skills of which the user holds one score 50 per cent, with
    that one skill matched: for instance "sql" and "python" against "python"
    and "java".
  */
  lemma HalfMatch(a: string, b: string, c: string)
    requires HasNoUpper(a) && HasNoUpper(b) && HasNoUpper(c)
    requires a != b && b != c && a != c
    ensures CalculateSkillMatch([a, b], [b, c]) == MatchResult([b], Percent(50.0))
  {
    assert LowerAll([a, b]) == [a, b] by {
      ToLowerOfLower(a);
      ToLowerOfLower(b);
    }
    assert LowerAll([b, c]) == [b, c] by {
      ToLowerOfLower(b);
      ToLowerOfLower(c);
    }
    assert Dedup([a, b]) == [a, b] by {
      DedupOfNoDup([a, b]);
    }
    assert Dedup([b, c]) == [b, c] by {
      DedupOfNoDup([b, c]);
    }
    assert Keep([a, b], [b, c]) == [b];
    assert Dedup([b]) == [b] by {
      DedupOfNoDup([b]);
    }
    assert PercentOf(1, 2) == Percent(50.0);
  }

  /** An empty list of job skills divides zero by zero: no skill matches and the percentage is NaN. */
  lemma EmptyJobIsNaN(userSkills: seq<string>)
    ensures CalculateSkillMatch([], userSkills) == MatchResult([], NaN)
  {
  }
}
