/**
  The query of the job-posting route (app.js) that finds the users holding one
  of the posted skills: `required_skills.split(',')` is passed as the parameter
  array, and the same split, with every piece replaced by '?' and joined with
  ',', fills the `IN (...)` list.
*/
module Placeholders {
  import opened JsString

  /** An SQL text with '?' placeholders and the values bound to them, in order. */
  datatype Query = Query(sql: string, params: seq<string>)

  /** `pieces.map(() => '?')`. */
  function Marks(pieces: seq<string>): (r: seq<string>)
    ensures |r| == |pieces|
    ensures forall i :: 0 <= i < |r| ==> r[i] == "?"
  {
    seq(|pieces|, i => "?")
  }

  /** `required_skills.split(',').map(() => '?').join(',')`. */
  function PlaceholderList(requiredSkills: string): (ph: string)
    ensures Count(ph, '?') == Count(requiredSkills, ',') + 1
  {
    MarksAlternate(Marks(Split(requiredSkills, ',')));
    Join(Marks(Split(requiredSkills, ',')), ",")
  }

  /** The fixed text before the `IN` list, in three clauses. */
  const SelectClause: string := "SELECT u.* FROM users u "
  const JoinClause: string := "JOIN skills s ON u.id = s.user_id "
  const WhereClause: string := "WHERE s.name IN ("
  const QueryHead: string := SelectClause + JoinClause + WhereClause

  /** The query text and its parameters, as the route builds them. */
  function MatchingUsersQuery(requiredSkills: string): (q: Query)
    ensures |q.params| == Count(requiredSkills, ',') + 1
    ensures Join(q.params, ",") == requiredSkills
  {
    Query(QueryHead + PlaceholderList(requiredSkills) + ")", Split(requiredSkills, ','))
  }

  /** `n` question marks joined by ',': "?", "?,?", "?,?,?", ... */
  lemma {:induction false} MarksAlternate(marks: seq<string>)
    requires |marks| >= 1 && forall i :: 0 <= i < |marks| ==> marks[i] == "?"
    ensures |Join(marks, ",")| == 2 * |marks| - 1
    ensures forall i :: 0 <= i < |Join(marks, ",")| ==>
              Join(marks, ",")[i] == if i % 2 == 0 then '?' else ','
    ensures Count(Join(marks, ","), '?') == |marks|
  {
    if |marks| > 1 {
      var rest := marks[1..];
      MarksAlternate(rest);
      var j := Join(rest, ",");
      assert Join(marks, ",") == "?," + j;
      assert ("?," + j)[2..] == j;
      forall i | 0 <= i < |"?," + j| ensures ("?," + j)[i] == if i % 2 == 0 then '?' else ',' {
        if i >= 2 {
          assert ("?," + j)[i] == j[i - 2];
        }
      }
      assert ("?," + j)[1..] == ("," + j);
      assert ("," + j)[1..] == j;
    }
  }

  /**
    The placeholder list alternates '?' and ',', starting and ending with '?',
    and holds one '?' per comma-separated piece of the skills (one more than
    the commas).
  */
  lemma PlaceholderListShape(requiredSkills: string)
    ensures var ph := PlaceholderList(requiredSkills);
            && |ph| == 2 * (Count(requiredSkills, ',') + 1) - 1
            && (forall i :: 0 <= i < |ph| ==> ph[i] == if i % 2 == 0 then '?' else ',')
            && Count(ph, '?') == Count(requiredSkills, ',') + 1
  {
    MarksAlternate(Marks(Split(requiredSkills, ',')));
  }

  /**
    The query text has exactly as many placeholders as the query binds values,
    all of them in the `IN (...)` list, and the values are the untrimmed pieces
    of the skills, which joined by ',' give the skills back.
  */
  lemma QueryParamsMatch(requiredSkills: string)
    ensures var q := MatchingUsersQuery(requiredSkills);
            && Count(q.sql, '?') == |q.params|
            && Count(PlaceholderList(requiredSkills), '?') == |q.params|
            && |q.params| == Count(requiredSkills, ',') + 1
            && Join(q.params, ",") == requiredSkills
  {
    var ph := PlaceholderList(requiredSkills);
    HeadHasNoMark();
    CountAppend(QueryHead, ph, '?');
    CountAppend(QueryHead + ph, ")", '?');
    assert Count(")", '?') == 0 by {
      CountAbsent(")", '?');
    }
  }

  /** The fixed text before the `IN` list holds no placeholder. */
  lemma HeadHasNoMark()
    ensures Count(QueryHead, '?') == 0
  {
    SelectHasNoMark();
    JoinHasNoMark();
    WhereHasNoMark();
    NoMarkInThree(SelectClause, JoinClause, WhereClause);
  }

  lemma NoMarkInThree(a: string, b: string, c: string)
    requires Count(a, '?') == 0 && Count(b, '?') == 0 && Count(c, '?') == 0
    ensures Count(a + b + c, '?') == 0
  {
    CountAppend(a, b, '?');
    CountAppend(a + b, c, '?');
  }

  // Literals are costly to scan together, so each clause is scanned in a lemma of its own.

  lemma SelectHasNoMark()
    ensures Count(SelectClause, '?') == 0
  {
    CountAbsent(SelectClause, '?');
  }

  lemma JoinHasNoMark()
    ensures Count(JoinClause, '?') == 0
  {
    CountAbsent(JoinClause, '?');
  }

  lemma WhereHasNoMark()
    ensures Count(WhereClause, '?') == 0
  {
    CountAbsent(WhereClause, '?');
  }

  /** The values are not trimmed: "sql, python" binds " python", with its space. */
  lemma ParamsKeepSpaces()
    ensures MatchingUsersQuery("sql, python").params == ["sql", " python"]
  {
    var s := "sql, python";
    SplitJoin(["sql", " python"], ',');
    assert Join(["sql", " python"], [',']) == s;
  }
}
