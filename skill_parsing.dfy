/**
  Turning a free-text, comma-separated skill string into tokens. Two rules are
  in use: the plain `split(',')` then `trim` of the match report (app.js) and of
  the entry update and insert routes (app.mjs), which keeps empty tokens; and
  `validateSkills` of the add-work-history route (app.mjs), which also drops
  empty tokens and throws when none remain. Neither lower-cases nor removes
  duplicates.
*/
module SkillParsing {
  import opened Wrappers
  import opened JsString
  import opened Sequences

  /** `pieces.map(s => s.trim())`. */
  function TrimAll(pieces: seq<string>): (r: seq<string>)
    ensures |r| == |pieces|
    ensures forall i :: 0 <= i < |r| ==> r[i] == Trim(pieces[i])
  {
    if |pieces| == 0 then [] else [Trim(pieces[0])] + TrimAll(pieces[1..])
  }

  /** `raw.split(',').map(s => s.trim())`: one trimmed, comma-free token per piece, empty ones included. */
  function SplitTrim(raw: string): (r: seq<string>)
    ensures |r| == Count(raw, ',') + 1
    ensures forall i :: 0 <= i < |r| ==> IsTrimmed(r[i]) && ',' !in r[i]
  {
    var pieces := Split(raw, ',');
    var r := TrimAll(pieces);
    assert forall i :: 0 <= i < |r| ==> ',' !in r[i] by {
      forall i | 0 <= i < |r| ensures ',' !in r[i] {
        if ',' in r[i] {
          TrimSubset(pieces[i], ',');
        }
      }
    }
    r
  }

  /** The same, stated on members: every token is trimmed and comma-free. */
  lemma SplitTrimShape(raw: string)
    ensures forall t :: t in SplitTrim(raw) ==> IsTrimmed(t) && ',' !in t
  {
    ShapeOfMembers(SplitTrim(raw));
  }

  lemma ShapeOfMembers(tokens: seq<string>)
    requires forall i :: 0 <= i < |tokens| ==> IsTrimmed(tokens[i]) && ',' !in tokens[i]
    ensures forall t :: t in tokens ==> IsTrimmed(t) && ',' !in t
  {
    forall t | t in tokens ensures IsTrimmed(t) && ',' !in t {
      var i :| 0 <= i < |tokens| && tokens[i] == t;
    }
  }

  /** The tokens are recovered from any comma-joined list of trimmed, comma-free tokens. */
  lemma SplitTrimJoin(tokens: seq<string>)
    requires |tokens| >= 1
    requires forall i :: 0 <= i < |tokens| ==> IsTrimmed(tokens[i]) && ',' !in tokens[i]
    ensures SplitTrim(Join(tokens, ",")) == tokens
  {
    SplitJoin(tokens, ',');
    forall i | 0 <= i < |tokens| ensures Trim(tokens[i]) == tokens[i] {
      TrimOfTrimmed(tokens[i]);
    }
  }

  /** Appending one separator adds one empty piece at the end. */
  lemma {:induction false} SplitAppendSeparator(s: string, sep: char)
    ensures Split(s + [sep], sep) == Split(s, sep) + [""]
    decreases |s|
  {
    var t := s + [sep];
    if |s| == 0 {
      assert t[1..] == "";
    } else {
      assert t[1..] == s[1..] + [sep];
      SplitAppendSeparator(s[1..], sep);
    }
  }

  /** No filtering: a trailing comma leaves an empty token behind. */
  lemma EmptyTokenKept(raw: string)
    ensures |SplitTrim(raw + ",")| == |SplitTrim(raw)| + 1
    ensures SplitTrim(raw + ",")[|SplitTrim(raw)|] == ""
  {
    SplitAppendSeparator(raw, ',');
  }

  // ---------------------------------------------------------------------------
  // validateSkills

  /** The error `validateSkills` throws: no non-empty skill was given. */
  datatype ValidationError = EmptySkillList

  /** `tokens.filter(skill => skill !== '')`. */
  function NonEmpty(tokens: seq<string>): (r: seq<string>)
    ensures forall i :: 0 <= i < |r| ==> r[i] != ""
    ensures IsSubsequence(r, tokens)
  {
    if |tokens| == 0 then []
    else
      var rest := NonEmpty(tokens[1..]);
      if tokens[0] == "" then rest
      else
        var r := [tokens[0]] + rest;
        assert r[1..] == rest;
        r
  }

  /** The filter keeps every non-empty token as often as it occurs and drops every empty one. */
  lemma {:induction false} NonEmptyMultiset(tokens: seq<string>)
    ensures multiset(NonEmpty(tokens)) == multiset(tokens)["" := 0]
  {
    if |tokens| > 0 {
      var tail := tokens[1..];
      NonEmptyMultiset(tail);
      assert tokens == [tokens[0]] + tail;
      assert multiset(tokens) == multiset{tokens[0]} + multiset(tail);
    }
  }

  /** The filter never lengthens its input, and leaves nothing exactly when every token is empty. */
  lemma {:induction false} NonEmptyLength(tokens: seq<string>)
    ensures |NonEmpty(tokens)| <= |tokens|
    ensures |NonEmpty(tokens)| == 0 <==> forall i :: 0 <= i < |tokens| ==> tokens[i] == ""
  {
    if |tokens| > 0 {
      var tail := tokens[1..];
      NonEmptyLength(tail);
      assert forall i :: 1 <= i < |tokens| ==> tokens[i] == tail[i - 1];
    }
  }

  /** The filter keeps only tokens of its input. */
  lemma NonEmptyMembers(tokens: seq<string>, t: string)
    requires t in NonEmpty(tokens)
    ensures t in tokens
  {
    NonEmptyMultiset(tokens);
    assert multiset(NonEmpty(tokens))[t] > 0;
  }

  lemma {:induction false} NonEmptyOfNonEmpty(tokens: seq<string>)
    requires forall i :: 0 <= i < |tokens| ==> tokens[i] != ""
    ensures NonEmpty(tokens) == tokens
  {
    if |tokens| > 0 {
      NonEmptyOfNonEmpty(tokens[1..]);
    }
  }

  /** Filtering keeps tokens that are trimmed and comma-free so. */
  lemma NonEmptyKeepsShape(tokens: seq<string>)
    requires forall i :: 0 <= i < |tokens| ==> IsTrimmed(tokens[i]) && ',' !in tokens[i]
    ensures forall i :: 0 <= i < |NonEmpty(tokens)| ==>
              IsTrimmed(NonEmpty(tokens)[i]) && ',' !in NonEmpty(tokens)[i]
  {
    var kept := NonEmpty(tokens);
    forall i | 0 <= i < |kept| ensures IsTrimmed(kept[i]) && ',' !in kept[i] {
      NonEmptyMembers(tokens, kept[i]);
      var j :| 0 <= j < |tokens| && tokens[j] == kept[i];
    }
  }

  /**
    `validateSkills(raw)`: the non-empty trimmed tokens in their original order,
    or the validation error when there is none.
  */
  function ValidateSkills(raw: string): (r: Result<seq<string>, ValidationError>)
    ensures r.Failure? <==> forall i :: 0 <= i < |SplitTrim(raw)| ==> SplitTrim(raw)[i] == ""
    ensures r.Success? ==> 1 <= |r.value| <= Count(raw, ',') + 1
    ensures r.Success? ==> forall i :: 0 <= i < |r.value| ==>
              r.value[i] != "" && IsTrimmed(r.value[i]) && ',' !in r.value[i]
    ensures r.Success? ==> IsSubsequence(r.value, SplitTrim(raw))
    ensures r.Success? ==> multiset(r.value) == multiset(SplitTrim(raw))["" := 0]
  {
    var tokens := SplitTrim(raw);
    var kept := NonEmpty(tokens);
    NonEmptyMultiset(tokens);
    NonEmptyLength(tokens);
    NonEmptyKeepsShape(tokens);
    if |kept| == 0 then Failure(EmptySkillList) else Success(kept)
  }

  lemma {:induction false} TrimEmptyIff(s: string)
    ensures Trim(s) == "" <==> forall k :: 0 <= k < |s| ==> IsTrimmable(s[k])
  {
    var lead :| TrimmedSlice(s, Trim(s), lead);
  }

  lemma {:induction false} InPartInJoin(parts: seq<string>, sep: string, i: nat, c: char)
    requires i < |parts| && c in parts[i]
    ensures c in Join(parts, sep)
  {
    if i > 0 {
      InPartInJoin(parts[1..], sep, i - 1, c);
    }
  }

  lemma {:induction false} InJoinInPart(parts: seq<string>, sep: char, c: char)
    requires c in Join(parts, [sep]) && c != sep
    ensures exists i :: 0 <= i < |parts| && c in parts[i]
  {
    if |parts| > 1 {
      if c !in parts[0] {
        InJoinInPart(parts[1..], sep, c);
        var i :| 0 <= i < |parts[1..]| && c in parts[1..][i];
        assert c in parts[i + 1];
      }
    }
  }

  /** `raw` holds nothing but commas and trimmable characters. */
  predicate IsBlankList(raw: string)
  {
    forall k :: 0 <= k < |raw| ==> raw[k] == ',' || IsTrimmable(raw[k])
  }

  /** Every piece of a blank list trims to nothing. */
  lemma BlankTokensEmpty(raw: string)
    requires IsBlankList(raw)
    ensures forall i :: 0 <= i < |SplitTrim(raw)| ==> SplitTrim(raw)[i] == ""
  {
    var pieces := Split(raw, ',');
    var tokens := SplitTrim(raw);
    forall i | 0 <= i < |tokens| ensures tokens[i] == "" {
      forall k | 0 <= k < |pieces[i]| ensures IsTrimmable(pieces[i][k]) {
        InPartInJoin(pieces, ",", i, pieces[i][k]);
        var m :| 0 <= m < |raw| && raw[m] == pieces[i][k];
      }
      TrimEmptyIff(pieces[i]);
    }
  }

  /** When every piece trims to nothing, only commas and white space are left. */
  lemma EmptyTokensBlank(raw: string)
    requires forall i :: 0 <= i < |SplitTrim(raw)| ==> SplitTrim(raw)[i] == ""
    ensures IsBlankList(raw)
  {
    var pieces := Split(raw, ',');
    var tokens := SplitTrim(raw);
    forall k | 0 <= k < |raw| ensures raw[k] == ',' || IsTrimmable(raw[k]) {
      if raw[k] != ',' {
        InJoinInPart(pieces, ',', raw[k]);
        var i :| 0 <= i < |pieces| && raw[k] in pieces[i];
        var m :| 0 <= m < |pieces[i]| && pieces[i][m] == raw[k];
        assert tokens[i] == "";
        TrimEmptyIff(pieces[i]);
      }
    }
  }

  /** `validateSkills` throws exactly when the input is commas and white space only. */
  lemma ValidateFailsIffBlank(raw: string)
    ensures ValidateSkills(raw).Failure? <==> IsBlankList(raw)
  {
    if IsBlankList(raw) {
      BlankTokensEmpty(raw);
    }
    if ValidateSkills(raw).Failure? {
      EmptyTokensBlank(raw);
    }
  }

  /** Validating the comma-joined result of a validation gives the same tokens again. */
  lemma ValidateJoinIdempotent(raw: string)
    requires ValidateSkills(raw).Success?
    ensures ValidateSkills(Join(ValidateSkills(raw).value, ",")) == ValidateSkills(raw)
  {
    var v := ValidateSkills(raw).value;
    SplitTrimJoin(v);
    NonEmptyOfNonEmpty(v);
  }
}
