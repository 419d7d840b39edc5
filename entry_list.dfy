/**
  The entries of the add-work-history route (app.mjs): one entry per submitted
  description, each carrying the new work-history id and the validated skills
  for that description; and the plain split-and-trim of the routes that update
  or add a single entry.
*/
module EntryList {
  import opened Wrappers
  import opened JsString
  import opened SkillParsing

  /**
    A field of the submitted form: absent (`undefined`), one value, or a
    repeated field, which the body parser delivers as an array.
  */
  datatype FormField = Absent | Text(s: string) | Texts(items: seq<string>)

  /** Why building the entries throws. */
  datatype EntryError =
    | Invalid(reason: ValidationError)  // validateSkills rejected the string
    | NotAString                        // `.split` called on undefined or on an array: a TypeError

  /** One row for `work_history_entries`. */
  datatype Entry = Entry(workHistoryId: int, description: Option<string>, skills: seq<string>)

  /** `Array.isArray(skills) ? skills[index] : skills`, where a missing index reads undefined. */
  function SkillsFor(skills: FormField, index: nat): (r: Option<string>)
    ensures skills.Texts? ==> (r.Some? <==> index < |skills.items|)
    ensures skills.Texts? && r.Some? ==> r.value == skills.items[index]
    ensures skills.Text? ==> r == Some(skills.s)
    ensures skills.Absent? ==> r.None?
  {
    match skills
    case Texts(items) => if index < |items| then Some(items[index]) else None
    case Text(s) => Some(s)
    case Absent => None
  }

  /** The value of the form field when it is a single string, undefined otherwise. */
  function SharedSkills(skills: FormField): Option<string>
  {
    if skills.Text? then Some(skills.s) else None
  }

  /** `validateSkills(value)`, which throws a TypeError when `value` is not a string. */
  function CheckSkills(value: Option<string>): (r: Result<seq<string>, EntryError>)
    ensures value.None? ==> r == Failure(NotAString)
    ensures value.Some? && r.Failure? ==> r.error == Invalid(EmptySkillList)
    ensures r.Success? ==> value.Some?
  {
    match value
    case None => Failure(NotAString)
    case Some(s) =>
      match ValidateSkills(s)
      case Success(tokens) => Success(tokens)
      case Failure(e) => Failure(Invalid(e))
  }

  /**
    A string passes iff it is not a blank list; what passes is exactly what
    validateSkills returns: at least one token, each non-empty and trimmed.
  */
  lemma CheckSkillsSpec(value: Option<string>)
    ensures var r := CheckSkills(value);
            && (value.Some? ==> (r.Success? <==> !IsBlankList(value.value)))
            && (r.Success? ==> Success(r.value) == ValidateSkills(value.value))
            && (r.Success? ==> 1 <= |r.value| && forall i :: 0 <= i < |r.value| ==>
                  r.value[i] != "" && IsTrimmed(r.value[i]) && ',' !in r.value[i])
  {
    if value.Some? {
      ValidateFailsIffBlank(value.value);
    }
  }

  /**
    `xs.map(f)` with a callback that may throw: the callbacks run from the
    first index on, and the first one that throws ends the whole map.
  */
  function MapThrowing<T, U, E>(xs: seq<T>, f: (nat, T) -> Result<U, E>): (r: Result<seq<U>, E>)
    ensures r.Success? ==> |r.value| == |xs|
    decreases |xs|
  {
    if |xs| == 0 then Success([])
    else
      var n := |xs| - 1;
      match MapThrowing(xs[..n], f)
      case Failure(e) => Failure(e)
      case Success(us) =>
        match f(n, xs[n])
        case Failure(e) => Failure(e)
        case Success(u) => Success(us + [u])
  }

  /** The map succeeds iff every callback does. */
  lemma {:induction false} MapThrowingSucceeds<T, U, E>(xs: seq<T>, f: (nat, T) -> Result<U, E>)
    ensures MapThrowing(xs, f).Success? <==> forall i :: 0 <= i < |xs| ==> f(i, xs[i]).Success?
    decreases |xs|
  {
    if |xs| > 0 {
      var n := |xs| - 1;
      MapThrowingSucceeds(xs[..n], f);
      assert forall i :: 0 <= i < n ==> xs[..n][i] == xs[i];
    }
  }

  /** A map that succeeds holds the callbacks' results, one per element, in order. */
  lemma {:induction false} MapThrowingValues<T, U, E>(xs: seq<T>, f: (nat, T) -> Result<U, E>)
    ensures var r := MapThrowing(xs, f);
            r.Success? ==> |r.value| == |xs| && forall i :: 0 <= i < |xs| ==>
              f(i, xs[i]).Success? && r.value[i] == f(i, xs[i]).value
    decreases |xs|
  {
    if |xs| > 0 {
      var n := |xs| - 1;
      var front := xs[..n];
      MapThrowingValues(front, f);
      var r0 := MapThrowing(front, f);
      var r := MapThrowing(xs, f);
      if r.Success? {
        assert forall i :: 0 <= i < n ==> front[i] == xs[i];
        assert r.value == r0.value + [f(n, xs[n]).value];
      }
    }
  }

  /** A map that fails carries the error of the first callback that throws. */
  lemma {:induction false} MapThrowingFirstError<T, U, E>(xs: seq<T>, f: (nat, T) -> Result<U, E>)
    ensures var r := MapThrowing(xs, f);
            r.Failure? ==> exists i :: (0 <= i < |xs| && f(i, xs[i]) == Failure(r.error)
              && forall j :: 0 <= j < i ==> f(j, xs[j]).Success?)
    decreases |xs|
  {
    if |xs| > 0 {
      var n := |xs| - 1;
      var front := xs[..n];
      MapThrowingFirstError(front, f);
      MapThrowingSucceeds(front, f);
      var r0 := MapThrowing(front, f);
      var r := MapThrowing(xs, f);
      assert forall i :: 0 <= i < n ==> front[i] == xs[i];
      if r0.Failure? {
        var i :| 0 <= i < n && f(i, front[i]) == Failure(r0.error)
                 && forall j :: 0 <= j < i ==> f(j, front[j]).Success?;
        assert r.Failure? && f(i, xs[i]) == Failure(r.error);
      } else if r.Failure? {
        assert f(n, xs[n]) == Failure(r.error);
      }
    }
  }

  /** The callback of the map: the entry for the description at `index`. */
  function EntryAt(workHistoryId: int, skills: FormField, index: nat, description: string): Result<Entry, EntryError>
  {
    match CheckSkills(SkillsFor(skills, index))
    case Failure(e) => Failure(e)
    case Success(tokens) => Success(Entry(workHistoryId, Some(description), tokens))
  }

  /** `descriptions.map((description, index) => ...)`. */
  function MapEntries(workHistoryId: int, descriptions: seq<string>, skills: FormField): Result<seq<Entry>, EntryError>
  {
    MapThrowing(descriptions, (index: nat, description: string) => EntryAt(workHistoryId, skills, index, description))
  }

  /** The single entry built when `descriptions` is not an array. */
  function SingleEntry(workHistoryId: int, description: Option<string>, skills: FormField): Result<seq<Entry>, EntryError>
  {
    match CheckSkills(SharedSkills(skills))
    case Failure(e) => Failure(e)
    case Success(tokens) => Success([Entry(workHistoryId, description, tokens)])
  }

  /** The `entries` constant of the route. */
  function BuildEntries(workHistoryId: int, descriptions: FormField, skills: FormField): (r: Result<seq<Entry>, EntryError>)
    ensures r.Success? && descriptions.Texts? ==> |r.value| == |descriptions.items|
    ensures r.Success? && !descriptions.Texts? ==> |r.value| == 1
    ensures r.Failure? ==> r.error == NotAString || r.error.Invalid?
  {
    match descriptions
    case Texts(ds) => MapEntries(workHistoryId, ds, skills)
    case Text(d) => SingleEntry(workHistoryId, Some(d), skills)
    case Absent => SingleEntry(workHistoryId, None, skills)
  }

  /** The callback succeeds exactly when the skills of its index validate, and then holds them. */
  lemma EntryAtSpec(workHistoryId: int, skills: FormField, index: nat, description: string)
    ensures var e := EntryAt(workHistoryId, skills, index, description);
            var c := CheckSkills(SkillsFor(skills, index));
            && (e.Success? <==> c.Success?)
            && (e.Success? ==> e.value == Entry(workHistoryId, Some(description), c.value))
            && (e.Failure? ==> c == Failure(e.error))
  {
  }

  /** The mapped entries succeed iff the skills of every index validate. */
  lemma MapEntriesSucceeds(workHistoryId: int, descriptions: seq<string>, skills: FormField)
    ensures MapEntries(workHistoryId, descriptions, skills).Success? <==>
            forall i :: 0 <= i < |descriptions| ==> CheckSkills(SkillsFor(skills, i)).Success?
  {
    var f := (index: nat, description: string) => EntryAt(workHistoryId, skills, index, description);
    MapThrowingSucceeds(descriptions, f);
    forall i | 0 <= i < |descriptions|
      ensures f(i, descriptions[i]).Success? == CheckSkills(SkillsFor(skills, i)).Success?
    {
      EntryAtSpec(workHistoryId, skills, i, descriptions[i]);
    }
  }

  /** One entry per description, in order, with that index's validated skills. */
  lemma MapEntriesValues(workHistoryId: int, descriptions: seq<string>, skills: FormField)
    ensures var r := MapEntries(workHistoryId, descriptions, skills);
            r.Success? ==> |r.value| == |descriptions| && forall i :: 0 <= i < |descriptions| ==>
              CheckSkills(SkillsFor(skills, i)).Success? &&
              r.value[i] == Entry(workHistoryId, Some(descriptions[i]), CheckSkills(SkillsFor(skills, i)).value)
  {
    var f := (index: nat, description: string) => EntryAt(workHistoryId, skills, index, description);
    MapThrowingValues(descriptions, f);
    var r := MapEntries(workHistoryId, descriptions, skills);
    if r.Success? {
      forall i | 0 <= i < |descriptions|
        ensures CheckSkills(SkillsFor(skills, i)).Success?
        ensures r.value[i] == Entry(workHistoryId, Some(descriptions[i]), CheckSkills(SkillsFor(skills, i)).value)
      {
        EntryAtSpec(workHistoryId, skills, i, descriptions[i]);
      }
    }
  }

  /** When building fails, the error is that of the first index whose skills do not validate. */
  lemma MapEntriesFirstError(workHistoryId: int, descriptions: seq<string>, skills: FormField)
    ensures var r := MapEntries(workHistoryId, descriptions, skills);
            r.Failure? ==> exists i :: (0 <= i < |descriptions| && CheckSkills(SkillsFor(skills, i)) == Failure(r.error)
              && forall j :: 0 <= j < i ==> CheckSkills(SkillsFor(skills, j)).Success?)
  {
    var f := (index: nat, description: string) => EntryAt(workHistoryId, skills, index, description);
    MapThrowingFirstError(descriptions, f);
    var r := MapEntries(workHistoryId, descriptions, skills);
    if r.Failure? {
      var i :| 0 <= i < |descriptions| && f(i, descriptions[i]) == Failure(r.error)
               && forall j :: 0 <= j < i ==> f(j, descriptions[j]).Success?;
      EntryAtSpec(workHistoryId, skills, i, descriptions[i]);
      forall j | 0 <= j < i ensures CheckSkills(SkillsFor(skills, j)).Success? {
        EntryAtSpec(workHistoryId, skills, j, descriptions[j]);
      }
    }
  }

  /**
    With an array of descriptions: one entry per description, each carrying
    the work-history id and its own description; an empty array yields no
    entries and never looks at `skills`.
  */
  lemma ArrayEntries(workHistoryId: int, ds: seq<string>, skills: FormField)
    ensures var r := BuildEntries(workHistoryId, Texts(ds), skills);
            && (|ds| == 0 ==> r == Success([]))
            && (r.Success? ==> |r.value| == |ds| && forall i :: 0 <= i < |ds| ==>
                  r.value[i].workHistoryId == workHistoryId && r.value[i].description == Some(ds[i]))
  {
    MapEntriesValues(workHistoryId, ds, skills);
  }

  /**
    Index-aligned skills: with arrays of descriptions and of skills, building
    succeeds iff there is a skills value for every description and each of
    them validates, and entry `i` then holds the validated `skills[i]`.
  */
  lemma ArrayEntriesAligned(workHistoryId: int, ds: seq<string>, items: seq<string>)
    ensures var r := BuildEntries(workHistoryId, Texts(ds), Texts(items));
            && (r.Success? <==> |ds| <= |items| && forall i :: 0 <= i < |ds| ==> ValidateSkills(items[i]).Success?)
            && (r.Success? ==> |ds| <= |items| && |r.value| == |ds| && forall i :: 0 <= i < |ds| ==>
                  Success(r.value[i].skills) == ValidateSkills(items[i]))
  {
    var skills := Texts(items);
    MapEntriesSucceeds(workHistoryId, ds, skills);
    MapEntriesValues(workHistoryId, ds, skills);
    var r := BuildEntries(workHistoryId, Texts(ds), skills);
    if |ds| > |items| {
      assert SkillsFor(skills, |items|) == None;
    }
    if r.Success? {
      forall i | 0 <= i < |ds| ensures Success(r.value[i].skills) == ValidateSkills(items[i]) {
        CheckSkillsSpec(SkillsFor(skills, i));
      }
    } else if |ds| <= |items| {
      var i :| 0 <= i < |ds| && !CheckSkills(SkillsFor(skills, i)).Success?;
      assert SkillsFor(skills, i) == Some(items[i]);
    }
  }

  /**
    With an array of descriptions, the route throws a TypeError when `skills`
    is absent, unless there are no descriptions at all.
  */
  lemma ArrayEntriesMissingSkills(workHistoryId: int, ds: seq<string>)
    requires |ds| > 0
    ensures BuildEntries(workHistoryId, Texts(ds), Absent) == Failure(NotAString)
  {
    MapEntriesFirstError(workHistoryId, ds, Absent);
    MapEntriesSucceeds(workHistoryId, ds, Absent);
    assert SkillsFor(Absent, 0) == None;
  }

  /**
    Shared skills: with a single skills string, the array case succeeds iff
    that string validates, and then every entry carries the validated string.
  */
  lemma ArrayEntriesShared(workHistoryId: int, ds: seq<string>, s: string)
    requires |ds| > 0
    ensures var r := BuildEntries(workHistoryId, Texts(ds), Text(s));
            && (r.Success? <==> ValidateSkills(s).Success?)
            && (r.Success? ==> |r.value| == |ds| && forall i :: 0 <= i < |ds| ==>
                  Success(r.value[i].skills) == ValidateSkills(s))
  {
    MapEntriesSucceeds(workHistoryId, ds, Text(s));
    MapEntriesValues(workHistoryId, ds, Text(s));
    CheckSkillsSpec(Some(s));
    var r := BuildEntries(workHistoryId, Texts(ds), Text(s));
    assert SkillsFor(Text(s), 0) == Some(s);
    if r.Success? {
      forall i | 0 <= i < |ds| ensures Success(r.value[i].skills) == ValidateSkills(s) {
        assert SkillsFor(Text(s), i) == Some(s);
      }
    } else {
      var i :| 0 <= i < |ds| && !CheckSkills(SkillsFor(Text(s), i)).Success?;
      assert SkillsFor(Text(s), i) == Some(s);
    }
  }

  /**
    Without an array of descriptions: exactly one entry, with the description
    as submitted, the work-history id and the validated skills string; it
    throws when the skills do not validate or are not a single string.
  */
  lemma SingleEntrySpec(workHistoryId: int, descriptions: FormField, skills: FormField)
    requires !descriptions.Texts?
    ensures var r := BuildEntries(workHistoryId, descriptions, skills);
            && (r.Success? <==> skills.Text? && ValidateSkills(skills.s).Success?)
            && (!skills.Text? ==> r == Failure(NotAString))
            && (r.Success? ==> (|r.value| == 1
                  && r.value[0].workHistoryId == workHistoryId
                  && r.value[0].description == (if descriptions.Text? then Some(descriptions.s) else None)
                  && Success(r.value[0].skills) == ValidateSkills(skills.s)))
  {
    CheckSkillsSpec(SharedSkills(skills));
  }

  /** Every entry built carries the work-history id and a non-empty list of non-empty trimmed skills. */
  predicate WellFormedEntries(workHistoryId: int, entries: seq<Entry>)
  {
    forall i :: 0 <= i < |entries| ==>
      && entries[i].workHistoryId == workHistoryId
      && 1 <= |entries[i].skills|
      && forall k :: 0 <= k < |entries[i].skills| ==> entries[i].skills[k] != "" && IsTrimmed(entries[i].skills[k])
  }

  lemma MapEntriesWellFormed(workHistoryId: int, ds: seq<string>, skills: FormField)
    ensures var r := MapEntries(workHistoryId, ds, skills);
            r.Success? ==> WellFormedEntries(workHistoryId, r.value)
  {
    var r := MapEntries(workHistoryId, ds, skills);
    MapEntriesValues(workHistoryId, ds, skills);
    if r.Success? {
      forall i | 0 <= i < |r.value|
        ensures r.value[i].workHistoryId == workHistoryId && 1 <= |r.value[i].skills|
        ensures forall k :: 0 <= k < |r.value[i].skills| ==> r.value[i].skills[k] != "" && IsTrimmed(r.value[i].skills[k])
      {
        CheckSkillsSpec(SkillsFor(skills, i));
      }
    }
  }

  lemma SingleEntryWellFormed(workHistoryId: int, description: Option<string>, skills: FormField)
    ensures var r := SingleEntry(workHistoryId, description, skills);
            r.Success? ==> WellFormedEntries(workHistoryId, r.value)
  {
    CheckSkillsSpec(SharedSkills(skills));
  }

  lemma EntriesWellFormed(workHistoryId: int, descriptions: FormField, skills: FormField)
    ensures var r := BuildEntries(workHistoryId, descriptions, skills);
            r.Success? ==> WellFormedEntries(workHistoryId, r.value)
  {
    match descriptions
    case Texts(ds) => MapEntriesWellFormed(workHistoryId, ds, skills);
    case Text(d) => SingleEntryWellFormed(workHistoryId, Some(d), skills);
    case Absent => SingleEntryWellFormed(workHistoryId, None, skills);
  }

  /**
    `skills.split(',').map(s => s.trim())` of the routes that update or add
    one entry: no filtering, and a TypeError when `skills` is not a string.
  */
  function SplitTrimField(skills: FormField): (r: Result<seq<string>, EntryError>)
    ensures r.Success? <==> skills.Text?
    ensures r.Success? ==> |r.value| == Count(skills.s, ',') + 1
    ensures r.Success? ==> forall i :: 0 <= i < |r.value| ==> IsTrimmed(r.value[i]) && ',' !in r.value[i]
  {
    if skills.Text? then Success(SplitTrim(skills.s)) else Failure(NotAString)
  }

  /**
    Unlike validateSkills, these routes keep empty tokens: a trailing comma
    stores an extra "" as the last skill.
  */
  lemma SplitTrimFieldKeepsEmpty(raw: string)
    ensures var r := SplitTrimField(Text(raw + ","));
            && r.Success?
            && |r.value| == Count(raw, ',') + 2
            && r.value[|r.value| - 1] == ""
  {
    EmptyTokenKept(raw);
  }
}
