/**
  `generateResumeContent(jobPosting, workHistoryEntries)` (app.js): a `reduce`
  groups the rows by the string key `${company}-${position}`, creating a group
  from the first row of each key and pushing `{description, skills}` into it;
  then loops append a header, and per group a position line, a date line, two
  lines per entry and a blank line, to a growing string.

  Every key contains '-', so it is never an array-index key and never the name
  of an `Object.prototype` member: `!acc[key]` is "key not yet added" and
  `Object.values` yields the groups in insertion order.
*/
module ResumeContent {
  import opened Wrappers
  import opened JsString
  import opened Sequences
  import opened WorkHistory

  datatype GroupEntry = GroupEntry(description: string, skills: string)

  /** One value of the `groupedEntries` object. */
  datatype Group = Group(
    company: string,
    position: string,
    startDate: Option<string>,
    endDate: Option<string>,
    entries: seq<GroupEntry>)

  /** `${entry.company}-${entry.position}`. */
  function KeyOf(r: Row): (k: string)
    ensures |k| == |r.company| + 1 + |r.position| && k[|r.company|] == '-'
  {
    r.company + "-" + r.position
  }

  /** The key is the company, then '-', then the position. */
  lemma KeyParts(r: Row)
    ensures KeyOf(r)[..|r.company|] == r.company
    ensures KeyOf(r)[|r.company| + 1..] == r.position
  {
    var k := KeyOf(r);
    assert k == r.company + "-" + r.position;
  }

  function GroupKey(g: Group): string
  {
    g.company + "-" + g.position
  }

  function EntryOf(r: Row): GroupEntry
  {
    GroupEntry(r.description, r.skills)
  }

  function Keys(rows: seq<Row>): (ks: seq<string>)
    ensures |ks| == |rows|
    ensures forall i :: 0 <= i < |rows| ==> ks[i] == KeyOf(rows[i])
  {
    seq(|rows|, i requires 0 <= i < |rows| => KeyOf(rows[i]))
  }

  lemma KeysSnoc(p: seq<Row>, r: Row)
    ensures Keys(p + [r]) == Keys(p) + [KeyOf(r)]
  {
  }

  // ---------------------------------------------------------------------------
  // The grouping, as a specification

  /** The entries pushed into the group of key `k`: those of the rows with that key, in input order. */
  function EntriesOf(rows: seq<Row>, k: string): (es: seq<GroupEntry>)
    ensures |es| <= |rows|
    ensures |es| == 0 <==> k !in Keys(rows)
  {
    if |rows| == 0 then []
    else
      var front := rows[..|rows| - 1];
      var last := rows[|rows| - 1];
      assert rows == front + [last];
      KeysSnoc(front, last);
      EntriesOf(front, k) + (if KeyOf(last) == k then [EntryOf(last)] else [])
  }

  /** The row that created the group of key `k`: the first row with that key. */
  function FirstWithKey(rows: seq<Row>, k: string): (r: Row)
    requires k in Keys(rows)
    ensures KeyOf(r) == k
  {
    var front := rows[..|rows| - 1];
    var last := rows[|rows| - 1];
    assert rows == front + [last];
    KeysSnoc(front, last);
    if k in Keys(front) then FirstWithKey(front, k) else last
  }

  /** The group's creating row is the row at the first occurrence of its key. */
  lemma {:induction false} FirstWithKeyIsFirst(rows: seq<Row>, k: string)
    requires k in Keys(rows)
    ensures FirstWithKey(rows, k) == rows[IndexOf(Keys(rows), k)]
  {
    var front := rows[..|rows| - 1];
    assert rows == front + [rows[|rows| - 1]];
    KeysSnoc(front, rows[|rows| - 1]);
    if k in Keys(front) {
      FirstWithKeyIsFirst(front, k);
      IndexOfPrefix(Keys(rows), |rows| - 1, k);
    }
  }

  /** The group of key `k`: company, position and dates of its first row, and all its entries. */
  function GroupOf(rows: seq<Row>, k: string): Group
    requires k in Keys(rows)
  {
    var first := FirstWithKey(rows, k);
    Group(first.company, first.position, first.startDate, first.endDate, EntriesOf(rows, k))
  }

  function GroupsFor(rows: seq<Row>, ks: seq<string>): (gs: seq<Group>)
    requires forall k :: k in ks ==> k in Keys(rows)
    ensures |gs| == |ks|
    ensures forall j :: 0 <= j < |ks| ==> gs[j] == GroupOf(rows, ks[j])
  {
    if |ks| == 0 then [] else GroupsFor(rows, ks[..|ks| - 1]) + [GroupOf(rows, ks[|ks| - 1])]
  }

  /** `Object.values(groupedEntries)`: one group per distinct key, in first-seen order. */
  function Grouped(rows: seq<Row>): (gs: seq<Group>)
    ensures |gs| == |Dedup(Keys(rows))|
    ensures |gs| <= |rows| && (|gs| == 0 <==> |rows| == 0)
  {
    GroupsFor(rows, Dedup(Keys(rows)))
  }

  lemma EntriesOfSnoc(p: seq<Row>, r: Row, k: string)
    ensures EntriesOf(p + [r], k) == EntriesOf(p, k) + (if KeyOf(r) == k then [EntryOf(r)] else [])
  {
    assert (p + [r])[..|p|] == p;
  }

  /** One more row leaves the group of every other key as it was. */
  lemma GroupOfSnocOther(p: seq<Row>, r: Row, k: string)
    requires k in Keys(p) && k != KeyOf(r)
    ensures k in Keys(p + [r]) && GroupOf(p + [r], k) == GroupOf(p, k)
  {
    KeysSnoc(p, r);
    assert (p + [r])[..|p|] == p;
    EntriesOfSnoc(p, r, k);
  }

  /** One more row pushes its entry into its key's group, creating the group from it on first sight. */
  lemma GroupOfSnocOwn(p: seq<Row>, r: Row)
    ensures KeyOf(r) in Keys(p + [r])
    ensures GroupOf(p + [r], KeyOf(r)) ==
            if KeyOf(r) in Keys(p) then
              GroupOf(p, KeyOf(r)).(entries := GroupOf(p, KeyOf(r)).entries + [EntryOf(r)])
            else
              Group(r.company, r.position, r.startDate, r.endDate, [EntryOf(r)])
  {
    KeysSnoc(p, r);
    assert (p + [r])[..|p|] == p;
    EntriesOfSnoc(p, r, KeyOf(r));
  }

  // ---------------------------------------------------------------------------
  // The grouping, as the source performs it

  /**
    After the rows `p`, `acc` holds the group of every key seen so far and
    `order` lists those keys in the order they were added.
  */
  ghost predicate GroupingState(p: seq<Row>, acc: map<string, Group>, order: seq<string>)
  {
    && order == Dedup(Keys(p))
    && (forall k :: k in acc <==> k in order)
    && (forall k :: k in acc ==> k in Keys(p) && acc[k] == GroupOf(p, k))
  }

  /** One step of the `reduce` on the key order: a key is appended on first sight only. */
  lemma GroupingOrderStep(p: seq<Row>, r: Row, order: seq<string>)
    requires order == Dedup(Keys(p))
    ensures (if KeyOf(r) in order then order else order + [KeyOf(r)]) == Dedup(Keys(p + [r]))
  {
    KeysSnoc(p, r);
    DedupSnoc(Keys(p), KeyOf(r));
  }

  /** One step of the `reduce` on the groups: only the row's own group changes. */
  lemma GroupingValuesStep(p: seq<Row>, r: Row, acc: map<string, Group>, acc': map<string, Group>)
    requires forall k :: k in acc ==> k in Keys(p) && acc[k] == GroupOf(p, k)
    requires KeyOf(r) in Keys(p + [r])
    requires acc' == acc[KeyOf(r) := GroupOf(p + [r], KeyOf(r))]
    ensures forall k :: k in acc' ==> k in Keys(p + [r]) && acc'[k] == GroupOf(p + [r], k)
  {
    forall k | k in acc' ensures k in Keys(p + [r]) && acc'[k] == GroupOf(p + [r], k) {
      if k != KeyOf(r) {
        GroupOfSnocOther(p, r, k);
      }
    }
  }

  /** One step of the `reduce`: create the group on first sight, then push the entry. */
  lemma GroupingStep(p: seq<Row>, r: Row, acc: map<string, Group>, order: seq<string>,
                     acc': map<string, Group>, order': seq<string>)
    requires GroupingState(p, acc, order)
    requires KeyOf(r) in Keys(p + [r])
    requires order' == (if KeyOf(r) in acc then order else order + [KeyOf(r)])
    requires acc' == acc[KeyOf(r) := GroupOf(p + [r], KeyOf(r))]
    ensures GroupingState(p + [r], acc', order')
  {
    GroupingOrderStep(p, r, order);
    GroupingValuesStep(p, r, acc, acc');
    forall k ensures k in acc' <==> k in order' {
      assert k in acc <==> k in order;
    }
  }

  /** The callback's two statements, `if (!acc[key]) acc[key] = {...}` and the `push`, as one step. */
  lemma PushStep(p: seq<Row>, r: Row, acc0: map<string, Group>, order0: seq<string>,
                 acc1: map<string, Group>, order1: seq<string>, acc2: map<string, Group>)
    requires GroupingState(p, acc0, order0)
    requires KeyOf(r) !in acc0 ==>
               && acc1 == acc0[KeyOf(r) := Group(r.company, r.position, r.startDate, r.endDate, [])]
               && order1 == order0 + [KeyOf(r)]
    requires KeyOf(r) in acc0 ==> acc1 == acc0 && order1 == order0
    requires KeyOf(r) in acc1
    requires acc2 == acc1[KeyOf(r) := acc1[KeyOf(r)].(entries := acc1[KeyOf(r)].entries + [EntryOf(r)])]
    ensures GroupingState(p + [r], acc2, order1)
  {
    GroupOfSnocOwn(p, r);
    GroupingStep(p, r, acc0, order0, acc2, order1);
  }

  /**
    The `reduce` over the rows: `acc` is the object being filled and `order` the
    insertion order of its keys. The result is `Object.values(acc)`.
  */
  method GroupEntries(rows: seq<Row>) returns (groups: seq<Group>)
    ensures groups == Grouped(rows)
  {
    var acc: map<string, Group> := map[];
    var order: seq<string> := [];
    var i := 0;
    while i < |rows|
      invariant 0 <= i <= |rows|
      invariant GroupingState(rows[..i], acc, order)
    {
      var entry := rows[i];
      var key := KeyOf(entry);
      ghost var acc0, order0 := acc, order;
      if key !in acc {
        acc := acc[key := Group(entry.company, entry.position, entry.startDate, entry.endDate, [])];
        order := order + [key];
      }
      ghost var acc1 := acc;
      acc := acc[key := acc[key].(entries := acc[key].entries + [EntryOf(entry)])];
      PushStep(rows[..i], entry, acc0, order0, acc1, order, acc);
      PrefixSnoc(rows, i);
      i := i + 1;
    }
    assert rows[..i] == rows;
    groups := seq(|order|, j requires 0 <= j < |order| => acc[order[j]]);
  }

  // ---------------------------------------------------------------------------
  // What the grouping promises

  function GroupKeys(gs: seq<Group>): (ks: seq<string>)
    ensures |ks| == |gs|
    ensures forall j :: 0 <= j < |gs| ==> ks[j] == GroupKey(gs[j])
  {
    seq(|gs|, j requires 0 <= j < |gs| => GroupKey(gs[j]))
  }

  /**
    There is one group per distinct key: no key has two groups, every row's key
    has one, and the groups come in the order in which their keys first occur.
  */
  lemma GroupedKeys(rows: seq<Row>)
    ensures GroupKeys(Grouped(rows)) == Dedup(Keys(rows))
    ensures NoDup(GroupKeys(Grouped(rows)))
    ensures forall k :: k in GroupKeys(Grouped(rows)) <==> k in Keys(rows)
    ensures FirstSeenOrder(GroupKeys(Grouped(rows)), Keys(rows))
  {
    DedupOrder(Keys(rows));
  }

  /**
    A group's company, position and dates are those of the first row with its
    key; later rows with the same key only contribute entries.
  */
  lemma GroupedFirstRow(rows: seq<Row>, j: nat)
    requires j < |Grouped(rows)|
    ensures var g := Grouped(rows)[j];
            var i := IndexOf(Keys(rows), GroupKey(g));
            && i < |rows|
            && KeyOf(rows[i]) == GroupKey(g)
            && (forall h :: 0 <= h < i ==> KeyOf(rows[h]) != GroupKey(g))
            && g.company == rows[i].company && g.position == rows[i].position
            && g.startDate == rows[i].startDate && g.endDate == rows[i].endDate
  {
    var k := Dedup(Keys(rows))[j];
    FirstWithKeyIsFirst(rows, k);
  }

  /** A group holds one entry per row with its key. */
  lemma {:induction false} EntriesCount(rows: seq<Row>, k: string)
    ensures |EntriesOf(rows, k)| == multiset(Keys(rows))[k]
  {
    if |rows| > 0 {
      var p := rows[..|rows| - 1];
      var r := rows[|rows| - 1];
      assert rows == p + [r];
      KeysSnoc(p, r);
      EntriesCount(p, k);
    }
  }

  /** Each entry of a group was built from one of the rows. */
  lemma {:induction false} EntriesFromRows(rows: seq<Row>, k: string, e: GroupEntry)
    requires e in EntriesOf(rows, k)
    ensures exists i :: 0 <= i < |rows| && KeyOf(rows[i]) == k && EntryOf(rows[i]) == e
  {
    var p := rows[..|rows| - 1];
    var r := rows[|rows| - 1];
    assert rows == p + [r];
    EntriesOfSnoc(p, r, k);
    if e in EntriesOf(p, k) {
      EntriesFromRows(p, k, e);
      var i :| 0 <= i < |p| && KeyOf(p[i]) == k && EntryOf(p[i]) == e;
      assert rows[i] == p[i];
    } else {
      assert KeyOf(rows[|rows| - 1]) == k && EntryOf(rows[|rows| - 1]) == e;
    }
  }

  /** The number of entries in the groups of the keys `ks`. */
  function SumEntries(rows: seq<Row>, ks: seq<string>): nat
  {
    if |ks| == 0 then 0 else SumEntries(rows, ks[..|ks| - 1]) + |EntriesOf(rows, ks[|ks| - 1])|
  }

  /** The number of entries in the groups `gs`. */
  function TotalEntries(gs: seq<Group>): nat
  {
    if |gs| == 0 then 0 else TotalEntries(gs[..|gs| - 1]) + |gs[|gs| - 1].entries|
  }

  lemma {:induction false} SumEntriesSnoc(p: seq<Row>, r: Row, ks: seq<string>)
    requires NoDup(ks)
    ensures SumEntries(p + [r], ks) == SumEntries(p, ks) + (if KeyOf(r) in ks then 1 else 0)
  {
    if |ks| > 0 {
      var front := ks[..|ks| - 1];
      assert ks == front + [ks[|ks| - 1]];
      assert NoDup(front);
      SumEntriesSnoc(p, r, front);
      EntriesOfSnoc(p, r, ks[|ks| - 1]);
    }
  }

  lemma {:induction false} SumEntriesAll(rows: seq<Row>)
    ensures SumEntries(rows, Dedup(Keys(rows))) == |rows|
  {
    if |rows| > 0 {
      var p := rows[..|rows| - 1];
      var r := rows[|rows| - 1];
      assert rows == p + [r];
      var d := Dedup(Keys(p));
      KeysSnoc(p, r);
      DedupSnoc(Keys(p), KeyOf(r));
      SumEntriesAll(p);
      SumEntriesSnoc(p, r, d);
      if KeyOf(r) !in d {
        assert (d + [KeyOf(r)])[..|d|] == d;
        EntriesOfSnoc(p, r, KeyOf(r));
      }
    }
  }

  lemma {:induction false} TotalEntriesGroupsFor(rows: seq<Row>, ks: seq<string>)
    requires forall k :: k in ks ==> k in Keys(rows)
    ensures TotalEntries(GroupsFor(rows, ks)) == SumEntries(rows, ks)
  {
    if |ks| > 0 {
      var front := ks[..|ks| - 1];
      var gs := GroupsFor(rows, ks);
      assert gs[..|gs| - 1] == GroupsFor(rows, front);
      TotalEntriesGroupsFor(rows, front);
    }
  }

  /** Grouping loses no row and duplicates none: the groups hold one entry per row. */
  lemma GroupedTotal(rows: seq<Row>)
    ensures TotalEntries(Grouped(rows)) == |rows|
  {
    TotalEntriesGroupsFor(rows, Dedup(Keys(rows)));
    SumEntriesAll(rows);
  }

  /** Two rows with one key make one group, carrying the first row's company, position and dates. */
  lemma SameKeyOneGroup(r1: Row, r2: Row)
    requires KeyOf(r1) == KeyOf(r2)
    ensures Grouped([r1, r2]) == [Group(r1.company, r1.position, r1.startDate, r1.endDate, [EntryOf(r1), EntryOf(r2)])]
  {
    var k := KeyOf(r1);
    assert [r1] == [] + [r1];
    assert [r1, r2] == [r1] + [r2];
    KeysSnoc([], r1);
    KeysSnoc([r1], r2);
    assert Dedup([k]) == [k];
    DedupSnoc([k], k);
    assert [k] + [k] == [k, k];
    GroupOfSnocOwn([], r1);
    GroupOfSnocOwn([r1], r2);
    assert Keys([r1, r2]) == [k, k];
    assert Dedup(Keys([r1, r2])) == [k];
    var g1 := GroupOf([r1], k);
    var g2 := GroupOf([r1, r2], k);
    assert g1 == Group(r1.company, r1.position, r1.startDate, r1.endDate, [EntryOf(r1)]);
    assert g2 == g1.(entries := g1.entries + [EntryOf(r2)]);
    assert g1.entries + [EntryOf(r2)] == [EntryOf(r1), EntryOf(r2)];
    assert [k][..0] == [];
    assert GroupsFor([r1, r2], [k]) == [g2];
  }

  /**
    The string key does not separate company from position: a row at company
    "a-b" as "c" and a row at company "a" as "b-c" land in one group, which then
    carries the first row's company and position.
  */
  lemma KeyCollision()
    ensures var r1 := Row(1, 1, "a-b", "c", None, None, "x", "");
            var r2 := Row(2, 1, "a", "b-c", None, None, "y", "");
            && (r1.company, r1.position) != (r2.company, r2.position)
            && Grouped([r1, r2]) == [Group("a-b", "c", None, None, [GroupEntry("x", ""), GroupEntry("y", "")])]
  {
    var r1 := Row(1, 1, "a-b", "c", None, None, "x", "");
    var r2 := Row(2, 1, "a", "b-c", None, None, "y", "");
    assert KeyOf(r1) == "a-b-c" == KeyOf(r2);
    SameKeyOneGroup(r1, r2);
  }

  /** No two rows with different (company, position) pairs share a key. */
  predicate KeysSeparate(rows: seq<Row>)
  {
    forall i, j :: 0 <= i < |rows| && 0 <= j < |rows| && KeyOf(rows[i]) == KeyOf(rows[j]) ==>
      rows[i].company == rows[j].company && rows[i].position == rows[j].position
  }

  /**
    When keys do not collide, grouping is by (company, position): every row's
    entry sits in the group of its own company and position.
  */
  lemma GroupedByPair(rows: seq<Row>, i: nat)
    requires KeysSeparate(rows) && i < |rows|
    ensures exists j :: 0 <= j < |Grouped(rows)| &&
              Grouped(rows)[j].company == rows[i].company &&
              Grouped(rows)[j].position == rows[i].position &&
              EntryOf(rows[i]) in Grouped(rows)[j].entries
  {
    var k := KeyOf(rows[i]);
    var d := Dedup(Keys(rows));
    assert k in Keys(rows);
    var j := IndexOf(d, k);
    FirstWithKeyIsFirst(rows, k);
    EntryInGroup(rows, i);
    assert Grouped(rows)[j] == GroupOf(rows, k);
  }

  lemma {:induction false} EntryInGroup(rows: seq<Row>, i: nat)
    requires i < |rows|
    ensures EntryOf(rows[i]) in EntriesOf(rows, KeyOf(rows[i]))
  {
    var p := rows[..|rows| - 1];
    var r := rows[|rows| - 1];
    assert rows == p + [r];
    EntriesOfSnoc(p, r, KeyOf(rows[i]));
    if i < |p| {
      EntryInGroup(p, i);
      assert p[i] == rows[i];
    }
  }

  // ---------------------------------------------------------------------------
  // The text

  /** `${value}` of a nullable column: NULL prints as "null". */
  function Show(d: Option<string>): string
  {
    match d
    case Some(s) => s
    case None => "null"
  }

  function Header(job: JobPosting): string
  {
    "Resume for " + job.title + " at " + job.company + "\n\n" + "Work Experience:\n"
  }

  function EntryText(e: GroupEntry): string
  {
    "- " + e.description + "\n" + "  Skills: " + e.skills + "\n"
  }

  function EntriesText(es: seq<GroupEntry>): string
  {
    if |es| == 0 then "" else EntriesText(es[..|es| - 1]) + EntryText(es[|es| - 1])
  }

  function GroupHead(g: Group): string
  {
    g.position + " at " + g.company + "\n" + Show(g.startDate) + " - " + Show(g.endDate) + "\n"
  }

  function GroupText(g: Group): string
  {
    GroupHead(g) + EntriesText(g.entries) + "\n"
  }

  function GroupsText(gs: seq<Group>): string
  {
    if |gs| == 0 then "" else GroupsText(gs[..|gs| - 1]) + GroupText(gs[|gs| - 1])
  }

  /** The resume text: the header, then each group's block in group order. */
  function ResumeText(job: JobPosting, rows: seq<Row>): (text: string)
    ensures |text| >= |Header(job)| && text[..|Header(job)|] == Header(job)
    ensures |rows| == 0 ==> text == Header(job)
  {
    Header(job) + GroupsText(Grouped(rows))
  }

  lemma GroupsTextSnoc(gs: seq<Group>, n: nat)
    requires n < |gs|
    ensures GroupsText(gs[..n + 1]) == GroupsText(gs[..n]) + GroupText(gs[n])
  {
    assert gs[..n + 1][..n] == gs[..n];
  }

  lemma EntriesTextSnoc(es: seq<GroupEntry>, n: nat)
    requires n < |es|
    ensures EntriesText(es[..n + 1]) == EntriesText(es[..n]) + EntryText(es[n])
  {
    assert es[..n + 1][..n] == es[..n];
  }

  /** The inner `job.entries.forEach`: two lines per entry appended to `content`. */
  method AppendEntries(content: string, entries: seq<GroupEntry>) returns (out: string)
    ensures out == content + EntriesText(entries)
  {
    out := content;
    assert entries[..0] == [];
    var e := 0;
    while e < |entries|
      invariant 0 <= e <= |entries|
      invariant out == content + EntriesText(entries[..e])
    {
      out := out + "- " + entries[e].description + "\n";
      out := out + "  Skills: " + entries[e].skills + "\n";
      EntriesTextSnoc(entries, e);
      e := e + 1;
    }
    assert entries[..e] == entries;
  }

  /** The `forEach` callback for one group: its lines appended to `content`. */
  method AppendGroup(content: string, group: Group) returns (out: string)
    ensures out == content + GroupText(group)
  {
    out := content + group.position + " at " + group.company + "\n";
    out := out + Show(group.startDate) + " - " + Show(group.endDate) + "\n";
    assert out == content + GroupHead(group);
    out := AppendEntries(out, group.entries);
    out := out + "\n";
  }

  /** The `Object.values(groupedEntries).forEach` loop: every group's block appended in order. */
  method AppendGroups(content: string, groups: seq<Group>) returns (out: string)
    ensures out == content + GroupsText(groups)
  {
    out := content;
    assert groups[..0] == [];
    var g := 0;
    while g < |groups|
      invariant 0 <= g <= |groups|
      invariant out == content + GroupsText(groups[..g])
    {
      out := AppendGroup(out, groups[g]);
      GroupsTextSnoc(groups, g);
      g := g + 1;
    }
    assert groups[..g] == groups;
  }

  /** `generateResumeContent(jobPosting, workHistoryEntries)`, building `content` step by step. */
  method GenerateResumeContent(job: JobPosting, rows: seq<Row>) returns (content: string)
    ensures content == ResumeText(job, rows)
  {
    content := "Resume for " + job.title + " at " + job.company + "\n\n";
    content := content + "Work Experience:\n";
    assert content == Header(job);
    var groups := GroupEntries(rows);
    content := AppendGroups(content, groups);
  }

  // ---------------------------------------------------------------------------
  // Lines of the text

  /** A row none of whose printed fields holds a line break. */
  predicate RowOnOneLine(r: Row)
  {
    && '\n' !in r.company && '\n' !in r.position
    && '\n' !in Show(r.startDate) && '\n' !in Show(r.endDate)
    && '\n' !in r.description && '\n' !in r.skills
  }

  predicate GroupOnOneLine(g: Group)
  {
    && '\n' !in g.company && '\n' !in g.position
    && '\n' !in Show(g.startDate) && '\n' !in Show(g.endDate)
    && forall e :: e in g.entries ==> '\n' !in e.description && '\n' !in e.skills
  }

  lemma NoBreak(s: string)
    requires '\n' !in s
    ensures multiset(s)['\n'] == 0
  {
    CountAbsent(s, '\n');
    CountMultiset(s, '\n');
  }

  lemma OneBreak(s: string)
    requires |s| > 0 && s[|s| - 1] == '\n' && '\n' !in s[..|s| - 1]
    ensures multiset(s)['\n'] == 1
  {
    NoBreak(s[..|s| - 1]);
    assert s == s[..|s| - 1] + [s[|s| - 1]];
  }

  lemma LineBreak()
    ensures multiset("\n")['\n'] == 1
  {
    OneBreak("\n");
  }

  // Literals in the header are costly to count together, so each is counted in a lemma of its own.

  lemma ResumeForWord()
    ensures multiset("Resume for ")['\n'] == 0
  {
    NoBreak("Resume for ");
  }

  lemma AtWord()
    ensures multiset(" at ")['\n'] == 0
  {
    NoBreak(" at ");
  }

  lemma BlankLine()
    ensures multiset("\n\n")['\n'] == 2
  {
    LineBreak();
    assert "\n\n" == "\n" + "\n";
  }

  lemma WorkExperienceLine()
    ensures multiset("Work Experience:\n")['\n'] == 1
  {
    OneBreak("Work Experience:\n");
  }

  lemma HeaderLines(job: JobPosting)
    requires '\n' !in job.title && '\n' !in job.company
    ensures multiset(Header(job))['\n'] == 3
  {
    ResumeForWord();
    AtWord();
    BlankLine();
    WorkExperienceLine();
  }

  lemma EntryTextLines(e: GroupEntry)
    requires '\n' !in e.description && '\n' !in e.skills
    ensures multiset(EntryText(e))['\n'] == 2
  {
    NoBreak("- ");
    NoBreak("  Skills: ");
    LineBreak();
  }

  lemma GroupHeadLines(g: Group)
    requires GroupOnOneLine(g)
    ensures multiset(GroupHead(g))['\n'] == 2
  {
    AtWord();
    NoBreak(" - ");
    LineBreak();
  }

  lemma {:induction false} EntriesTextLines(es: seq<GroupEntry>)
    requires forall e :: e in es ==> '\n' !in e.description && '\n' !in e.skills
    ensures multiset(EntriesText(es))['\n'] == 2 * |es|
  {
    if |es| > 0 {
      var front := es[..|es| - 1];
      assert forall e :: e in front ==> e in es;
      EntriesTextLines(front);
      assert es[|es| - 1] in es;
      EntryTextLines(es[|es| - 1]);
    }
  }

  lemma GroupTextLines(g: Group)
    requires GroupOnOneLine(g)
    ensures multiset(GroupText(g))['\n'] == 3 + 2 * |g.entries|
  {
    GroupHeadLines(g);
    EntriesTextLines(g.entries);
    LineBreak();
  }

  lemma {:induction false} GroupsTextLines(gs: seq<Group>)
    requires forall g :: g in gs ==> GroupOnOneLine(g)
    ensures multiset(GroupsText(gs))['\n'] == 3 * |gs| + 2 * TotalEntries(gs)
  {
    if |gs| > 0 {
      var front := gs[..|gs| - 1];
      assert forall h :: h in front ==> h in gs;
      GroupsTextLines(front);
      assert gs[|gs| - 1] in gs;
      GroupTextLines(gs[|gs| - 1]);
    }
  }

  /** A group prints only what the rows hold. */
  lemma GroupOfOnOneLine(rows: seq<Row>, k: string)
    requires forall i :: 0 <= i < |rows| ==> RowOnOneLine(rows[i])
    requires k in Keys(rows)
    ensures GroupOnOneLine(GroupOf(rows, k))
  {
    FirstWithKeyIsFirst(rows, k);
    forall e | e in EntriesOf(rows, k) ensures '\n' !in e.description && '\n' !in e.skills {
      EntriesFromRows(rows, k, e);
    }
  }

  lemma GroupedOnOneLine(rows: seq<Row>)
    requires forall i :: 0 <= i < |rows| ==> RowOnOneLine(rows[i])
    ensures forall g :: g in Grouped(rows) ==> GroupOnOneLine(g)
  {
    var ks := Dedup(Keys(rows));
    forall j | 0 <= j < |ks| ensures GroupOnOneLine(Grouped(rows)[j]) {
      GroupOfOnOneLine(rows, ks[j]);
    }
  }

  /**
    When no printed field holds a line break, the resume has three header
    lines (one of them blank), three lines per group (its position line, its
    date line, the closing blank line) and two per row.
  */
  lemma ResumeLineCount(job: JobPosting, rows: seq<Row>)
    requires '\n' !in job.title && '\n' !in job.company
    requires forall i :: 0 <= i < |rows| ==> RowOnOneLine(rows[i])
    ensures Count(ResumeText(job, rows), '\n') == 3 + 3 * |Grouped(rows)| + 2 * |rows|
  {
    CountMultiset(ResumeText(job, rows), '\n');
    HeaderLines(job);
    GroupedOnOneLine(rows);
    GroupsTextLines(Grouped(rows));
    GroupedTotal(rows);
  }
}
