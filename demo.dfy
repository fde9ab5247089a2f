/** The scenario of BugTrackerDemo as facts about the bug table: the tags
    its addTagToBug calls store, and what its searches and its summary
    report once the three bugs are in their final state. */
module Demo {
  import opened Errors
  import opened Enums
  import opened Text
  import opened Model
  import opened Search
  import opened Registry

  predicate IsLetters(s: string) {
    forall i :: 0 <= i < |s| ==> 'a' <= s[i] <= 'z'
  }

  /** A non-empty word of lower-case letters is stored as it is. */
  lemma PlainTagIsStoredAsIs(tag: string)
    requires tag != [] && IsLetters(tag)
    ensures !IsBlank(tag) && NormalizeTag(tag) == tag
  {
    LowerFixesLowerCase(tag);
    TrimStartStable(tag);
    TrimEndStable(tag);
  }

  /** The demo's two tags per bug are stored as written. */
  lemma DemoTags()
    ensures TagsAfterAdd(TagsAfterAdd({}, "mobile"), "ui") == {"mobile", "ui"}
    ensures TagsAfterAdd(TagsAfterAdd({}, "search"), "ui") == {"search", "ui"}
    ensures TagsAfterAdd(TagsAfterAdd({}, "database"), "critical") == {"database", "critical"}
  {
    PlainTagIsStoredAsIs("mobile");
    PlainTagIsStoredAsIs("ui");
    PlainTagIsStoredAsIs("search");
    PlainTagIsStoredAsIs("database");
    PlainTagIsStoredAsIs("critical");
  }

  /** The table at the end of the demo: bug1 (High, in progress) and bug2
      (Medium, open) are assigned to DEV001 and tagged "ui", bug3
      (Critical, in progress) is assigned to ADMIN001. */
  ghost predicate EndOfDemo(t: BugTable, bug1: string, bug2: string, bug3: string) {
    && bug1 != bug2 && bug1 != bug3 && bug2 != bug3
    && t.Keys == {bug1, bug2, bug3}
    && t[bug1].priority == High && t[bug2].priority == Medium && t[bug3].priority == Critical
    && t[bug1].status == InProgress && t[bug2].status == Open && t[bug3].status == InProgress
    && t[bug1].assignee == Some(DefaultUsers()["DEV001"])
    && t[bug2].assignee == Some(DefaultUsers()["DEV001"])
    && t[bug3].assignee == Some(DefaultUsers()["ADMIN001"])
    && t[bug1].tags == {"mobile", "ui"} && t[bug2].tags == {"search", "ui"}
    && t[bug3].tags == {"database", "critical"}
  }

  /** The demo's searches: high priority finds bug1, DEV001 has bug1 and
      bug2, and the tag search finds the two "ui" bugs whatever the case. */
  lemma DemoSearches(t: BugTable, bug1: string, bug2: string, bug3: string)
    requires EndOfDemo(t, bug1, bug2, bug3)
    ensures SearchByPriority(t, High) == {bug1}
    ensures SearchByAssignee(t, "DEV001") == {bug1, bug2}
    ensures SearchByTag(t, "ui") == {bug1, bug2} && SearchByTag(t, "UI") == {bug1, bug2}
  {
    assert Lower("ui") == "ui";
    SearchByTagIgnoresQueryCase(t, "UI");
    assert Lower("UI") == "ui";
  }

  /** The status row of the demo's summary: one open, two in progress. */
  lemma DemoStatusCounts(t: BugTable, bug1: string, bug2: string, bug3: string)
    requires EndOfDemo(t, bug1, bug2, bug3)
    ensures Summarize(t).total == 3
    ensures Summarize(t).byStatus == [1, 2, 0, 0, 0]
  {
    assert SearchByStatus(t, Open) == {bug2};
    assert SearchByStatus(t, InProgress) == {bug1, bug3};
    assert SearchByStatus(t, Resolved) == {};
    assert SearchByStatus(t, Closed) == {};
    assert SearchByStatus(t, Rejected) == {};
    var s := Summarize(t);
    assert s.byStatus[StatusOrdinal(Open)] == 1;
    assert s.byStatus[StatusOrdinal(InProgress)] == 2;
    assert s.byStatus[StatusOrdinal(Resolved)] == 0;
    assert s.byStatus[StatusOrdinal(Closed)] == 0;
    assert s.byStatus[StatusOrdinal(Rejected)] == 0;
  }

  /** The priority row of the demo's summary: one each of Medium, High and Critical. */
  lemma DemoPriorityCounts(t: BugTable, bug1: string, bug2: string, bug3: string)
    requires EndOfDemo(t, bug1, bug2, bug3)
    ensures Summarize(t).byPriority == [0, 1, 1, 1]
  {
    assert SearchByPriority(t, Low) == {};
    assert SearchByPriority(t, Medium) == {bug2};
    assert SearchByPriority(t, High) == {bug1};
    assert SearchByPriority(t, Critical) == {bug3};
    var s := Summarize(t);
    assert s.byPriority[PriorityOrdinal(Low)] == 0;
    assert s.byPriority[PriorityOrdinal(Medium)] == 1;
    assert s.byPriority[PriorityOrdinal(High)] == 1;
    assert s.byPriority[PriorityOrdinal(Critical)] == 1;
  }
}
