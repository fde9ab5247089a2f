/** The registry's read-only queries: the six searchBugsBy* filters and the
    counting behind printBugSummary, as functions of the bug table. A search
    answers with the identifiers of the matching bugs; the order in which a
    HashMap lists them is not part of the model. */
module Search {
  import opened Errors
  import opened Enums
  import opened Text
  import opened Model

  /** The registry's bugs map, each bug given by the value of its fields. */
  type BugTable = map<string, BugRecord>

  /** bugs.values().stream().filter(p): the identifiers of the bugs satisfying p. */
  function Select(t: BugTable, p: BugRecord -> bool): (r: set<string>)
    ensures r <= t.Keys
    ensures forall id :: id in t ==> (id in r <==> p(t[id]))
  {
    set id | id in t && p(t[id])
  }

  function SearchByStatus(t: BugTable, status: Status): (r: set<string>)
    ensures forall id :: id in r <==> id in t && t[id].status == status
  {
    Select(t, (b: BugRecord) => b.status == status)
  }

  function SearchByPriority(t: BugTable, priority: Priority): (r: set<string>)
    ensures forall id :: id in r <==> id in t && t[id].priority == priority
  {
    Select(t, (b: BugRecord) => b.priority == priority)
  }

  /** Bugs without an assignee never match. */
  function SearchByAssignee(t: BugTable, assigneeId: string): (r: set<string>)
    ensures forall id :: id in r <==>
              id in t && t[id].assignee.Some? && t[id].assignee.value.userId == assigneeId
  {
    Select(t, (b: BugRecord) => b.assignee.Some? && b.assignee.value.userId == assigneeId)
  }

  function SearchByReporter(t: BugTable, reporterId: string): (r: set<string>)
    ensures forall id :: id in r <==> id in t && t[id].reporter.userId == reporterId
  {
    Select(t, (b: BugRecord) => b.reporter.userId == reporterId)
  }

  /** The query is lower-cased but not trimmed. */
  function SearchByTag(t: BugTable, tag: string): (r: set<string>)
    ensures forall id :: id in r <==> id in t && Lower(tag) in t[id].tags
  {
    var lowerTag := Lower(tag);
    Select(t, (b: BugRecord) => lowerTag in b.tags)
  }

  /** Case-insensitive substring match against the title or the description. */
  function SearchByKeyword(t: BugTable, keyword: string): (r: set<string>)
    ensures forall id :: id in r <==>
              id in t && (Contains(Lower(t[id].title), Lower(keyword)) || Contains(Lower(t[id].description), Lower(keyword)))
  {
    var lowerKeyword := Lower(keyword);
    Select(t, (b: BugRecord) => Contains(Lower(b.title), lowerKeyword) || Contains(Lower(b.description), lowerKeyword))
  }

  // ---------------------------------------------------------------------
  // Properties of the searches

  /** Upper-case letters in the tag query make no difference. */
  lemma SearchByTagIgnoresQueryCase(t: BugTable, tag: string)
    ensures SearchByTag(t, tag) == SearchByTag(t, Lower(tag))
  {
    LowerIdempotent(tag);
  }

  /** A table whose tags are all stored normalised has no match for a query
      with surrounding whitespace, because the query is not trimmed. */
  lemma SearchByTagUntrimmedQueryMatchesNothing(t: BugTable, tag: string)
    requires forall id :: id in t ==> AllNormalTags(t[id].tags)
    requires Trim(Lower(tag)) != Lower(tag)
    ensures SearchByTag(t, tag) == {}
  {
  }

  /** After a non-blank tag is added to a bug, searching for the trimmed tag
      in any letter case finds that bug. */
  lemma SearchByTagFindsAddedTag(t: BugTable, id: string, tag: string, query: string)
    requires id in t && !IsBlank(tag)
    requires Lower(query) == Lower(Trim(tag))
    ensures id in SearchByTag(t[id := t[id].(tags := TagsAfterAdd(t[id].tags, tag))], query)
  {
    TrimLowerCommute(tag);
  }

  /** Upper-case letters in the keyword make no difference. */
  lemma SearchByKeywordIgnoresQueryCase(t: BugTable, keyword: string)
    ensures SearchByKeyword(t, keyword) == SearchByKeyword(t, Lower(keyword))
  {
    LowerIdempotent(keyword);
  }

  /** The empty keyword matches every bug. */
  lemma SearchByKeywordEmptyMatchesAll(t: BugTable)
    ensures SearchByKeyword(t, []) == t.Keys
  {
    assert Lower([]) == [];
    forall id | id in t ensures id in SearchByKeyword(t, []) {
      ContainsEmpty(Lower(t[id].title));
    }
  }

  /** Every bug has exactly one status: the status searches partition the table. */
  lemma SearchByStatusPartitions(t: BugTable, s1: Status, s2: Status)
    ensures s1 != s2 ==> SearchByStatus(t, s1) * SearchByStatus(t, s2) == {}
    ensures forall id :: id in t ==> id in SearchByStatus(t, t[id].status)
  {
  }

  // ---------------------------------------------------------------------
  // The summary

  /** What printBugSummary reports: the number of bugs, then the count for
      each status and for each priority in declaration order, zero counts
      included. */
  datatype BugSummary = BugSummary(total: nat, byStatus: seq<nat>, byPriority: seq<nat>)

  function Sum(xs: seq<nat>): nat
  {
    if xs == [] then 0 else xs[0] + Sum(xs[1..])
  }

  predicate Distinct<K(==)>(vs: seq<K>) {
    forall i, j :: 0 <= i < j < |vs| ==> vs[i] != vs[j]
  }

  /** groupingBy(key): the group of bugs whose key is v. */
  function Group<K(==)>(t: BugTable, key: BugRecord -> K, v: K): (r: set<string>)
    ensures forall id :: id in r <==> id in t && key(t[id]) == v
  {
    Select(t, (b: BugRecord) => key(b) == v)
  }

  /** groupingBy(key, counting()).getOrDefault(v, 0): the number of bugs whose key is v. */
  function CountWhere<K(==)>(t: BugTable, key: BugRecord -> K, v: K): nat
  {
    |Group(t, key, v)|
  }

  /** The counts for the values vs, in the order of vs. */
  function CountsFor<K(==)>(t: BugTable, key: BugRecord -> K, vs: seq<K>): (r: seq<nat>)
    ensures |r| == |vs|
    ensures forall i :: 0 <= i < |vs| ==> r[i] == CountWhere(t, key, vs[i])
  {
    if vs == [] then [] else [CountWhere(t, key, vs[0])] + CountsFor(t, key, vs[1..])
  }

  /** Counts taken over distinct values add up to the number of bugs whose
      key is one of them. */
  lemma {:induction false} CountsSumToSelected<K>(t: BugTable, key: BugRecord -> K, vs: seq<K>)
    requires Distinct(vs)
    ensures Sum(CountsFor(t, key, vs)) == |Select(t, (b: BugRecord) => key(b) in vs)|
  {
    if vs != [] {
      var rest := vs[1..];
      assert Distinct(rest) by {
        forall i, j | 0 <= i < j < |rest| ensures rest[i] != rest[j] {
          assert rest[i] == vs[i + 1] && rest[j] == vs[j + 1];
        }
      }
      CountsSumToSelected(t, key, rest);
      var head := Group(t, key, vs[0]);
      var tail := Select(t, (b: BugRecord) => key(b) in rest);
      assert vs[0] !in rest by {
        forall j | 0 <= j < |rest| ensures rest[j] != vs[0] {
          assert rest[j] == vs[j + 1];
        }
      }
      assert head * tail == {};
      assert Select(t, (b: BugRecord) => key(b) in vs) == head + tail by {
        assert forall x: K :: x in vs <==> x == vs[0] || x in rest;
      }
    }
  }

  /** When vs lists every value of the key, the counts add up to the size of the table. */
  lemma CountsSumToTotal<K>(t: BugTable, key: BugRecord -> K, vs: seq<K>)
    requires Distinct(vs)
    requires forall id :: id in t ==> key(t[id]) in vs
    ensures Sum(CountsFor(t, key, vs)) == |t|
  {
    CountsSumToSelected(t, key, vs);
    assert Select(t, (b: BugRecord) => key(b) in vs) == t.Keys;
    assert |t.Keys| == |t|;
  }

  function StatusOf(b: BugRecord): Status { b.status }

  function PriorityOf(b: BugRecord): Priority { b.priority }

  /** The status counts, in declaration order, are the sizes of the status
      searches and add up to the number of bugs. */
  lemma StatusCountsSumToTotal(t: BugTable)
    ensures forall st: Status :: CountsFor(t, StatusOf, AllStatuses())[StatusOrdinal(st)] == |SearchByStatus(t, st)|
    ensures Sum(CountsFor(t, StatusOf, AllStatuses())) == |t|
  {
    forall st: Status ensures CountWhere(t, StatusOf, st) == |SearchByStatus(t, st)| {
      assert Group(t, StatusOf, st) == SearchByStatus(t, st);
    }
    assert forall id :: id in t ==> AllStatuses()[StatusOrdinal(t[id].status)] == t[id].status;
    CountsSumToTotal(t, StatusOf, AllStatuses());
  }

  /** The priority counts, in declaration order, are the sizes of the
      priority searches and add up to the number of bugs. */
  lemma PriorityCountsSumToTotal(t: BugTable)
    ensures forall p: Priority :: CountsFor(t, PriorityOf, AllPriorities())[PriorityOrdinal(p)] == |SearchByPriority(t, p)|
    ensures Sum(CountsFor(t, PriorityOf, AllPriorities())) == |t|
  {
    forall p: Priority ensures CountWhere(t, PriorityOf, p) == |SearchByPriority(t, p)| {
      assert Group(t, PriorityOf, p) == SearchByPriority(t, p);
    }
    assert forall id :: id in t ==> AllPriorities()[PriorityOrdinal(t[id].priority)] == t[id].priority;
    CountsSumToTotal(t, PriorityOf, AllPriorities());
  }

  /** printBugSummary's numbers. Each count is the size of the matching
      search, and each group of counts adds up to the total. */
  function Summarize(t: BugTable): (s: BugSummary)
    ensures s.total == |t|
    ensures |s.byStatus| == |AllStatuses()|
    ensures forall st: Status :: s.byStatus[StatusOrdinal(st)] == |SearchByStatus(t, st)|
    ensures |s.byPriority| == |AllPriorities()|
    ensures forall p: Priority :: s.byPriority[PriorityOrdinal(p)] == |SearchByPriority(t, p)|
    ensures Sum(s.byStatus) == s.total
    ensures Sum(s.byPriority) == s.total
  {
    StatusCountsSumToTotal(t);
    PriorityCountsSumToTotal(t);
    BugSummary(|t|, CountsFor(t, StatusOf, AllStatuses()), CountsFor(t, PriorityOf, AllPriorities()))
  }
}
