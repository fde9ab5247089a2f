# Bug tracking system — a Dafny model

This project models the core of a small in-memory bug tracker. The core has two parts.

- The `BugTrackingSystem` registry holds two maps, users by user id and bugs by bug id, plus two counters that number new bugs and new comments.
- The mutable `Bug` entity has setters, a list of comments that only grows, and a set of normalised tags.

The model has these modules:

- `Errors`: the `Option`, `Result` and `Outcome` wrappers, plus the failure kinds. These stand for the tracker's `BugTrackingException` messages and for the `IllegalArgumentException` thrown by `setTitle`.
- `Enums`: `Status`, `Priority` and `UserRole`, with their constructors in declaration order.
- `Text`: the parts of `java.lang.String` the tracker uses, on ASCII: `toLowerCase`, `trim`, blankness and `contains`.
- `Ids`: the `BUG-%04d` and `COMMENT-%04d` identifiers, with a parser that inverts them.
- `Model`: the `User`, `Comment` and `BugRecord` values, tag normalisation, and `class Bug`, whose methods change its fields in place.
- `Search`: the six searches and the counts that `printBugSummary` prints. Both are functions of the bug table, a `map<string, BugRecord>` that gives each bug's field values.
- `Registry`: `class BugTrackingSystem`. It has:
  - the invariant the registry keeps: identifiers not yet issued are fresh, comment ids are unique across all bugs, and every referenced user is registered;
  - one function for each state change, saying what that change does to the bug table;
  - the operations themselves, each proved to produce that table or to fail with the state unchanged.
- `Demo`: facts about the scenario in `BugTrackerDemo`. They cover the tags it stores, its searches and its summary numbers, all stated for the table the demo ends with.

Three behaviours of the source worth knowing:

- A new bug's title is stored without any check. Only `setTitle` refuses a blank title.
- `searchBugsByTag` lower-cases its query but does not trim it.
- Status changes are not restricted: any status may follow any other.

## Model

| member | source | states |
|---|---|---|
| Enums.AllStatuses | src/com/bugtracker/enums/Status.java:3-8 | `values()` lists every status exactly once, each at its ordinal |
| Enums.AllPriorities | src/com/bugtracker/enums/Priority.java:3-7 | `values()` lists every priority exactly once, each at its ordinal |
| Text.Lower | src/com/bugtracker/system/BugTrackingSystem.java:159 | lower-casing keeps the length and leaves no upper-case letter |
| Text.LowerFixesLowerCase | src/com/bugtracker/system/BugTrackingSystem.java:159 | lower-casing leaves a string unchanged exactly when it has no upper-case letter |
| Text.LowerIdempotent | src/com/bugtracker/system/BugTrackingSystem.java:166 | lower-casing twice gives the same result as lower-casing once |
| Text.TrimIsSlice | src/com/bugtracker/model/Bug.java:50 | trim keeps a contiguous slice of the string, cuts only trimmable characters, and leaves no trimmable character at either end |
| Text.TrimIdempotent | src/com/bugtracker/model/Bug.java:84 | trimming twice gives the same result as trimming once |
| Text.BlankIffAllTrimmable | src/com/bugtracker/model/Bug.java:50 | `trim().isEmpty()` holds exactly when every character is at most U+0020 |
| Text.TrimLowerCommute | src/com/bugtracker/model/Bug.java:84 | lower-casing and trimming can be applied in either order |
| Text.TrimKeepsLowerCase | src/com/bugtracker/model/Bug.java:84 | trimming a lower-case string leaves it lower-case |
| Text.LowerKeepsBlank | src/com/bugtracker/model/Bug.java:83-84 | lower-casing neither makes a string blank nor makes a blank string non-blank |
| Text.ContainsIffOccurs | src/com/bugtracker/system/BugTrackingSystem.java:169-170 | `contains` holds exactly when the needle occurs at some offset of the string |
| Text.ContainsEmpty | src/com/bugtracker/system/BugTrackingSystem.java:169-170 | every string contains the empty string |
| Ids.FormatId | src/com/bugtracker/system/BugTrackingSystem.java:52 | an identifier is the prefix followed by at least four decimal digits |
| Ids.ParseFormatRoundTrip | src/com/bugtracker/system/BugTrackingSystem.java:52 | reading back a formatted identifier gives the counter value it was made from |
| Ids.FormatIdInjective | src/com/bugtracker/system/BugTrackingSystem.java:116 | two counter values give the same identifier exactly when they are equal |
| Ids.FormatIdExamples | src/com/bugtracker/system/BugTrackingSystem.java:52 | counter values 1 and 12345 give "BUG-0001" and "BUG-12345", and 42 gives "COMMENT-0042" |
| Model.BlankIffNormalEmpty | src/com/bugtracker/model/Bug.java:83-84 | a tag is blank exactly when its stored form is empty |
| Model.NormalizeTagIsNormal | src/com/bugtracker/model/Bug.java:82-87 | the stored form of a non-blank tag is non-empty, trimmed and lower-case |
| Model.NormalizeTagIdempotent | src/com/bugtracker/model/Bug.java:84 | normalising a stored tag again changes nothing |
| Model.NormalizeTagIgnoresCaseAndSpace | src/com/bugtracker/model/Bug.java:84 | tags that differ only in letter case or surrounding whitespace have the same stored form |
| Model.AddTagKeepsTagsNormal | src/com/bugtracker/model/Bug.java:82-87 | adding a tag keeps every stored tag normal; a blank tag changes nothing and a non-blank one is stored |
| Model.AddTagCollapses | src/com/bugtracker/model/Bug.java:82-87 | adding a tag with the same stored form as one already added changes no more |
| Model.TagCollapseExample | src/com/bugtracker/model/Bug.java:82-87 | "UI", " ui " and "ui" together give the single tag "ui" |
| Model.RemoveTagUndoesAdd | src/com/bugtracker/model/Bug.java:89-94 | removing a tag undoes adding it when it was not there before; every other tag stays |
| Model.Bug.constructor | src/com/bugtracker/model/Bug.java:22-33 | a new bug is open and unassigned, with no comments and no tags; its title is stored unchecked |
| Model.Bug.SetTitle | src/com/bugtracker/model/Bug.java:49-55 | a blank title fails and the old title stays; any other title is stored untrimmed and nothing else changes |
| Model.Bug.SetDescription | src/com/bugtracker/model/Bug.java:57-60 | only the description changes |
| Model.Bug.SetPriority | src/com/bugtracker/model/Bug.java:62-65 | only the priority changes, to any value |
| Model.Bug.SetStatus | src/com/bugtracker/model/Bug.java:67-70 | only the status changes, and any status may follow any other |
| Model.Bug.SetAssignee | src/com/bugtracker/model/Bug.java:72-75 | only the assignee changes; None unassigns |
| Model.Bug.AddComment | src/com/bugtracker/model/Bug.java:77-80 | the comment is appended at the end; earlier comments keep their order and values |
| Model.Bug.AddTag | src/com/bugtracker/model/Bug.java:82-87 | the tags become the old tags plus the stored form of a non-blank tag; tags stay normal |
| Model.Bug.RemoveTag | src/com/bugtracker/model/Bug.java:89-94 | the stored form of the tag is gone and every other tag stays |
| Model.Bug.GetComments | src/com/bugtracker/model/Bug.java:45 | returns a copy equal to the current comments |
| Model.Bug.GetTags | src/com/bugtracker/model/Bug.java:46 | returns a copy equal to the current tags |
| Search.Select | src/com/bugtracker/system/BugTrackingSystem.java:134-137 | the filter returns exactly the stored bugs that satisfy the predicate |
| Search.SearchByStatus | src/com/bugtracker/system/BugTrackingSystem.java:134-138 | a bug is found exactly when it is stored with that status |
| Search.SearchByPriority | src/com/bugtracker/system/BugTrackingSystem.java:140-144 | a bug is found exactly when it is stored with that priority |
| Search.SearchByAssignee | src/com/bugtracker/system/BugTrackingSystem.java:146-150 | a bug is found exactly when it has an assignee with that user id; unassigned bugs never match |
| Search.SearchByReporter | src/com/bugtracker/system/BugTrackingSystem.java:152-156 | a bug is found exactly when its reporter has that user id |
| Search.SearchByTag | src/com/bugtracker/system/BugTrackingSystem.java:158-163 | a bug is found exactly when its tags contain the lower-cased query |
| Search.SearchByKeyword | src/com/bugtracker/system/BugTrackingSystem.java:165-172 | a bug is found exactly when its lower-cased title or description contains the lower-cased keyword |
| Search.SearchByTagIgnoresQueryCase | src/com/bugtracker/system/BugTrackingSystem.java:158-163 | upper-case letters in the tag query make no difference |
| Search.SearchByTagUntrimmedQueryMatchesNothing | src/com/bugtracker/system/BugTrackingSystem.java:159-161 | when all stored tags are normal, a query with whitespace around it matches nothing, because the query is not trimmed |
| Search.SearchByTagFindsAddedTag | src/com/bugtracker/system/BugTrackingSystem.java:158-163 | after a non-blank tag is added, a query equal to the trimmed tag up to letter case finds the bug |
| Search.SearchByKeywordIgnoresQueryCase | src/com/bugtracker/system/BugTrackingSystem.java:165-172 | upper-case letters in the keyword make no difference |
| Search.SearchByKeywordEmptyMatchesAll | src/com/bugtracker/system/BugTrackingSystem.java:165-172 | the empty keyword finds every bug |
| Search.SearchByStatusPartitions | src/com/bugtracker/system/BugTrackingSystem.java:134-138 | searches for different statuses share no bug, and every bug is found by the search for its own status |
| Search.Group | src/com/bugtracker/system/BugTrackingSystem.java:179-180 | a group holds exactly the bugs whose key has that value |
| Search.CountsFor | src/com/bugtracker/system/BugTrackingSystem.java:183-186 | one count per listed value, in the order listed, each a group's size (`getOrDefault(v, 0)`) |
| Search.CountsSumToSelected | src/com/bugtracker/system/BugTrackingSystem.java:179-195 | the counts for distinct values add up to the number of bugs whose key is one of them |
| Search.CountsSumToTotal | src/com/bugtracker/system/BugTrackingSystem.java:179-195 | when the values cover every key, the counts add up to the number of bugs |
| Search.StatusCountsSumToTotal | src/com/bugtracker/system/BugTrackingSystem.java:179-186 | each status count is the size of that status's search, and the counts add up to the number of bugs |
| Search.PriorityCountsSumToTotal | src/com/bugtracker/system/BugTrackingSystem.java:188-195 | each priority count is the size of that priority's search, and the counts add up to the number of bugs |
| Search.Summarize | src/com/bugtracker/system/BugTrackingSystem.java:175-196 | the summary has the total, then five status counts and four priority counts in declaration order; each count is the size of the matching search, and each group of counts adds up to the total |
| Registry.StepsChangeOneField | src/com/bugtracker/system/BugTrackingSystem.java:68-131 | each successful update changes one field of one bug: the other bugs and the bug's other fields stay as they were |
| Registry.InsertBugKeepsInvariant | src/com/bugtracker/system/BugTrackingSystem.java:45-58 | the identifier createBug allocates is free, and storing the new bug while the counter moves on keeps the registry invariant |
| Registry.ReplaceBugKeepsInvariant | src/com/bugtracker/system/BugTrackingSystem.java:68-103 | replacing one bug's fields, keeping its comments and using only registered users, keeps the registry invariant |
| Registry.AppendKeepsCommentIdsFresh | src/com/bugtracker/system/BugTrackingSystem.java:116-118 | after a comment with the counter's identifier is appended, no stored comment has an identifier the moved-on counter has yet to issue |
| Registry.AppendKeepsCommentIdsUnique | src/com/bugtracker/system/BugTrackingSystem.java:116-118 | appending a comment with the counter's identifier keeps comment ids unique across all bugs |
| Registry.AppendCommentKeepsInvariant | src/com/bugtracker/system/BugTrackingSystem.java:105-121 | addComment's append, by a registered author with the next comment identifier, keeps the registry invariant |
| Registry.MoreUsersKeepInvariant | src/com/bugtracker/system/BugTrackingSystem.java:32-34 | registering more users keeps the registry invariant |
| Registry.SuccessiveBugIdsDiffer | src/com/bugtracker/system/BugTrackingSystem.java:52 | bug ids from different counter values differ |
| Registry.BugTrackingSystem.constructor | src/com/bugtracker/system/BugTrackingSystem.java:15-29 | there are no bugs, both counters are 1, and exactly the four default users are registered |
| Registry.BugTrackingSystem.AddUser | src/com/bugtracker/system/BugTrackingSystem.java:32-34 | the user is stored under its id, replacing any user stored there; the bugs and counters are unchanged |
| Registry.BugTrackingSystem.GetUser | src/com/bugtracker/system/BugTrackingSystem.java:36-38 | finds the user stored under the id, which has that id, or None when there is none |
| Registry.BugTrackingSystem.GetBug | src/com/bugtracker/system/BugTrackingSystem.java:60-62 | finds the bug stored under the id, which has that id, or None when there is none |
| Registry.BugTrackingSystem.CreateBug | src/com/bugtracker/system/BugTrackingSystem.java:45-58 | an unknown reporter fails with nothing changed; otherwise a new open bug is stored under the next free `BUG-NNNN` id, the counter moves on, and no other bug changes |
| Registry.BugTrackingSystem.AssignBug | src/com/bugtracker/system/BugTrackingSystem.java:68-81 | an unknown bug, then an unknown assignee, fails with nothing changed; otherwise only that bug's assignee changes |
| Registry.BugTrackingSystem.UpdateBugStatus | src/com/bugtracker/system/BugTrackingSystem.java:83-92 | an unknown bug fails with nothing changed; otherwise only that bug's status changes |
| Registry.BugTrackingSystem.UpdateBugPriority | src/com/bugtracker/system/BugTrackingSystem.java:94-103 | an unknown bug fails with nothing changed; otherwise only that bug's priority changes |
| Registry.BugTrackingSystem.AddComment | src/com/bugtracker/system/BugTrackingSystem.java:105-121 | an unknown bug, then an unknown author, fails with nothing changed and no id used up; otherwise one comment with the next `COMMENT-NNNN` id is appended to that bug alone |
| Registry.BugTrackingSystem.AddTagToBug | src/com/bugtracker/system/BugTrackingSystem.java:123-131 | an unknown bug fails with nothing changed; otherwise the tag is added to that bug as `Bug.addTag` adds it |
| Demo.PlainTagIsStoredAsIs | src/com/bugtracker/BugTrackerDemo.java:44-49 | a non-empty word of lower-case letters is stored as written |
| Demo.DemoTags | src/com/bugtracker/BugTrackerDemo.java:44-49 | the demo's tags are stored as written, two per bug |
| Demo.DemoSearches | src/com/bugtracker/BugTrackerDemo.java:66-78 | at the end of the demo, the high-priority search finds bug1, DEV001 has bug1 and bug2, and "ui" (in any case) finds bug1 and bug2 |
| Demo.DemoStatusCounts | src/com/bugtracker/BugTrackerDemo.java:57-61 | at the end of the demo, the summary reports 3 bugs: 1 open and 2 in progress |
| Demo.DemoPriorityCounts | src/com/bugtracker/BugTrackerDemo.java:17-36 | at the end of the demo, the summary reports one bug each at Medium, High and Critical, and none at Low |

## Left out

- Console output is left out because it is I/O: `System.out.println`, `printBugDetails`, and the `toString` methods of `Bug`, `Comment`, `User` and the enums, with their display names. The numbers `printBugSummary` prints are modelled by `Search.Summarize`.
- The timestamps `createdDate`, `lastModified` and `Comment.timestamp` are left out because they read the clock. None of the modelled behaviour depends on them.
- `Registry.BugTrackingSystem.CreateBug` and `Registry.BugTrackingSystem.AddComment` treat the counters as unbounded `nat`. The source's `int` counters would wrap after 2^31 - 1 identifiers; that overflow is not modelled.
- Null arguments are not modelled, since Dafny strings cannot be null. `setAssignee(null)` becomes `SetAssignee(None)`. `setTitle(null)` throws. `createBug` stores a null title unchecked, and a later keyword search would then throw a NullPointerException. `addTag(null)` ignores the tag, and a null search query would throw. None of these null cases is modelled.
- `toLowerCase` and `trim` are modelled on ASCII letters and code points only. Locale-dependent and non-ASCII case mappings are not modelled.
- `getAllUsers` and `getAllBugs` are left out. They return snapshots in HashMap order, and that order is unspecified.
- The searches return the set of matching bug ids. The list of Bug objects in HashMap order is not modelled.
- `BugTrackingException` is not a class of its own here. Each of its messages is an `Error` variant returned in a `Result` or `Outcome`.
- `User.equals` and `hashCode` compare by user id. The model instead compares the user ids that the registry stores and searches, so they are left out.
- `BugTrackerDemo.main` is not replayed step by step. Its final bug table is stated as the `EndOfDemo` predicate, and the demo's tags, searches and summary are proved from that predicate.
- `Registry.BugTrackingSystem.GetBug` returns the stored `Bug` object itself, as the source does. The model does not follow callers that change that object outside the registry's methods.
