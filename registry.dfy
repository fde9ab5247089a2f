/** BugTrackingSystem: the registry of users and bugs, the two identifier
    counters, and the operations that change them. */
module Registry {
  import opened Errors
  import opened Enums
  import opened Text
  import opened Ids
  import opened Model
  import opened Search

  // ---------------------------------------------------------------------
  // The registry invariant, stated on the bug table

  /** No stored bug carries an identifier the bug counter has yet to issue. */
  ghost predicate BugIdsFresh(t: BugTable, nextBugId: nat) {
    forall id, n: nat :: id in t && nextBugId <= n ==> id != FormatId(BugPrefix, n)
  }

  /** No stored comment carries an identifier the comment counter has yet to issue. */
  ghost predicate CommentIdsFresh(t: BugTable, nextCommentId: nat) {
    forall id, i, n: nat :: id in t && 0 <= i < |t[id].comments| && nextCommentId <= n ==>
      t[id].comments[i].commentId != FormatId(CommentPrefix, n)
  }

  /** Comment identifiers are unique across all bugs, not just within one. */
  ghost predicate CommentIdsUnique(t: BugTable) {
    forall a, i, b, j ::
      a in t && b in t && 0 <= i < |t[a].comments| && 0 <= j < |t[b].comments| && (a != b || i != j) ==>
      t[a].comments[i].commentId != t[b].comments[j].commentId
  }

  /** The reporter, the assignee and every comment author is a registered user. */
  ghost predicate RecordUsersKnown(r: BugRecord, userIds: set<string>) {
    && r.reporter.userId in userIds
    && (r.assignee.Some? ==> r.assignee.value.userId in userIds)
    && forall i :: 0 <= i < |r.comments| ==> r.comments[i].author.userId in userIds
  }

  ghost predicate TableInvariant(t: BugTable, userIds: set<string>, nextBugId: nat, nextCommentId: nat) {
    && BugIdsFresh(t, nextBugId)
    && CommentIdsFresh(t, nextCommentId)
    && CommentIdsUnique(t)
    && forall id :: id in t ==> RecordUsersKnown(t[id], userIds)
  }

  /** The record createBug stores: open, unassigned, no comments, no tags. */
  function NewBugRecord(bugId: string, title: string, description: string, priority: Priority, reporter: User): BugRecord
  {
    BugRecord(bugId, title, description, priority, Open, None, reporter, [], {})
  }

  // ---------------------------------------------------------------------
  // The change each successful operation makes to the bug table

  /** assignBug: the named bug gets the assignee. */
  function Assigned(t: BugTable, bugId: string, assignee: User): BugTable
    requires bugId in t
  {
    t[bugId := t[bugId].(assignee := Some(assignee))]
  }

  /** updateBugStatus: the named bug gets the status. */
  function WithStatus(t: BugTable, bugId: string, status: Status): BugTable
    requires bugId in t
  {
    t[bugId := t[bugId].(status := status)]
  }

  /** updateBugPriority: the named bug gets the priority. */
  function WithPriority(t: BugTable, bugId: string, priority: Priority): BugTable
    requires bugId in t
  {
    t[bugId := t[bugId].(priority := priority)]
  }

  /** addTagToBug: the named bug's tags as Bug.addTag leaves them. */
  function Tagged(t: BugTable, bugId: string, tag: string): BugTable
    requires bugId in t
  {
    t[bugId := t[bugId].(tags := TagsAfterAdd(t[bugId].tags, tag))]
  }

  /** addComment: the comment is appended to the named bug's comments. */
  function Commented(t: BugTable, bugId: string, c: Comment): BugTable
    requires bugId in t
  {
    t[bugId := t[bugId].(comments := t[bugId].comments + [c])]
  }

  /** Each step changes one field of one bug and nothing else: every other
      bug keeps its record, and the named bug keeps every other field. */
  lemma StepsChangeOneField(t: BugTable, bugId: string, u: User, s: Status, p: Priority, tag: string, c: Comment)
    requires bugId in t
    ensures forall t' :: t' in {Assigned(t, bugId, u), WithStatus(t, bugId, s), WithPriority(t, bugId, p),
                                Tagged(t, bugId, tag), Commented(t, bugId, c)} ==>
              t'.Keys == t.Keys && forall id :: id in t && id != bugId ==> t'[id] == t[id]
    ensures Assigned(t, bugId, u)[bugId].(assignee := t[bugId].assignee) == t[bugId]
    ensures WithStatus(t, bugId, s)[bugId].(status := t[bugId].status) == t[bugId]
    ensures WithPriority(t, bugId, p)[bugId].(priority := t[bugId].priority) == t[bugId]
    ensures Tagged(t, bugId, tag)[bugId].(tags := t[bugId].tags) == t[bugId]
    ensures Commented(t, bugId, c)[bugId].(comments := t[bugId].comments) == t[bugId]
  {
  }

  /** createBug's insertion: the identifier it allocates is not yet taken, and
      storing the new bug under it while bumping the counter keeps the invariant. */
  lemma InsertBugKeepsInvariant(t: BugTable, userIds: set<string>, nextBugId: nat, nextCommentId: nat,
                                title: string, description: string, priority: Priority, reporter: User)
    requires TableInvariant(t, userIds, nextBugId, nextCommentId)
    requires reporter.userId in userIds
    ensures FormatId(BugPrefix, nextBugId) !in t
    ensures TableInvariant(t[FormatId(BugPrefix, nextBugId) := NewBugRecord(FormatId(BugPrefix, nextBugId), title, description, priority, reporter)],
                           userIds, nextBugId + 1, nextCommentId)
  {
    var bugId := FormatId(BugPrefix, nextBugId);
    var t' := t[bugId := NewBugRecord(bugId, title, description, priority, reporter)];
    forall n: nat | nextBugId + 1 <= n ensures bugId != FormatId(BugPrefix, n) {
      FormatIdInjective(BugPrefix, nextBugId, n);
    }
    assert BugIdsFresh(t', nextBugId + 1);
    assert CommentIdsUnique(t') by {
      forall a, i, b, j |
        a in t' && b in t' && 0 <= i < |t'[a].comments| && 0 <= j < |t'[b].comments| && (a != b || i != j)
        ensures t'[a].comments[i].commentId != t'[b].comments[j].commentId
      {
        assert a != bugId && b != bugId;
      }
    }
  }

  /** Replacing one bug's record by one with the same identifier and the same
      comments, whose users are registered, keeps the invariant. This covers
      assignBug, updateBugStatus, updateBugPriority and addTagToBug. */
  lemma ReplaceBugKeepsInvariant(t: BugTable, userIds: set<string>, nextBugId: nat, nextCommentId: nat,
                                 bugId: string, r: BugRecord)
    requires TableInvariant(t, userIds, nextBugId, nextCommentId)
    requires bugId in t && r.comments == t[bugId].comments
    requires RecordUsersKnown(r, userIds)
    ensures TableInvariant(t[bugId := r], userIds, nextBugId, nextCommentId)
  {
    var t' := t[bugId := r];
    assert forall id :: id in t' ==> t'[id].comments == t[id].comments;
  }

  /** A comment carrying the identifier the counter holds is fresh: the
      table stays free of identifiers from the next counter value on. */
  lemma AppendKeepsCommentIdsFresh(t: BugTable, nextCommentId: nat, bugId: string, c: Comment)
    requires bugId in t && CommentIdsFresh(t, nextCommentId)
    requires c.commentId == FormatId(CommentPrefix, nextCommentId)
    ensures CommentIdsFresh(Commented(t, bugId, c), nextCommentId + 1)
  {
    var t' := Commented(t, bugId, c);
    var k := |t[bugId].comments|;
    forall id, i, n: nat | id in t' && 0 <= i < |t'[id].comments| && nextCommentId + 1 <= n
      ensures t'[id].comments[i].commentId != FormatId(CommentPrefix, n)
    {
      if id == bugId && i == k {
        assert t'[id].comments[i] == c;
        FormatIdInjective(CommentPrefix, nextCommentId, n);
      } else {
        assert t'[id].comments[i] == t[id].comments[i];
      }
    }
  }

  /** No stored comment has the identifier the counter holds, so appending a
      comment that has it keeps comment identifiers unique. */
  lemma AppendKeepsCommentIdsUnique(t: BugTable, nextCommentId: nat, bugId: string, c: Comment)
    requires bugId in t && CommentIdsFresh(t, nextCommentId) && CommentIdsUnique(t)
    requires c.commentId == FormatId(CommentPrefix, nextCommentId)
    ensures CommentIdsUnique(Commented(t, bugId, c))
  {
    var t' := Commented(t, bugId, c);
    var k := |t[bugId].comments|;
    forall a, i, b, j |
      a in t' && b in t' && 0 <= i < |t'[a].comments| && 0 <= j < |t'[b].comments| && (a != b || i != j)
      ensures t'[a].comments[i].commentId != t'[b].comments[j].commentId
    {
      if a == bugId && i == k {
        assert t'[a].comments[i] == c;
        assert t'[b].comments[j] == t[b].comments[j];
      } else if b == bugId && j == k {
        assert t'[b].comments[j] == c;
        assert t'[a].comments[i] == t[a].comments[i];
      } else {
        assert t'[a].comments[i] == t[a].comments[i];
        assert t'[b].comments[j] == t[b].comments[j];
      }
    }
  }

  /** addComment's append: the comment gets the next comment identifier, which
      no stored comment has, so identifiers stay unique after the counter moves on. */
  lemma AppendCommentKeepsInvariant(t: BugTable, userIds: set<string>, nextBugId: nat, nextCommentId: nat,
                                    bugId: string, content: string, author: User)
    requires TableInvariant(t, userIds, nextBugId, nextCommentId)
    requires bugId in t && author.userId in userIds
    ensures TableInvariant(Commented(t, bugId, Comment(FormatId(CommentPrefix, nextCommentId), content, author)),
                           userIds, nextBugId, nextCommentId + 1)
  {
    var c := Comment(FormatId(CommentPrefix, nextCommentId), content, author);
    var t' := Commented(t, bugId, c);
    AppendKeepsCommentIdsFresh(t, nextCommentId, bugId, c);
    AppendKeepsCommentIdsUnique(t, nextCommentId, bugId, c);
    assert RecordUsersKnown(t'[bugId], userIds) by {
      forall i | 0 <= i < |t'[bugId].comments| ensures t'[bugId].comments[i].author.userId in userIds {
        if i < |t[bugId].comments| {
          assert t'[bugId].comments[i] == t[bugId].comments[i];
        }
      }
    }
  }

  /** Registering more users keeps the invariant. */
  lemma MoreUsersKeepInvariant(t: BugTable, userIds: set<string>, more: set<string>, nextBugId: nat, nextCommentId: nat)
    requires TableInvariant(t, userIds, nextBugId, nextCommentId)
    requires userIds <= more
    ensures TableInvariant(t, more, nextBugId, nextCommentId)
  {
  }

  /** The bug ids handed out by successive createBug calls differ. */
  lemma SuccessiveBugIdsDiffer(m: nat, n: nat)
    requires m < n
    ensures FormatId(BugPrefix, m) != FormatId(BugPrefix, n)
  {
    FormatIdInjective(BugPrefix, m, n);
  }

  /** The four users the registry's constructor registers. */
  function DefaultUsers(): map<string, User>
  {
    map[
      "DEV001" := User("DEV001", "Alice Johnson", "alice@company.com", Developer),
      "TEST001" := User("TEST001", "Bob Smith", "bob@company.com", Tester),
      "PM001" := User("PM001", "Carol Davis", "carol@company.com", ProjectManager),
      "ADMIN001" := User("ADMIN001", "David Wilson", "david@company.com", Admin)
    ]
  }

  // ---------------------------------------------------------------------
  // The registry

  class BugTrackingSystem {
    var bugs: map<string, Bug>
    var users: map<string, User>
    var nextBugId: nat
    var nextCommentId: nat

    /** The value of every stored bug. */
    function Table(): BugTable
      reads this, bugs.Values
    {
      map id | id in bugs :: bugs[id].Record()
    }

    ghost predicate Valid()
      reads this, bugs.Values
    {
      && 1 <= nextBugId
      && 1 <= nextCommentId
      && (forall id :: id in users ==> users[id].userId == id)
      && (forall id :: id in bugs ==> bugs[id].bugId == id && bugs[id].Valid())
      && TableInvariant(Table(), users.Keys, nextBugId, nextCommentId)
    }

    /** Both counters start at 1 and the four default users are registered. */
    constructor ()
      ensures Valid()
      ensures bugs == map[] && users == DefaultUsers()
      ensures nextBugId == 1 && nextCommentId == 1
    {
      bugs := map[];
      users := map[];
      nextBugId := 1;
      nextCommentId := 1;
      new;
      AddUser(User("DEV001", "Alice Johnson", "alice@company.com", Developer));
      AddUser(User("TEST001", "Bob Smith", "bob@company.com", Tester));
      AddUser(User("PM001", "Carol Davis", "carol@company.com", ProjectManager));
      AddUser(User("ADMIN001", "David Wilson", "david@company.com", Admin));
    }

    /** Inserts the user under its userId, replacing any user stored there. */
    method AddUser(user: User)
      requires Valid()
      modifies this
      ensures Valid()
      ensures users == old(users)[user.userId := user]
      ensures bugs == old(bugs) && nextBugId == old(nextBugId) && nextCommentId == old(nextCommentId)
      ensures Table() == old(Table())
    {
      ghost var t := Table();
      MoreUsersKeepInvariant(t, users.Keys, users.Keys + {user.userId}, nextBugId, nextCommentId);
      users := users[user.userId := user];
      assert Table() == t;
    }

    /** The user stored under userId, or None; the user found has that id. */
    function GetUser(userId: string): (r: Option<User>)
      requires Valid()
      reads this, bugs.Values
      ensures r.Some? <==> userId in users
      ensures r.Some? ==> r.value == users[userId] && r.value.userId == userId
    {
      if userId in users then Some(users[userId]) else None
    }

    /** The bug stored under bugId, or None; the bug found has that id. */
    function GetBug(bugId: string): (r: Option<Bug>)
      requires Valid()
      reads this, bugs.Values
      ensures r.Some? <==> bugId in bugs
      ensures r.Some? ==> r.value == bugs[bugId] && r.value.bugId == bugId
    {
      if bugId in bugs then Some(bugs[bugId]) else None
    }

    /** An unknown reporter is refused before the counter moves. Otherwise the
        bug is stored under "BUG-" and the zero-padded counter, which is then
        incremented; that identifier was free, and nothing else changes. */
    method CreateBug(title: string, description: string, priority: Priority, reporterId: string)
      returns (r: Result<string>)
      requires Valid()
      modifies this
      ensures Valid()
      ensures users == old(users) && nextCommentId == old(nextCommentId)
      ensures reporterId !in old(users) ==>
                && r == Failure(ReporterNotFound(reporterId))
                && bugs == old(bugs) && nextBugId == old(nextBugId)
      ensures reporterId in old(users) ==>
                && r == Success(FormatId(BugPrefix, old(nextBugId)))
                && nextBugId == old(nextBugId) + 1
                && r.value !in old(bugs)
                && r.value in bugs && fresh(bugs[r.value])
                && bugs == old(bugs)[r.value := bugs[r.value]]
                && Table() == old(Table())[r.value := NewBugRecord(r.value, title, description, priority, old(users)[reporterId])]
    {
      if reporterId !in users {
        return Failure(ReporterNotFound(reporterId));
      }
      var reporter := users[reporterId];
      var bugId := FormatId(BugPrefix, nextBugId);
      InsertBugKeepsInvariant(Table(), users.Keys, nextBugId, nextCommentId, title, description, priority, reporter);
      ghost var t0 := Table();
      var bug := new Bug(bugId, title, description, priority, reporter);
      nextBugId, bugs := nextBugId + 1, bugs[bugId := bug];
      assert Table() == t0[bugId := bug.Record()];
      r := Success(bugId);
    }

    /** An unknown bug, then an unknown assignee, is refused with nothing
        changed; otherwise only that bug's assignee changes. */
    method AssignBug(bugId: string, assigneeId: string) returns (r: Outcome)
      requires Valid()
      modifies bugs.Values
      ensures Valid()
      ensures unchanged(this)
      ensures bugId !in bugs ==> r == Fail(BugNotFound(bugId)) && Table() == old(Table())
      ensures bugId in bugs && assigneeId !in users ==>
                r == Fail(AssigneeNotFound(assigneeId)) && Table() == old(Table())
      ensures bugId in bugs && assigneeId in users ==>
                && r == Pass
                && Table() == Assigned(old(Table()), bugId, users[assigneeId])
    {
      if bugId !in bugs {
        return Fail(BugNotFound(bugId));
      }
      var bug := bugs[bugId];
      if assigneeId !in users {
        return Fail(AssigneeNotFound(assigneeId));
      }
      var assignee := users[assigneeId];
      ghost var t0 := Table();
      ReplaceBugKeepsInvariant(t0, users.Keys, nextBugId, nextCommentId, bugId, t0[bugId].(assignee := Some(assignee)));
      bug.SetAssignee(Some(assignee));
      assert Table() == t0[bugId := bug.Record()];
      r := Pass;
    }

    /** An unknown bug is refused with nothing changed; otherwise only that
        bug's status changes, whatever it was before. */
    method UpdateBugStatus(bugId: string, newStatus: Status) returns (r: Outcome)
      requires Valid()
      modifies bugs.Values
      ensures Valid()
      ensures unchanged(this)
      ensures bugId !in bugs ==> r == Fail(BugNotFound(bugId)) && Table() == old(Table())
      ensures bugId in bugs ==>
                r == Pass && Table() == WithStatus(old(Table()), bugId, newStatus)
    {
      if bugId !in bugs {
        return Fail(BugNotFound(bugId));
      }
      var bug := bugs[bugId];
      ghost var t0 := Table();
      ReplaceBugKeepsInvariant(t0, users.Keys, nextBugId, nextCommentId, bugId, t0[bugId].(status := newStatus));
      bug.SetStatus(newStatus);
      assert Table() == t0[bugId := bug.Record()];
      r := Pass;
    }

    /** An unknown bug is refused with nothing changed; otherwise only that
        bug's priority changes. */
    method UpdateBugPriority(bugId: string, newPriority: Priority) returns (r: Outcome)
      requires Valid()
      modifies bugs.Values
      ensures Valid()
      ensures unchanged(this)
      ensures bugId !in bugs ==> r == Fail(BugNotFound(bugId)) && Table() == old(Table())
      ensures bugId in bugs ==>
                r == Pass && Table() == WithPriority(old(Table()), bugId, newPriority)
    {
      if bugId !in bugs {
        return Fail(BugNotFound(bugId));
      }
      var bug := bugs[bugId];
      ghost var t0 := Table();
      ReplaceBugKeepsInvariant(t0, users.Keys, nextBugId, nextCommentId, bugId, t0[bugId].(priority := newPriority));
      bug.SetPriority(newPriority);
      assert Table() == t0[bugId := bug.Record()];
      r := Pass;
    }

    /** An unknown bug, then an unknown author, is refused with nothing
        changed and no identifier used up. Otherwise one comment, numbered by
        the counter shared by all bugs, is appended to that bug alone. */
    method AddComment(bugId: string, content: string, authorId: string) returns (r: Outcome)
      requires Valid()
      modifies this, bugs.Values
      ensures Valid()
      ensures bugs == old(bugs) && users == old(users) && nextBugId == old(nextBugId)
      ensures bugId !in bugs ==>
                r == Fail(BugNotFound(bugId)) && Table() == old(Table()) && nextCommentId == old(nextCommentId)
      ensures bugId in bugs && authorId !in users ==>
                r == Fail(AuthorNotFound(authorId)) && Table() == old(Table()) && nextCommentId == old(nextCommentId)
      ensures bugId in bugs && authorId in users ==>
                && r == Pass
                && nextCommentId == old(nextCommentId) + 1
                && Table() == Commented(old(Table()), bugId, Comment(FormatId(CommentPrefix, old(nextCommentId)), content, users[authorId]))
    {
      if bugId !in bugs {
        return Fail(BugNotFound(bugId));
      }
      var bug := bugs[bugId];
      if authorId !in users {
        return Fail(AuthorNotFound(authorId));
      }
      var author := users[authorId];
      var commentId := FormatId(CommentPrefix, nextCommentId);
      ghost var t0 := Table();
      AppendCommentKeepsInvariant(t0, users.Keys, nextBugId, nextCommentId, bugId, content, author);
      nextCommentId := nextCommentId + 1;
      bug.AddComment(Comment(commentId, content, author));
      assert Table() == t0[bugId := bug.Record()];
      r := Pass;
    }

    /** An unknown bug is refused with nothing changed; otherwise the tag is
        added to that bug as Bug.addTag adds it (a blank tag changes nothing). */
    method AddTagToBug(bugId: string, tag: string) returns (r: Outcome)
      requires Valid()
      modifies bugs.Values
      ensures Valid()
      ensures unchanged(this)
      ensures bugId !in bugs ==> r == Fail(BugNotFound(bugId)) && Table() == old(Table())
      ensures bugId in bugs ==>
                && r == Pass
                && Table() == Tagged(old(Table()), bugId, tag)
    {
      if bugId !in bugs {
        return Fail(BugNotFound(bugId));
      }
      var bug := bugs[bugId];
      ghost var t0 := Table();
      ReplaceBugKeepsInvariant(t0, users.Keys, nextBugId, nextCommentId, bugId, t0[bugId].(tags := TagsAfterAdd(t0[bugId].tags, tag)));
      bug.AddTag(tag);
      assert Table() == t0[bugId := bug.Record()];
      r := Pass;
    }
  }
}
