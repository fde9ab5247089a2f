/** The tracker's records: users, comments and the mutable bug. */
module Model {
  import opened Errors
  import opened Enums
  import opened Text

  /** An immutable user; the registry tells users apart by userId alone. */
  datatype User = User(userId: string, name: string, email: string, role: UserRole)

  /** An immutable comment (its timestamp is not modelled). */
  datatype Comment = Comment(commentId: string, content: string, author: User)

  /** The value of every field of a bug at one moment, as its getters return
      them (the two timestamps are not modelled). */
  datatype BugRecord = BugRecord(
    bugId: string,
    title: string,
    description: string,
    priority: Priority,
    status: Status,
    assignee: Option<User>,
    reporter: User,
    comments: seq<Comment>,
    tags: set<string>)

  // ---------------------------------------------------------------------
  // Tag normalisation

  /** tag.toLowerCase().trim(): the form in which a tag is stored. */
  function NormalizeTag(tag: string): string
  {
    Trim(Lower(tag))
  }

  /** A stored tag: non-empty, trimmed and lower-case. */
  predicate IsNormalTag(t: string) {
    t != [] && Trim(t) == t && Lower(t) == t
  }

  ghost predicate AllNormalTags(tags: set<string>) {
    forall t :: t in tags ==> IsNormalTag(t)
  }

  /** The tag set after addTag(tag): blank tags are ignored. */
  function TagsAfterAdd(tags: set<string>, tag: string): set<string>
  {
    if IsBlank(tag) then tags else tags + {NormalizeTag(tag)}
  }

  /** The tag set after removeTag(tag). */
  function TagsAfterRemove(tags: set<string>, tag: string): set<string>
  {
    tags - {NormalizeTag(tag)}
  }

  /** A tag is blank exactly when its stored form would be empty. */
  lemma BlankIffNormalEmpty(tag: string)
    ensures IsBlank(tag) <==> NormalizeTag(tag) == []
  {
    LowerKeepsBlank(tag);
  }

  /** The stored form of a non-blank tag is non-empty, trimmed and lower-case. */
  lemma NormalizeTagIsNormal(tag: string)
    requires !IsBlank(tag)
    ensures IsNormalTag(NormalizeTag(tag))
  {
    var t := NormalizeTag(tag);
    BlankIffNormalEmpty(tag);
    TrimIdempotent(Lower(tag));
    TrimKeepsLowerCase(Lower(tag));
    LowerFixesLowerCase(t);
  }

  /** Normalising a stored form changes nothing. */
  lemma NormalizeTagIdempotent(tag: string)
    ensures NormalizeTag(NormalizeTag(tag)) == NormalizeTag(tag)
  {
    var t := NormalizeTag(tag);
    TrimKeepsLowerCase(Lower(tag));
    LowerFixesLowerCase(t);
    TrimIdempotent(Lower(tag));
  }

  /** Tags that differ only in letter case or surrounding whitespace have the
      same stored form. */
  lemma NormalizeTagIgnoresCaseAndSpace(tag: string)
    ensures NormalizeTag(Lower(tag)) == NormalizeTag(tag)
    ensures NormalizeTag(Trim(tag)) == NormalizeTag(tag)
  {
    LowerIdempotent(tag);
    TrimLowerCommute(tag);
    TrimIdempotent(Lower(tag));
  }

  /** addTag keeps every stored tag normal, and stores a non-blank tag. */
  lemma AddTagKeepsTagsNormal(tags: set<string>, tag: string)
    requires AllNormalTags(tags)
    ensures AllNormalTags(TagsAfterAdd(tags, tag))
    ensures !IsBlank(tag) ==> NormalizeTag(tag) in TagsAfterAdd(tags, tag)
    ensures IsBlank(tag) ==> TagsAfterAdd(tags, tag) == tags
  {
    if !IsBlank(tag) {
      NormalizeTagIsNormal(tag);
    }
  }

  /** Adding a second tag with the same stored form as the first changes
      nothing: such tags collapse to one entry. */
  lemma AddTagCollapses(tags: set<string>, a: string, b: string)
    requires NormalizeTag(a) == NormalizeTag(b)
    ensures TagsAfterAdd(TagsAfterAdd(tags, a), b) == TagsAfterAdd(tags, a)
  {
    BlankIffNormalEmpty(a);
    BlankIffNormalEmpty(b);
  }

  /** "UI", " ui " and "ui" give the single tag "ui". */
  lemma TagCollapseExample()
    ensures TagsAfterAdd(TagsAfterAdd(TagsAfterAdd({}, "UI"), " ui "), "ui") == {"ui"}
  {
    assert Lower("UI") == "ui";
    assert Lower(" ui ") == " ui ";
    assert Lower("ui") == "ui";
    assert TrimStart(" ui ") == "ui ";
    assert NormalizeTag("UI") == "ui";
    assert NormalizeTag(" ui ") == "ui";
    assert NormalizeTag("ui") == "ui";
  }

  /** removeTag undoes an addTag of a tag that was not yet present, and
      leaves every other stored tag in place. */
  lemma RemoveTagUndoesAdd(tags: set<string>, tag: string)
    requires NormalizeTag(tag) !in tags
    ensures TagsAfterRemove(TagsAfterAdd(tags, tag), tag) == tags
    ensures forall t :: t in tags ==> t in TagsAfterRemove(tags, tag) || t == NormalizeTag(tag)
  {
  }

  // ---------------------------------------------------------------------
  // The bug

  /** A tracked bug. The identifier and the reporter are fixed at creation;
      the other fields are changed in place by the setters. */
  class Bug {
    const bugId: string
    var title: string
    var description: string
    var priority: Priority
    var status: Status
    var assignee: Option<User>
    const reporter: User
    var comments: seq<Comment>
    var tags: set<string>

    /** Every stored tag is in its normal form. */
    ghost predicate Valid()
      reads this
    {
      AllNormalTags(tags)
    }

    /** The current value of every field. */
    function Record(): BugRecord
      reads this
    {
      BugRecord(bugId, title, description, priority, status, assignee, reporter, comments, tags)
    }

    /** A new bug is open, unassigned, and has no comments and no tags. The
        title is stored without the check that SetTitle makes. */
    constructor (bugId: string, title: string, description: string, priority: Priority, reporter: User)
      ensures Valid()
      ensures Record() == BugRecord(bugId, title, description, priority, Open, None, reporter, [], {})
    {
      this.bugId := bugId;
      this.title := title;
      this.description := description;
      this.priority := priority;
      this.status := Open;
      this.assignee := None;
      this.reporter := reporter;
      this.comments := [];
      this.tags := {};
    }

    /** A blank title is refused and the old title kept; any other title is
        stored exactly as given, untrimmed. */
    method SetTitle(newTitle: string) returns (r: Outcome)
      requires Valid()
      modifies this
      ensures Valid()
      ensures IsBlank(newTitle) ==> r == Fail(EmptyTitle) && Record() == old(Record())
      ensures !IsBlank(newTitle) ==> r == Pass && Record() == old(Record()).(title := newTitle)
    {
      if IsBlank(newTitle) {
        return Fail(EmptyTitle);
      }
      title := newTitle;
      r := Pass;
    }

    method SetDescription(newDescription: string)
      requires Valid()
      modifies this
      ensures Valid()
      ensures Record() == old(Record()).(description := newDescription)
    {
      description := newDescription;
    }

    /** Any priority may follow any other. */
    method SetPriority(newPriority: Priority)
      requires Valid()
      modifies this
      ensures Valid()
      ensures Record() == old(Record()).(priority := newPriority)
    {
      priority := newPriority;
    }

    /** Any status may follow any other: there is no transition check. */
    method SetStatus(newStatus: Status)
      requires Valid()
      modifies this
      ensures Valid()
      ensures Record() == old(Record()).(status := newStatus)
    {
      status := newStatus;
    }

    /** None stands for setAssignee(null), which unassigns. */
    method SetAssignee(newAssignee: Option<User>)
      requires Valid()
      modifies this
      ensures Valid()
      ensures Record() == old(Record()).(assignee := newAssignee)
    {
      assignee := newAssignee;
    }

    /** Appends at the end; earlier comments keep their order and values. */
    method AddComment(c: Comment)
      requires Valid()
      modifies this
      ensures Valid()
      ensures Record() == old(Record()).(comments := old(comments) + [c])
      ensures |comments| == |old(comments)| + 1 && comments[|comments| - 1] == c
      ensures comments[..|old(comments)|] == old(comments)
    {
      comments := comments + [c];
    }

    /** Stores tag.toLowerCase().trim() unless the tag is blank. */
    method AddTag(tag: string)
      requires Valid()
      modifies this
      ensures Valid()
      ensures Record() == old(Record()).(tags := TagsAfterAdd(old(tags), tag))
      ensures !IsBlank(tag) ==> NormalizeTag(tag) in tags
    {
      AddTagKeepsTagsNormal(tags, tag);
      if !IsBlank(tag) {
        tags := tags + {NormalizeTag(tag)};
      }
    }

    /** Removes the stored form of tag; all other tags stay. */
    method RemoveTag(tag: string)
      requires Valid()
      modifies this
      ensures Valid()
      ensures Record() == old(Record()).(tags := TagsAfterRemove(old(tags), tag))
      ensures NormalizeTag(tag) !in tags
    {
      tags := tags - {NormalizeTag(tag)};
    }

    /** getComments(): a copy equal to the current comments. A sequence is a
        value, so nothing done to the copy reaches the bug. */
    method GetComments() returns (cs: seq<Comment>)
      ensures cs == comments
    {
      cs := comments;
    }

    /** getTags(): a copy equal to the current tags. */
    method GetTags() returns (ts: set<string>)
      ensures ts == tags
    {
      ts := tags;
    }
  }
}
