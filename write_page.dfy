/** The story editor of the write page: the form, the one-key draft store in
    the browser's local storage, and the publish workflow (`handleSubmit`). */
module WritePage {
  import opened Text
  import opened Common
  import Types
  import opened Slug

  /** The local-storage key drafts are kept under. */
  const DraftKey: string := "spooky_story_draft"

  /** The shortest trimmed content the editor accepts. */
  const MinContentLength: nat := 100

  const ForeignKeyCode: string := "23503"

  const LoginMessage: string := "You must be logged in to write a story"
  const FillMessage: string := "Please fill in all required fields"
  const ShortMessage: string := "Story content must be at least 100 characters long"
  const InvalidCategoryMessage: string := "Invalid category selected. Please try again."
  const DuplicateMessage: string := "A story with this title already exists."
  const NoDataMessage: string := "No data returned from the server"
  const PublishFallback: string := "Failed to publish your story. The spirits are restless..."
  const PublishedMessage: string := "Your spooky tale has been published! \U{1F47B}"
  const NothingToSaveMessage: string := "Nothing to save! Add some content first"
  const SavedMessage: string := "Draft saved successfully! \U{1F4DD}"
  const LoadedMessage: string := "Draft loaded successfully! \U{1F4DD}"
  const LoadFailedMessage: string := "Failed to load draft"
  const ClearedMessage: string := "Draft cleared! Start fresh \U{2728}"

  /** The four form fields a draft keeps. */
  datatype Form = Form(title: string, content: string, category: string,
                       visibility: Types.EditorVisibility)

  /** `DraftStory`; `lastSaved` is the save time given by the caller. */
  datatype Draft = Draft(title: string, content: string, category: string,
                         visibility: Types.EditorVisibility, lastSaved: nat)

  /** What `localStorage.getItem(DRAFT_KEY)` can hand back: text `JSON.parse`
      reads as a draft, text it rejects, or the empty string (which counts as
      no draft at all). */
  datatype Stored = Saved(draft: Draft) | Corrupt | Blank

  /** The row `handleSubmit` inserts into `stories`. */
  datatype NewStory = NewStory(title: string, content: string, categoryId: string,
                               authorId: string, status: Types.StoryStatus,
                               visibility: Types.Visibility, slug: string)

  /** The reply of `insert([...]).select().single()`. */
  datatype InsertReply = InsertReply(error: Option<Fault>, hasData: bool)

  /** How a press of the publish button ends: refused by the form checks
      before anything is sent, failed after the insert was sent, or published. */
  datatype SubmitOutcome =
    | Rejected(message: string)
    | Failed(record: NewStory, message: string)
    | Done(record: NewStory)

  /** `!title && !content && !category`: the guard shared by manual save and
      autosave. */
  predicate IsEmptyForm(f: Form)
  {
    f.title == [] && f.content == [] && f.category == []
  }

  function DraftOf(f: Form, now: nat): (d: Draft)
    ensures FormOf(d) == f && d.lastSaved == now
  {
    Draft(f.title, f.content, f.category, f.visibility, now)
  }

  function FormOf(d: Draft): Form
  {
    Form(d.title, d.content, d.category, d.visibility)
  }

  // ---------------------------------------------------------------------
  // the publish workflow, as a function of the form and the oracles

  /** The checks `handleSubmit` makes before touching storage, in order. */
  function Validate(user: Option<string>, f: Form): Option<string>
  {
    if user.None? then Some(LoginMessage)
    else if Trim(f.title) == [] || Trim(f.content) == [] || f.category == [] then Some(FillMessage)
    else if Utf16Length(Trim(f.content)) < MinContentLength then Some(ShortMessage)
    else None
  }

  /** The order of the checks, stated on the untrimmed fields: no user first,
      then a blank title or content or an empty category, then short content;
      a form passes exactly when none of these holds. */
  lemma ValidationOrder(user: Option<string>, f: Form)
    ensures user.None? ==> Validate(user, f) == Some(LoginMessage)
    ensures user.Some? && (IsBlank(f.title) || IsBlank(f.content) || f.category == [])
            ==> Validate(user, f) == Some(FillMessage)
    ensures user.Some? && !IsBlank(f.title) && !IsBlank(f.content) && f.category != []
            && Utf16Length(Trim(f.content)) < MinContentLength
            ==> Validate(user, f) == Some(ShortMessage)
    ensures Validate(user, f) == None
            <==> user.Some? && !IsBlank(f.title) && f.category != []
                 && Utf16Length(Trim(f.content)) >= MinContentLength
  {
    TrimSpec(f.title);
    TrimSpec(f.content);
  }

  /** The length check counts UTF-16 code units, as `length` does: fifty
      ghost emoji (two code units each) and twenty letters are seventy
      characters but a hundred and twenty code units, and pass. */
  lemma ContentCountsCodeUnits(userId: string)
    ensures var content := seq(50, _ => '\U{1F47B}') + seq(20, _ => 'a');
            && |content| == 70
            && Validate(Some(userId), Form("Night", content, "c", Types.Public)) == None
  {
    var ghosts, letters := seq(50, _ => '\U{1F47B}'), seq(20, _ => 'a');
    var content := ghosts + letters;
    assert content[0] == '\U{1F47B}' && content[|content| - 1] == 'a';
    assert DropRun(content, IsSpace) == content;
    assert DropRunEnd(content, IsSpace) == content;
    assert DropRun("Night", IsSpace) == "Night";
    assert DropRunEnd("Night", IsSpace) == "Night";
    Utf16LengthRepeat('\U{1F47B}', 50);
    Utf16LengthRepeat('a', 20);
    Utf16LengthAppend(ghosts, letters);
  }

  /** The row inserted for a form that passed the checks. */
  function RecordFor(userId: string, f: Form, lookup: string -> Lookup, now: nat): NewStory
  {
    var title := Trim(f.title);
    NewStory(title, Trim(f.content), f.category, userId, Types.Published, f.visibility,
             UniqueSlug(lookup, GenerateSlug(title, now), now))
  }

  /** The error the insert step throws, if any: the two translated codes, any
      other SDK error as it is, or a missing row. */
  function InsertFault(reply: InsertReply): Option<Fault>
  {
    if reply.error.Some? then
      var e := reply.error.value;
      if e.code == Some(ForeignKeyCode) then Some(ErrorWith(InvalidCategoryMessage))
      else if e.code == Some(UniqueCode) then Some(ErrorWith(DuplicateMessage))
      else Some(e)
    else if !reply.hasData then Some(ErrorWith(NoDataMessage))
    else None
  }

  /** `handleSubmit`, with the signed-in user's id, the slug lookups and the
      insert given as oracles and `Date.now()` as `now`. */
  function Submit(user: Option<string>, f: Form, lookup: string -> Lookup,
                  insert: NewStory -> InsertReply, now: nat): SubmitOutcome
  {
    match Validate(user, f)
    case Some(m) => Rejected(m)
    case None =>
      var record := RecordFor(user.value, f, lookup, now);
      match InsertFault(insert(record))
      case Some(e) => Failed(record, ShownMessage(e, PublishFallback))
      case None => Done(record)
  }

  /** A form the checks refuse is refused whatever storage would answer: no
      lookup and no insert takes part. */
  lemma RejectedBeforeStorage(user: Option<string>, f: Form,
                              lookup1: string -> Lookup, insert1: NewStory -> InsertReply,
                              lookup2: string -> Lookup, insert2: NewStory -> InsertReply,
                              now1: nat, now2: nat)
    requires Validate(user, f).Some?
    ensures Submit(user, f, lookup1, insert1, now1) == Submit(user, f, lookup2, insert2, now2)
    ensures Submit(user, f, lookup1, insert1, now1).Rejected?
  {
  }

  /** The inserted row: the trimmed title and content, the category as
      `category_id`, the user as author, status published, the form's
      visibility, and a well-formed slug resolved from the trimmed title. */
  lemma InsertedRecord(user: Option<string>, f: Form, lookup: string -> Lookup,
                       insert: NewStory -> InsertReply, now: nat)
    requires !Submit(user, f, lookup, insert, now).Rejected?
    ensures var o := Submit(user, f, lookup, insert, now);
            && user.Some?
            && o.record == RecordFor(user.value, f, lookup, now)
            && o.record.title == Trim(f.title) && o.record.title != []
            && o.record.content == Trim(f.content) && Utf16Length(o.record.content) >= MinContentLength
            && o.record.categoryId == f.category && f.category != []
            && o.record.authorId == user.value
            && o.record.status == Types.Published
            && o.record.visibility == f.visibility
            && o.record.slug == UniqueSlug(lookup, GenerateSlug(Trim(f.title), now), now)
            && WellFormed(o.record.slug)
  {
    ValidationOrder(user, f);
    TrimSpec(f.title);
    var title := Trim(f.title);
    GenerateSlugWellFormed(title, now);
    UniqueSlugWellFormed(lookup, GenerateSlug(title, now), now);
  }

  /** How the insert's reply decides the outcome: 23503 and 23505 become the
      two fixed messages, any other SDK error shows its own message when it is
      an `Error` and the generic one when not, a missing row gets its own
      message, and the story is published exactly when there is no error and
      a row came back. */
  lemma InsertOutcome(user: Option<string>, f: Form, lookup: string -> Lookup,
                      insert: NewStory -> InsertReply, now: nat)
    requires Validate(user, f).None?
    ensures var record := RecordFor(user.value, f, lookup, now);
            var reply := insert(record);
            var o := Submit(user, f, lookup, insert, now);
            && (reply.error.Some? && reply.error.value.code == Some(ForeignKeyCode)
                ==> o == Failed(record, InvalidCategoryMessage))
            && (reply.error.Some? && reply.error.value.code == Some(UniqueCode)
                ==> o == Failed(record, DuplicateMessage))
            && (reply.error.Some? && reply.error.value.code != Some(ForeignKeyCode)
                && reply.error.value.code != Some(UniqueCode)
                ==> o == Failed(record, if reply.error.value.isErrorInstance
                                        then reply.error.value.message else PublishFallback))
            && (reply.error.None? && !reply.hasData ==> o == Failed(record, NoDataMessage))
            && (o.Done? <==> reply.error.None? && reply.hasData)
  {
  }

  /** The toast a finished submission shows. */
  function SubmitToast(o: SubmitOutcome): (t: Toast)
    ensures o.Done? <==> t.Success?
  {
    match o
    case Rejected(m) => Error(m)
    case Failed(_, m) => Error(m)
    case Done(_) => Success(PublishedMessage)
  }

  // ---------------------------------------------------------------------
  // the editor

  /** The write page's state: the form fields, the draft banner flag, the
      publishing flag and the browser's local storage. */
  class Editor {
    var title: string
    var content: string
    var category: string
    var visibility: Types.EditorVisibility
    var hasDraft: bool
    var loading: bool
    var storage: map<string, Stored>

    function Current(): Form
      reads this
    {
      Form(title, content, category, visibility)
    }

    /** A fresh page over whatever local storage already holds. */
    constructor(stored: map<string, Stored>)
      ensures Current() == Form("", "", "", Types.Public)
      ensures !hasDraft && !loading && storage == stored
    {
      title, content, category, visibility := "", "", "", Types.Public;
      hasDraft, loading := false, false;
      storage := stored;
    }

    /** The mount-time check: a readable draft raises the banner without
        loading it; an unreadable one is removed. */
    method CheckDraftOnMount()
      modifies this
      ensures Current() == old(Current()) && loading == old(loading)
      ensures DraftKey in old(storage) && old(storage)[DraftKey].Saved?
              ==> hasDraft && storage == old(storage)
      ensures DraftKey in old(storage) && old(storage)[DraftKey].Corrupt?
              ==> hasDraft == old(hasDraft) && storage == old(storage) - {DraftKey}
      ensures (DraftKey !in old(storage) || old(storage)[DraftKey].Blank?)
              ==> hasDraft == old(hasDraft) && storage == old(storage)
    {
      if DraftKey in storage && !storage[DraftKey].Blank? {
        if storage[DraftKey].Saved? {
          hasDraft := true;
        } else {
          storage := storage - {DraftKey};
        }
      }
    }

    /** The "Save Draft" button. */
    method SaveDraft(now: nat) returns (t: Toast)
      modifies this
      ensures Current() == old(Current()) && loading == old(loading)
      ensures IsEmptyForm(old(Current()))
              ==> t == Error(NothingToSaveMessage)
                  && storage == old(storage) && hasDraft == old(hasDraft)
      ensures !IsEmptyForm(old(Current()))
              ==> t == Success(SavedMessage) && hasDraft
                  && storage == old(storage)[DraftKey := Saved(DraftOf(old(Current()), now))]
    {
      if title == [] && content == [] && category == [] {
        t := Error(NothingToSaveMessage);
        return;
      }
      var draft := Draft(title, content, category, visibility, now);
      storage := storage[DraftKey := Saved(draft)];
      hasDraft := true;
      t := Success(SavedMessage);
    }

    /** One firing of the 30-second autosave timer: the same write as a
        manual save, silent, and skipped for an empty form. */
    method AutosaveTick(now: nat)
      modifies this
      ensures Current() == old(Current()) && loading == old(loading)
      ensures IsEmptyForm(old(Current())) ==> storage == old(storage) && hasDraft == old(hasDraft)
      ensures !IsEmptyForm(old(Current()))
              ==> hasDraft && storage == old(storage)[DraftKey := Saved(DraftOf(old(Current()), now))]
    {
      if title == [] && content == [] && category == [] {
        return;
      }
      var draft := Draft(title, content, category, visibility, now);
      storage := storage[DraftKey := Saved(draft)];
      hasDraft := true;
    }

    /** The banner's "Load Draft" button: a readable draft replaces the four
        fields; an unreadable one is reported and left in place. */
    method LoadDraft() returns (t: Toast)
      modifies this
      ensures storage == old(storage) && hasDraft == old(hasDraft) && loading == old(loading)
      ensures DraftKey in storage && storage[DraftKey].Saved?
              ==> Current() == FormOf(storage[DraftKey].draft) && t == Success(LoadedMessage)
      ensures DraftKey in storage && storage[DraftKey].Corrupt?
              ==> Current() == old(Current()) && t == Error(LoadFailedMessage)
      ensures (DraftKey !in storage || storage[DraftKey].Blank?)
              ==> Current() == old(Current()) && t == Silent
    {
      t := Silent;
      if DraftKey in storage && !storage[DraftKey].Blank? {
        match storage[DraftKey]
        case Saved(d) =>
          title, content, category, visibility := d.title, d.content, d.category, d.visibility;
          t := Success(LoadedMessage);
        case Corrupt =>
          t := Error(LoadFailedMessage);
      }
    }

    /** The banner's "Clear Draft" button. */
    method ClearDraft() returns (t: Toast)
      modifies this
      ensures storage == old(storage) - {DraftKey} && DraftKey !in storage
      ensures !hasDraft && loading == old(loading)
      ensures Current() == Form("", "", "", Types.Public)
      ensures t == Success(ClearedMessage)
    {
      storage := storage - {DraftKey};
      hasDraft := false;
      title, content, category, visibility := "", "", "", Types.Public;
      t := Success(ClearedMessage);
    }

    /** The publish button. `user` is the signed-in user's id, `lookup` and
        `insert` stand for the two storage calls, `now` for `Date.now()`.
        `sent` is the row handed to the insert, if one was; `redirect` is the
        page navigated to. */
    method HandleSubmit(user: Option<string>, lookup: string -> Lookup,
                        insert: NewStory -> InsertReply, now: nat)
      returns (t: Toast, sent: Option<NewStory>, redirect: Option<string>)
      modifies this
      ensures var o := Submit(user, old(Current()), lookup, insert, now);
              && t == SubmitToast(o)
              && sent == (if o.Rejected? then None else Some(o.record))
              && redirect == (if o.Done? then Some("/") else None)
              && Current() == old(Current())
              && loading == (if o.Rejected? then old(loading) else false)
              && (o.Done? ==> storage == old(storage) - {DraftKey} && !hasDraft)
              && (!o.Done? ==> storage == old(storage) && hasDraft == old(hasDraft))
    {
      sent, redirect := None, None;
      if user.None? {
        t := Error(LoginMessage);
        return;
      }
      var trimmedTitle := Trim(title);
      var trimmedContent := Trim(content);
      if trimmedTitle == [] || trimmedContent == [] || category == [] {
        t := Error(FillMessage);
        return;
      }
      if Utf16Length(trimmedContent) < MinContentLength {
        t := Error(ShortMessage);
        return;
      }

      loading := true;
      var baseSlug := GenerateSlug(trimmedTitle, now);
      // The source's check for an empty base slug can never fire.
      GenerateSlugNonEmpty(trimmedTitle, now);
      assert baseSlug != [];
      var uniqueSlug, _ := EnsureUniqueSlug(lookup, baseSlug, now);
      // Nor can its check for an empty unique slug.
      UniqueSlugNonEmpty(lookup, baseSlug, now);
      assert uniqueSlug != [];

      var record := NewStory(trimmedTitle, trimmedContent, category, user.value,
                             Types.Published, visibility, uniqueSlug);
      assert record == RecordFor(user.value, old(Current()), lookup, now);
      sent := Some(record);
      t, redirect := Publish(record, insert);
    }

    /** The insert and what follows it: on success the draft is removed and
        the page goes home; on any error its message is shown. Either way
        the publishing flag drops. */
    method Publish(record: NewStory, insert: NewStory -> InsertReply)
      returns (t: Toast, redirect: Option<string>)
      modifies this
      ensures Current() == old(Current()) && !loading
      ensures var thrown := InsertFault(insert(record));
              && (thrown.None? ==> t == Success(PublishedMessage) && redirect == Some("/")
                                   && storage == old(storage) - {DraftKey} && !hasDraft)
              && (thrown.Some? ==> t == Error(ShownMessage(thrown.value, PublishFallback))
                                   && redirect.None?
                                   && storage == old(storage) && hasDraft == old(hasDraft))
    {
      redirect := None;
      var reply := insert(record);
      // The two translated codes, any other error as it is, or no row.
      var thrown := InsertFault(reply);
      if thrown.None? {
        storage := storage - {DraftKey};
        hasDraft := false;
        t := Success(PublishedMessage);
        redirect := Some("/");
      } else {
        t := Error(ShownMessage(thrown.value, PublishFallback));
      }
      loading := false;
    }
  }

  /** Saving a non-empty form and loading it back restores the four fields,
      whatever was edited in between. */
  method SaveEditLoad(e: Editor, now: nat, edited: Form) returns (t: Toast)
    requires !IsEmptyForm(e.Current())
    modifies e
    ensures e.Current() == old(e.Current())
    ensures t == Success(LoadedMessage)
  {
    ghost var saved := e.Current();
    var _ := e.SaveDraft(now);
    e.title, e.content, e.category, e.visibility :=
      edited.title, edited.content, edited.category, edited.visibility;
    t := e.LoadDraft();
    assert e.storage[DraftKey] == Saved(DraftOf(saved, now));
  }

  /** Clearing the draft and then loading finds nothing to load: the load
      shows no toast and leaves the emptied form as it is. */
  method ClearThenLoad(e: Editor) returns (t: Toast)
    modifies e
    ensures DraftKey !in e.storage
    ensures e.Current() == Form("", "", "", Types.Public)
    ensures t == Silent
  {
    var _ := e.ClearDraft();
    t := e.LoadDraft();
  }
}
