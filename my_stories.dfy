/** The "My Stories" page: the list of the author's stories, the delete
    button, the confirmation dialog and the delete itself. */
module MyStories {
  import opened Text
  import opened Common

  const DeletedMessage: string := "Story deleted successfully!"
  const DeleteFailedMessage: string := "Failed to delete the story"

  /** How many characters of a story the list shows. */
  const PreviewLength: nat := 100

  /** A row of the list: `id, title, content`. */
  datatype Story = Story(id: string, title: string, content: string)

  /** `stories.filter((story) => story.id !== id)`. */
  function RemoveId(stories: seq<Story>, id: string): seq<Story>
  {
    if stories == [] then []
    else (if stories[0].id != id then [stories[0]] else []) + RemoveId(stories[1..], id)
  }

  /** How many stories carry `id`. */
  function CountId(stories: seq<Story>, id: string): nat
  {
    if stories == [] then 0
    else (if stories[0].id == id then 1 else 0) + CountId(stories[1..], id)
  }

  /** A story stays exactly when it was there and does not carry `id`. */
  lemma {:induction false} RemoveIdMembers(stories: seq<Story>, id: string)
    ensures forall s :: s in RemoveId(stories, id) <==> s in stories && s.id != id
  {
    if stories != [] {
      RemoveIdMembers(stories[1..], id);
      assert stories == [stories[0]] + stories[1..];
    }
  }

  /** Exactly the stories carrying `id` are dropped. */
  lemma {:induction false} RemoveIdLength(stories: seq<Story>, id: string)
    ensures |RemoveId(stories, id)| + CountId(stories, id) == |stories|
  {
    if stories != [] {
      RemoveIdLength(stories[1..], id);
    }
  }

  /** Filtering a concatenation filters each part: the stories kept keep
      their order. */
  lemma {:induction false} RemoveIdAppend(a: seq<Story>, b: seq<Story>, id: string)
    ensures RemoveId(a + b, id) == RemoveId(a, id) + RemoveId(b, id)
  {
    if a == [] {
      assert a + b == b;
    } else {
      assert (a + b)[1..] == a[1..] + b;
      RemoveIdAppend(a[1..], b, id);
    }
  }

  /** A list without `id` is left as it is. */
  lemma {:induction false} RemoveIdAbsent(stories: seq<Story>, id: string)
    requires forall i :: 0 <= i < |stories| ==> stories[i].id != id
    ensures RemoveId(stories, id) == stories
  {
    if stories != [] {
      RemoveIdAbsent(stories[1..], id);
    }
  }

  /** Deleting the same id twice is deleting it once. */
  lemma RemoveIdIdempotent(stories: seq<Story>, id: string)
    ensures RemoveId(RemoveId(stories, id), id) == RemoveId(stories, id)
  {
    var r := RemoveId(stories, id);
    RemoveIdMembers(stories, id);
    assert forall i :: 0 <= i < |r| ==> r[i] in r;
    RemoveIdAbsent(r, id);
  }

  /** The preview under each title, `content.slice(0, 100) + '...'`: the
      longest prefix of the story that fits in 100 UTF-16 code units (so at
      most 100 characters), then "..."; a story that fits is shown whole. */
  function Preview(s: Story): (p: string)
    ensures |p| >= 3 && p[|p| - 3..] == "..."
    ensures |p| - 3 <= |s.content| && p[..|p| - 3] == s.content[..|p| - 3]
    ensures |p| <= PreviewLength + 3 && Utf16Length(p[..|p| - 3]) <= PreviewLength
    ensures |p| - 3 < |s.content|
            ==> Utf16Length(p[..|p| - 3]) + Utf16Units(s.content[|p| - 3]) > PreviewLength
    ensures Utf16Length(s.content) <= PreviewLength ==> p == s.content + "..."
    ensures InBmp(s.content) && |s.content| > PreviewLength
            ==> p == s.content[..PreviewLength] + "..."
  {
    ExcerptSpec(s.content, PreviewLength);
    var p := Excerpt(s.content, PreviewLength);
    Utf16LengthBounds(p[..|p| - 3]);
    assert p == p[..|p| - 3] + "...";
    p
  }

  /** `!storyToDelete`: nothing is selected (the empty id counts as none). */
  predicate NoneSelected(selected: Option<string>)
  {
    selected.None? || selected.value == []
  }

  class Page {
    var stories: seq<Story>
    var deleting: Option<string>
    var showConfirmModal: bool
    var storyToDelete: Option<string>

    constructor(listed: seq<Story>)
      ensures stories == listed && deleting.None? && !showConfirmModal && storyToDelete.None?
    {
      stories, deleting, showConfirmModal, storyToDelete := listed, None, false, None;
    }

    /** A story's Delete button: selects it and opens the dialog; the button
        is disabled while that story is being deleted. */
    method RequestDelete(id: string)
      modifies this
      ensures old(deleting) == Some(id) ==>
              storyToDelete == old(storyToDelete) && showConfirmModal == old(showConfirmModal)
      ensures old(deleting) != Some(id) ==> storyToDelete == Some(id) && showConfirmModal
      ensures stories == old(stories) && deleting == old(deleting)
    {
      if deleting == Some(id) {
        return;
      }
      storyToDelete := Some(id);
      showConfirmModal := true;
    }

    /** The dialog's close action. */
    method CloseConfirm()
      modifies this
      ensures !showConfirmModal
      ensures stories == old(stories) && deleting == old(deleting) && storyToDelete == old(storyToDelete)
    {
      showConfirmModal := false;
    }

    /** `handleDelete`, with the storage's answer for an id given by
        `delete`. `sent` is the id a delete was issued for. */
    method HandleDelete(delete: string -> Option<Fault>) returns (t: Toast, sent: Option<string>)
      modifies this
      ensures NoneSelected(old(storyToDelete)) ==>
              && t == Silent && sent.None?
              && stories == old(stories) && deleting == old(deleting)
              && showConfirmModal == old(showConfirmModal) && storyToDelete == old(storyToDelete)
      ensures !NoneSelected(old(storyToDelete)) ==>
              var id := old(storyToDelete).value;
              && sent == Some(id)
              && deleting.None? && !showConfirmModal && storyToDelete.None?
              && (delete(id).None? ==> stories == RemoveId(old(stories), id) && t == Success(DeletedMessage))
              && (delete(id).Some? ==> stories == old(stories) && t == Error(DeleteFailedMessage))
    {
      t, sent := Silent, None;
      if storyToDelete.None? || storyToDelete.value == [] {
        return;
      }
      var id := storyToDelete.value;
      deleting := Some(id);
      sent := Some(id);
      var error := delete(id);
      if error.None? {
        t := Success(DeletedMessage);
        stories := RemoveId(stories, id);
      } else {
        t := Error(DeleteFailedMessage);
      }
      deleting := None;
      showConfirmModal := false;
      storyToDelete := None;
    }
  }

  /** Pressing Delete on a story, confirming, and a delete that succeeds:
      that story's id is gone from the list and every other story is still
      there. */
  method DeleteFlow(p: Page, id: string, delete: string -> Option<Fault>)
    requires id != [] && p.deleting != Some(id)
    requires delete(id).None?
    modifies p
    ensures forall s :: s in p.stories <==> s in old(p.stories) && s.id != id
    ensures !p.showConfirmModal && p.storyToDelete.None? && p.deleting.None?
  {
    p.RequestDelete(id);
    var _, _ := p.HandleDelete(delete);
    RemoveIdMembers(old(p.stories), id);
  }
}
