/** The profile dialog: the checks on a new email, username, bio and avatar,
    the storage requests they lead to, and the small editing state machine
    (`editingField`, the two edit buffers, the email-change panel). */
module ProfileModal {
  import opened Text
  import opened Common
  import UploadAvatar


  const InvalidEmailMessage: string := "Please enter a valid email address"
  const EmailSentMessage: string := "Check your new email for a confirmation link! \U{1F4E7}"
  const EmailFailedMessage: string := "Failed to update email. Please try again."
  const ShortUsernameMessage: string := "Username must be at least 3 characters long"
  const UsernameCharsMessage: string := "Username can only contain letters, numbers, underscores, and hyphens"
  const UsernameTakenMessage: string := "This username is already taken"
  const UsernameUpdatedMessage: string := "Username updated successfully! \U{1F47B}"
  const UsernameFallback: string := "Failed to update username"
  const BioUpdatedMessage: string := "Bio updated successfully! \U{1F4DD}"
  const BioFailedMessage: string := "Failed to update bio"
  const AvatarTypeMessage: string := "Please select a JPG, PNG, or WebP image"
  const AvatarUpdatedMessage: string := "Avatar updated successfully! \U{1F5BC}\U{FE0F}"
  const AvatarFallback: string := "Failed to update avatar"
  const ProfileFailedMessage: string := "Failed to load profile data"

  /** The shortest username accepted. */
  const MinUsernameLength: nat := 3

  /** The two fields that are edited in place. */
  datatype Field = Username | Bio

  /** The columns of a `profiles` row the dialog edits. */
  datatype Profile = Profile(username: Option<string>, bio: Option<string>)

  /** `value || ''` for a nullable text column. */
  function OrEmpty(v: Option<string>): (r: string)
    ensures v.Some? ==> r == v.value
    ensures v.None? ==> r == []
  {
    if v.Some? then v.value else []
  }

  // ---------------------------------------------------------------------
  // the checks

  /** `!newEmail || !newEmail.includes('@')`: the email is refused. */
  function EmailIssue(email: string): Option<string>
  {
    if email == [] || '@' !in email then Some(InvalidEmailMessage) else None
  }

  lemma EmailIssueSpec(email: string)
    ensures EmailIssue(email).None? <==> exists i :: 0 <= i < |email| && email[i] == '@'
    ensures EmailIssue(email).Some? ==> EmailIssue(email) == Some(InvalidEmailMessage)
  {
    if '@' in email {
      var i :| 0 <= i < |email| && email[i] == '@';
    }
  }

  /** `[a-zA-Z0-9_-]`. */
  predicate UsernameChar(c: char) { IsWordChar(c) || c == '-' }

  /** The two username checks in order: the user and length check, then the
      character check. */
  function UsernameIssue(user: Option<string>, name: string): Option<string>
  {
    if user.None? || name == [] || Utf16Length(name) < MinUsernameLength then Some(ShortUsernameMessage)
    else if !(forall i :: 0 <= i < |name| ==> UsernameChar(name[i])) then Some(UsernameCharsMessage)
    else None
  }

  /** A username passes exactly when there is a user and the name has at
      least three characters, all letters, digits, '_' or '-'; a name shorter
      than three UTF-16 code units is reported as short whatever its
      characters are. */
  lemma UsernameIssueSpec(user: Option<string>, name: string)
    ensures UsernameIssue(user, name).None?
            <==> user.Some? && |name| >= 3 && forall c :: c in name ==> UsernameChar(c)
    ensures user.None? || Utf16Length(name) < 3 ==> UsernameIssue(user, name) == Some(ShortUsernameMessage)
    ensures user.Some? && Utf16Length(name) >= 3 && !(forall c :: c in name ==> UsernameChar(c))
            ==> UsernameIssue(user, name) == Some(UsernameCharsMessage)
  {
    Utf16LengthBounds(name);
    if forall c :: c in name ==> UsernameChar(c) {
      assert InBmp(name) by {
        forall i | 0 <= i < |name| ensures name[i] as int <= 0xFFFF {
          assert UsernameChar(name[i]);
        }
      }
    }
  }

  /** "a" followed by an emoji outside the BMP is two characters but three
      code units: it passes the length check and fails the character check. */
  lemma UsernameCountsCodeUnits(user: string)
    ensures UsernameIssue(Some(user), "a\U{1F600}") == Some(UsernameCharsMessage)
  {
    var name := "a\U{1F600}";
    assert name[1..] == "\U{1F600}";
    assert Utf16Length(name) == 3;
    assert !UsernameChar(name[1]);
  }

  /** The avatar checks of the dialog, in order: type first, then size. */
  function AvatarIssue(file: UploadAvatar.AvatarFile): Option<string>
  {
    if !UploadAvatar.AllowedType(file.mime) then Some(AvatarTypeMessage)
    else if file.size > UploadAvatar.MaxAvatarBytes then Some(OversizeMessage(file.size))
    else None
  }

  /** An avatar passes exactly the checks the upload itself makes (so exactly
      5 MiB passes); a file of the wrong type gets the type message whatever
      its size, and only a file of the right type gets the size message. */
  lemma AvatarIssueSpec(file: UploadAvatar.AvatarFile)
    ensures AvatarIssue(file).None?
            <==> UploadAvatar.AllowedType(file.mime) && UploadAvatar.WithinSize(file.size)
    ensures !UploadAvatar.AllowedType(file.mime) ==> AvatarIssue(file) == Some(AvatarTypeMessage)
    ensures UploadAvatar.AllowedType(file.mime) && file.size > UploadAvatar.MaxAvatarBytes
            ==> AvatarIssue(file) == Some(OversizeMessage(file.size))
  {
  }

  /** `(size / 1024 / 1024).toFixed(1)`, in tenths: the size in MiB is
      `size / 2^20` exactly, and `toFixed` picks the nearest tenth, the
      larger one on a tie. */
  function MebibyteTenths(size: nat): nat
  {
    (10 * size + 524288) / 1048576
  }

  /** The tenths are the nearest to the exact size, the larger on a tie. */
  lemma MebibyteTenthsNearest(size: nat)
    ensures var n := MebibyteTenths(size);
            && n * 1048576 <= 10 * size + 524288
            && 10 * size + 524288 < (n + 1) * 1048576
  {
  }

  /** A number of tenths printed with one decimal. */
  function OneDecimal(tenths: nat): string
  {
    Decimal(tenths / 10) + "." + [DigitChar(tenths % 10)]
  }

  function OversizeMessage(size: nat): string
  {
    "File size must be less than 5MB (your file: " + OneDecimal(MebibyteTenths(size)) + "MB)"
  }

  /** One more than the limit is reported as 5.0 MB. */
  lemma OversizeExample()
    ensures OneDecimal(MebibyteTenths(5242881)) == "5.0"
  {
    assert MebibyteTenths(5242881) == 50;
    assert Decimal(5) == "5";
  }

  /** The storage error of a username update, as the message shown: 23505 is
      translated, anything else shows its own message when it is an `Error`
      and the generic one when not. */
  function UsernameFailure(e: Fault): (m: string)
    ensures e.code == Some(UniqueCode) ==> m == UsernameTakenMessage
    ensures e.code != Some(UniqueCode) ==> m == ShownMessage(e, UsernameFallback)
  {
    var thrown := if e.code == Some(UniqueCode) then ErrorWith(UsernameTakenMessage) else e;
    ShownMessage(thrown, UsernameFallback)
  }

  // ---------------------------------------------------------------------
  // the dialog

  /** A storage write the dialog asks for. */
  datatype Request =
    | SetEmail(email: string)
    | SetUsername(userId: string, username: string)
    | SetBio(userId: string, bio: string)

  class Dialog {
    var loading: bool
    var profile: Option<Profile>
    var isChangingEmail: bool
    var showEmailSteps: bool
    var newEmail: string
    var editingField: Option<Field>
    var newUsername: string
    var newBio: string

    constructor()
      ensures !loading && profile.None? && !isChangingEmail && !showEmailSteps
      ensures newEmail == [] && editingField.None? && newUsername == [] && newBio == []
    {
      loading, profile, isChangingEmail, showEmailSteps := false, None, false, false;
      newEmail, editingField, newUsername, newBio := [], None, [], [];
    }

    /** `fetchProfile`, with the row read given as `fetched`. */
    method FetchProfile(user: Option<string>, fetched: Result<Profile, Fault>) returns (t: Toast)
      modifies this
      ensures user.None? ==> t == Silent && loading == old(loading) && profile == old(profile)
      ensures user.Some? ==> !loading
      ensures user.Some? && fetched.Ok? ==> profile == Some(fetched.value) && t == Silent
      ensures user.Some? && fetched.Err? ==> profile == old(profile) && t == Error(ProfileFailedMessage)
      ensures isChangingEmail == old(isChangingEmail) && showEmailSteps == old(showEmailSteps)
      ensures newEmail == old(newEmail) && editingField == old(editingField)
      ensures newUsername == old(newUsername) && newBio == old(newBio)
    {
      t := Silent;
      if user.None? {
        return;
      }
      loading := true;
      if fetched.Ok? {
        profile := Some(fetched.value);
      } else {
        t := Error(ProfileFailedMessage);
      }
      loading := false;
    }

    /** `handleEmailChange`, with the auth service's answer to the request
        given as `updateEmail`. */
    method HandleEmailChange(updateEmail: string -> Option<Fault>)
      returns (t: Toast, sent: Option<Request>)
      modifies this
      ensures EmailIssue(old(newEmail)).Some?
              ==> t == Error(InvalidEmailMessage) && sent.None?
                  && loading == old(loading) && newEmail == old(newEmail)
                  && isChangingEmail == old(isChangingEmail) && showEmailSteps == old(showEmailSteps)
      ensures EmailIssue(old(newEmail)).None? ==> sent == Some(SetEmail(old(newEmail))) && !loading
      ensures EmailIssue(old(newEmail)).None? && updateEmail(old(newEmail)).None?
              ==> t == Success(EmailSentMessage) && showEmailSteps && !isChangingEmail && newEmail == []
      ensures EmailIssue(old(newEmail)).None? && updateEmail(old(newEmail)).Some?
              ==> t == Error(EmailFailedMessage) && newEmail == old(newEmail)
                  && isChangingEmail == old(isChangingEmail) && showEmailSteps == old(showEmailSteps)
      ensures profile == old(profile) && editingField == old(editingField)
      ensures newUsername == old(newUsername) && newBio == old(newBio)
    {
      sent := None;
      var issue := EmailIssue(newEmail);
      if issue.Some? {
        t := Error(issue.value);
        return;
      }
      loading := true;
      sent := Some(SetEmail(newEmail));
      var error := updateEmail(newEmail);
      if error.None? {
        t := Success(EmailSentMessage);
        showEmailSteps := true;
        isChangingEmail := false;
        newEmail := [];
      } else {
        t := Error(EmailFailedMessage);
      }
      loading := false;
    }

    /** `handleUsernameChange`, with the update's error given by `update`.
        The profile refresh a success starts is not awaited; it is a separate
        `FetchProfile`. */
    method HandleUsernameChange(user: Option<string>, update: (string, string) -> Option<Fault>)
      returns (t: Toast, sent: Option<Request>)
      modifies this
      ensures UsernameIssue(user, old(newUsername)).Some?
              ==> t == Error(UsernameIssue(user, old(newUsername)).value) && sent.None?
                  && loading == old(loading) && editingField == old(editingField)
      ensures UsernameIssue(user, old(newUsername)).None? ==>
              && sent == Some(SetUsername(user.value, old(newUsername)))
              && !loading
              && var error := update(user.value, old(newUsername));
                 && (error.None? ==> t == Success(UsernameUpdatedMessage) && editingField.None?)
                 && (error.Some? ==> t == Error(UsernameFailure(error.value))
                                     && editingField == old(editingField))
      ensures profile == old(profile) && newUsername == old(newUsername) && newBio == old(newBio)
      ensures newEmail == old(newEmail) && isChangingEmail == old(isChangingEmail)
      ensures showEmailSteps == old(showEmailSteps)
    {
      sent := None;
      var issue := UsernameIssue(user, newUsername);
      if issue.Some? {
        t := Error(issue.value);
        return;
      }
      loading := true;
      sent := Some(SetUsername(user.value, newUsername));
      var error := update(user.value, newUsername);
      if error.Some? {
        t := Error(UsernameFailure(error.value));
      } else {
        t := Success(UsernameUpdatedMessage);
        editingField := None;
      }
      loading := false;
    }

    /** `handleBioChange`: the bio written is the trimmed buffer. */
    method HandleBioChange(user: Option<string>, update: (string, string) -> Option<Fault>)
      returns (t: Toast, sent: Option<Request>)
      modifies this
      ensures user.None? ==> t == Silent && sent.None? && loading == old(loading)
                             && editingField == old(editingField)
      ensures user.Some? ==>
              && sent == Some(SetBio(user.value, Trim(old(newBio))))
              && !loading
              && var error := update(user.value, Trim(old(newBio)));
                 && (error.None? ==> t == Success(BioUpdatedMessage) && editingField.None?)
                 && (error.Some? ==> t == Error(BioFailedMessage) && editingField == old(editingField))
      ensures profile == old(profile) && newUsername == old(newUsername) && newBio == old(newBio)
      ensures newEmail == old(newEmail) && isChangingEmail == old(isChangingEmail)
      ensures showEmailSteps == old(showEmailSteps)
    {
      t, sent := Silent, None;
      if user.None? {
        return;
      }
      loading := true;
      var bio := Trim(newBio);
      sent := Some(SetBio(user.value, bio));
      var error := update(user.value, bio);
      if error.None? {
        t := Success(BioUpdatedMessage);
        editingField := None;
      } else {
        t := Error(BioFailedMessage);
      }
      loading := false;
    }

    /** `handleAvatarChange`: the dialog's own checks, then `uploadAvatar`
        with the same storage oracles. */
    method HandleAvatarChange(user: Option<string>, file: Option<UploadAvatar.AvatarFile>, now: nat,
                              upload: string -> Option<Fault>,
                              publicUrlOf: string -> string,
                              updateAvatar: (string, string) -> Option<Fault>)
      returns (t: Toast, calls: seq<UploadAvatar.Call>)
      modifies this
      ensures file.None? || user.None? ==> t == Silent && calls == [] && loading == old(loading)
      ensures file.Some? && user.Some? && AvatarIssue(file.value).Some?
              ==> t == Error(AvatarIssue(file.value).value) && calls == [] && loading == old(loading)
      ensures file.Some? && user.Some? && AvatarIssue(file.value).None? ==>
              && !loading
              && var path := UploadAvatar.AvatarPath(user.value, now, file.value.name);
                 var url := publicUrlOf(path);
                 && (upload(path).Some?
                     ==> calls == [UploadAvatar.PutObject(path)]
                         && t == Error(ShownMessage(upload(path).value, AvatarFallback)))
                 && (upload(path).None?
                     ==> calls == [UploadAvatar.PutObject(path), UploadAvatar.SetAvatarUrl(user.value, url)]
                         && (updateAvatar(user.value, url).Some?
                             ==> t == Error(ShownMessage(updateAvatar(user.value, url).value, AvatarFallback)))
                         && (updateAvatar(user.value, url).None? ==> t == Success(AvatarUpdatedMessage)))
      ensures profile == old(profile) && newUsername == old(newUsername) && newBio == old(newBio)
      ensures newEmail == old(newEmail) && isChangingEmail == old(isChangingEmail)
      ensures showEmailSteps == old(showEmailSteps) && editingField == old(editingField)
    {
      t, calls := Silent, [];
      if file.None? || user.None? {
        return;
      }
      var f := file.value;
      if !UploadAvatar.AllowedType(f.mime) {
        t := Error(AvatarTypeMessage);
        return;
      }
      if f.size > UploadAvatar.MaxAvatarBytes {
        t := Error(OversizeMessage(f.size));
        return;
      }
      loading := true;
      var r;
      r, calls := UploadAvatar.StoreAvatar(user.value, f, now, upload, publicUrlOf, updateAvatar);
      if r.Ok? {
        t := Success(AvatarUpdatedMessage);
      } else {
        t := Error(ShownMessage(r.error, AvatarFallback));
      }
      loading := false;
    }

    /** `startEditing(field)`: that buffer is pre-filled from the profile. */
    method StartEditing(field: Field)
      modifies this
      ensures editingField == Some(field)
      ensures var current := if old(profile).Some? then
                               (if field == Username then old(profile).value.username
                                else old(profile).value.bio)
                             else None;
              && (field == Username ==> newUsername == OrEmpty(current) && newBio == old(newBio))
              && (field == Bio ==> newBio == OrEmpty(current) && newUsername == old(newUsername))
      ensures loading == old(loading) && profile == old(profile) && newEmail == old(newEmail)
      ensures isChangingEmail == old(isChangingEmail) && showEmailSteps == old(showEmailSteps)
    {
      editingField := Some(field);
      if field == Username {
        newUsername := OrEmpty(if profile.Some? then profile.value.username else None);
      } else {
        newBio := OrEmpty(if profile.Some? then profile.value.bio else None);
      }
    }

    /** `cancelEditing`. */
    method CancelEditing()
      modifies this
      ensures editingField.None? && newUsername == [] && newBio == []
      ensures loading == old(loading) && profile == old(profile) && newEmail == old(newEmail)
      ensures isChangingEmail == old(isChangingEmail) && showEmailSteps == old(showEmailSteps)
    {
      editingField := None;
      newUsername := [];
      newBio := [];
    }

    /** The "Change Email" button shows or hides the email form. */
    method ToggleChangingEmail()
      modifies this
      ensures isChangingEmail == !old(isChangingEmail)
      ensures loading == old(loading) && profile == old(profile) && newEmail == old(newEmail)
      ensures showEmailSteps == old(showEmailSteps) && editingField == old(editingField)
      ensures newUsername == old(newUsername) && newBio == old(newBio)
    {
      isChangingEmail := !isChangingEmail;
    }

    /** The "Got it" button closes the confirmation steps. */
    method DismissEmailSteps()
      modifies this
      ensures !showEmailSteps
      ensures loading == old(loading) && profile == old(profile) && newEmail == old(newEmail)
      ensures isChangingEmail == old(isChangingEmail) && editingField == old(editingField)
      ensures newUsername == old(newUsername) && newBio == old(newBio)
    {
      showEmailSteps := false;
    }
  }
}
