/** `uploadAvatar`: checks an image file, stores it under a per-user path and
    points the user's profile at its public URL. */
module UploadAvatar {
  import opened Text
  import opened Common

  /** The largest accepted file, 5 MiB. */
  const MaxAvatarBytes: nat := 5 * 1024 * 1024

  const TypeMessage: string := "File must be an image (JPG, PNG, or WebP)"
  const SizeMessage: string := "File size must be less than 5MB"

  /** The part of a browser `File` the upload reads. */
  datatype AvatarFile = AvatarFile(name: string, mime: string, size: nat)

  /** `/^image\/(jpeg|png|webp)$/`: the whole MIME type is one of three. */
  predicate AllowedType(mime: string)
  {
    mime == "image/jpeg" || mime == "image/png" || mime == "image/webp"
  }

  predicate WithinSize(size: nat)
  {
    size <= MaxAvatarBytes
  }

  /** `file.name.split('.').pop()`. */
  function FileExt(name: string): string
  {
    AfterLast(name, '.')
  }

  /** The extension is the text after the last '.', or the whole name when
      there is none; it never contains a '.'. */
  lemma FileExtSpec(name: string)
    ensures '.' !in FileExt(name)
    ensures '.' !in name ==> FileExt(name) == name
    ensures '.' in name ==> var ext := FileExt(name);
                            |ext| < |name| && name == name[..|name| - |ext| - 1] + "." + ext
  {
    var ext := FileExt(name);
    AfterLastSpec(name, '.');
    if '.' in name {
      var k := |name| - |ext| - 1;
      assert name == name[..k] + [name[k]] + name[k + 1..];
    }
  }

  /** `${userId}/${Date.now()}.${fileExt}`. */
  function AvatarPath(userId: string, now: nat, name: string): string
  {
    userId + "/" + Decimal(now) + "." + FileExt(name)
  }

  /** The path lies in the user's own folder: it starts with the user id and
      a '/', and splitting it on '/' gives the user id back. */
  lemma AvatarPathFolder(userId: string, now: nat, name: string)
    ensures var p := AvatarPath(userId, now, name);
            && |p| > |userId| && p[..|userId| + 1] == userId + "/"
            && ('/' !in userId ==> BeforeFirst(p, '/') == userId)
  {
    var rest := Decimal(now) + "." + FileExt(name);
    assert AvatarPath(userId, now, name) == userId + "/" + rest;
    if '/' !in userId {
      BeforeFirstJoin(userId, '/', rest);
    }
  }

  /** The path keeps the file's extension: splitting it on '.' gives the
      extension back. */
  lemma AvatarPathExtension(userId: string, now: nat, name: string)
    ensures AfterLast(AvatarPath(userId, now, name), '.') == FileExt(name)
  {
    var ext := FileExt(name);
    FileExtSpec(name);
    AfterLastJoin(userId + "/" + Decimal(now), '.', ext);
  }

  /** Two uploads by the same user at different times go to different paths. */
  lemma AvatarPathsDistinct(userId: string, now1: nat, now2: nat, name1: string, name2: string)
    requires now1 != now2
    ensures AvatarPath(userId, now1, name1) != AvatarPath(userId, now2, name2)
  {
    var d1, d2 := Decimal(now1), Decimal(now2);
    var t1, t2 := d1 + "." + FileExt(name1), d2 + "." + FileExt(name2);
    FileExtSpec(name1);
    FileExtSpec(name2);
    assert '.' !in d1 by { assert forall i :: 0 <= i < |d1| ==> IsDigit(d1[i]); }
    assert '.' !in d2 by { assert forall i :: 0 <= i < |d2| ==> IsDigit(d2[i]); }
    BeforeFirstJoin(d1, '.', FileExt(name1));
    BeforeFirstJoin(d2, '.', FileExt(name2));
    DecimalInjective(now1, now2);
    assert BeforeFirst(t1, '.') != BeforeFirst(t2, '.');
    var k := |userId| + 1;
    assert AvatarPath(userId, now1, name1) == userId + "/" + t1;
    assert AvatarPath(userId, now2, name2) == userId + "/" + t2;
    assert (userId + "/" + t1)[k..] == t1;
    assert (userId + "/" + t2)[k..] == t2;
  }

  /** A storage call `uploadAvatar` makes. */
  datatype Call = PutObject(path: string) | SetAvatarUrl(userId: string, url: string)

  /** `uploadAvatar(supabase, userId, file)`, with `Date.now()` as `now` and
      the three storage calls as oracles: the upload's error for a path, the
      public URL of a path, and the profile update's error. `calls` lists the
      calls made, in order. */
  method StoreAvatar(userId: string, file: AvatarFile, now: nat,
                upload: string -> Option<Fault>,
                publicUrlOf: string -> string,
                updateAvatar: (string, string) -> Option<Fault>)
    returns (r: Result<string, Fault>, calls: seq<Call>)
    ensures !AllowedType(file.mime) ==> r == Err(ErrorWith(TypeMessage)) && calls == []
    ensures AllowedType(file.mime) && !WithinSize(file.size)
            ==> r == Err(ErrorWith(SizeMessage)) && calls == []
    ensures AllowedType(file.mime) && WithinSize(file.size) ==>
            |calls| >= 1 && calls[0] == PutObject(AvatarPath(userId, now, file.name))
    ensures AllowedType(file.mime) && WithinSize(file.size) ==>
            var path := AvatarPath(userId, now, file.name);
            upload(path).Some? ==> r == Err(upload(path).value) && calls == [PutObject(path)]
    ensures AllowedType(file.mime) && WithinSize(file.size) ==>
            var path := AvatarPath(userId, now, file.name);
            var url := publicUrlOf(path);
            upload(path).None? ==> calls == [PutObject(path), SetAvatarUrl(userId, url)]
                                   && r == (if updateAvatar(userId, url).Some?
                                            then Err(updateAvatar(userId, url).value) else Ok(url))
    ensures r.Ok? ==> r.value == publicUrlOf(AvatarPath(userId, now, file.name))
  {
    calls := [];
    if !AllowedType(file.mime) {
      r := Err(ErrorWith(TypeMessage));
      return;
    }
    if file.size > MaxAvatarBytes {
      r := Err(ErrorWith(SizeMessage));
      return;
    }
    var fileExt := FileExt(file.name);
    var fileName := userId + "/" + Decimal(now) + "." + fileExt;

    calls := calls + [PutObject(fileName)];
    var uploadError := upload(fileName);
    if uploadError.Some? {
      r := Err(uploadError.value);
      return;
    }

    var publicUrl := publicUrlOf(fileName);

    calls := calls + [SetAvatarUrl(userId, publicUrl)];
    var updateError := updateAvatar(userId, publicUrl);
    if updateError.Some? {
      r := Err(updateError.value);
      return;
    }
    r := Ok(publicUrl);
  }
}
