# Spooky Stories: the rules behind the pages

Spooky Stories is a small story-sharing site for horror fiction. Most of the
code is markup and calls into a hosted database SDK. This project models the
parts of the code that decide something, with the SDK, the network, the clock
and JSON passed in as parameters:

- **The story editor** (`src/app/write/page.tsx`):
  - the slug pipeline: `generateSlug`, a chain of string replacements with a
    `story-<now>` fallback, and `ensureUniqueSlug`, a bounded probing loop
    over `base`, `base-1`, …, `base-99`;
  - the one-key draft store in local storage: save, autosave, load, clear
    and the check made when the page is opened;
  - the publish workflow `handleSubmit`: ordered validation, slug
    resolution, one insert with two translated error codes, and the draft
    removed only on success.
- **The profile dialog** (`src/components/profile/profile-modal.tsx`): the
  checks on a new email, username and avatar, the trimmed bio, the
  translation of error code 23505, and the small editing state machine.
- **The avatar upload** (`src/lib/upload-avatar.ts`): the type and size
  checks, the `userId/now.ext` storage path, and how errors pass through the
  upload and then the profile update.
- **The sign-in and sign-up dialog** (`src/components/auth/auth-modal.tsx`):
  the username taken from the email, the display-name fallback, the sign-up
  sequence, the error and loading state, and the view toggle.
- **The suggestion endpoint** (`src/app/api/deepseek/route.ts`): the API-key
  guard, the genre prompt table with its default, the request sent upstream,
  and how the upstream answer becomes the response.
- **The "My Stories" page** (`src/app/my-stories/page.tsx`): select, confirm,
  delete and filter.
- **Derived documents**: the sitemap (`src/app/sitemap.ts`) and the
  schema.org `Article` record (`src/components/structured-data/story-schema.tsx`).

The modules follow the source files:

| module | file |
|---|---|
| `Text` | ASCII versions of `toLowerCase`, `trim`, `split(c)[0]`, `split(c).pop()` and number printing; `length` and `slice(0, n)` counted in UTF-16 code units |
| `Common` | `Option`, `Result`, the error values a `catch` block sees (`Fault`), and toasts |
| `Types` | `StoryStatus` and `Visibility` from `src/types/database.ts` |
| `SiteConfig` | `src/config/site.ts` |
| `Slug` | `generateSlug` and `ensureUniqueSlug` |
| `WritePage` | the editor (class `Editor`) and the publish workflow |
| `ProfileModal` | the profile dialog (class `Dialog`) |
| `UploadAvatar` | `uploadAvatar` |
| `AuthModal` | the auth dialog (class `Dialog`) |
| `DeepseekRoute` | `POST /api/deepseek` |
| `MyStories` | the "My Stories" page (class `Page`) |
| `Sitemap` | `sitemap()` |
| `StorySchema` | `StorySchema` |

Pure code is written as functions. The handlers that update component state
are written as class methods. Their `ensures` state the whole new state and
the toast shown, and they tie the result to the pure functions and lemmas
beside them. Three kinds of outside input are oracle parameters:

- Every remote call is a function from its arguments to its reply, such as
  `lookup: string -> Lookup` for a slug probe or
  `insert: NewStory -> InsertReply`.
- `Date.now()` is a `now: nat` parameter.
- Local storage is a `map<string, Stored>` field on the editor.

## Model

| member | source | states |
|---|---|---|
| Text.TrimSpec | src/app/write/page.tsx:206-207 | `trim()` leaves a contiguous piece of the input. Only white space is cut on either side. The result neither starts nor ends with white space. It is empty exactly when the input is blank. |
| Text.BeforeFirstSpec | src/components/auth/auth-modal.tsx:27 | `s.split(c)[0]` is a prefix of `s` with no `c` in it. It is followed in `s` by a `c` unless it is all of `s`. |
| Text.AfterLastSpec | src/lib/upload-avatar.ts:21 | `s.split(c).pop()` is a suffix of `s` with no `c` in it. It is preceded in `s` by a `c` unless it is all of `s`. |
| Text.DecimalRoundTrip | src/app/write/page.tsx:38 | The decimal numeral of a timestamp reads back as that timestamp. |
| Text.DecimalInjective | src/lib/upload-avatar.ts:22 | Different timestamps print differently. |
| Text.Utf16LengthBounds | src/app/write/page.tsx:214 | `length` counts one or two code units per character, and equals the number of characters exactly when no character lies outside the Basic Multilingual Plane. |
| Text.Utf16LengthAppend | src/app/write/page.tsx:214 | The code units of a concatenation are the sum of the parts' code units. |
| Text.Utf16LengthRepeat | src/app/write/page.tsx:214 | `k` copies of a character take `k` times its code units. |
| Text.Utf16PrefixSpec | src/components/structured-data/story-schema.tsx:21 | The characters `slice(0, n)` keeps form the longest prefix that fits in `n` code units: the next character would not fit. A text that fits is kept whole. Without characters outside the BMP, that is the first `n` characters. |
| Text.ExcerptSpec | src/components/structured-data/story-schema.tsx:21 | `slice(0, n) + '...'` is that longest fitting prefix followed by "...". A text that fits is kept whole. |
| SiteConfig.Url | src/config/site.ts:4 | The configured deployment URL when it is set and non-empty, otherwise `http://localhost:3000`. Never empty. |
| Slug.RemoveSpecialSpec | src/app/write/page.tsx:31 | Every character left by `/[^\w\s-]/g` is a word character, white space or `-`, and comes from the input. |
| Slug.RemoveSpecialAt | src/app/write/page.tsx:31 | `/[^\w\s-]/g` filters character by character: a character in any position survives exactly when it is a word character, white space or `-`, and the text on either side is filtered on its own. |
| Slug.RemoveSpecialCount | src/app/write/page.tsx:31 | Each kept character occurs in the result as often as in the input, and each removed one does not occur. |
| Slug.ReplaceRunsSpec | src/app/write/page.tsx:32-33 | Replacing runs leaves only `sub` and characters of the input outside the class. A non-empty input gives a non-empty result. Its first character is `sub` if the input starts inside the class, and otherwise the input's first character. |
| Slug.ScanInRun | src/app/write/page.tsx:32-33 | Inside an open match, the left-to-right scan writes nothing until the run ends. |
| Slug.ReplaceRunsScan | src/app/write/page.tsx:32-33 | Replacing each maximal run by `sub` gives exactly what a left-to-right scan gives, which writes `sub` when a run opens and copies every other character. |
| Slug.ReplaceRunsNoAdjacent | src/app/write/page.tsx:32-33 | After `/p+/g` is replaced by a character in `p`, no two characters in a row are in `p`. |
| Slug.NoUpperAfterTrim | src/app/write/page.tsx:29-30 | After `toLowerCase().trim()` no upper-case letter is left. |
| Slug.DashedChars | src/app/write/page.tsx:29-32 | After lower-casing, trimming, removing special characters and dashing spaces, only `[a-z0-9_-]` is left. |
| Slug.CollapsedShape | src/app/write/page.tsx:33 | After `/-+/g` is collapsed, the text is over `[a-z0-9_-]` with no `--`. |
| Slug.StripShape | src/app/write/page.tsx:34 | Stripping leading and trailing hyphens from such a text leaves, when anything is left, a slug that neither starts nor ends with `-`. |
| Slug.CleanWellFormed | src/app/write/page.tsx:27-34 | A non-empty cleaned title is a well-formed slug: over `[a-z0-9_-]`, not starting or ending with `-`, no `--`. |
| Slug.FallbackWellFormed | src/app/write/page.tsx:38 | `story-<now>` is a well-formed slug. |
| Slug.GenerateSlugWellFormed | src/app/write/page.tsx:27-42 | `generateSlug` always returns a well-formed slug. |
| Slug.GenerateSlugNonEmpty | src/app/write/page.tsx:37-41 | `generateSlug` never returns the empty string. |
| Slug.GenerateSlugFallback | src/app/write/page.tsx:37-39 | When the cleaning leaves nothing, the result is "story-" followed by digits that read back as the timestamp. |
| Slug.CleanIdentity | src/app/write/page.tsx:27-34 | Cleaning leaves a well-formed slug unchanged. |
| Slug.GenerateSlugIdempotent | src/app/write/page.tsx:27-42 | Slugging a generated slug gives it back, at any later time. |
| Slug.GenerateSlugExample | src/app/write/page.tsx:27-42 | "A Ghost's Tale!" becomes "a-ghosts-tale". |
| Slug.SearchSkipsTaken | src/app/write/page.tsx:63-68 | Candidates reported taken are passed over in order. |
| Slug.UniqueSlugFirstFree | src/app/write/page.tsx:55-73 | If every candidate before `k` is taken, a free `k`-th candidate is the answer. A lookup that throws there gives the unsuffixed start slug plus `-<now>`. |
| Slug.UniqueSlugExhausted | src/app/write/page.tsx:77-79 | With all 100 candidates taken, the answer is the start slug plus `-<now>`, not checked. |
| Slug.SearchFromShape | src/app/write/page.tsx:55-81 | The answer is one of the 100 candidates or the stamped start slug. |
| Slug.UniqueSlugNonEmpty | src/app/write/page.tsx:51-53 | The answer is never empty: an empty base is first replaced by `story-<now>`. |
| Slug.UniqueSlugWellFormed | src/app/write/page.tsx:45-82 | A well-formed or empty base always yields a well-formed slug. |
| Slug.UniqueSlugExample | src/app/write/page.tsx:55-68 | With "x" and "x-1" taken, the answer for "x" is "x-2". |
| Slug.UniqueSlugNoRowIsFree | src/app/write/page.tsx:63-66 | An answer with no row counts as free whatever its error code: a failed query (code "500") on the base makes the base the answer. |
| Slug.UniqueSlugAllThrow | src/app/write/page.tsx:69-73 | When every lookup throws, the answer is `base-<now>`. |
| Slug.EnsureUniqueSlug | src/app/write/page.tsx:45-82 | The loop returns the `UniqueSlug` answer. It probes between 1 and 100 candidates, `base`, `base-1`, … in order, and every probe but the last was reported taken. |
| WritePage.DraftOf | src/app/write/page.tsx:187-193 | A draft holds the four form fields, which `FormOf` gives back, and the save time. |
| WritePage.ValidationOrder | src/app/write/page.tsx:201-217 | The checks run in order: no user, then a blank title or content or an empty category, then trimmed content under 100 UTF-16 code units. A form passes exactly when none of these holds. |
| WritePage.ContentCountsCodeUnits | src/app/write/page.tsx:214 | Fifty ghost emoji and twenty letters, 70 characters but 120 code units, pass the length check. |
| WritePage.RejectedBeforeStorage | src/app/write/page.tsx:201-217 | A form the checks refuse is refused whatever the lookups, the insert and the clock would do. |
| WritePage.InsertedRecord | src/app/write/page.tsx:223-247 | The inserted row holds the trimmed title and content (at least 100 code units), the category, the author, status published, the visibility, and the resolved slug, which is well-formed. |
| WritePage.InsertOutcome | src/app/write/page.tsx:249-272 | Code 23503 gives the invalid-category message and 23505 the duplicate message. Any other error shows its own message if it is an `Error`, otherwise the generic one. A missing row has its own message. The story is published exactly when there is no error and a row came back. |
| WritePage.SubmitToast | src/app/write/page.tsx:267-282 | The toast is a success exactly when the story was published. |
| WritePage.Editor.constructor | src/app/write/page.tsx:87-93 | The form starts as '' / '' / '' / public, with no draft banner and not loading. |
| WritePage.Editor.CheckDraftOnMount | src/app/write/page.tsx:120-132 | A readable draft raises the banner and is not loaded. An unreadable one is removed. The form is untouched. |
| WritePage.Editor.SaveDraft | src/app/write/page.tsx:181-197 | An all-empty form is refused and the store is unchanged. Otherwise the key holds the four fields and the time, and the banner shows. |
| WritePage.Editor.AutosaveTick | src/app/write/page.tsx:135-152 | The same write as a manual save, without a toast, skipped for an all-empty form. |
| WritePage.Editor.LoadDraft | src/app/write/page.tsx:154-169 | A readable draft replaces exactly the four fields. An unreadable one is reported and nothing changes. With no draft, nothing happens. |
| WritePage.Editor.ClearDraft | src/app/write/page.tsx:171-179 | The key is removed, the banner hidden, and the form reset to '' / '' / '' / public. |
| WritePage.Editor.HandleSubmit | src/app/write/page.tsx:199-286 | The toast, the row sent, the redirect, the draft store and the loading flag are those of `Submit` on the form as it was. The form is not changed. The draft is removed only on success. |
| WritePage.Editor.Publish | src/app/write/page.tsx:233-285 | After the insert, the draft is removed and the page goes home on success. Any error shows its message and keeps the draft. Either way loading ends. |
| WritePage.SaveEditLoad | src/app/write/page.tsx:154-197 | Saving a non-empty form, editing it and loading the draft gives back the saved fields, with the loaded-draft toast. |
| WritePage.ClearThenLoad | src/app/write/page.tsx:154-179 | After the draft is cleared, loading finds nothing: the form stays empty and the load shows no toast. |
| ProfileModal.EmailIssueSpec | src/components/profile/profile-modal.tsx:54-57 | A new email passes exactly when it contains an '@'. Otherwise the one refusal message is shown. |
| ProfileModal.UsernameIssueSpec | src/components/profile/profile-modal.tsx:78-86 | A username passes exactly when there is a user and the name has at least 3 characters, all from `[a-zA-Z0-9_-]`. A name under 3 UTF-16 code units gets the length message whatever its characters; a longer one with a character outside the set gets the character message. |
| ProfileModal.UsernameCountsCodeUnits | src/components/profile/profile-modal.tsx:78-86 | "a" and an emoji outside the BMP, 3 code units, pass the length check and get the character message. |
| ProfileModal.AvatarIssueSpec | src/components/profile/profile-modal.tsx:141-151 | An avatar passes the dialog's checks exactly when it passes the upload's own. The type check comes first, and exactly 5 MiB is accepted. |
| ProfileModal.MebibyteTenthsNearest | src/components/profile/profile-modal.tsx:149 | The size shown is the nearest tenth of a MiB, the larger one on a tie, as `toFixed(1)` rounds. |
| ProfileModal.OversizeExample | src/components/profile/profile-modal.tsx:149 | One byte over the limit is shown as "5.0". |
| ProfileModal.UsernameFailure | src/components/profile/profile-modal.tsx:95-107 | Code 23505 shows "This username is already taken". Any other error shows its own message if it is an `Error`, otherwise the generic one. |
| ProfileModal.Dialog.constructor | src/components/profile/profile-modal.tsx:22-29 | The dialog starts with no profile, no editing, empty buffers and the email panels closed. |
| ProfileModal.Dialog.FetchProfile | src/components/profile/profile-modal.tsx:32-51 | With no user, nothing happens. Otherwise the row read replaces the profile, or a failure toast is shown. Loading ends false. |
| ProfileModal.Dialog.HandleEmailChange | src/components/profile/profile-modal.tsx:53-75 | A refused email sends nothing. Otherwise one request is sent, and on success the steps panel opens, the form closes and the buffer clears. Loading ends false. |
| ProfileModal.Dialog.HandleUsernameChange | src/components/profile/profile-modal.tsx:77-111 | A refused name sends nothing. Otherwise one update with the name is sent. Success ends editing. Failure shows `UsernameFailure`. Loading ends false. |
| ProfileModal.Dialog.HandleBioChange | src/components/profile/profile-modal.tsx:113-134 | With a user, the bio written is the trimmed buffer. Success ends editing, failure shows the fixed message. Loading ends false. |
| ProfileModal.Dialog.HandleAvatarChange | src/components/profile/profile-modal.tsx:136-166 | No file or no user does nothing. A refused file gets its message and no storage call. Otherwise the upload goes to the user's path. A failed upload makes no other call and shows its error. After an upload, the profile update is the second call: its failure shows its error, and otherwise the success message is shown. Errors show their own message if they are an `Error`, otherwise the generic one. Loading ends false. |
| ProfileModal.Dialog.StartEditing | src/components/profile/profile-modal.tsx:169-176 | Editing starts on the field, whose buffer is filled from the profile or with ''. The other buffer is left as it is. |
| ProfileModal.Dialog.CancelEditing | src/components/profile/profile-modal.tsx:179-183 | Editing ends and both buffers are cleared. |
| ProfileModal.Dialog.ToggleChangingEmail | src/components/profile/profile-modal.tsx:323 | The email form is shown or hidden, and nothing else changes. |
| ProfileModal.Dialog.DismissEmailSteps | src/components/profile/profile-modal.tsx:367 | The confirmation steps close, and nothing else changes. |
| UploadAvatar.FileExtSpec | src/lib/upload-avatar.ts:21 | The extension is the text after the last '.', or the whole name if there is none. It never contains a '.'. |
| UploadAvatar.AvatarPathFolder | src/lib/upload-avatar.ts:22 | The path starts with `userId + "/"`, and for a user id without '/' the text before the first '/' is the user id. |
| UploadAvatar.AvatarPathExtension | src/lib/upload-avatar.ts:21-22 | The text after the path's last '.' is the file's extension. |
| UploadAvatar.AvatarPathsDistinct | src/lib/upload-avatar.ts:22 | Two uploads by one user at different times go to different paths. |
| UploadAvatar.StoreAvatar | src/lib/upload-avatar.ts:4-52 | The type check comes before the size check, and a failed check makes no call. The file goes to the user's path. An upload error is passed on with no profile update. A profile-update error is passed on. Success returns the public URL of that same path. |
| AuthModal.Toggled | src/components/auth/auth-modal.tsx:189 | The toggle always switches to the other view. |
| AuthModal.ToggledTwice | src/components/auth/auth-modal.tsx:189 | Switching twice restores the view. |
| AuthModal.GetUsernameSpec | src/components/auth/auth-modal.tsx:26-28 | The username is a prefix of the email with no '@' in it. It is all of the email if there is no '@', otherwise it is followed by the first '@'. |
| AuthModal.GetUsernameOfAddress | src/components/auth/auth-modal.tsx:26-28 | For `local@domain` the username is `local`. |
| AuthModal.FinalDisplayNameSpec | src/components/auth/auth-modal.tsx:46 | A non-blank display name is used trimmed. A blank one gives way to the username. |
| AuthModal.Dialog.constructor | src/components/auth/auth-modal.tsx:16-22 | The dialog opens on the default view, with empty fields, no error and not loading. |
| AuthModal.Dialog.HandleAuth | src/components/auth/auth-modal.tsx:30-87 | Login makes one sign-in call. Sign-up sends the final display name, then updates the profile with the username and that name when a user id comes back. A failed profile update still succeeds. The dialog closes exactly when there is no error, the error is the failure message otherwise, and loading ends false. |
| AuthModal.Dialog.ToggleView | src/components/auth/auth-modal.tsx:188-191 | The view switches and the error clears. The form fields are untouched. |
| AuthModal.ToggleTwice | src/components/auth/auth-modal.tsx:188-191 | Toggling twice restores the view and leaves the error cleared. |
| DeepseekRoute.GenreOfKey | src/app/api/deepseek/route.ts:5-13 | The prompt table finds a genre exactly under that genre's key. |
| DeepseekRoute.SystemPromptSpec | src/app/api/deepseek/route.ts:26-28 | A genre's key selects its preset. An absent or unknown category selects the default. |
| DeepseekRoute.NoKeyAnswersAtOnce | src/app/api/deepseek/route.ts:16-21 | With no key, the answer is 500 with the fixed message, before the body is read or anything is sent. |
| DeepseekRoute.RequestSent | src/app/api/deepseek/route.ts:30-50 | The request carries the bearer key and the model. The system message is the selected prompt plus the 200-character instruction, and the user message asks to continue the prompt. `max_tokens` is 60, and the temperature is 0.8 exactly for 'cosmic', otherwise 0.7. |
| DeepseekRoute.ResponseShape | src/app/api/deepseek/route.ts:53-68 | A good reply gives 200 and its trimmed content. A failed reply gives 500 with the upstream message or 'API request failed'. A thrown error gives 500 with its message if it is an `Error`. |
| DeepseekRoute.StatusMatchesPayload | src/app/api/deepseek/route.ts:15-70 | Every answer is either 200 with a suggestion or 500 with an error. |
| DeepseekRoute.PostSucceedsExactly | src/app/api/deepseek/route.ts:15-70 | The answer is 200 exactly when a key is set, the body parsed and the upstream replied `ok`. A request is sent upstream exactly when the key and body are there, and it is the one built from them. |
| MyStories.RemoveIdMembers | src/app/my-stories/page.tsx:58 | A story stays exactly when it was listed and does not carry the id. |
| MyStories.RemoveIdLength | src/app/my-stories/page.tsx:58 | Exactly the entries carrying the id are dropped. |
| MyStories.RemoveIdAppend | src/app/my-stories/page.tsx:58 | Filtering is done part by part, so the stories kept keep their order. |
| MyStories.RemoveIdAbsent | src/app/my-stories/page.tsx:58 | A list without the id is left as it is. |
| MyStories.RemoveIdIdempotent | src/app/my-stories/page.tsx:58 | Filtering twice by one id is filtering once. |
| MyStories.Preview | src/app/my-stories/page.tsx:82 | The preview is the longest prefix of the content that fits in 100 UTF-16 code units, then "...". Content that fits is shown whole, and content without characters outside the BMP gives its first 100 characters. |
| MyStories.Page.constructor | src/app/my-stories/page.tsx:12-16 | The page starts with its list, nothing selected, nothing being deleted and the dialog closed. |
| MyStories.Page.RequestDelete | src/app/my-stories/page.tsx:90-95 | Delete selects the story and opens the dialog. The button does nothing while that story is being deleted. |
| MyStories.Page.CloseConfirm | src/app/my-stories/page.tsx:111 | Closing the dialog changes nothing else. |
| MyStories.Page.HandleDelete | src/app/my-stories/page.tsx:45-67 | With nothing selected, nothing changes. Otherwise one delete is sent. Success filters out the id, failure keeps the list, and the selection, the deleting mark and the dialog are reset either way. |
| MyStories.DeleteFlow | src/app/my-stories/page.tsx:45-95 | Delete, confirm and a successful delete leave exactly the other stories. |
| Sitemap.StoryUrlInverse | src/app/sitemap.ts:38 | A story's address is the site URL, "/story/" and the slug, which can be read back. |
| Sitemap.StoryUrlInjective | src/app/sitemap.ts:38 | Different slugs get different addresses. |
| Sitemap.StoryRoutes | src/app/sitemap.ts:37-42 | One entry per story, in fetch order. Each is at `<site>/story/<slug>`, last modified at the story's `updated_at`, weekly, with priority 0.6. |
| Sitemap.Build | src/app/sitemap.ts:10-48 | The home page (daily, 1.0) and `/write` (monthly, 0.8) come first. Then one entry per returned story, with its address and `updated_at`. The length is 2 + the number of stories, or 2 when the query returns no data. |
| Sitemap.UrlsUnderSite | src/app/sitemap.ts:36-45 | Every story entry's address starts with the site URL. |
| StorySchema.SchemaSpec | src/components/structured-data/story-schema.tsx:17-37 | The headline is the title. The description is the longest prefix of the story that fits in 200 UTF-16 code units, plus "...", added even for a short story that is kept whole. The author and date pass through. The publisher is the site's name and URL, and the page id is the URL. |

The functions that compute each operation carry little or no contract of their own. The entries below give each one its source lines and the members that state its contract:

- `Text.Trim` (src/app/write/page.tsx:206-207): see `Text.TrimSpec`.
- `Text.BeforeFirst` (src/components/auth/auth-modal.tsx:27): see `Text.BeforeFirstSpec`.
- `Text.AfterLast` (src/lib/upload-avatar.ts:21): see `Text.AfterLastSpec`.
- `Text.Decimal` (src/app/write/page.tsx:38): see `Text.DecimalRoundTrip` and `Text.DecimalInjective`.
- `Text.Utf16Length` (src/app/write/page.tsx:214): see `Text.Utf16LengthBounds`, `Text.Utf16LengthAppend` and `Text.Utf16LengthRepeat`.
- `Text.Utf16Prefix` (src/components/structured-data/story-schema.tsx:21): see `Text.Utf16PrefixSpec`.
- `Text.Excerpt` (src/components/structured-data/story-schema.tsx:21): see `Text.ExcerptSpec`.
- `Common.ShownMessage` (src/app/write/page.tsx:270-272): its own ensures gives the `Error` message or the fallback.
- `Slug.RemoveSpecial` (src/app/write/page.tsx:31): see `Slug.RemoveSpecialSpec`, `Slug.RemoveSpecialAt` and `Slug.RemoveSpecialCount`.
- `Slug.ReplaceRuns` (src/app/write/page.tsx:32-33): see `Slug.ReplaceRunsSpec`, `Slug.ReplaceRunsScan` and `Slug.ReplaceRunsNoAdjacent`.
- `Slug.Dashed`, `Slug.Collapsed`, `Slug.StripHyphens`, `Slug.Clean` (src/app/write/page.tsx:29-34): see `Slug.NoUpperAfterTrim`, `Slug.DashedChars`, `Slug.CollapsedShape`, `Slug.StripShape`, `Slug.CleanWellFormed` and `Slug.CleanIdentity`.
- `Slug.Fallback` (src/app/write/page.tsx:37-39): see `Slug.FallbackWellFormed` and `Slug.GenerateSlugFallback`.
- `Slug.GenerateSlug` (src/app/write/page.tsx:27-42): see `Slug.GenerateSlugWellFormed`, `Slug.GenerateSlugNonEmpty`, `Slug.GenerateSlugFallback`, `Slug.GenerateSlugIdempotent` and `Slug.GenerateSlugExample`.
- `Slug.SearchFrom` (src/app/write/page.tsx:55-81): see `Slug.SearchSkipsTaken` and `Slug.SearchFromShape`.
- `Slug.UniqueSlug` (src/app/write/page.tsx:45-82): see `Slug.UniqueSlugFirstFree`, `Slug.UniqueSlugExhausted`, `Slug.UniqueSlugNonEmpty`, `Slug.UniqueSlugWellFormed`, `Slug.UniqueSlugExample`, `Slug.UniqueSlugNoRowIsFree` and `Slug.UniqueSlugAllThrow`. `Slug.EnsureUniqueSlug` is the loop proved equal to it.
- `WritePage.Validate` (src/app/write/page.tsx:201-217): see `WritePage.ValidationOrder`, `WritePage.ContentCountsCodeUnits` and `WritePage.RejectedBeforeStorage`.
- `WritePage.RecordFor`, `WritePage.InsertFault`, `WritePage.Submit` (src/app/write/page.tsx:223-272): see `WritePage.InsertedRecord`, `WritePage.InsertOutcome` and `WritePage.SubmitToast`. `WritePage.Editor.HandleSubmit` is tied to `Submit`.
- `ProfileModal.EmailIssue` (src/components/profile/profile-modal.tsx:54-57): see `ProfileModal.EmailIssueSpec`.
- `ProfileModal.UsernameIssue` (src/components/profile/profile-modal.tsx:78-86): see `ProfileModal.UsernameIssueSpec` and `ProfileModal.UsernameCountsCodeUnits`.
- `ProfileModal.AvatarIssue` (src/components/profile/profile-modal.tsx:141-151): see `ProfileModal.AvatarIssueSpec`.
- `ProfileModal.MebibyteTenths`, `ProfileModal.OversizeMessage` (src/components/profile/profile-modal.tsx:149): see `ProfileModal.MebibyteTenthsNearest` and `ProfileModal.OversizeExample`.
- `UploadAvatar.FileExt` (src/lib/upload-avatar.ts:21): see `UploadAvatar.FileExtSpec`.
- `UploadAvatar.AvatarPath` (src/lib/upload-avatar.ts:21-22): see `UploadAvatar.AvatarPathFolder`, `UploadAvatar.AvatarPathExtension` and `UploadAvatar.AvatarPathsDistinct`.
- `AuthModal.GetUsername` (src/components/auth/auth-modal.tsx:26-28): see `AuthModal.GetUsernameSpec` and `AuthModal.GetUsernameOfAddress`.
- `AuthModal.FinalDisplayName` (src/components/auth/auth-modal.tsx:46): see `AuthModal.FinalDisplayNameSpec`.
- `DeepseekRoute.GenreOf` (src/app/api/deepseek/route.ts:5-13): see `DeepseekRoute.GenreOfKey`.
- `DeepseekRoute.SystemPrompt` (src/app/api/deepseek/route.ts:26-28): see `DeepseekRoute.SystemPromptSpec`.
- `DeepseekRoute.ChatRequestFor`, `DeepseekRoute.Post` (src/app/api/deepseek/route.ts:15-70): see `DeepseekRoute.NoKeyAnswersAtOnce`, `DeepseekRoute.RequestSent`, `DeepseekRoute.ResponseShape`, `DeepseekRoute.StatusMatchesPayload` and `DeepseekRoute.PostSucceedsExactly`.
- `MyStories.RemoveId` (src/app/my-stories/page.tsx:58): see `MyStories.RemoveIdMembers`, `MyStories.RemoveIdLength`, `MyStories.RemoveIdAppend`, `MyStories.RemoveIdAbsent` and `MyStories.RemoveIdIdempotent`.
- `Sitemap.StoryUrl`, `Sitemap.StoryRoute` (src/app/sitemap.ts:37-42): see `Sitemap.StoryUrlInverse`, `Sitemap.StoryUrlInjective`, `Sitemap.StoryRoutes` and `Sitemap.UrlsUnderSite`.
- `StorySchema.Schema` (src/components/structured-data/story-schema.tsx:17-37): see `StorySchema.SchemaSpec`.

## Left out

- The markup, animation and styling of every page, and the pages that hold nothing else.
- The SDK, storage, `fetch` and `getPublicUrl`: each call is an oracle parameter that gives its reply.
- The network, the router (navigation is the returned `redirect` value or the `closed` flag) and `router.refresh()`.
- Console logging.
- `Date.now()` and `new Date()`: each handler takes one `now`, so all clock readings in one call are the same instant. The sitemap's dates are the `BuiltAt` / `UpdatedAt` markers, not `Date` values.
- `JSON.stringify` and `JSON.parse` of drafts: local storage holds `Stored` values (`Saved`, `Corrupt`, `Blank`), with the parse failure as the `Corrupt` case.
- The 30-second autosave timer: `AutosaveTick` is one firing of it.
- `Text.Excerpt`, `MyStories.Preview`, `StorySchema.SchemaSpec`: when `slice(0, n)` cuts inside a surrogate pair, JavaScript keeps a lone high surrogate, which a Dafny `char` cannot hold, so the model stops before that character. The result is one code unit shorter there.
- Unicode: `toLowerCase`, `trim` and `\s` work on ASCII only, white space is space, tab, newline, carriage return, vertical tab and form feed, and `\w` is `[A-Za-z0-9_]`.
- Floating point: the temperature and the sitemap priorities are integer tenths, and the MB size of an avatar is computed exactly in tenths.
- `Fault.isErrorInstance`: whether an SDK error object is a JavaScript `Error` depends on the SDK release, so it is a field the caller supplies.
- `DeepseekRoute.GenreOf`: keys that an object literal inherits from its prototype (such as "constructor") are treated as unknown categories, and a non-string category or prompt is not modelled.
- `DeepseekRoute.Post`: an upstream reply whose body fails to parse, or has no `choices`, is not modelled. The reply is either well-formed or a thrown error.
- The seven genre prompts are not proved pairwise distinct.
- `fetchCategories` (`src/app/write/page.tsx:97-117`) and `fetchStories` on the "My Stories" page: they only copy a query result into state.
- The input fields' change handlers: the models set the fields directly.
- The profile refresh that a successful update starts without awaiting it: it is the separate `FetchProfile` call.
- Concurrency: two tabs or two authors racing for one slug, and the dialogs' re-entrancy while a request is in flight.
- The two empty-slug checks in `handleSubmit` (`src/app/write/page.tsx:224-226`, `229-231`): they can never fire, so `HandleSubmit` asserts that here instead of modelling their throws.
- `src/config/site.ts`: only `name` and `url` are modelled.
