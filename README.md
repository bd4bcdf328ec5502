# ImageHoster: the image, tag and ownership workflow

A Dafny model of the request handlers of `ImageController` in the ImageHoster
image-sharing service. The model covers these parts:

- how a free-text, comma-separated tag string becomes a list of shared tag
  records (`findOrCreateTags`);
- how a tag list is written back as a string for the edit form
  (`convertTagsToString`);
- the owner check (`isUserLoggedInUser`);
- what `createImage`, `editImage`, `editImageSubmit` and
  `deleteImageSubmit` do to the tag store and the image store.

Modules:

- `Text` (text.dfy) holds the JDK string routines the controller uses, as
  functions. They are `java.util.StringTokenizer` with the delimiter `,`
  (`Tokens`), `String.trim` (`Trim`), `String.contains` (`Contains`), and
  the comma join (`Join`). `Tokens` is also characterised against `Split`,
  which splits at every comma.
- `Base64` (base64.dfy) is the encoder behind
  `convertUploadedFileToBase64`, from section 4 of RFC 4648.
- `Tags` (tags.dfy) holds the tag store (`TagService`) as a value: tags by
  name plus the next fresh id. `FindOrCreateAll` is the findOrCreateTags
  loop as a left-to-right fold. The lemmas about the tag workflow live here.
- `Controller` (controller.dfy) holds the class `ImageController`. Its
  fields are the two stores: tags by name with the next tag id, and images by
  id with the next image id. Its methods are the handlers:
  - `FindOrCreateTags` is a `while` loop proved equal to the fold.
  - `ConvertTagsToString` is a `for` loop proved equal to `Join`.
  - The acting user is passed in explicitly as `loggedUser`; the Java code
    reads it from the HTTP session.
  - The time is passed in as `now`; the Java code calls `new Date()`.

The class invariant `Valid()` has three parts:

- The tag store is consistent: each tag is stored under its own name with
  an id already handed out, and ids are unique.
- Every image is stored under its own id.
- Every tag an image carries is the stored tag of that name, so tags are
  shared and not copied.

Every handler keeps `Valid()`.

Behaviour the model keeps from the code:

- A whitespace-only token trims to `""` and becomes a tag named `""`. It is
  not skipped.
- A name repeated in one input resolves to the same tag both times.
- The content-type gate is substring containment. `""`, `"png"` and
  `"image/png image/bmp"` pass it, as do the seven listed types.
- An upload with no bytes passes with an allowed type and stores the empty
  payload, since the encoding of no bytes is empty.
- `editImageSubmit` checks neither ownership nor the content type. The
  submitter becomes the image's user. `EditSubmitScenario` shows a non-owner
  being refused the edit form, then submitting the edit, becoming the owner,
  and deleting the image.
- `editImageSubmit` resolves the tags after the image lookup but before the
  looked-up image is used. If the image is missing, the tag store has still
  grown.

## Model

| member | source | states |
|---|---|---|
| `Text.Tokens` | src/main/java/ImageHoster/controller/ImageController.java:214-218 | every token the tokenizer yields is non-empty and free of commas |
| `Text.TokensAreNonEmptyPieces` | src/main/java/ImageHoster/controller/ImageController.java:214-218 | the tokens are exactly the non-empty pieces between commas, in order |
| `Text.JoinSplit` | src/main/java/ImageHoster/controller/ImageController.java:214-218 | joining the comma pieces with `,` restores the input, so the pieces are a faithful decomposition |
| `Text.TokensAppend` | src/main/java/ImageHoster/controller/ImageController.java:214-218 | a comma between two strings tokenizes as the tokens of the left side followed by those of the right |
| `Text.CommaRunsYieldNothing` | src/main/java/ImageHoster/controller/ImageController.java:214-218 | leading, trailing and doubled commas produce no token |
| `Text.Trim` | src/main/java/ImageHoster/controller/ImageController.java:218 | String.trim: the result is the contiguous part of the input that remains after removing only chars <= U+0020 from its start and end; it has no such char at either end; it is empty iff the input is all such chars; an already trimmed input is returned unchanged |
| `Text.BlankTokenTrimsToEmpty` | src/main/java/ImageHoster/controller/ImageController.java:217-219 | a whitespace-only tag string yields the single name "" and is not skipped |
| `Text.Contains` | src/main/java/ImageHoster/controller/ImageController.java:93 | the empty string is always contained, and nothing longer than the string is |
| `Text.ContainsIff` | src/main/java/ImageHoster/controller/ImageController.java:93 | String.contains is true exactly when the argument occurs at some offset of the string |
| `Text.TokensJoin` | src/main/java/ImageHoster/controller/ImageController.java:213-250 | tokenizing the comma join of non-empty, comma-free names gives those names back |
| `Text.Join` | src/main/java/ImageHoster/controller/ImageController.java:242-247 | a non-empty join begins with the first name |
| `Text.SplitPiecesCommaFree` | src/main/java/ImageHoster/controller/ImageController.java:214-218 | the pieces between commas hold no comma |
| `Text.JoinSnoc` | src/main/java/ImageHoster/controller/ImageController.java:242-247 | the join is the earlier names' join, one `,`, then the last name: there is no trailing comma |
| `Text.JoinCommaCount` | src/main/java/ImageHoster/controller/ImageController.java:242-247 | joining n >= 1 comma-free names puts exactly n - 1 commas in the result |
| `Base64.Encode` | src/main/java/ImageHoster/controller/ImageController.java:206-208 | the encoding has 4 * ceil(n / 3) characters, all from the Base64 alphabet or '='; it is empty iff there are no bytes |
| `Tags.GetTagByName` | src/main/java/ImageHoster/controller/ImageController.java:219 | the lookup finds a tag exactly when the name is stored; what it finds is the tag stored under that name, and in a consistent store that tag carries the name |
| `Tags.CreateTag` | src/main/java/ImageHoster/controller/ImageController.java:221-223 | the new tag carries the name and the next id; the counter advances by one; exactly that name is added and no other entry changes |
| `Tags.FindOrCreate` | src/main/java/ImageHoster/controller/ImageController.java:219-225 | one iteration: the tag it yields is stored under the name; a stored name returns its tag and leaves the store alone; a missed one is created under the next id |
| `Tags.FindOrCreateStep` | src/main/java/ImageHoster/controller/ImageController.java:219-225 | one iteration keeps the store consistent and loses no tag |
| `Tags.FindOrCreateAll` | src/main/java/ImageHoster/controller/ImageController.java:217-226 | one tag per name; the id counter grows by at most the number of names (the per-iteration creation is stated by `Tags.FindOrCreate`) |
| `Tags.FindOrCreateTags` | src/main/java/ImageHoster/controller/ImageController.java:213-228 | the stored names become the old ones plus the trimmed tokens; against a consistent store the result is consistent, keeps every earlier tag, and returns stored tags named by the trimmed tokens in order |
| `Tags.FindOrCreateAllSnoc` | src/main/java/ImageHoster/controller/ImageController.java:217-226 | each iteration continues from the store the previous iterations left |
| `Tags.FindOrCreateAllGrows` | src/main/java/ImageHoster/controller/ImageController.java:219-225 | the store only grows; existing tags keep id and name; the only names added are the input's; added tags get fresh ids |
| `Tags.FindOrCreateAllValid` | src/main/java/ImageHoster/controller/ImageController.java:219-225 | the tag-store invariant (names as keys, unique ids below the counter) survives the loop |
| `Tags.FindOrCreateAllNames` | src/main/java/ImageHoster/controller/ImageController.java:217-226 | one tag per name, in input order, each carrying that name |
| `Tags.FindOrCreateAllStored` | src/main/java/ImageHoster/controller/ImageController.java:219-226 | afterwards every returned tag is the one stored under its name; a name the store knew yields the tag stored before |
| `Tags.RepeatedNameSameTag` | src/main/java/ImageHoster/controller/ImageController.java:217-226 | two occurrences of one name resolve to the same tag identity |
| `Tags.FindOrCreateAllCreatesOncePerName` | src/main/java/ImageHoster/controller/ImageController.java:219-224 | the id counter advances by exactly the number of names added, so each new name is created once |
| `Tags.FindOrCreateAllKnown` | src/main/java/ImageHoster/controller/ImageController.java:219-225 | when every name is stored, the stored tags come back and the store is unchanged |
| `Tags.ResolveTwiceCreatesNothing` | src/main/java/ImageHoster/controller/ImageController.java:213-228 | resolving the same tag string again returns the same tags and creates nothing |
| `Tags.RoundTrip` | src/main/java/ImageHoster/controller/ImageController.java:213-250 | resolving the join of stored tags with non-empty, trimmed, comma-free names returns those tags and leaves the store unchanged |
| `Tags.RoundTripNames` | src/main/java/ImageHoster/controller/ImageController.java:213-250 | against any consistent store, resolving the join of non-empty, trimmed, comma-free names yields tags with those names in that order |
| `Tags.BlankTagIsCreated` | src/main/java/ImageHoster/controller/ImageController.java:217-225 | a whitespace-only tag string creates, and returns, one tag named "" under the next id |
| `Controller.IsUserLoggedInUser` | src/main/java/ImageHoster/controller/ImageController.java:254-261 | true exactly when the image's user and the logged-in user have the same id; a function, so it has no side effects |
| `Controller.IsAllowedContentType` | src/main/java/ImageHoster/controller/ImageController.java:90-93 | a content type passes exactly when it occurs as a substring of the allow-list at some offset |
| `Controller.ListedTypesAccepted` | src/main/java/ImageHoster/controller/ImageController.java:90-93 | each of the seven listed content types passes the gate |
| `Controller.FragmentsAccepted` | src/main/java/ImageHoster/controller/ImageController.java:90-93 | the gate is substring containment: "", "png" and "image/png image/bmp" pass too |
| `Controller.ForeignCharRejected` | src/main/java/ImageHoster/controller/ImageController.java:90-93 | a content type holding any character the allow-list lacks fails the gate |
| `Controller.TextPlainRejected` | src/main/java/ImageHoster/controller/ImageController.java:90-93 | text/plain does not pass the gate |
| `Controller.ImageController.FindOrCreateTags` | src/main/java/ImageHoster/controller/ImageController.java:213-228 | the loop's tags and new store equal the fold over the trimmed tokens; names and order follow the tokens; the store extends the old one by exactly those names; every returned tag is stored; the class invariant is kept |
| `Controller.ResolvedTagsKeepValid` | src/main/java/ImageHoster/controller/ImageController.java:213-228 | after findOrCreateTags the tag store is consistent and keeps every earlier tag, and every image's tags are still the stored ones |
| `Controller.ImageController.ConvertTagsToString` | src/main/java/ImageHoster/controller/ImageController.java:234-250 | the result is the tag names joined by single commas, `""` for no tags |
| `Controller.ImageController.CreateImage` | src/main/java/ImageHoster/controller/ImageController.java:85-112 | if the content type passes the gate: the image is stored under a fresh id with the logged-in user, the Base64 payload, the resolved tags and the date, and the tag store is the resolved one. Otherwise: the error message, and neither store changes |
| `Controller.ImageController.EditImage` | src/main/java/ImageHoster/controller/ImageController.java:120-141 | the owner gets the edit form with the tags joined by commas; anyone else gets the edit error |
| `Controller.ImageController.EditImageSubmit` | src/main/java/ImageHoster/controller/ImageController.java:154-176 | the tag store always becomes the resolved one, because the read of the file is taken to succeed. With no new bytes the prior payload is kept byte for byte, otherwise the new encoding is stored. The id is forced to imageId and the user to the submitter, with no ownership check |
| `Controller.ImageController.DeleteImageSubmit` | src/main/java/ImageHoster/controller/ImageController.java:182-202 | the image is removed iff the submitter owns it; otherwise the delete error, and the image store is unchanged |
| `Controller.SunsetScenario` | src/main/java/ImageHoster/controller/ImageController.java:85-202 | after a's upload tagged "nature,sky", b's delete is refused and the image keeps both tags; a's delete then succeeds and the image is no longer stored |
| `Controller.EditSubmitScenario` | src/main/java/ImageHoster/controller/ImageController.java:120-202 | a non-owner is refused the edit form yet can submit the edit, becomes the image's user, and can then delete it |

## Left out

- Spring MVC plumbing is not modelled. This covers `Model` and `RedirectAttributes` attributes, view names and redirect strings. Each handler answers a `Response` value instead. The comment and tag lists that the refusal branches of `editImage` and `deleteImageSubmit` add for the view are omitted too.
- `getUserImages`, `showImage` and `newImage` only read and pass data to views, so they are not modelled.
- The HTTP session is not modelled. The logged-in user is a parameter, and a missing session user is not modelled.
- The persistence services `ImageService`, `TagService` and `CommentService` become maps held in the controller. Their internals are not modelled:
  - `uploadImage` is modelled as storing under the next free id.
  - `updateImage` is modelled as replacing the record under `imageId`.
  - `deleteImage` is modelled as removing it.
  - The comment cascade on delete is not modelled.
- `User` keeps only its id; the other User fields are not part of this model.
- `Image` is a value, and setters become record updates. Aliasing between the form-bound `Image` object and the stored entity is not modelled. The same goes for the `Image` fields the controller never touches.
- `new Date()` is the parameter `now`.
- The Base64 decoder is not modelled, because the controller only encodes. The round trip from payload back to bytes is therefore not stated.
- `IsUserLoggedInUser`: compares ids by value. The Java `==` on boxed `Integer` values compares references, which agrees with value equality only for ids inside the JVM's small-integer cache.
- Null lookups are not modelled as Java does them:
  - Java throws a `NullPointerException` when `getImage` returns null. The model instead answers `NotFound` and leaves the image store as it was.
  - In `editImageSubmit` the tags are resolved after the lookup but before the looked-up image is first used (line 163), so the tag store still grows in that case.
  - With a non-empty new file, Java would not throw and would call `updateImage` for a missing id. What that does depends on the persistence layer, so the model answers `NotFound` there too.
  - A null content type is not modelled.
- The `IOException` that `file.getBytes()` may throw inside `convertUploadedFileToBase64` is not modelled; the upload's bytes are always readable. In `createImage` (line 96) and `editImageSubmit` (line 159) that exception would end the request before `findOrCreateTags` runs, so neither store would change. `CreateImage` and `EditImageSubmit` therefore always resolve the tags once they reach that step.
- The race between lookup and create for two concurrent requests with the same new tag name is not modelled; each request runs alone.
- `Comment.java` and `CommentController.addComment` hold no logic and are not modelled.
- `AllowedImages` is written as the concatenation of the list's pieces. The value is the same string as the Java literal.
