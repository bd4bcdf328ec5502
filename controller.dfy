/** ImageController: the request handlers that create, edit and delete images,
    with the tag and image stores they go through held as fields, the acting
    user passed in where the Java code reads the HTTP session, and the clock
    passed in where it calls new Date(). */
module Controller {
  import opened Wrappers
  import opened Text
  import opened Tags
  import Base64

  /** The logged-in user; only the id matters to this controller. */
  datatype User = User(id: int)

  /** The image fields the controller reads or sets. */
  datatype Image = Image(id: nat, title: string, imageFile: string, date: int, user: User, tags: seq<Tag>)

  /** An uploaded multipart file: its declared content type and its bytes. */
  datatype Upload = Upload(contentType: string, bytes: seq<Base64.Byte>)

  /** What a handler answers in place of a view name or redirect. */
  datatype Response =
    | Uploaded(imageId: nat)                  // redirect:/images after an upload
    | EditForm(image: Image, tags: string)     // images/edit with the joined tags
    | Updated(imageId: nat)                   // redirect to the updated image
    | Deleted                                 // redirect:/images after a delete
    | Rejected(message: string)               // back to the previous page with this error
    | NotFound                                // the image lookup returned null

  /** The allow-list of createImage: the single string
      "image/png image/bmp image/x-windows-bmp image/gif image/x-icon image/jpeg image/vnd.wap.wbmp",
      written piece by piece so that the verifier can index into it. */
  const AllowedImages: string :=
    "image/png" + " " + "image/bmp" + " " + "image/x-windows-bmp" + " " + "image/gif" + " "
    + "image/x-icon" + " " + "image/jpeg" + " " + "image/vnd.wap.wbmp"

  /** The seven content types written in AllowedImages. */
  const AllowedTypes: seq<string> := ["image/png", "image/bmp", "image/x-windows-bmp", "image/gif", "image/x-icon", "image/jpeg", "image/vnd.wap.wbmp"]

  const WrongImageError: string := "Please upload png, bmp, gif, jpeg and wbmp image file type"
  const EditError: string := "Only the owner of the image can edit the image"
  const DeleteError: string := "Only the owner of the image can delete the image"

  /** isUserLoggedInUser: whether the image's user is the logged-in user,
      compared by id. */
  function IsUserLoggedInUser(user: User, loggedUser: User): (r: bool)
    ensures r <==> user.id == loggedUser.id
  {
    user.id == loggedUser.id
  }

  /** The content-type gate of createImage: String.contains on the allow-list,
      so any substring of it passes, not only the seven listed types. */
  function IsAllowedContentType(contentType: string): (r: bool)
    ensures r <==> exists i :: OccursAt(AllowedImages, contentType, i)
  {
    ContainsIff(AllowedImages, contentType);
    Contains(AllowedImages, contentType)
  }

  class ImageController {
    // TagService: the persisted tags by name, and the id of the next one created
    var tagsByName: map<string, Tag>
    var nextTagId: nat
    // ImageService: the persisted images by id, and the id of the next upload
    var images: map<nat, Image>
    var nextImageId: nat

    ghost function TagStore(): Store
      reads this
    {
      Store(tagsByName, nextTagId)
    }

    /** The tag store is consistent, every image is stored under its own id
        below the next id, and every tag an image carries is the stored tag
        of that name (tags are shared, not copied). */
    ghost predicate Valid()
      reads this
    {
      && Tags.Valid(TagStore())
      && forall k :: k in images ==>
           k < nextImageId && images[k].id == k && AllStored(TagStore(), images[k].tags)
    }

    constructor ()
      ensures Valid()
      ensures tagsByName == map[] && nextTagId == 0 && images == map[] && nextImageId == 0
    {
      tagsByName, nextTagId := map[], 0;
      images, nextImageId := map[], 0;
    }

    /** findOrCreateTags: walks the comma tokens of tagNames, trims each, and
        looks it up by name, creating the tag only when the lookup misses. */
    method FindOrCreateTags(tagNames: string) returns (tags: seq<Tag>)
      requires Valid()
      modifies this`tagsByName, this`nextTagId
      ensures Valid()
      ensures Resolved(tags, TagStore()) == Tags.FindOrCreateTags(old(TagStore()), tagNames)
      ensures Names(tags) == TagNames(tagNames)
      ensures Extends(old(TagStore()), TagStore())
      ensures TagStore().byName.Keys == old(TagStore()).byName.Keys + (set n | n in TagNames(tagNames))
      ensures AllStored(TagStore(), tags)
    {
      ghost var st0 := TagStore();
      var tokens := Tokens(tagNames);  // new StringTokenizer(tagNames, ",")
      tags := [];
      var i := 0;
      while i < |tokens|
        invariant 0 <= i <= |tokens|
        invariant tags == FindOrCreateAll(st0, TrimAll(tokens[..i])).tags
        invariant TagStore() == FindOrCreateAll(st0, TrimAll(tokens[..i])).store
      {
        var tagName := Trim(tokens[i]);
        FindOrCreateAllSnoc(st0, TrimAll(tokens[..i]), tagName);
        TrimAllPrefix(tokens, i);
        var tag: Tag;
        if tagName in tagsByName {
          tag := tagsByName[tagName];
        } else {
          tag := Tag(nextTagId, tagName);
          tagsByName := tagsByName[tagName := tag];
          nextTagId := nextTagId + 1;
        }
        tags := tags + [tag];
        i := i + 1;
      }
      assert tokens[..i] == tokens;
      ResolvedTagsKeepValid(st0, tagNames, tags, TagStore(), images, nextImageId);
    }

    /** convertTagsToString: the tag names separated by single commas. */
    method ConvertTagsToString(tags: seq<Tag>) returns (s: string)
      ensures s == Join(Names(tags))
    {
      if |tags| == 0 {
        return "";
      }
      ghost var names := Names(tags);
      var tagString := "";
      for i := 0 to |tags| - 1
        invariant tagString == if i == 0 then "" else Join(names[..i]) + ","
      {
        JoinSnoc(names[..i], names[i]);
        assert names[..i + 1] == names[..i] + [names[i]];
        tagString := tagString + tags[i].name + ",";
      }
      var lastTag := tags[|tags| - 1];
      JoinSnoc(names[..|tags| - 1], lastTag.name);
      assert names == names[..|tags| - 1] + [lastTag.name];
      s := tagString + lastTag.name;
    }

    /** createImage: stores the upload only when its content type passes the
        allow-list gate; the tags are resolved only on that branch. */
    method CreateImage(file: Upload, tagNames: string, newImage: Image, loggedUser: User, now: int)
      returns (resp: Response)
      requires Valid()
      modifies this
      ensures Valid()
      ensures IsAllowedContentType(file.contentType) ==>
        var r := Tags.FindOrCreateTags(old(TagStore()), tagNames);
        var id := old(nextImageId);
        && resp == Uploaded(id)
        && TagStore() == r.store
        && images == old(images)[id := newImage.(id := id, user := loggedUser, imageFile := Base64.Encode(file.bytes), tags := r.tags, date := now)]
        && nextImageId == id + 1
      ensures !IsAllowedContentType(file.contentType) ==>
        resp == Rejected(WrongImageError) && unchanged(this)
    {
      if IsAllowedContentType(file.contentType) {
        var image := newImage.(user := loggedUser);
        var uploadedImageData := Base64.Encode(file.bytes);
        image := image.(imageFile := uploadedImageData);
        var imageTags := FindOrCreateTags(tagNames);
        image := image.(tags := imageTags, date := now);
        // imageService.uploadImage persists the image under a fresh id
        image := image.(id := nextImageId);
        images := images[nextImageId := image];
        nextImageId := nextImageId + 1;
        resp := Uploaded(image.id);
        return;
      }
      resp := Rejected(WrongImageError);
    }

    /** editImage: the owner gets the edit form with the tags joined into one
        string; anyone else gets the edit error. */
    method EditImage(imageId: nat, loggedUser: User) returns (resp: Response)
      ensures imageId !in images ==> resp == NotFound
      ensures imageId in images && IsUserLoggedInUser(images[imageId].user, loggedUser) ==>
        resp == EditForm(images[imageId], Join(Names(images[imageId].tags)))
      ensures imageId in images && !IsUserLoggedInUser(images[imageId].user, loggedUser) ==>
        resp == Rejected(EditError)
    {
      if imageId !in images {
        return NotFound;
      }
      var image := images[imageId];
      if IsUserLoggedInUser(image.user, loggedUser) {
        var tags := ConvertTagsToString(image.tags);
        return EditForm(image, tags);
      }
      resp := Rejected(EditError);
    }

    /** editImageSubmit: resolves the tags (so the tag store may grow) after
        the image lookup but before the looked-up image is used, keeps the stored payload when the new file encodes to
        the empty string, and stores the submitted image under imageId with
        the submitter as its user. It checks neither ownership nor the
        content type. */
    method EditImageSubmit(file: Upload, imageId: nat, tagNames: string, updatedImage: Image, loggedUser: User, now: int)
      returns (resp: Response)
      requires Valid()
      modifies this
      ensures Valid()
      ensures TagStore() == Tags.FindOrCreateTags(old(TagStore()), tagNames).store
      ensures nextImageId == old(nextImageId)
      ensures imageId in old(images) ==>
        var prior := old(images[imageId]);
        var payload := if file.bytes == [] then prior.imageFile else Base64.Encode(file.bytes);
        && resp == Updated(imageId)
        && images == old(images)[imageId := updatedImage.(
             id := imageId, imageFile := payload, user := loggedUser,
             tags := Tags.FindOrCreateTags(old(TagStore()), tagNames).tags, date := now)]
      ensures imageId !in old(images) ==> resp == NotFound && images == old(images)
    {
      var image := if imageId in images then Some(images[imageId]) else None;  // imageService.getImage
      var updatedImageData := Base64.Encode(file.bytes);
      var imageTags := FindOrCreateTags(tagNames);
      if image.None? {
        return NotFound;
      }
      var updated := updatedImage;
      if updatedImageData == [] {
        updated := updated.(imageFile := image.value.imageFile);
      } else {
        updated := updated.(imageFile := updatedImageData);
      }
      updated := updated.(id := imageId);
      updated := updated.(user := loggedUser);
      updated := updated.(tags := imageTags, date := now);
      images := images[imageId := updated];  // imageService.updateImage
      resp := Updated(imageId);
    }

    /** deleteImageSubmit: deletes the image only for its owner. */
    method DeleteImageSubmit(imageId: nat, loggedUser: User) returns (resp: Response)
      requires Valid()
      modifies this`images
      ensures Valid()
      ensures imageId !in old(images) ==> resp == NotFound && images == old(images)
      ensures imageId in old(images) && IsUserLoggedInUser(old(images[imageId]).user, loggedUser) ==>
        resp == Deleted && images == old(images) - {imageId}
      ensures imageId in old(images) && !IsUserLoggedInUser(old(images[imageId]).user, loggedUser) ==>
        resp == Rejected(DeleteError) && images == old(images)
    {
      if imageId !in images {
        return NotFound;
      }
      var image := images[imageId];
      if IsUserLoggedInUser(image.user, loggedUser) {
        images := images - {imageId};  // imageService.deleteImage
        return Deleted;
      }
      resp := Rejected(DeleteError);
    }
  }

  /** What findOrCreateTags leaves behind: a consistent tag store that keeps
      every earlier tag, the trimmed tokens' tags, all stored, and every
      image's tags still the stored ones. */
  lemma ResolvedTagsKeepValid(st0: Store, tagNames: string, tags: seq<Tag>, st1: Store,
                              images: map<nat, Image>, nextImageId: nat)
    requires Tags.Valid(st0)
    requires forall k :: k in images ==> k < nextImageId && images[k].id == k && AllStored(st0, images[k].tags)
    requires Resolved(tags, st1) == Tags.FindOrCreateTags(st0, tagNames)
    ensures Tags.Valid(st1) && Extends(st0, st1)
    ensures forall k :: k in images ==> k < nextImageId && images[k].id == k && AllStored(st1, images[k].tags)
    ensures Names(tags) == TagNames(tagNames) && AllStored(st1, tags)
    ensures st1.byName.Keys == st0.byName.Keys + (set n | n in TagNames(tagNames))
  {
    forall k | k in images
      ensures AllStored(st1, images[k].tags)
    {
      AllStoredExtends(st0, st1, images[k].tags);
    }
  }

  // ---------------------------------------------------------------------------
  // The content-type gate
  // ---------------------------------------------------------------------------

  /** Each of the seven listed content types passes the gate. */
  lemma ListedTypesAccepted()
    ensures forall i :: 0 <= i < |AllowedTypes| ==> IsAllowedContentType(AllowedTypes[i])
  {
    FirstListedTypesOccur();
    LastListedTypesOccur();
  }

  /** Where the first four listed types start in AllowedImages. */
  lemma FirstListedTypesOccur()
    ensures OccursAt(AllowedImages, "image/png", 0) && OccursAt(AllowedImages, "image/bmp", 10)
    ensures OccursAt(AllowedImages, "image/x-windows-bmp", 20) && OccursAt(AllowedImages, "image/gif", 40)
  {
  }

  /** Where the last three listed types start in AllowedImages. */
  lemma LastListedTypesOccur()
    ensures OccursAt(AllowedImages, "image/x-icon", 50) && OccursAt(AllowedImages, "image/jpeg", 63)
    ensures OccursAt(AllowedImages, "image/vnd.wap.wbmp", 74)
  {
  }

  /** The gate is substring containment: fragments of the list and the empty
      content type pass it as well. */
  lemma FragmentsAccepted()
    ensures IsAllowedContentType("")
    ensures IsAllowedContentType("png")
    ensures IsAllowedContentType("image/png image/bmp")
  {
    assert OccursAt(AllowedImages, "", 0);
    assert OccursAt(AllowedImages, "png", 6);
    assert OccursAt(AllowedImages, "image/png image/bmp", 0);
  }

  /** A content type holding a character the list lacks is rejected. */
  lemma ForeignCharRejected(contentType: string, c: char)
    requires c in contentType && c !in AllowedImages
    ensures !IsAllowedContentType(contentType)
  {
    if IsAllowedContentType(contentType) {
      ContainsChar(AllowedImages, contentType, c);
    }
  }

  /** text/plain is rejected: the list contains no 't'. */
  lemma TextPlainRejected()
    ensures !IsAllowedContentType("text/plain")
  {
    assert "text/plain"[0] == 't';
    ForeignCharRejected("text/plain", 't');
  }

  // ---------------------------------------------------------------------------
  // Scenarios
  // ---------------------------------------------------------------------------

  /** User a uploads "sunset" tagged "nature,sky"; user b's delete is refused
      and leaves the image with both tags; a's own delete removes it. */
  method SunsetScenario(a: User, b: User, bytes: seq<Base64.Byte>, now: int)
    returns (upload: Response, refused: Response, kept: seq<string>, deleted: Response, gone: bool)
    requires a.id != b.id
    ensures upload == Uploaded(0) && refused == Rejected(DeleteError) && deleted == Deleted
    ensures kept == ["nature", "sky"]
    ensures gone
  {
    var c := new ImageController();
    ListedTypesAccepted();
    assert IsAllowedContentType(AllowedTypes[0]);
    assert Join(["nature", "sky"]) == "nature,sky";
    RoundTripNames(Store(map[], 0), ["nature", "sky"]);
    upload := c.CreateImage(Upload("image/png", bytes), "nature,sky", Image(0, "sunset", "", 0, a, []), a, now);
    refused := c.DeleteImageSubmit(0, b);
    kept := Names(c.images[0].tags);
    deleted := c.DeleteImageSubmit(0, a);
    gone := 0 !in c.images;
  }

  /** editImageSubmit has no ownership check: after a's upload, b is refused
      the edit form but can still submit the edit, which makes b the image's
      user, and b may then delete it. */
  method EditSubmitScenario(a: User, b: User, bytes: seq<Base64.Byte>, now: int)
    returns (form: Response, submit: Response, owner: User, deleted: Response)
    requires a.id != b.id
    ensures form == Rejected(EditError) && submit == Updated(0) && owner == b && deleted == Deleted
  {
    var c := new ImageController();
    ListedTypesAccepted();
    assert IsAllowedContentType(AllowedTypes[5]);
    var _ := c.CreateImage(Upload("image/jpeg", bytes), "", Image(0, "sunset", "", 0, a, []), a, now);
    form := c.EditImage(0, b);
    submit := c.EditImageSubmit(Upload("text/plain", []), 0, "", Image(0, "dusk", "", 0, b, []), b, now);
    owner := c.images[0].user;
    deleted := c.DeleteImageSubmit(0, b);
  }
}
