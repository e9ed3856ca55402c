/**
 * The template upload page: a PNG or JPEG of at most 750 KB is read as a
 * data URL, placed on the designer, and saved with the field positions to
 * the active event; an existing template can be removed.
 */
module Upload {
  import opened Common
  import opened Text
  import opened Records
  import FirebaseService
  import Generator

  /** 750 KB. */
  const MAX_TEMPLATE_BYTES: nat := 750 * 1024

  datatype FileCheck = WrongType | TooLarge | Accepted

  /** The two MIME types the page takes. */
  predicate AllowedType(mimeType: string) {
    mimeType == Generator.PNG_MIME || mimeType == Generator.JPEG_MIME
  }

  /** `handleFile`'s checks: the type first, then the size. */
  function CheckFile(file: FileInfo): (r: FileCheck)
    ensures r == WrongType <==> !AllowedType(file.mimeType)
    ensures r == TooLarge <==> AllowedType(file.mimeType) && file.size > MAX_TEMPLATE_BYTES
    ensures r == Accepted <==> AllowedType(file.mimeType) && file.size <= MAX_TEMPLATE_BYTES
  {
    if !AllowedType(file.mimeType) then WrongType
    else if file.size > MAX_TEMPLATE_BYTES then TooLarge
    else Accepted
  }

  /** A file of exactly 750 KB is taken and one byte more is refused. */
  lemma SizeLimitIsInclusive(name: string, mimeType: string)
    requires AllowedType(mimeType)
    ensures CheckFile(FileInfo(name, mimeType, MAX_TEMPLATE_BYTES)) == Accepted
    ensures CheckFile(FileInfo(name, mimeType, MAX_TEMPLATE_BYTES + 1)) == TooLarge
  {
  }

  /** A file of another type is refused for its type, whatever its size. */
  lemma TypeIsCheckedFirst(file: FileInfo, size: nat)
    requires !AllowedType(file.mimeType)
    ensures CheckFile(file.(size := size)) == WrongType
  {
  }

  /** "jpeg" does not contain "png". */
  lemma JpegHasNoPng()
    ensures !Includes(Generator.JPEG_MIME, "png")
  {
    IncludesIffOccurs(Generator.JPEG_MIME, "png");
    var m := Generator.JPEG_MIME;
    forall i | 0 <= i && i + 3 <= |m| ensures !OccursAt(m, "png", i) {
      assert m[i..i + 3][0] == m[i] && m[i..i + 3][1] == m[i + 1];
    }
  }

  /** An accepted template is an image, and the generator decodes it as PNG exactly when it is image/png. */
  lemma AcceptedTemplateCodec(file: FileInfo)
    requires CheckFile(file) == Accepted
    ensures StartsWith(file.mimeType, "image/")
    ensures Generator.CodecFor(file.mimeType) == Generator.Png <==> file.mimeType == Generator.PNG_MIME
  {
    if file.mimeType == Generator.PNG_MIME {
      assert StartsWith(Generator.PNG_MIME[6..], "png");
      assert Includes(Generator.PNG_MIME[6..], "png");
      assert Generator.PNG_MIME[6..] == Generator.PNG_MIME[1..][1..][1..][1..][1..][1..];
    } else {
      JpegHasNoPng();
    }
  }

  class UploadPage {
    /** The event chosen on the events page; "" when none was chosen. */
    var activeEventId: string
    var selectedFile: Option<FileInfo>
    /** The base64 payload of the selected file; "" while there is none. */
    var selectedBase64: string
    var existingTemplate: Option<FirebaseService.TemplateInfo>

    constructor (activeEventId: string)
      ensures this.activeEventId == activeEventId
      ensures selectedFile.None? && selectedBase64 == "" && existingTemplate.None?
    {
      this.activeEventId := activeEventId;
      selectedFile := None;
      selectedBase64 := "";
      existingTemplate := None;
    }

    /**
     * `checkTemplate`: with an active event and a successful read, a template
     * found for the event is shown; no template or a failed read leaves the
     * page as it was.
     */
    method CheckTemplate(store: FirebaseService.EventStore, readOk: bool)
      modifies this
      ensures activeEventId == old(activeEventId) && selectedFile == old(selectedFile) && selectedBase64 == old(selectedBase64)
      ensures activeEventId != "" && readOk && FirebaseService.GetTemplateData(store.events, activeEventId).Some? ==>
        existingTemplate == FirebaseService.GetTemplateData(store.events, activeEventId)
      ensures !(activeEventId != "" && readOk && FirebaseService.GetTemplateData(store.events, activeEventId).Some?) ==>
        existingTemplate == old(existingTemplate)
    {
      if activeEventId == "" || !readOk {
        return;
      }
      var tpl := FirebaseService.GetTemplateData(store.events, activeEventId);
      if tpl.Some? {
        existingTemplate := tpl;
      }
    }

    /** `handleFile`: an accepted file becomes the selection, with the payload of its data URL. */
    method HandleFile(file: FileInfo, dataUrl: string) returns (check: FileCheck)
      modifies this
      ensures check == CheckFile(file)
      ensures activeEventId == old(activeEventId) && existingTemplate == old(existingTemplate)
      ensures check == Accepted ==> selectedFile == Some(file) && selectedBase64 == SplitSecond(dataUrl, ',').GetOr("")
      ensures check != Accepted ==> selectedFile == old(selectedFile) && selectedBase64 == old(selectedBase64)
    {
      check := CheckFile(file);
      if check == Accepted {
        selectedBase64 := SplitSecond(dataUrl, ',').GetOr("");
        selectedFile := Some(file);
      }
    }

    /** The designer's Cancel: the selection is dropped. */
    method CancelSelection()
      modifies this
      ensures selectedFile.None? && selectedBase64 == ""
      ensures activeEventId == old(activeEventId) && existingTemplate == old(existingTemplate)
    {
      selectedFile := None;
      selectedBase64 := "";
    }

    /**
     * `handleSave`: with an active event, a selected file and its payload,
     * the template, its type, its file name and the positions are written to
     * the event; otherwise nothing happens.
     */
    method HandleSave(positions: Placements, store: FirebaseService.EventStore) returns (saved: bool)
      modifies store
      ensures saved <==> activeEventId != "" && selectedFile.Some? && selectedBase64 != ""
      ensures !saved ==> store.events == old(store.events)
      ensures saved ==> store.events == FirebaseService.WithTemplate(old(store.events), activeEventId,
        selectedBase64, selectedFile.value.mimeType, selectedFile.value.name, Some(positions))
    {
      if activeEventId == "" || selectedFile.None? || selectedBase64 == "" {
        return false;
      }
      store.UploadCertificateTemplate(selectedBase64, selectedFile.value.mimeType, selectedFile.value.name,
        activeEventId, Some(positions));
      return true;
    }

    /**
     * `clearExistingTemplate`: after confirmation the four template fields
     * are deleted from the event; when the update succeeds the page forgets
     * the template and the selection. The update fails, changing nothing,
     * when the event does not exist.
     */
    method ClearExistingTemplate(confirmed: bool, store: FirebaseService.EventStore) returns (removed: bool)
      requires store != this as object
      modifies this, store
      ensures activeEventId == old(activeEventId)
      ensures removed <==> old(activeEventId) != "" && confirmed && old(activeEventId) in old(store.events)
      ensures !(old(activeEventId) != "" && confirmed) ==>
        store.events == old(store.events) && unchanged(this)
      ensures old(activeEventId) != "" && confirmed ==>
        store.events == FirebaseService.WithoutTemplate(old(store.events), old(activeEventId)).GetOr(old(store.events))
      ensures removed ==> existingTemplate.None? && selectedFile.None? && selectedBase64 == ""
      ensures !removed ==> (existingTemplate == old(existingTemplate) && selectedFile == old(selectedFile)
        && selectedBase64 == old(selectedBase64))
    {
      if activeEventId == "" || !confirmed {
        return false;
      }
      removed := store.DeleteTemplateFields(activeEventId);
      if removed {
        existingTemplate := None;
        selectedFile := None;
        selectedBase64 := "";
      }
    }
  }
}
