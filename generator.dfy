/**
 * The compositor: it picks the template and its kind, builds the page (the
 * first page of a PDF template, or a page the size of an image template with
 * the image drawn over it), draws the four text fields at their saved
 * positions, serialises the document and records it.
 *
 * The PDF library is not modelled: what the compositor learns from it (page
 * and image sizes, whether a font embeds, the width of a text, the
 * serialised document) is given by the functions of a `PdfLib` value.
 */
module Generator {
  import opened Common
  import opened Text
  import opened Records
  import FirebaseService
  import Designer

  type Bytes = seq<bv8>

  const PDF_MIME := "application/pdf"
  const PNG_MIME := "image/png"
  const JPEG_MIME := "image/jpeg"
  /** How every PNG file starts once written in base64. */
  const PNG_BASE64_SIGNATURE := "iVBORw0KGgo"

  datatype Size = Size(width: real, height: real)
  datatype ImageCodec = Png | Jpeg
  /** The cursive font fetched from the web, and the two standard fonts. */
  datatype Font = GreatVibes | Helvetica | HelveticaBold

  datatype PageSource = FirstPageOf(pdf: Bytes) | ImagePage(image: Bytes)

  datatype DrawOp =
    | DrawImage(codec: ImageCodec, image: Bytes, x: real, y: real, width: real, height: real)
    | DrawText(text: string, x: real, y: real, size: real, font: Font)

  /** The page being composed: where it comes from, its size in points, and what has been drawn on it. */
  datatype Page = Page(source: PageSource, size: Size, ops: seq<DrawOp>)

  datatype GenError =
    | NoTemplate          // "No certificate template found for this event"
    | TemplateUnreadable  // the base64, the PDF or the image could not be decoded
    | FontUnreadable      // the fetched cursive font could not be embedded

  datatype PdfLib = PdfLib(
    decodeBase64: string -> Option<Bytes>,
    /** The size of the first page of a PDF; None when it does not load or has no page. */
    firstPageSize: Bytes -> Option<Size>,
    /** The intrinsic size of an image; None when it does not decode with that codec. */
    imageSize: (ImageCodec, Bytes) -> Option<Size>,
    fontEmbeds: Bytes -> bool,
    textWidth: (Font, string, real) -> real,
    save: Page -> string)

  // ---- template and kind ----

  datatype Template = Template(data: string, mime: string)

  /** The kind of a custom template: the given MIME type, else PNG or JPEG by the base64 signature. */
  function CustomMime(customData: string, customMime: string): string {
    if customMime != "" then customMime
    else if StartsWith(customData, PNG_BASE64_SIGNATURE) then PNG_MIME
    else JPEG_MIME
  }

  /** The template to use: the custom one when given, else the event's; NoTemplate when neither exists. */
  function SelectTemplate(event: Option<EventDoc>, customData: string, customMime: string): (r: Result<Template, GenError>)
    ensures r.Failure? <==> event.None? || (event.value.templateData == "" && customData == "")
    ensures r.Failure? ==> r.error == NoTemplate
    ensures r.Success? ==> r.value.data != ""
  {
    if event.None? || (event.value.templateData == "" && customData == "") then Failure(NoTemplate)
    else if customData != "" then Success(Template(customData, CustomMime(customData, customMime)))
    else Success(Template(event.value.templateData, event.value.templateType))
  }

  /** Custom template data is preferred to the event's, and so is its kind. */
  lemma CustomTemplateWins(event: EventDoc, customData: string, customMime: string)
    requires customData != ""
    ensures SelectTemplate(Some(event), customData, customMime) == Success(Template(customData, CustomMime(customData, customMime)))
  {
  }

  /** Without custom data the event's template and its stored type are used. */
  lemma EventTemplateOtherwise(event: EventDoc, customMime: string)
    requires event.templateData != ""
    ensures SelectTemplate(Some(event), "", customMime) == Success(Template(event.templateData, event.templateType))
  {
  }

  /** A custom template without a MIME type is PNG exactly when its base64 starts with the PNG signature. */
  lemma SniffedKind(customData: string)
    ensures CustomMime(customData, "") == PNG_MIME <==> StartsWith(customData, PNG_BASE64_SIGNATURE)
    ensures CustomMime(customData, "") == PNG_MIME || CustomMime(customData, "") == JPEG_MIME
  {
  }

  // ---- the page ----

  /** The image codec for a non-PDF kind: PNG exactly when the kind mentions "png". */
  function CodecFor(mime: string): (c: ImageCodec)
    ensures c == Png <==> Includes(mime, "png")
  {
    if Includes(mime, "png") then Png else Jpeg
  }

  /** The page to draw on, or the error decoding the template raises. */
  function BuildPage(lib: PdfLib, mime: string, bytes: Bytes): (r: Result<Page, GenError>)
    ensures r.Failure? ==> r.error == TemplateUnreadable
    ensures mime == PDF_MIME ==> (r.Success? <==> lib.firstPageSize(bytes).Some?)
    ensures mime == PDF_MIME && r.Success? ==> r.value == Page(FirstPageOf(bytes), lib.firstPageSize(bytes).value, [])
    ensures mime != PDF_MIME ==> (r.Success? <==> lib.imageSize(CodecFor(mime), bytes).Some?)
    ensures mime != PDF_MIME && r.Success? ==>
      var sz := lib.imageSize(CodecFor(mime), bytes).value;
      && r.value.source == ImagePage(bytes) && r.value.size == sz
      && r.value.ops == [DrawImage(CodecFor(mime), bytes, 0.0, 0.0, sz.width, sz.height)]
  {
    if mime == PDF_MIME then
      match lib.firstPageSize(bytes)
      case None => Failure(TemplateUnreadable)
      case Some(sz) => Success(Page(FirstPageOf(bytes), sz, []))
    else
      var codec := CodecFor(mime);
      match lib.imageSize(codec, bytes)
      case None => Failure(TemplateUnreadable)
      case Some(sz) => Success(Page(ImagePage(bytes), sz, [DrawImage(codec, bytes, 0.0, 0.0, sz.width, sz.height)]))
  }

  /** Template selection, decoding and page construction: everything before the fonts are loaded. */
  function Prepared(lib: PdfLib, event: Option<EventDoc>, customData: string, customMime: string): Result<Page, GenError> {
    match SelectTemplate(event, customData, customMime)
    case Failure(e) => Failure(e)
    case Success(t) =>
      match lib.decodeBase64(t.data)
      case None => Failure(TemplateUnreadable)
      case Some(bytes) => BuildPage(lib, t.mime, bytes)
  }

  // ---- drawing a field ----

  /** The baseline of a field placed `yPct` percent down a page `height` points tall (PDF y grows upwards). */
  function Baseline(yPct: real, height: real): real {
    height - (yPct / 100.0) * height
  }

  /** The font size for a saved font percentage on a page `width` points wide. */
  function FontSize(fontPct: real, width: real): real {
    (fontPct / 100.0) * width
  }

  /** `drawField` once its placement exists and its text is not empty: centred horizontally on the anchor, baseline on it. */
  function PlaceText(lib: PdfLib, size: Size, pos: SavedPlacement, text: string, font: Font): (op: DrawOp)
    ensures op.DrawText? && op.text == text && op.font == font
    ensures op.size == FontSize(pos.fontPct, size.width)
    ensures op.y == Baseline(pos.y, size.height)
    ensures op.x + lib.textWidth(font, text, op.size) / 2.0 == (pos.x / 100.0) * size.width
  {
    var x := (pos.x / 100.0) * size.width;
    var y := size.height - (pos.y / 100.0) * size.height;
    var fontSize := (pos.fontPct / 100.0) * size.width;
    var textWidth := lib.textWidth(font, text, fontSize);
    DrawText(text, x - textWidth / 2.0, y, fontSize, font)
  }

  /** What `drawField` adds to the page: nothing when the field has no placement or its text is empty. */
  function FieldOps(lib: PdfLib, size: Size, positions: Placements, key: string, text: string, font: Font): (ops: seq<DrawOp>)
    ensures ops == [] <==> key !in positions || text == ""
    ensures ops != [] ==> ops == [PlaceText(lib, size, positions[key], text, font)]
  {
    if key !in positions || text == "" then [] else [PlaceText(lib, size, positions[key], text, font)]
  }

  /** The top of a page maps to its full height and the bottom to 0; lower on the page is lower in PDF space. */
  lemma YFlip(height: real, y1: real, y2: real)
    requires height >= 0.0 && y1 <= y2
    ensures Baseline(0.0, height) == height && Baseline(100.0, height) == 0.0
    ensures Baseline(y2, height) <= Baseline(y1, height)
  {
    assert (y2 / 100.0) * height - (y1 / 100.0) * height == ((y2 - y1) / 100.0) * height;
  }

  /**
   * The font size on the page in proportion to the page width equals the
   * field's pixel size in the editor in proportion to the canvas width: the
   * editor's exact percentage makes them agree, and the saved, rounded one
   * is within 0.0005 percent of the page width of it.
   */
  lemma FontSizeFollowsCanvas(field: string, p: Designer.Placement, canvasW: real, pageW: real)
    requires field in Designer.FIELDS_CONFIG && canvasW > 0.0 && pageW > 0.0
    ensures var base := Designer.FIELDS_CONFIG[field].baseFontPx;
      var scale := Designer.EffectiveScale(p.scale);
      var editorPx := base as real * (scale as real / 10.0);
      && FontSize(Designer.ExactFontPct(base, scale, canvasW), pageW) * canvasW == editorPx * pageW
      && var drawn := FontSize(Designer.SavedEntry(field, p, canvasW).fontPct, pageW);
         var exact := FontSize(Designer.ExactFontPct(base, scale, canvasW), pageW);
         exact - 0.000005 * pageW <= drawn <= exact + 0.000005 * pageW
  {
    var base := Designer.FIELDS_CONFIG[field].baseFontPx;
    var scale := Designer.EffectiveScale(p.scale);
    var editorPx := base as real * (scale as real / 10.0);
    var exactPct := Designer.ExactFontPct(base, scale, canvasW);
    ProportionalSize(exactPct, canvasW, editorPx, pageW);
    RoundedSizeBound(Designer.SavedEntry(field, p, canvasW).fontPct, exactPct, pageW);
  }

  /** A percentage of the canvas width that shows `px` pixels there shows `px·pageW/canvasW` on the page. */
  lemma ProportionalSize(pct: real, canvasW: real, px: real, pageW: real)
    requires pct * canvasW == px * 100.0 && canvasW > 0.0
    ensures FontSize(pct, pageW) * canvasW == px * pageW
  {
    calc {
      FontSize(pct, pageW) * canvasW;
      ((pct / 100.0) * pageW) * canvasW;
      ((pct * canvasW) / 100.0) * pageW;
      ((px * 100.0) / 100.0) * pageW;
    }
  }

  /** A percentage within 0.0005 of another gives a font size within 0.000005·pageW of the other's. */
  lemma RoundedSizeBound(saved: real, exact: real, pageW: real)
    requires exact - 0.0005 <= saved <= exact + 0.0005 && pageW > 0.0
    ensures FontSize(exact, pageW) - 0.000005 * pageW <= FontSize(saved, pageW) <= FontSize(exact, pageW) + 0.000005 * pageW
  {
    var d := (saved - exact) / 100.0;
    assert -0.000005 <= d <= 0.000005;
    assert FontSize(saved, pageW) == FontSize(exact, pageW) + d * pageW;
    ScaleBound(d, 0.000005, pageW);
    assert d * pageW <= 0.000005 * pageW;
  }

  /** A bounded quantity stays bounded, proportionally, when scaled by a positive factor. */
  lemma ScaleBound(d: real, e: real, w: real)
    requires -e <= d <= e && w > 0.0
    ensures -e * w <= d * w <= e * w
  {
  }

  // ---- fonts and fields ----

  /** The name's font: the cursive one when it loaded, else Helvetica-Bold. */
  function NameFont(cursive: Option<Font>): Font {
    if cursive.Some? then cursive.value else HelveticaBold
  }

  /** Embeds the cursive font when its bytes are at hand; a failing embed is an error, not a fallback. */
  function CursiveFont(lib: PdfLib, bytes: Option<Bytes>): (r: Result<Option<Font>, GenError>)
    ensures r.Failure? <==> bytes.Some? && !lib.fontEmbeds(bytes.value)
    ensures r.Success? ==> (r.value.Some? <==> bytes.Some?)
    ensures r.Success? && r.value.Some? ==> r.value.value == GreatVibes
  {
    if bytes.None? then Success(None)
    else if lib.fontEmbeds(bytes.value) then Success(Some(GreatVibes))
    else Failure(FontUnreadable)
  }

  /** `customPositions || event.fieldPositions || {}`: an object, even an empty one, wins. */
  function Positions(custom: Option<Placements>, event: EventDoc): (m: Placements)
    ensures custom.Some? ==> m == custom.value
    ensures custom.None? && event.fieldPositions.Some? ==> m == event.fieldPositions.value
    ensures custom.None? && event.fieldPositions.None? ==> m == map[]
  {
    if custom.Some? then custom.value else event.fieldPositions.GetOr(map[])
  }

  /** The date text: empty for an event without a date, else the formatted date. */
  function DateText(event: EventDoc, formatDate: string -> string): string {
    if event.date != "" then formatDate(event.date) else ""
  }

  /** The text drawn over the template, field by field, in drawing order. */
  function TextOps(lib: PdfLib, size: Size, positions: Placements, participant: Participant, event: EventDoc,
                   formatDate: string -> string, cursive: Option<Font>): seq<DrawOp> {
    FieldOps(lib, size, positions, "name", participant.name, NameFont(cursive))
    + FieldOps(lib, size, positions, "prn", participant.prn, Helvetica)
    + FieldOps(lib, size, positions, "eventName", TitleOf(event), HelveticaBold)
    + FieldOps(lib, size, positions, "date", DateText(event, formatDate), Helvetica)
  }

  /** Every drawn text uses its field's font: the name the cursive font or Helvetica-Bold, PRN and date Helvetica, the event Helvetica-Bold. */
  lemma FieldFonts(lib: PdfLib, size: Size, positions: Placements, participant: Participant, event: EventDoc,
                   formatDate: string -> string, cursive: Option<Font>)
    requires cursive.Some? ==> cursive.value == GreatVibes
    ensures var ops := TextOps(lib, size, positions, participant, event, formatDate, cursive);
      forall i :: 0 <= i < |ops| ==> (
        && ops[i].DrawText?
        && (ops[i].font == GreatVibes ==> ops[i].text == participant.name && cursive.Some?)
        && (ops[i].font == HelveticaBold ==> ops[i].text == TitleOf(event) || (ops[i].text == participant.name && cursive.None?))
        && (ops[i].font == Helvetica ==> ops[i].text == participant.prn || ops[i].text == DateText(event, formatDate)))
  {
  }

  /** The certificate page given the loaded cursive font bytes, or the error that stops it. */
  function Generated(lib: PdfLib, formatDate: string -> string, participant: Participant, event: Option<EventDoc>,
                     customData: string, customPositions: Option<Placements>, customMime: string,
                     fontBytes: Option<Bytes>): (r: Result<Page, GenError>)
    ensures Prepared(lib, event, customData, customMime).Failure? ==> r == Failure(Prepared(lib, event, customData, customMime).error)
    ensures r.Success? ==> event.Some? && Prepared(lib, event, customData, customMime).Success?
    ensures r.Success? ==> (
      var page := Prepared(lib, event, customData, customMime).value;
      && r.value.source == page.source && r.value.size == page.size
      && |page.ops| <= |r.value.ops| && r.value.ops[..|page.ops|] == page.ops)
  {
    match Prepared(lib, event, customData, customMime)
    case Failure(e) => Failure(e)
    case Success(page) =>
      match CursiveFont(lib, fontBytes)
      case Failure(e) => Failure(e)
      case Success(cursive) =>
        var positions := Positions(customPositions, event.value);
        var ops := TextOps(lib, page.size, positions, participant, event.value, formatDate, cursive);
        assert (page.ops + ops)[..|page.ops|] == page.ops;
        Success(page.(ops := page.ops + ops))
  }

  /** Once the page is prepared and the fonts embed, the certificate is the prepared page with the fields' text drawn over it. */
  lemma GeneratedOnSuccess(lib: PdfLib, formatDate: string -> string, participant: Participant, event: Option<EventDoc>,
                           customData: string, customPositions: Option<Placements>, customMime: string,
                           fontBytes: Option<Bytes>, page: Page, cursive: Option<Font>)
    requires Prepared(lib, event, customData, customMime) == Success(page)
    requires CursiveFont(lib, fontBytes) == Success(cursive)
    ensures event.Some?
    ensures Generated(lib, formatDate, participant, event, customData, customPositions, customMime, fontBytes)
      == Success(page.(ops := page.ops + TextOps(lib, page.size, Positions(customPositions, event.value), participant, event.value, formatDate, cursive)))
  {
  }

  /** No event, or no template data anywhere, fails with NoTemplate whatever the rest. */
  lemma MissingTemplateFails(lib: PdfLib, formatDate: string -> string, participant: Participant, event: Option<EventDoc>,
                             customData: string, customPositions: Option<Placements>, customMime: string, fontBytes: Option<Bytes>)
    requires event.None? || (event.value.templateData == "" && customData == "")
    ensures Generated(lib, formatDate, participant, event, customData, customPositions, customMime, fontBytes) == Failure(NoTemplate)
  {
  }

  /** With an image template the page is exactly the image's size and begins with the image drawn over all of it. */
  lemma ImageTemplatePage(lib: PdfLib, formatDate: string -> string, participant: Participant, event: EventDoc,
                          customData: string, customPositions: Option<Placements>, customMime: string, fontBytes: Option<Bytes>)
    requires var r := Generated(lib, formatDate, participant, Some(event), customData, customPositions, customMime, fontBytes);
      r.Success? && SelectTemplate(Some(event), customData, customMime).value.mime != PDF_MIME
    ensures var t := SelectTemplate(Some(event), customData, customMime).value;
      var bytes := lib.decodeBase64(t.data).value;
      var sz := lib.imageSize(CodecFor(t.mime), bytes).value;
      var page := Generated(lib, formatDate, participant, Some(event), customData, customPositions, customMime, fontBytes).value;
      page.size == sz && page.source == ImagePage(bytes)
      && |page.ops| >= 1 && page.ops[0] == DrawImage(CodecFor(t.mime), bytes, 0.0, 0.0, sz.width, sz.height)
  {
    var page := Generated(lib, formatDate, participant, Some(event), customData, customPositions, customMime, fontBytes).value;
    var prepared := Prepared(lib, Some(event), customData, customMime).value;
    assert page.ops[..|prepared.ops|] == prepared.ops;
    assert page.ops[0] == page.ops[..|prepared.ops|][0];
  }

  /** With a PDF template the page is the template's first page at its own size. */
  lemma PdfTemplatePage(lib: PdfLib, formatDate: string -> string, participant: Participant, event: EventDoc,
                        customData: string, customPositions: Option<Placements>, customMime: string, fontBytes: Option<Bytes>)
    requires var r := Generated(lib, formatDate, participant, Some(event), customData, customPositions, customMime, fontBytes);
      r.Success? && SelectTemplate(Some(event), customData, customMime).value.mime == PDF_MIME
    ensures var t := SelectTemplate(Some(event), customData, customMime).value;
      var bytes := lib.decodeBase64(t.data).value;
      var page := Generated(lib, formatDate, participant, Some(event), customData, customPositions, customMime, fontBytes).value;
      page.source == FirstPageOf(bytes) && page.size == lib.firstPageSize(bytes).value
  {
  }

  // ---- the generator and its font cache ----

  /** What the cache yields: the cached bytes when there are some, else the fetched response's bytes, if any. */
  function CachedFont(cache: Option<Bytes>, response: Fetch<Bytes>): (r: Option<Bytes>)
    ensures cache.Some? ==> r == cache
    ensures cache.None? ==> (r.Some? <==> response.Fetched?)
    ensures cache.None? && response.Fetched? ==> r == Some(response.value)
  {
    if cache.Some? then cache else if response.Fetched? then Some(response.value) else None
  }

  class CertificateGenerator {
    /** The cursive font's bytes, once fetched. */
    var cursiveFontBytes: Option<Bytes>
    /** How many times the font has been fetched. */
    ghost var fetches: nat

    constructor ()
      ensures cursiveFontBytes.None? && fetches == 0
    {
      cursiveFontBytes := None;
      fetches := 0;
    }

    /**
     * `loadCursiveFont`: the cached bytes without a fetch, or the bytes of the
     * `response` a fetch gives. A failed fetch yields None and leaves the cache
     * empty, so the next call fetches again.
     */
    method LoadCursiveFont(response: Fetch<Bytes>) returns (r: Option<Bytes>)
      modifies this
      ensures r == CachedFont(old(cursiveFontBytes), response)
      ensures cursiveFontBytes == r
      ensures fetches == if old(cursiveFontBytes).Some? then old(fetches) else old(fetches) + 1
    {
      if cursiveFontBytes.Some? {
        return cursiveFontBytes;
      }
      fetches := fetches + 1;
      match response
      case FetchFailed =>
        return None;
      case Fetched(bytes) =>
        cursiveFontBytes := Some(bytes);
        return cursiveFontBytes;
    }

    /**
     * `generate`: composes the certificate, serialises it and, only then,
     * records it under the id `newId` the store assigns, with the time `now`.
     */
    method Generate(lib: PdfLib, formatDate: string -> string, participant: Participant, event: Option<EventDoc>,
                    eventId: string, customData: string, customPositions: Option<Placements>, customMime: string,
                    fontResponse: Fetch<Bytes>, store: FirebaseService.CertificateStore, newId: string, now: string)
      returns (r: Result<string, GenError>)
      requires FirebaseService.IdUnused(store.docs, newId)
      modifies this, store
      ensures var prepared := Prepared(lib, event, customData, customMime);
        cursiveFontBytes == if prepared.Failure? then old(cursiveFontBytes) else CachedFont(old(cursiveFontBytes), fontResponse)
      ensures fetches == if Prepared(lib, event, customData, customMime).Failure? || old(cursiveFontBytes).Some?
        then old(fetches) else old(fetches) + 1
      ensures var page := Generated(lib, formatDate, participant, event, customData, customPositions, customMime,
                                    CachedFont(old(cursiveFontBytes), fontResponse));
        r == if page.Failure? then Failure(page.error) else Success(lib.save(page.value))
      ensures r.Failure? ==> store.docs == old(store.docs)
      ensures r.Success? ==> store.docs == old(store.docs) + [CertDoc(newId, participant.id, eventId, r.value, now)]
    {
      var template := SelectTemplate(event, customData, customMime);
      if template.Failure? {
        return Failure(template.error);
      }
      var bytes := lib.decodeBase64(template.value.data);
      if bytes.None? {
        return Failure(TemplateUnreadable);
      }
      var built := BuildPage(lib, template.value.mime, bytes.value);
      if built.Failure? {
        return Failure(built.error);
      }
      var page := built.value;

      var cursiveBytes := LoadCursiveFont(fontResponse);
      var cursive: Option<Font> := None;
      if cursiveBytes.Some? {
        if !lib.fontEmbeds(cursiveBytes.value) {
          return Failure(FontUnreadable);
        }
        cursive := Some(GreatVibes);
      }
      var positions := Positions(customPositions, event.value);

      ghost var base := page.ops;
      var nameOps := FieldOps(lib, page.size, positions, "name", participant.name, NameFont(cursive));
      page := page.(ops := page.ops + nameOps);
      var prnOps := FieldOps(lib, page.size, positions, "prn", participant.prn, Helvetica);
      page := page.(ops := page.ops + prnOps);
      var eventOps := FieldOps(lib, page.size, positions, "eventName", TitleOf(event.value), HelveticaBold);
      page := page.(ops := page.ops + eventOps);
      var dateOps := FieldOps(lib, page.size, positions, "date", DateText(event.value, formatDate), Helvetica);
      page := page.(ops := page.ops + dateOps);
      assert page.ops == base + (nameOps + prnOps + eventOps + dateOps);
      GeneratedOnSuccess(lib, formatDate, participant, event, customData, customPositions, customMime,
        CachedFont(old(cursiveFontBytes), fontResponse), built.value, cursive);
      var pdfBase64 := lib.save(page);
      var _ := store.SaveCertificateRecord(CertDoc("", participant.id, eventId, pdfBase64, now), newId);
      return Success(pdfBase64);
    }
  }
}
