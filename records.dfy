/**
 * The documents the application keeps in its store, as the pages and the
 * generator see them once read. A string field that is missing in a document
 * is the empty string here: every use in the code either tests it for
 * truthiness or replaces a missing value by ''.
 */
module Records {
  import opened Common

  /** A JavaScript value held in an attendee's `checkedIn` field. */
  datatype Flag = Unset | BoolFlag(b: bool) | StringFlag(s: string)

  /** `!!v` in JavaScript. */
  predicate Truthy(f: Flag) {
    match f
    case Unset => false
    case BoolFlag(b) => b
    case StringFlag(s) => s != ""
  }

  /** An attendee document, with its document id. */
  datatype Participant = Participant(
    id: string, name: string, prn: string, email: string, eventId: string, checkedIn: Flag)

  /**
   * One field's persisted placement: position in percent of the canvas
   * (top-down), the visual scale in tenths (10 is 1.0x) and the font size
   * in percent of the canvas width.
   */
  datatype SavedPlacement = SavedPlacement(x: real, y: real, scale: int, fontPct: real)

  type Placements = map<string, SavedPlacement>

  /** An event document, with its document id. */
  datatype EventDoc = EventDoc(
    id: string, name: string, eventName: string, date: string,
    templateData: string, templateType: string, templateName: string,
    fieldPositions: Option<Placements>)

  /** An event's title, `eventName || name`: its `eventName`, or its `name` when that is empty. */
  function TitleOf(e: EventDoc): string {
    if e.eventName != "" then e.eventName else e.name
  }

  /** A certificate document, with its document id. */
  datatype CertDoc = CertDoc(
    id: string, participantId: string, eventId: string, pdfData: string, generatedAt: string)

  /** What the browser says of a file picked or dropped by the user. */
  datatype FileInfo = FileInfo(name: string, mimeType: string, size: nat)
}
