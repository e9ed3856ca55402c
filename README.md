# TFN certificate system: a verified model of the certificate pipeline

The TFN certificate system is a single-page web application for events. The
organisers upload a certificate template, which is a PNG, a JPEG or a PDF.
They place the attendee's name, PRN (student registration number), the
event date and the event name on that template in a drag-and-drop designer.
Then they generate one PDF certificate for each checked-in attendee. The
attendees later look up and download their own certificates.

This project models the logic of that pipeline in Dafny and proves what its
code promises:

- **Designer** (`designer.dfy`): the placement editor. It keeps a map from
  field to position and scale, handles drop, drag, resize and remove with
  clamping, and converts each position at save time into a persisted
  placement. The font size is saved as a percentage of the canvas width.
- **Generator** (`generator.dfy`): the compositor. It chooses the template
  and its kind, builds the page, draws each field, embeds the fonts and
  caches the cursive one. It writes the certificate record only after the
  PDF has been serialised. The PDF library is a record of abstract functions
  (`PdfLib`), and drawing produces a list of draw operations.
- **FirebaseService** (`firebase_service.dfy`): the data service, limited
  to what it does after a query returns:
  - sorting events by date;
  - filtering the checked-in attendees;
  - building the certificates map, where the last record wins;
  - taking the first certificate or none;
  - merging the email hits and PRN hits without duplicates, and gathering
    a student's certificates;
  - the template defaults.

  Each Firestore collection is a value (a sequence of documents, or for
  events a map by id), and each query is a filter over it. `EventStore` and
  `CertificateStore` are the collections the pages write to.
- **Dashboard**, **Participants**, **VerifyParticipant** and **Upload**:
  the pages' logic.
  - The dashboard has the filter tabs, search, counters, the sequential
    "generate all" loop, the guards of generate and delete, the action
    column and the regenerate dialog.
  - The participants page has its search.
  - The lookup page classifies an attendee's status.
  - The upload page validates the template file and guards saving and
    removing a template.
- **Common**, **Text** and **Records**: the shared pieces.
  - `Filter` and subsequences, and `Math.round` / `toFixed` on exact reals.
  - The JavaScript string operations the code relies on.
  - The store's documents.

A coordinate contract spans the two halves of the pipeline.
`Designer.ExactFontPct` saves `fontPct` so that `fontPct·canvasW/100 = baseFontPx·scale`,
and the generator draws at `fontPct/100·pageW`. `Generator.FontSizeFollowsCanvas`
proves that the drawn size is the editor's pixel size scaled by
`pageW/canvasW`. The proof covers the saved value exactly up to the
3-decimal rounding, and gives an explicit error bound for it.

Modelling conventions:

- A missing or `null` string field is `""`. The code only tests such fields
  for truthiness or replaces them by `''`.
- The `checkedIn` value is a small datatype (`Flag`) covering a boolean, a
  string or nothing.
- Scale is an `int` in tenths, so `10` means 1.0x.
- Percentages are `real`.
- I/O outcomes are parameters:
  - a fetch that can fail is `Fetch<T>`;
  - the confirmation dialog's answer is a `bool`;
  - the clock and new document ids are given values;
  - `formatDate` is a function parameter.

## Model

| member | source | states |
|---|---|---|
| Common.Filter | src/pages/Participants.jsx:36-40 | `Array.prototype.filter`: every kept element passes the predicate and comes from the input, every input element that passes is kept, and the result is no longer than the input |
| Common.FilterIsSubsequence | src/pages/Dashboard.jsx:220-234 | the filtered list is an order-preserving subsequence of the input |
| Common.FilterKeepsAll | src/pages/Participants.jsx:36-40 | a filter whose predicate holds everywhere returns the input unchanged |
| Common.FilterMembership | src/pages/Dashboard.jsx:220-234 | an element of the input is in the filtered list exactly when it passes the predicate |
| Common.FilterCongruent | src/pages/Dashboard.jsx:238 | filters by predicates that agree on every element are equal |
| Common.FilterPartition | src/pages/Dashboard.jsx:238-239 | the elements kept by a predicate and the elements kept by its negation add up to the whole input |
| Common.FilterCount | src/pages/Participants.jsx:36-40 | `filter` keeps a passing value exactly as often as it occurs in the input, and drops every occurrence of a failing one |
| Common.MathRound | src/pages/Dashboard.jsx:240 | `Math.round` lies within one half of its argument, with halves rounded up |
| Common.RoundHalfAway | src/components/CertificateDesigner.jsx:182-185 | `toFixed` on exact reals: within one half of the argument, with the sign kept, and a tie goes away from zero (strictly above `x - 0.5` for `x >= 0`, strictly below `x + 0.5` for `x < 0`) |
| Text.IncludesIffOccurs | src/pages/Participants.jsx:37-39 | `includes` holds exactly when the substring occurs at some position |
| Text.Includes | src/pages/Participants.jsx:37-39 | defines `s.includes(sub)`: `sub` is a prefix of `s` or of one of its suffixes |
| Text.IncludesEmpty | src/pages/Dashboard.jsx:228 | every string includes the empty string |
| Text.LowerChar | src/pages/Participants.jsx:37-39 | `toLowerCase` on one character: a capital A to Z becomes the letter 32 code points later (a to z), and every other character is unchanged |
| Text.ToLower | src/pages/Participants.jsx:37-39 | `toLowerCase` keeps the length and lower-cases each character |
| Text.ToLowerIdempotent | src/pages/Dashboard.jsx:226 | lower-casing twice is the same as lower-casing once |
| Text.LeadingSpaces | src/pages/VerifyParticipant.jsx:32 | counts the maximal run of white space at the start |
| Text.IsJsSpace | src/pages/VerifyParticipant.jsx:32 | defines the white space and line terminators `trim` removes |
| Text.TrailingSpaces | src/pages/VerifyParticipant.jsx:32 | counts the maximal run of white space at the end |
| Text.Trim | src/pages/VerifyParticipant.jsx:32 | `trim` gives a contiguous slice of its input obtained by dropping only white space at the front and at the back, and the slice neither starts nor ends with white space |
| Text.TrimBlank | src/pages/VerifyParticipant.jsx:32 | `!input.trim()` holds exactly when the input is all white space |
| Text.TrimKeepsInner | src/pages/VerifyParticipant.jsx:40 | a string with no white space at either end trims to itself |
| Text.IndexOf | src/pages/Upload.jsx:55 | None exactly when the character is absent; otherwise its first position |
| Text.DataUrlPayload | src/pages/Upload.jsx:55 | `split(',')[1]` of `header,payload` recovers the payload |
| Text.SplitSecond | src/pages/Upload.jsx:55 | defines `s.split(sep)[1]` (also used at src/pages/Dashboard.jsx:37): the text between the first and second separator, or undefined without a separator |
| Text.SplitSecondWithoutSeparator | src/pages/Dashboard.jsx:37 | a string without a comma has no second piece (`undefined`) |
| Text.LexLeTotal | src/services/firebaseService.js:41-45 | JavaScript string comparison is total |
| Text.LexLe | src/services/firebaseService.js:41-45 | defines JavaScript's `<=` on strings: lexicographic by character code, a prefix sorting first |
| Text.LexLeTransitive | src/services/firebaseService.js:41-45 | JavaScript string comparison is transitive |
| Text.LexLeAntisymmetric | src/services/firebaseService.js:41-45 | JavaScript string comparison is antisymmetric |
| Text.LexLeEmpty | src/services/firebaseService.js:42-43 | the empty date sorts at or below every date, and only `''` sorts at or below `''` |
| Designer.ClampPct | src/components/CertificateDesigner.jsx:144 | `Math.max(2, Math.min(98, v))` lies in [2, 98], keeps values already inside, and maps values outside to the nearer edge |
| Designer.ClampScale | src/components/CertificateDesigner.jsx:20-22 | scale in tenths clamped to [4, 30], keeping values inside and mapping values outside to the nearer edge |
| Designer.EffectiveScale | src/components/CertificateDesigner.jsx:157 | `scale \|\| 1`: a missing scale counts as 1.0, a set non-zero scale is kept, and the result is never 0 |
| Designer.PointerPct | src/components/CertificateDesigner.jsx:139-140 | the mouse's offset from the canvas origin, in percent of the canvas extent; a mouse position inside the canvas gives [0, 100] |
| Designer.DragPct | src/components/CertificateDesigner.jsx:34-40 | the new percentage differs from the starting one by the mouse delta in percent of the extent |
| Designer.ZeroDragKeepsPosition | src/components/CertificateDesigner.jsx:34-40 | a drag with zero mouse movement maps back to the field's own position |
| Designer.Dropped | src/components/CertificateDesigner.jsx:133-146 | an empty or already placed field leaves the map unchanged; otherwise exactly that field is added with clamped x and y and scale 1.0 |
| Designer.Moved | src/components/CertificateDesigner.jsx:148-153 | the field gets clamped x and y and keeps its scale (none if it was absent); every other entry is unchanged |
| Designer.Rescaled | src/components/CertificateDesigner.jsx:155-164 | None (the state update throws) exactly when the field is absent; otherwise only that field's scale changes, to clamp(current + delta) |
| Designer.Removed | src/components/CertificateDesigner.jsx:166-172 | exactly that key is deleted and every other entry is unchanged |
| Designer.DragToCurrentPosition | src/components/CertificateDesigner.jsx:151 | moving a field to its own in-bounds position leaves the map unchanged (clamping is idempotent) |
| Designer.DropThenDragSamePoint | src/components/CertificateDesigner.jsx:144-151 | after a drop, moving to the same mouse point changes nothing |
| Designer.EditStaysInBounds | src/components/CertificateDesigner.jsx:133-172 | each of drop, move, resize and remove keeps every position in [2, 98], and both every stored scale and the scale the renderer uses within the scale bounds |
| Designer.EditsStayInBounds | src/components/CertificateDesigner.jsx:155-164 | after any sequence of edits, including any number of ±0.1 steps, positions and scales stay within bounds |
| Designer.ExactFontPct | src/components/CertificateDesigner.jsx:179-180 | `fontPct·canvasW = baseFontPx·scale·100` before rounding |
| Designer.Round2 | src/components/CertificateDesigner.jsx:182-183 | `parseFloat(v.toFixed(2))` lies on the hundredths grid, within 0.005 of `v`, strictly closer on the side of zero, so it is the nearest hundredth with ties away from zero |
| Designer.Round3 | src/components/CertificateDesigner.jsx:185 | `parseFloat(v.toFixed(3))` lies on the thousandths grid, within 0.0005 of `v`, strictly closer on the side of zero, so it is the nearest thousandth with ties away from zero |
| Designer.ScaledRounding | src/components/CertificateDesigner.jsx:182-185 | rounding `v·k` to an integer and dividing by `k` lands on the `1/k` grid within half a step of `v`, ties away from zero |
| Designer.SavedEntry | src/components/CertificateDesigner.jsx:179-186 | the saved entry has scale `scale \|\| 1`, x and y rounded to hundredths (`Round2`), and fontPct the exact percentage rounded to thousandths (`Round3`), hence within 0.005 and 0.0005 of the exact values |
| Designer.SavedPositions | src/components/CertificateDesigner.jsx:174-189 | saving succeeds exactly when every key is a known field; on success there is one entry per placed field, each its saved entry |
| Designer.FontPctStableUnderViewport | src/components/CertificateDesigner.jsx:179-180 | the saved font size times the canvas width is the same for every canvas width |
| Designer.CertificateDesigner.constructor | src/components/CertificateDesigner.jsx:126 | the editor starts from the initial positions |
| Designer.CertificateDesigner.HandleDrop | src/components/CertificateDesigner.jsx:133-146 | the new map is `Dropped` at the mouse's percentages, and bounds are preserved |
| Designer.CertificateDesigner.UpdatePosition | src/components/CertificateDesigner.jsx:148-153 | the new map is `Moved`, and bounds are preserved |
| Designer.CertificateDesigner.UpdateScale | src/components/CertificateDesigner.jsx:155-164 | `ok` exactly when the field is placed; the new map is `Rescaled`, or unchanged when not ok; bounds are preserved |
| Designer.CertificateDesigner.RemoveField | src/components/CertificateDesigner.jsx:166-172 | the new map is `Removed`, and bounds are preserved |
| Designer.CertificateDesigner.HandleInternalSave | src/components/CertificateDesigner.jsx:174-190 | the `forEach` loop builds exactly `SavedPositions` of the current map, or the error for an unknown field |
| FirebaseService.InsertByDate | src/services/firebaseService.js:41-45 | inserting into a newest-first list gives a newest-first permutation with the new event added |
| FirebaseService.SortEvents | src/services/firebaseService.js:38-46 | `getEvents` gives a permutation of the events, sorted by date newest first, with missing dates last |
| FirebaseService.CheckedInParticipants | src/services/firebaseService.js:56-62 | keeps exactly the event's attendees whose `checkedIn` is `true` or `'true'` |
| FirebaseService.IsCheckedIn | src/services/firebaseService.js:61 | defines the service's test `checkedIn === true \|\| checkedIn === 'true'` |
| FirebaseService.CheckedInKeepsOrder | src/services/firebaseService.js:59-61 | the checked-in list keeps the query's order |
| FirebaseService.CertMapOf | src/services/firebaseService.js:86-91 | every queried `participantId` has an entry, and every entry comes from a queried document |
| FirebaseService.CertMapLastWins | src/services/firebaseService.js:87-90 | each entry is the participant's last document in query order |
| FirebaseService.CertificatesByEvent | src/services/firebaseService.js:83-92 | the `forEach` loop builds exactly the map of the event's certificates |
| FirebaseService.GetCertificate | src/services/firebaseService.js:71-81 | null exactly when no document matches both participant and event; otherwise the first match |
| FirebaseService.FindById | src/services/firebaseService.js:144 | `find` by id returns None exactly when no element has the id; otherwise an element with that id |
| FirebaseService.Merged | src/services/firebaseService.js:141-147 | the merge starts with all email hits in order, and everything after them is a PRN hit |
| FirebaseService.MergedFromHits | src/services/firebaseService.js:141-147 | every merged participant is an email hit or a PRN hit |
| FirebaseService.MergedCoversPrnHits | src/services/firebaseService.js:143-147 | every PRN hit's id is present in the merge |
| FirebaseService.MergedDistinct | src/services/firebaseService.js:196-202 | given email hits with distinct ids, the merge has no duplicate ids |
| FirebaseService.MergedSkipsEmailHits | src/services/firebaseService.js:143-146 | a PRN hit already among the email hits is not added again |
| FirebaseService.FoundOnlyAmongEmailHits | src/services/firebaseService.js:143-146 | for a PRN hit whose id no earlier PRN hit has, the `find` succeeds exactly when an email hit has that id |
| FirebaseService.MergedTailIsFilter | src/services/firebaseService.js:141-147 | for PRN hits with distinct ids, the part after the email hits is exactly the PRN hits whose id no email hit has, in query order |
| FirebaseService.MergeHits | src/services/firebaseService.js:141-147 | the push loops compute exactly `Merged` |
| FirebaseService.EventTitle | src/services/firebaseService.js:163 | `TitleOf` of an existing event; "Unknown Event" for a missing one |
| Records.TitleOf | src/services/certificateGenerator.js:108 | defines `event.eventName \|\| event.name`, shared by the generator and src/services/firebaseService.js:163 |
| Records.Truthy | src/pages/VerifyParticipant.jsx:45 | defines JavaScript truthiness of a `checkedIn` value: unset, `false` and `''` are falsy |
| FirebaseService.Gathered | src/services/firebaseService.js:154-172 | each result is a queried certificate (of the event, when scoped) and belongs to one of the participants |
| FirebaseService.EntriesOfQuery | src/services/firebaseService.js:155-170 | the entries for one participant's certificate query are theirs, come from the collection, and lie in the scope's event |
| FirebaseService.GatherCertificates | src/services/firebaseService.js:151-172 | the nested loops build exactly `Gathered` |
| FirebaseService.GatheredOwned | src/services/firebaseService.js:154-170 | every gathered certificate belongs to an attendee whose email or PRN is the identifier |
| FirebaseService.CertificatesByStudent | src/services/firebaseService.js:127-175 | an empty identifier gives []; otherwise the certificates of the merged email and PRN hits, each owned by a matching attendee |
| FirebaseService.CertificatesByStudentAndEvent | src/services/firebaseService.js:177-230 | an empty identifier or event gives []; otherwise the event's certificates of the merged hits within the event |
| FirebaseService.GetTemplateData | src/services/firebaseService.js:112-125 | null unless the event exists with template data; positions default to {} |
| FirebaseService.WithTemplate | src/services/firebaseService.js:100-110 | the merge write sets the four template fields (positions defaulting to {}), keeps the event's other fields and id, creates a missing event with the given id, and leaves other events unchanged |
| FirebaseService.WithoutTemplate | src/pages/Upload.jsx:64-70 | the update fails for a missing event; otherwise exactly the four template fields are deleted and nothing else changes |
| FirebaseService.UploadThenRead | src/services/firebaseService.js:100-125 | what is uploaded is read back, positions defaulting to {}; empty data reads back as no template |
| FirebaseService.ClearThenRead | src/pages/Upload.jsx:64-70 | after the template fields are deleted, `getTemplateData` finds no template |
| FirebaseService.EventStore.constructor | src/services/firebaseService.js:100-110 | the events collection starts as given |
| FirebaseService.EventStore.UploadCertificateTemplate | src/services/firebaseService.js:100-110 | the collection becomes `WithTemplate` of the old one |
| FirebaseService.EventStore.DeleteTemplateFields | src/pages/Upload.jsx:64-70 | ok exactly when the event exists; the collection becomes `WithoutTemplate`, or stays unchanged when it fails |
| FirebaseService.CertificateStore.constructor | src/services/firebaseService.js:94-97 | the certificates collection starts as given |
| FirebaseService.CertificateStore.SaveCertificateRecord | src/services/firebaseService.js:94-97 | exactly one record is appended, under a fresh id, which is returned |
| FirebaseService.CertificateStore.DeleteCertificate | src/services/firebaseService.js:21-25 | exactly the documents with that id are removed |
| FirebaseService.CertificateStore.DeleteCertificatesByEvent | src/services/firebaseService.js:27-36 | exactly the event's certificates are removed, and the count equals the number of matched documents |
| Generator.SelectTemplate | src/services/certificateGenerator.js:22-32 | "No certificate template found" exactly when the event is missing or neither a custom nor an event template exists; otherwise non-empty data |
| Generator.CustomTemplateWins | src/services/certificateGenerator.js:26-32 | custom data wins, and its kind is the custom MIME type or else the sniffed one |
| Generator.EventTemplateOtherwise | src/services/certificateGenerator.js:26-29 | without custom data, the event's template and its `templateType` are used |
| Generator.SniffedKind | src/services/certificateGenerator.js:31 | the sniffed kind is `image/png` exactly when the data starts with the PNG signature, else `image/jpeg` |
| Generator.CodecFor | src/services/certificateGenerator.js:47-51 | PNG decoding exactly when the MIME kind contains "png" |
| Generator.BuildPage | src/services/certificateGenerator.js:36-57 | a PDF gives its first page and size; any other kind gives one page of the image's size with the image drawn at (0, 0) at full size; a decoding failure is an error |
| Generator.PlaceText | src/services/certificateGenerator.js:80-92 | the size is fontPct/100·W, the baseline is exactly H − py/100·H, and the text is centred horizontally on px/100·W |
| Generator.FieldOps | src/services/certificateGenerator.js:73-75 | no drawing exactly when the placement is missing or the text is empty; otherwise the placed text |
| Generator.Baseline | src/services/certificateGenerator.js:81 | defines the baseline `height - (y/100)·height` |
| Generator.FontSize | src/services/certificateGenerator.js:82 | defines the font size `(fontPct/100)·width` |
| Generator.NameFont | src/services/certificateGenerator.js:78 | defines the name's font: the cursive font when it embedded, else Helvetica-Bold |
| Generator.DateText | src/services/certificateGenerator.js:109 | defines the date text: empty without a date, else the formatted date |
| Generator.TextOps | src/services/certificateGenerator.js:106-109 | defines the four `drawField` calls in source order: name, PRN, event title, date, with their fonts (`FieldFonts` states what each font draws) |
| Generator.Prepared | src/services/certificateGenerator.js:22-57 | defines everything before the fonts: template selection, base64 decoding, and the page built from a PDF or an image |
| Generator.YFlip | src/services/certificateGenerator.js:81 | py = 0 maps to H, py = 100 maps to 0, and a larger py is lower on the page |
| Generator.FontSizeFollowsCanvas | src/services/certificateGenerator.js:82 | together with the designer's save, the drawn size equals the editor's pixel size scaled by page width / canvas width (exactly before rounding, within an explicit bound after it) |
| Generator.ProportionalSize | src/services/certificateGenerator.js:82 | a size saved as a percentage of the canvas width is drawn at the same proportion of the page width |
| Generator.RoundedSizeBound | src/services/certificateGenerator.js:82 | the saved percentage's 3-decimal rounding moves the drawn size by at most 0.000005·pageW |
| Generator.CursiveFont | src/services/certificateGenerator.js:62-66 | the cursive font is embedded exactly when bytes were loaded; embedding undecodable bytes is an error |
| Generator.Positions | src/services/certificateGenerator.js:70 | placements come from the custom map, else the event's, else {} |
| Generator.FieldFonts | src/services/certificateGenerator.js:77-78 | the name is drawn in the cursive font or else Helvetica-Bold, PRN and date in Helvetica, and the event title in Helvetica-Bold |
| Generator.Generated | src/services/certificateGenerator.js:21-110 | a template or page failure propagates; a success keeps the prepared page's source and size and extends its operations |
| Generator.GeneratedOnSuccess | src/services/certificateGenerator.js:59-110 | once the page is prepared and the fonts embed, the certificate is that page with the name, PRN, event-name and date text drawn over it, in that order |
| Generator.MissingTemplateFails | src/services/certificateGenerator.js:22-24 | with no event, or no template data at all, generation fails with "No certificate template found" |
| Generator.ImageTemplatePage | src/services/certificateGenerator.js:43-57 | a successful image certificate is one page of the image's size whose first operation draws the image at full size |
| Generator.PdfTemplatePage | src/services/certificateGenerator.js:36-42 | a successful PDF-template certificate draws on the template's first page, at its size |
| Generator.CertificateGenerator.constructor | src/services/certificateGenerator.js:6 | the font cache starts empty |
| Generator.CertificateGenerator.LoadCursiveFont | src/services/certificateGenerator.js:8-18 | cached bytes are returned without a fetch; a failed fetch returns null and leaves the cache empty; a successful fetch fills the cache |
| Generator.CachedFont | src/services/certificateGenerator.js:9-16 | the cached bytes when there are some, else the fetched bytes, and nothing after a failed fetch |
| Generator.CertificateGenerator.Generate | src/services/certificateGenerator.js:21-122 | the result is the saved PDF of `Generated`, or its error; the font is fetched once, and only when the page was prepared and no bytes were cached (`fetches`); the cache follows `LoadCursiveFont`; exactly one record {participantId, eventId, pdfData, generatedAt} with pdfData equal to the result is saved on success, and none on failure |
| Participants.FilterParticipants | src/pages/Participants.jsx:36-40 | keeps a participant exactly when its lower-cased name, PRN or email contains the lower-cased term, each kept record as often as it occurs in the input |
| Participants.MatchesTerm | src/pages/Participants.jsx:37-39 | defines the page's search: the lower-cased term occurs in the lower-cased name, PRN or email |
| Participants.EmptyTermKeepsAll | src/pages/Participants.jsx:36-40 | an empty search term keeps every participant |
| Participants.FilterKeepsOrder | src/pages/Participants.jsx:36 | the result is an order-preserving subsequence of the input |
| Participants.SearchIgnoresCase | src/pages/Participants.jsx:37-39 | the search does not depend on the case of the term |
| VerifyParticipant.CertificateOf | src/pages/VerifyParticipant.jsx:48-53 | the result carries a certificate exactly when its status is ready, and then the found one |
| VerifyParticipant.FindByIdentifier | src/pages/VerifyParticipant.jsx:39-41 | None exactly when no attendee's PRN or email equals the key; otherwise the first attendee that does |
| VerifyParticipant.Classify | src/pages/VerifyParticipant.jsx:38-54 | not found when no attendee matches; else not checked in when `checkedIn` is falsy; else no certificate when there is none; else ready with `getCertificate`'s result |
| VerifyParticipant.ReadyCertificateMatches | src/pages/VerifyParticipant.jsx:48-52 | a ready certificate belongs to the matched participant and the selected event, and that participant has the key as PRN or email |
| VerifyParticipant.CheckedInReadings | src/pages/VerifyParticipant.jsx:45 | the dashboard's checked-in test implies the lookup page's, but the string 'false' passes the lookup page's test and fails the dashboard's |
| VerifyParticipant.VerifyPage.constructor | src/pages/VerifyParticipant.jsx:9-12 | no event, empty input and no result |
| VerifyParticipant.VerifyPage.HandleLookup | src/pages/VerifyParticipant.jsx:29-61 | no event, or blank input, gives its message and no lookup; otherwise the old result is cleared and then set to `Classify` of the trimmed input, or "Lookup failed" when a query fails |
| VerifyParticipant.VerifyPage.DownloadData | src/pages/VerifyParticipant.jsx:63-65 | something to open exactly when the result is ready with non-empty `pdfData` |
| Dashboard.FilteredParticipants | src/pages/Dashboard.jsx:220-234 | a participant is shown exactly when it passes the tab and the search, as often as it occurs in the list, and the result keeps list order |
| Dashboard.MatchesTab | src/pages/Dashboard.jsx:221-224 | defines the tab test: all, with a certificate, or without one |
| Dashboard.MatchesSearch | src/pages/Dashboard.jsx:226-231 | defines the dashboard's search: an empty query, or the lower-cased query in the lower-cased name, PRN or email |
| Dashboard.SearchAgreesWithParticipantsPage | src/pages/Dashboard.jsx:226-231 | the dashboard's search, with its empty-query shortcut, accepts the same participants as the participants page's search |
| Dashboard.TabsSplitList | src/pages/Dashboard.jsx:221-224 | without a search, All keeps everyone, and Generated and Pending split it |
| Dashboard.ComputeStats | src/pages/Dashboard.jsx:236-241 | generated + pending = total; rate is 0 for no participants, else round(100·generated/total), and always in [0, 100] |
| Dashboard.StatsMatchTabs | src/pages/Dashboard.jsx:223-224 | the Generated and Pending counters equal the sizes of the Generated and Pending tabs |
| Dashboard.HandleGenerateAll | src/pages/Dashboard.jsx:307-328 | nothing when nobody is pending or the user declines; otherwise pending participants are generated in list order, stopping at the first failure, and the count is the number of successful calls |
| Dashboard.PdfToOpen | src/pages/Dashboard.jsx:243-248 | a PDF to open exactly when the participant has a certificate with data |
| Dashboard.ActionFor | src/pages/Dashboard.jsx:464-485 | Preview/Delete when a certificate exists, else Regenerate for a just-deleted participant, else Generate |
| Dashboard.JustDeletedOnlyGrowsAction | src/pages/Dashboard.jsx:278 | Regenerate, once offered, stays offered as the just-deleted set grows |
| Dashboard.RegenerateModal.constructor | src/pages/Dashboard.jsx:23-27 | the dialog starts on the event's template with no file |
| Dashboard.RegenerateModal.HandleFile | src/pages/Dashboard.jsx:32-40 | only a file whose type starts with `image/` is taken, with its data-URL payload; anything else changes nothing |
| Dashboard.RegenerateModal.ActionArgs | src/pages/Dashboard.jsx:61-64 | the custom template and its kind are forwarded only for a new template, and null otherwise |
| Dashboard.DashboardPage.constructor | src/pages/Dashboard.jsx:178-190 | the page starts with the loaded data and an empty just-deleted set |
| Dashboard.DashboardPage.HandleGenerate | src/pages/Dashboard.jsx:259-270 | nothing without a current event or active event id; otherwise exactly the generator's result for the current event and the chosen template, with the font cache and the fetch count updated as the generator does, and the store changed only on success |
| Dashboard.DashboardPage.HandleDeleteAll | src/pages/Dashboard.jsx:288-305 | nothing when the Generated counter is 0 or the user declines; otherwise all the event's certificates are deleted and the counter is reported |
| Dashboard.DashboardPage.HandleDelete | src/pages/Dashboard.jsx:272-286 | after confirmation the certificate is deleted and the participant added to the just-deleted set, which never shrinks |
| Upload.CheckFile | src/pages/Upload.jsx:42-51 | wrong type exactly when the type is not `image/png` or `image/jpeg`; too large exactly when the type is right and the size exceeds 750·1024; otherwise accepted |
| Upload.AllowedType | src/pages/Upload.jsx:43-44 | defines the accepted MIME types `image/png` and `image/jpeg` |
| Upload.SizeLimitIsInclusive | src/pages/Upload.jsx:48 | exactly 750·1024 bytes is accepted, and one byte more is refused |
| Upload.TypeIsCheckedFirst | src/pages/Upload.jsx:44-51 | a wrong-type file gets the type error whatever its size |
| Upload.AcceptedTemplateCodec | src/pages/Upload.jsx:43 | an accepted template is an `image/` type, and the generator decodes it as PNG exactly when it is `image/png` |
| Upload.UploadPage.constructor | src/pages/Upload.jsx:17-23 | no selection and no known template |
| Upload.UploadPage.CheckTemplate | src/pages/Upload.jsx:26-36 | a template found for the active event is shown; no template or a failed read leaves the page unchanged |
| Upload.UploadPage.HandleFile | src/pages/Upload.jsx:42-59 | the result is `CheckFile`, and only an accepted file sets the selected file and base64, the part after the comma |
| Upload.UploadPage.CancelSelection | src/pages/Upload.jsx:178 | the designer's Cancel drops the selection |
| Upload.UploadPage.HandleSave | src/pages/Upload.jsx:80-106 | saves exactly when the active event, file and base64 are all present, writing the template, type, name and positions |
| Upload.UploadPage.ClearExistingTemplate | src/pages/Upload.jsx:61-78 | after confirmation with an active event, exactly the four template fields are deleted; when the update succeeds the template and the selection are forgotten |

## Left out

- I/O is not modelled. The font fetch, Firestore reads and writes, `FileReader`, `atob`, `Blob`, `window.open` and `window.confirm` become parameters or given values. Failures are modelled where the code handles them: the font fetch, the lookup page's queries and the template read. Store writes always succeed.
- The internals of pdf-lib and fontkit are abstract. Loading, embedding, `widthOfTextAtSize` and `saveAsBase64` are fields of `PdfLib`, and pages are lists of draw operations.
- `formatDate` is a parameter: locale date formatting is out of scope.
- Binary floating point is not modelled. `toFixed`, `parseFloat` and `Math.round` are stated on exact reals, and the designer's scale is whole tenths. `updateScale` therefore does not reproduce float error before `toFixed(1)`.
- `toLowerCase` maps only the Latin capitals A to Z. Other Unicode case mappings are not modelled.
- JavaScript compares strings by UTF-16 code unit. The model compares `char` values, which agree for text in the Basic Multilingual Plane.
- FirebaseService.SortEvents: this is an insertion sort with the comparator's order. That the original `sort` is stable is not proved.
- FirebaseService.CertificatesByStudent: the source sorts its results by `new Date(generatedAt)` (src/services/firebaseService.js:174). That sort is not modelled; the results keep their gathering order.
- Designer.CertificateDesigner.HandleDrop and Designer.CertificateDesigner.HandleInternalSave: both require a canvas of positive size. The source divides by `rect.width`, `rect.height` or the canvas width, and for a zero-size canvas it computes NaN or Infinity, which exact reals cannot represent.
- FirebaseService.WithTemplate, FirebaseService.UploadThenRead, FirebaseService.EventStore.UploadCertificateTemplate and Upload.UploadPage.HandleSave: the write replaces the four template fields at top level. Firestore's `setDoc(..., {merge: true})` (src/services/firebaseService.js:108) merges the nested `fieldPositions` map key by key, and that is not modelled. What this loses: after a save the designer stays open (src/pages/Upload.jsx:167-179), so a second save after a field was removed in it keeps the removed field's stored entry. `getTemplateData` then still returns that entry, and `generate` still draws the field. The model's read-back (`UploadThenRead`) gives exactly the saved positions instead.
- FirebaseService.CertificateStore.DeleteCertificatesByEvent: the `Promise.all` of single deletes is one filter over the collection. Concurrency and partial failure are left out.
- Dashboard.HandleGenerateAll: the outcome of each call to `generate` is a given function of its position in the batch. The calls are not chained to the generator's state.
- Dashboard.DashboardPage.HandleDelete: a failing delete is not modelled.
- `loadData`, toasts, timers, `getEventById` and `getAllParticipants` are not modelled. These are plain reads and display code with no logic of their own; the pages receive their results as values.
- The date sort of the lookup page's event list is not modelled, and neither are the events, login, navigation and download pages.
- Where the code departs from the intended behaviour, the model follows the code:
  - A drop of an unknown field kind is meant to be ignored. The code does not check the key. Through the page an unknown key never reaches saving: the next render already throws, on `config.baseFontPx` with `config` undefined (src/components/CertificateDesigner.jsx:62, fed by :240) and on `FIELDS_CONFIG[key].label` (:308). The model keeps the save step as written: `Designer.SavedPositions` reports an error for an unknown key.
  - The image branch is commented `Image template (PNG/JPG)` (src/services/certificateGenerator.js:44), and the upload page accepts only `image/png` and `image/jpeg` (src/pages/Upload.jsx:43). The code decodes any other non-PDF kind without "png" in it as JPEG (`Generator.CodecFor`).
  - `updatePosition` for a field that is not placed adds it without a scale (`Designer.Moved`).
- The two pages read `checkedIn` differently. The lookup page treats any truthy value as checked in, while the dashboard's query accepts only `true` and `'true'`. Both readings are modelled, and `VerifyParticipant.CheckedInReadings` shows where they part.
