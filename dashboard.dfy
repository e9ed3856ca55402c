/**
 * The dashboard of one event: the checked-in attendees with their
 * certificate state, a tab filter and a search box, the counters, and the
 * buttons that generate, delete and regenerate certificates.
 */
module Dashboard {
  import opened Common
  import opened Text
  import opened Records
  import FirebaseService
  import Generator
  import Participants

  // ---- filter and search ----

  datatype FilterTab = All | Generated | Pending

  /** `certMap[p.id]` is truthy: a certificate document exists for the participant. */
  predicate HasCert(certMap: map<string, CertDoc>, p: Participant) {
    p.id in certMap
  }

  predicate MatchesTab(tab: FilterTab, certMap: map<string, CertDoc>, p: Participant) {
    match tab
    case All => true
    case Generated => HasCert(certMap, p)
    case Pending => !HasCert(certMap, p)
  }

  /** An empty query matches everyone; otherwise a case-insensitive substring of the name, PRN or email. */
  predicate MatchesSearch(p: Participant, searchTerm: string) {
    var q := ToLower(searchTerm);
    q == "" || Includes(ToLower(p.name), q) || Includes(ToLower(p.prn), q) || Includes(ToLower(p.email), q)
  }

  predicate Shown(tab: FilterTab, certMap: map<string, CertDoc>, searchTerm: string, p: Participant) {
    MatchesTab(tab, certMap, p) && MatchesSearch(p, searchTerm)
  }

  /** The rows the table shows, in list order. */
  function FilteredParticipants(ps: seq<Participant>, certMap: map<string, CertDoc>, tab: FilterTab, searchTerm: string): (r: seq<Participant>)
    ensures forall i :: 0 <= i < |ps| ==> (ps[i] in r <==> Shown(tab, certMap, searchTerm, ps[i]))
    ensures IsSubsequence(r, ps)
    ensures forall p :: multiset(r)[p] == if Shown(tab, certMap, searchTerm, p) then multiset(ps)[p] else 0
  {
    var keep := (p: Participant) => Shown(tab, certMap, searchTerm, p);
    var r := Filter(ps, keep);
    FilterCount(ps, keep);
    FilterIsSubsequence(ps, keep);
    FilterMembership(ps, keep);
    r
  }

  /** The dashboard's search and the participants page's search accept the same participants. */
  lemma SearchAgreesWithParticipantsPage(p: Participant, searchTerm: string)
    ensures MatchesSearch(p, searchTerm) == Participants.MatchesTerm(p, searchTerm)
  {
    if ToLower(searchTerm) == "" {
      IncludesEmpty(ToLower(p.name));
    }
  }

  /** Without a search, the Generated and Pending tabs split the All tab. */
  lemma TabsSplitList(ps: seq<Participant>, certMap: map<string, CertDoc>)
    ensures |FilteredParticipants(ps, certMap, Generated, "")| + |FilteredParticipants(ps, certMap, Pending, "")|
      == |FilteredParticipants(ps, certMap, All, "")| == |ps|
  {
    assert ToLower("") == "";
    FilterPartition(ps, p => Shown(Generated, certMap, "", p), p => Shown(Pending, certMap, "", p));
    FilterKeepsAll(ps, p => Shown(All, certMap, "", p));
  }

  // ---- counters ----

  datatype Stats = Stats(total: nat, generated: nat, pending: int, rate: int)

  /** The counters over the checked-in list: generated and pending add up to the total, the rate is a rounded percentage. */
  function ComputeStats(ps: seq<Participant>, certMap: map<string, CertDoc>): (s: Stats)
    ensures s.total == |ps| && s.generated <= s.total
    ensures s.generated + s.pending == s.total
    ensures 0 <= s.rate <= 100
    ensures s.total == 0 ==> s.rate == 0
    ensures s.total > 0 ==> s.rate == MathRound((s.generated as real / s.total as real) * 100.0)
  {
    var generated := |Filter(ps, p => HasCert(certMap, p))|;
    var rate := if |ps| > 0 then PercentInRange(generated, |ps|); MathRound((generated as real / |ps| as real) * 100.0) else 0;
    Stats(|ps|, generated, |ps| - generated, rate)
  }

  /** A rounded share of a positive total lies between 0 and 100. */
  lemma PercentInRange(part: nat, total: nat)
    requires part <= total && total > 0
    ensures 0 <= MathRound((part as real / total as real) * 100.0) <= 100
  {
    var q := part as real / total as real;
    assert q * total as real == part as real;
    assert 0.0 <= q <= 1.0;
  }

  /** The Generated and Pending counters are the sizes of the Generated and Pending tabs without a search. */
  lemma StatsMatchTabs(ps: seq<Participant>, certMap: map<string, CertDoc>)
    ensures ComputeStats(ps, certMap).generated == |FilteredParticipants(ps, certMap, Generated, "")|
    ensures ComputeStats(ps, certMap).pending == |FilteredParticipants(ps, certMap, Pending, "")|
  {
    assert ToLower("") == "";
    FilterCongruent(ps, p => HasCert(certMap, p), p => Shown(Generated, certMap, "", p));
    TabsSplitList(ps, certMap);
  }

  // ---- generate all ----

  /** The participants without a certificate, in list order. */
  function PendingOf(ps: seq<Participant>, certMap: map<string, CertDoc>): seq<Participant> {
    Filter(ps, p => !HasCert(certMap, p))
  }

  /**
   * `handleGenerateAll`: after the confirmation, `generate` for each pending
   * participant in order, stopping at the first call that throws. `outcome(k)`
   * says whether the k-th call succeeds. Returns the participants a call was
   * made for, the success count, and whether the batch stopped on an error.
   */
  method HandleGenerateAll(ps: seq<Participant>, certMap: map<string, CertDoc>, confirmed: bool, outcome: nat -> bool)
    returns (attempted: seq<Participant>, count: nat, failed: bool)
    ensures PendingOf(ps, certMap) == [] || !confirmed ==> attempted == [] && count == 0 && !failed
    ensures PendingOf(ps, certMap) != [] && confirmed ==>
      var pending := PendingOf(ps, certMap);
      && count <= |pending|
      && (forall k :: 0 <= k < count ==> outcome(k))
      && (failed <==> count < |pending|)
      && (failed ==> !outcome(count))
      && attempted == pending[..if failed then count + 1 else count]
  {
    var pending := PendingOf(ps, certMap);
    if |pending| == 0 {
      return [], 0, false;
    }
    if !confirmed {
      return [], 0, false;
    }
    attempted, count, failed := [], 0, false;
    while count < |pending|
      invariant count <= |pending|
      invariant forall k :: 0 <= k < count ==> outcome(k)
      invariant attempted == pending[..count]
    {
      attempted := attempted + [pending[count]];
      if !outcome(count) {
        failed := true;
        break;
      }
      count := count + 1;
    }
  }

  // ---- preview ----

  /** `handleDownload`: the PDF payload to open, or None ("No PDF data found") when there is no certificate or it holds no data. */
  function PdfToOpen(certMap: map<string, CertDoc>, participantId: string): (r: Option<string>)
    ensures r.Some? <==> participantId in certMap && certMap[participantId].pdfData != ""
    ensures r.Some? ==> r.value == certMap[participantId].pdfData
  {
    if participantId in certMap && certMap[participantId].pdfData != "" then Some(certMap[participantId].pdfData) else None
  }

  // ---- the action column ----

  datatype RowAction = PreviewAndDelete(certificateId: string) | Regenerate | Generate

  /** A row's buttons: the certificate's, else Regenerate for a participant whose certificate was just deleted, else Generate. */
  function ActionFor(certMap: map<string, CertDoc>, justDeleted: set<string>, p: Participant): (a: RowAction)
    ensures a.PreviewAndDelete? <==> HasCert(certMap, p)
    ensures a.PreviewAndDelete? ==> a.certificateId == certMap[p.id].id
    ensures a == Regenerate <==> !HasCert(certMap, p) && p.id in justDeleted
    ensures a == Generate <==> !HasCert(certMap, p) && p.id !in justDeleted
  {
    if p.id in certMap then PreviewAndDelete(certMap[p.id].id)
    else if p.id in justDeleted then Regenerate
    else Generate
  }

  /** Once a participant is marked as just deleted, any larger set keeps offering Regenerate rather than Generate. */
  lemma JustDeletedOnlyGrowsAction(certMap: map<string, CertDoc>, d1: set<string>, d2: set<string>, p: Participant)
    requires d1 <= d2 && ActionFor(certMap, d1, p) == Regenerate
    ensures ActionFor(certMap, d2, p) == Regenerate
  {
  }

  // ---- the regenerate dialog ----

  datatype TemplateChoice = CurrentTemplate | NewTemplate

  /** What the dialog passes to `handleGenerate`: a custom template and kind only for a new template, null ("" here) otherwise. */
  datatype GenerateArgs = GenerateArgs(customTemplate: string, customPositions: Option<Placements>, customMime: string)

  class RegenerateModal {
    var participant: Participant
    var templateType: TemplateChoice
    var newTemplate: string
    var newMime: string
    var fileName: string

    constructor (p: Participant)
      ensures participant == p && templateType == CurrentTemplate && newTemplate == "" && newMime == "" && fileName == ""
    {
      participant := p;
      templateType := CurrentTemplate;
      newTemplate := "";
      newMime := "";
      fileName := "";
    }

    /** A chosen or dropped file; only an `image/` type is taken, with its data-URL payload. */
    method HandleFile(file: Option<FileInfo>, dataUrl: string)
      modifies this
      ensures participant == old(participant) && templateType == old(templateType)
      ensures file.Some? && StartsWith(file.value.mimeType, "image/") ==>
        fileName == file.value.name && newMime == file.value.mimeType && newTemplate == SplitSecond(dataUrl, ',').GetOr("")
      ensures !(file.Some? && StartsWith(file.value.mimeType, "image/")) ==>
        fileName == old(fileName) && newMime == old(newMime) && newTemplate == old(newTemplate)
    {
      if file.Some? && StartsWith(file.value.mimeType, "image/") {
        fileName := file.value.name;
        newMime := file.value.mimeType;
        newTemplate := SplitSecond(dataUrl, ',').GetOr("");
      }
    }

    /** `handleAction`: the arguments forwarded with the participant. */
    function ActionArgs(fieldPositions: Option<Placements>): (a: GenerateArgs)
      reads this
      ensures a.customPositions == fieldPositions
      ensures templateType == NewTemplate ==> a.customTemplate == newTemplate && a.customMime == newMime
      ensures templateType == CurrentTemplate ==> a.customTemplate == "" && a.customMime == ""
    {
      if templateType == NewTemplate then GenerateArgs(newTemplate, fieldPositions, newMime)
      else GenerateArgs("", fieldPositions, "")
    }
  }

  // ---- the page ----

  class DashboardPage {
    var participants: seq<Participant>
    var certMap: map<string, CertDoc>
    var currentEvent: Option<EventDoc>
    var activeEventId: string
    var justDeleted: set<string>

    constructor (activeEventId: string, participants: seq<Participant>, certMap: map<string, CertDoc>, currentEvent: Option<EventDoc>)
      ensures this.activeEventId == activeEventId && this.participants == participants
      ensures this.certMap == certMap && this.currentEvent == currentEvent && justDeleted == {}
    {
      this.activeEventId := activeEventId;
      this.participants := participants;
      this.certMap := certMap;
      this.currentEvent := currentEvent;
      justDeleted := {};
    }

    /**
     * `handleGenerate`: nothing without a current event and an active event id;
     * otherwise the generator's result (None when nothing was attempted).
     */
    method HandleGenerate(participant: Participant, args: GenerateArgs,
                          generator: Generator.CertificateGenerator, lib: Generator.PdfLib, formatDate: string -> string,
                          fontResponse: Fetch<Generator.Bytes>, store: FirebaseService.CertificateStore, newId: string, now: string)
      returns (r: Option<Result<string, Generator.GenError>>)
      requires FirebaseService.IdUnused(store.docs, newId)
      modifies generator, store
      ensures currentEvent.None? || activeEventId == "" ==>
        r.None? && store.docs == old(store.docs) && generator.cursiveFontBytes == old(generator.cursiveFontBytes)
      ensures currentEvent.Some? && activeEventId != "" ==> r.Some?
      ensures r.Some? ==>
        var page := Generator.Generated(lib, formatDate, participant, currentEvent, args.customTemplate,
          args.customPositions, args.customMime, Generator.CachedFont(old(generator.cursiveFontBytes), fontResponse));
        r.value == if page.Failure? then Failure(page.error) else Success(lib.save(page.value))
      ensures r.Some? ==>
        var prepared := Generator.Prepared(lib, currentEvent, args.customTemplate, args.customMime);
        generator.cursiveFontBytes ==
          if prepared.Failure? then old(generator.cursiveFontBytes)
          else Generator.CachedFont(old(generator.cursiveFontBytes), fontResponse)
      ensures currentEvent.None? || activeEventId == "" ==> generator.fetches == old(generator.fetches)
      ensures r.Some? ==>
        generator.fetches ==
          if Generator.Prepared(lib, currentEvent, args.customTemplate, args.customMime).Failure?
             || old(generator.cursiveFontBytes).Some?
          then old(generator.fetches) else old(generator.fetches) + 1
      ensures r.Some? && r.value.Failure? ==> store.docs == old(store.docs)
      ensures r.Some? && r.value.Success? ==>
        store.docs == old(store.docs) + [CertDoc(newId, participant.id, activeEventId, r.value.value, now)]
    {
      if currentEvent.None? || activeEventId == "" {
        return None;
      }
      var result := generator.Generate(lib, formatDate, participant, currentEvent, activeEventId,
        args.customTemplate, args.customPositions, args.customMime, fontResponse, store, newId, now);
      return Some(result);
    }

    /**
     * `handleDeleteAll`: nothing when the Generated counter is zero or the user
     * declines; otherwise every certificate of the active event goes, and the
     * toast reports the counter's value.
     */
    method HandleDeleteAll(confirmed: bool, store: FirebaseService.CertificateStore) returns (reported: Option<nat>)
      modifies store
      ensures ComputeStats(participants, certMap).generated == 0 || !confirmed ==>
        reported.None? && store.docs == old(store.docs)
      ensures ComputeStats(participants, certMap).generated > 0 && confirmed ==>
        reported == Some(ComputeStats(participants, certMap).generated)
      ensures ComputeStats(participants, certMap).generated > 0 && confirmed ==>
        store.docs == Filter(old(store.docs), FirebaseService.NotInEvent(activeEventId))
    {
      var generatedCount := ComputeStats(participants, certMap).generated;
      if generatedCount == 0 || !confirmed {
        return None;
      }
      var _ := store.DeleteCertificatesByEvent(activeEventId);
      return Some(generatedCount);
    }

    /** `handleDelete`: after confirmation the certificate goes and the participant is marked as just deleted. */
    method HandleDelete(certificateId: string, participantId: string, confirmed: bool, store: FirebaseService.CertificateStore)
      modifies this, store
      ensures participants == old(participants) && certMap == old(certMap)
      ensures currentEvent == old(currentEvent) && activeEventId == old(activeEventId)
      ensures old(justDeleted) <= justDeleted
      ensures !confirmed ==> justDeleted == old(justDeleted) && store.docs == old(store.docs)
      ensures confirmed ==> justDeleted == old(justDeleted) + {participantId}
      ensures confirmed ==> store.docs == Filter(old(store.docs), (c: CertDoc) => c.id != certificateId)
    {
      if !confirmed {
        return;
      }
      store.DeleteCertificate(certificateId);
      justDeleted := justDeleted + {participantId};
    }
  }
}
