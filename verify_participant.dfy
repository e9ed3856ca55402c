/**
 * The public lookup page: an attendee picks an event and types a PRN or an
 * email address, and learns whether a certificate is ready to download.
 */
module VerifyParticipant {
  import opened Common
  import opened Text
  import opened Records
  import FirebaseService

  datatype LookupStatus =
    | NotFound
    | NotCheckedIn(participant: Participant)
    | NoCertificate(participant: Participant)
    | Ready(participant: Participant, certificate: CertDoc)

  /** The certificate a result carries: only a ready result carries one. */
  function CertificateOf(s: LookupStatus): (c: Option<CertDoc>)
    ensures c.Some? <==> s.Ready?
    ensures s.Ready? ==> c == Some(s.certificate)
  {
    if s.Ready? then Some(s.certificate) else None
  }

  predicate IdentifiedBy(p: Participant, key: string) {
    p.prn == key || p.email == key
  }

  /** Position `i` holds the first participant identified by `key`. */
  predicate FirstIdentifiedAt(ps: seq<Participant>, key: string, i: int) {
    && 0 <= i < |ps| && IdentifiedBy(ps[i], key)
    && forall j :: 0 <= j < i ==> !IdentifiedBy(ps[j], key)
  }

  /** The first participant whose PRN or email equals `key` exactly. */
  function FindByIdentifier(ps: seq<Participant>, key: string): (r: Option<Participant>)
    ensures r.None? <==> forall i :: 0 <= i < |ps| ==> !IdentifiedBy(ps[i], key)
    ensures r.Some? ==> exists i :: FirstIdentifiedAt(ps, key, i) && ps[i] == r.value
  {
    if ps == [] then None
    else if IdentifiedBy(ps[0], key) then Some(ps[0])
    else
      var r := FindByIdentifier(ps[1..], key);
      assert r.Some? ==> exists i :: FirstIdentifiedAt(ps, key, i) && ps[i] == r.value by {
        if r.Some? {
          var i :| FirstIdentifiedAt(ps[1..], key, i) && ps[1..][i] == r.value;
          forall j | 0 <= j < i + 1 ensures !IdentifiedBy(ps[j], key) {
            if j > 0 { assert ps[j] == ps[1..][j - 1]; }
          }
          assert FirstIdentifiedAt(ps, key, i + 1);
        }
      }
      assert r.None? ==> forall i :: 0 <= i < |ps| ==> !IdentifiedBy(ps[i], key) by {
        if r.None? {
          forall i | 0 < i < |ps| ensures !IdentifiedBy(ps[i], key) {
            assert ps[i] == ps[1..][i - 1];
          }
        }
      }
      r
  }

  /**
   * The lookup's verdict, given the event's attendees and the certificates
   * collection: not found, else not checked in (by truthiness of `checkedIn`),
   * else no certificate, else ready with the certificate.
   */
  function Classify(attendees: seq<Participant>, certs: seq<CertDoc>, eventId: string, key: string): (s: LookupStatus)
    ensures s.NotFound? <==> FindByIdentifier(attendees, key).None?
    ensures !s.NotFound? ==> s.participant == FindByIdentifier(attendees, key).value
    ensures s.NotCheckedIn? <==> !s.NotFound? && !Truthy(s.participant.checkedIn)
    ensures s.NoCertificate? <==> (!s.NotFound? && Truthy(s.participant.checkedIn)
      && FirebaseService.GetCertificate(certs, s.participant.id, eventId).None?)
    ensures s.Ready? ==> Some(s.certificate) == FirebaseService.GetCertificate(certs, s.participant.id, eventId)
  {
    match FindByIdentifier(attendees, key)
    case None => NotFound
    case Some(p) =>
      if !Truthy(p.checkedIn) then NotCheckedIn(p)
      else match FirebaseService.GetCertificate(certs, p.id, eventId)
        case None => NoCertificate(p)
        case Some(c) => Ready(p, c)
  }

  /** A ready verdict's certificate belongs to the participant found and to the selected event. */
  lemma ReadyCertificateMatches(attendees: seq<Participant>, certs: seq<CertDoc>, eventId: string, key: string)
    ensures var s := Classify(attendees, certs, eventId, key);
      s.Ready? ==> (s.certificate in certs && s.certificate.participantId == s.participant.id
        && s.certificate.eventId == eventId && IdentifiedBy(s.participant, key))
  {
    var s := Classify(attendees, certs, eventId, key);
    if s.Ready? {
      var c := FirebaseService.GetCertificate(certs, s.participant.id, eventId);
      var i :| FirebaseService.FirstCertAt(certs, s.participant.id, eventId, i) && certs[i] == c.value;
    }
  }

  /**
   * This page and the data service read `checkedIn` differently: the string
   * 'false' counts here as checked in, while the service's checked-in list
   * leaves that attendee out. Whatever the service keeps, this page accepts.
   */
  lemma CheckedInReadings(p: Participant)
    ensures FirebaseService.IsCheckedIn(p) ==> Truthy(p.checkedIn)
    ensures var q := p.(checkedIn := StringFlag("false")); Truthy(q.checkedIn) && !FirebaseService.IsCheckedIn(q)
  {
  }

  const SELECT_EVENT_MESSAGE := "Please select an event"
  const ENTER_IDENTIFIER_MESSAGE := "Please enter your PRN or email"
  const LOOKUP_FAILED_MESSAGE := "Lookup failed"

  class VerifyPage {
    var selectedEventId: string
    var input: string
    var result: Option<LookupStatus>

    constructor ()
      ensures selectedEventId == "" && input == "" && result.None?
    {
      selectedEventId := "";
      input := "";
      result := None;
    }

    /**
     * `handleLookup`, given what the attendee query and the certificate query
     * return. No event or a blank input: a message and no lookup. Otherwise the
     * old result is cleared; then the verdict, or a message when a query fails.
     */
    method HandleLookup(attendees: Fetch<seq<Participant>>, certs: Fetch<seq<CertDoc>>) returns (toast: Option<string>)
      modifies this
      ensures selectedEventId == old(selectedEventId) && input == old(input)
      ensures old(selectedEventId) == "" ==> toast == Some(SELECT_EVENT_MESSAGE) && result == old(result)
      ensures old(selectedEventId) != "" && Trim(old(input)) == "" ==> toast == Some(ENTER_IDENTIFIER_MESSAGE) && result == old(result)
      ensures selectedEventId != "" && Trim(input) != "" && attendees.FetchFailed? ==>
        toast == Some(LOOKUP_FAILED_MESSAGE) && result.None?
      ensures selectedEventId != "" && Trim(input) != "" && attendees.Fetched? ==>
        var key := Trim(input);
        var all := attendees.value;
        var found := FindByIdentifier(all, key);
        if found.Some? && Truthy(found.value.checkedIn) && certs.FetchFailed? then
          toast == Some(LOOKUP_FAILED_MESSAGE) && result.None?
        else
          toast.None? && result == Some(Classify(all, if certs.Fetched? then certs.value else [], selectedEventId, key))
    {
      if selectedEventId == "" {
        return Some(SELECT_EVENT_MESSAGE);
      }
      if Trim(input) == "" {
        return Some(ENTER_IDENTIFIER_MESSAGE);
      }
      result := None;
      if attendees.FetchFailed? {
        return Some(LOOKUP_FAILED_MESSAGE);
      }
      var key := Trim(input);
      var participant := FindByIdentifier(attendees.value, key);
      if participant.None? {
        result := Some(NotFound);
      } else if !Truthy(participant.value.checkedIn) {
        result := Some(NotCheckedIn(participant.value));
      } else {
        if certs.FetchFailed? {
          return Some(LOOKUP_FAILED_MESSAGE);
        }
        var cert := FirebaseService.GetCertificate(certs.value, participant.value.id, selectedEventId);
        if cert.None? {
          result := Some(NoCertificate(participant.value));
        } else {
          result := Some(Ready(participant.value, cert.value));
        }
      }
      return None;
    }

    /** `handleDownload`: the PDF data to open, or None (nothing happens) without a ready certificate that has data. */
    function DownloadData(): (d: Option<string>)
      reads this
      ensures d.Some? <==> result.Some? && result.value.Ready? && result.value.certificate.pdfData != ""
      ensures d.Some? ==> d.value == result.value.certificate.pdfData
    {
      if result.Some? && result.value.Ready? && result.value.certificate.pdfData != "" then Some(result.value.certificate.pdfData)
      else None
    }
  }
}
