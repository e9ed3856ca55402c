/**
 * The data service: what it does with query results once the store has
 * returned them, and the three writes the core relies on (adding a
 * certificate record, deleting certificates, replacing an event's template).
 *
 * A collection the service queries is the sequence of its documents in the
 * order the store lists them; a `where` query is a `Filter` of it. The events
 * collection, which is only ever read by document id, is a map from id.
 */
module FirebaseService {
  import opened Common
  import opened Text
  import opened Records

  // ---- getEvents: newest date first ----

  /** Every date in `s` is at most `d`. */
  ghost predicate DatesAtMost(s: seq<EventDoc>, d: string) {
    forall i :: 0 <= i < |s| ==> LexLe(s[i].date, d)
  }

  /** The order the comparator of `getEvents` asks for: dates non-increasing. */
  ghost predicate NewestFirst(s: seq<EventDoc>) {
    forall i, j :: 0 <= i < j < |s| ==> LexLe(s[j].date, s[i].date)
  }

  /** Places `e` after every event of `s` dated at or after it. */
  function InsertByDate(s: seq<EventDoc>, e: EventDoc): (r: seq<EventDoc>)
    requires NewestFirst(s)
    ensures multiset(r) == multiset(s) + multiset{e}
    ensures forall i :: 0 <= i < |r| ==> r[i] == e || r[i] in s
    ensures NewestFirst(r)
  {
    if s == [] then [e]
    else if !LexLe(e.date, s[0].date) then
      assert DatesAtMost(s, e.date) by {
        LexLeTotal(e.date, s[0].date);
        forall i | 0 < i < |s| ensures LexLe(s[i].date, e.date) {
          LexLeTransitive(s[i].date, s[0].date, e.date);
        }
      }
      [e] + s
    else
      var tail := InsertByDate(s[1..], e);
      assert s == [s[0]] + s[1..];
      assert DatesAtMost(tail, s[0].date) by {
        LexLeTotal(s[0].date, s[0].date);
        forall i | 0 <= i < |tail| ensures LexLe(tail[i].date, s[0].date) {
          if tail[i] != e {
            var k :| 0 <= k < |s[1..]| && s[1..][k] == tail[i];
            assert s[k + 1] == tail[i];
          }
        }
      }
      [s[0]] + tail
  }

  /** `getEvents`' sort: a permutation of the events, newest date first, events without a date last. */
  function SortEvents(events: seq<EventDoc>): (r: seq<EventDoc>)
    ensures multiset(r) == multiset(events)
    ensures NewestFirst(r)
    ensures forall i, j :: 0 <= i < j < |r| && r[i].date == "" ==> r[j].date == ""
  {
    if events == [] then []
    else
      var n := |events| - 1;
      assert events == events[..n] + [events[n]];
      var r := InsertByDate(SortEvents(events[..n]), events[n]);
      assert forall i, j :: 0 <= i < j < |r| && r[i].date == "" ==> r[j].date == "" by {
        forall i, j | 0 <= i < j < |r| && r[i].date == "" ensures r[j].date == "" {
          LexLeEmpty(r[j].date);
        }
      }
      r
  }

  // ---- getCheckedInParticipants ----

  /** The service's reading of `checkedIn`: the boolean true or the string 'true', nothing else. */
  predicate IsCheckedIn(p: Participant) {
    p.checkedIn == BoolFlag(true) || p.checkedIn == StringFlag("true")
  }

  predicate CheckedInAt(eventId: string, p: Participant) {
    p.eventId == eventId && IsCheckedIn(p)
  }

  /** The attendees of `eventId` whose `checkedIn` is true or 'true', in store order. */
  function CheckedInParticipants(attendees: seq<Participant>, eventId: string): (r: seq<Participant>)
    ensures forall i :: 0 <= i < |r| ==> r[i] in attendees && r[i].eventId == eventId && IsCheckedIn(r[i])
    ensures forall i :: 0 <= i < |attendees| && attendees[i].eventId == eventId && IsCheckedIn(attendees[i]) ==> attendees[i] in r
  {
    Filter(attendees, p => CheckedInAt(eventId, p))
  }

  lemma CheckedInKeepsOrder(attendees: seq<Participant>, eventId: string)
    ensures IsSubsequence(CheckedInParticipants(attendees, eventId), attendees)
  {
    FilterIsSubsequence(attendees, p => CheckedInAt(eventId, p));
  }

  // ---- certificate queries ----

  function ByEvent(eventId: string): CertDoc -> bool {
    (c: CertDoc) => c.eventId == eventId
  }

  function NotInEvent(eventId: string): CertDoc -> bool {
    (c: CertDoc) => c.eventId != eventId
  }

  /** Position `i` holds the last document for participant `pid`. */
  predicate LastFor(snapshot: seq<CertDoc>, pid: string, i: int) {
    && 0 <= i < |snapshot| && snapshot[i].participantId == pid
    && forall j :: i < j < |snapshot| ==> snapshot[j].participantId != pid
  }

  /** The certificate map: the document for each participant id, built in listing order so later documents replace earlier ones. */
  function CertMapOf(snapshot: seq<CertDoc>): (m: map<string, CertDoc>)
    ensures forall i :: 0 <= i < |snapshot| ==> snapshot[i].participantId in m
    ensures forall pid :: pid in m ==> exists i :: 0 <= i < |snapshot| && snapshot[i].participantId == pid
  {
    if snapshot == [] then map[]
    else
      var n := |snapshot| - 1;
      assert forall i :: 0 <= i < n ==> snapshot[..n][i] == snapshot[i];
      CertMapOf(snapshot[..n])[snapshot[n].participantId := snapshot[n]]
  }

  /** The entry for a participant is the last document listed for them. */
  lemma {:induction false} CertMapLastWins(snapshot: seq<CertDoc>, pid: string)
    requires pid in CertMapOf(snapshot)
    ensures exists i :: LastFor(snapshot, pid, i) && snapshot[i] == CertMapOf(snapshot)[pid]
    decreases |snapshot|
  {
    var n := |snapshot| - 1;
    if pid == snapshot[n].participantId {
      assert LastFor(snapshot, pid, n);
    } else {
      CertMapLastWins(snapshot[..n], pid);
      var i :| LastFor(snapshot[..n], pid, i) && snapshot[..n][i] == CertMapOf(snapshot[..n])[pid];
      LastForExtends(snapshot, pid, i);
      assert snapshot[i] == CertMapOf(snapshot)[pid];
    }
  }

  /** A last position before a document of another participant stays the last one. */
  lemma LastForExtends(snapshot: seq<CertDoc>, pid: string, i: int)
    requires snapshot != [] && snapshot[|snapshot| - 1].participantId != pid
    requires LastFor(snapshot[..|snapshot| - 1], pid, i)
    ensures LastFor(snapshot, pid, i) && snapshot[i] == snapshot[..|snapshot| - 1][i]
  {
    var n := |snapshot| - 1;
    forall j | i < j < |snapshot| ensures snapshot[j].participantId != pid {
      if j < n {
        assert snapshot[..n][j] == snapshot[j];
      }
    }
  }

  /** `getCertificatesByEvent`: the `forEach` that fills the map, one document at a time. */
  method CertificatesByEvent(certs: seq<CertDoc>, eventId: string) returns (m: map<string, CertDoc>)
    ensures m == CertMapOf(Filter(certs, ByEvent(eventId)))
  {
    var snapshot := Filter(certs, ByEvent(eventId));
    m := map[];
    var i := 0;
    while i < |snapshot|
      invariant 0 <= i <= |snapshot|
      invariant m == CertMapOf(snapshot[..i])
    {
      assert snapshot[..i + 1][..i] == snapshot[..i];
      m := m[snapshot[i].participantId := snapshot[i]];
      i := i + 1;
    }
    assert snapshot[..i] == snapshot;
  }

  predicate IsCertOf(c: CertDoc, participantId: string, eventId: string) {
    c.participantId == participantId && c.eventId == eventId
  }

  /** Position `i` holds the first certificate of that participant for that event. */
  predicate FirstCertAt(certs: seq<CertDoc>, participantId: string, eventId: string, i: int) {
    && 0 <= i < |certs| && IsCertOf(certs[i], participantId, eventId)
    && forall j :: 0 <= j < i ==> !IsCertOf(certs[j], participantId, eventId)
  }

  /** `getCertificate`: the first certificate of that participant for that event, or None (null). */
  function GetCertificate(certs: seq<CertDoc>, participantId: string, eventId: string): (r: Option<CertDoc>)
    ensures r.None? <==> forall i :: 0 <= i < |certs| ==> !IsCertOf(certs[i], participantId, eventId)
    ensures r.Some? ==> exists i :: FirstCertAt(certs, participantId, eventId, i) && certs[i] == r.value
  {
    if certs == [] then None
    else if IsCertOf(certs[0], participantId, eventId) then
      assert FirstCertAt(certs, participantId, eventId, 0);
      Some(certs[0])
    else
      var r := GetCertificate(certs[1..], participantId, eventId);
      assert r.Some? ==> exists i :: FirstCertAt(certs, participantId, eventId, i) && certs[i] == r.value by {
        if r.Some? {
          var i :| FirstCertAt(certs[1..], participantId, eventId, i) && certs[1..][i] == r.value;
          forall j | 0 <= j < i + 1 ensures !IsCertOf(certs[j], participantId, eventId) {
            if j > 0 { assert certs[j] == certs[1..][j - 1]; }
          }
          assert FirstCertAt(certs, participantId, eventId, i + 1);
        }
      }
      assert r.None? ==> forall i :: 0 <= i < |certs| ==> !IsCertOf(certs[i], participantId, eventId) by {
        if r.None? {
          forall i | 0 < i < |certs| ensures !IsCertOf(certs[i], participantId, eventId) {
            assert certs[i] == certs[1..][i - 1];
          }
        }
      }
      r
  }

  // ---- the student lookup ----

  /** `participants.find(p => p.id === id)` */
  function FindById(s: seq<Participant>, id: string): (r: Option<Participant>)
    ensures r.None? <==> forall i :: 0 <= i < |s| ==> s[i].id != id
    ensures r.Some? ==> r.value in s && r.value.id == id
  {
    if s == [] then None
    else if s[0].id == id then Some(s[0])
    else FindById(s[1..], id)
  }

  predicate HasId(s: seq<Participant>, id: string) {
    exists i :: 0 <= i < |s| && s[i].id == id
  }

  predicate DistinctIds(s: seq<Participant>) {
    forall i, j :: 0 <= i < j < |s| ==> s[i].id != s[j].id
  }

  /**
   * The participants the email and PRN queries found together: every email hit
   * in order, then each PRN hit whose id is not already listed.
   */
  function Merged(emailHits: seq<Participant>, prnHits: seq<Participant>): (r: seq<Participant>)
    ensures |emailHits| <= |r| && r[..|emailHits|] == emailHits
    ensures forall i :: |emailHits| <= i < |r| ==> r[i] in prnHits
  {
    if prnHits == [] then emailHits
    else
      var n := |prnHits| - 1;
      var prev := Merged(emailHits, prnHits[..n]);
      assert forall i :: 0 <= i < n ==> prnHits[..n][i] == prnHits[i];
      if FindById(prev, prnHits[n].id).Some? then prev
      else
        var r := prev + [prnHits[n]];
        assert r[..|emailHits|] == prev[..|emailHits|];
        r
  }

  /** Each participant of the merge is an email hit or a PRN hit. */
  lemma MergedFromHits(emailHits: seq<Participant>, prnHits: seq<Participant>)
    ensures forall i :: 0 <= i < |Merged(emailHits, prnHits)| ==> Merged(emailHits, prnHits)[i] in emailHits + prnHits
  {
    var r := Merged(emailHits, prnHits);
    forall i | 0 <= i < |r| ensures r[i] in emailHits + prnHits {
      if i < |emailHits| {
        assert r[..|emailHits|][i] == r[i];
      }
    }
  }

  /** Every PRN hit is represented in the merge, by itself or by a participant with its id. */
  lemma {:induction false} MergedCoversPrnHits(emailHits: seq<Participant>, prnHits: seq<Participant>)
    ensures forall i :: 0 <= i < |prnHits| ==> HasId(Merged(emailHits, prnHits), prnHits[i].id)
    decreases |prnHits|
  {
    if prnHits != [] {
      var n := |prnHits| - 1;
      var prev := Merged(emailHits, prnHits[..n]);
      var r := Merged(emailHits, prnHits);
      MergedCoversPrnHits(emailHits, prnHits[..n]);
      assert forall k :: 0 <= k < |prev| ==> r[k] == prev[k];
      forall i | 0 <= i < |prnHits| ensures HasId(r, prnHits[i].id) {
        if i < n {
          assert prnHits[..n][i] == prnHits[i];
          var k :| 0 <= k < |prev| && prev[k].id == prnHits[i].id;
          assert r[k] == prev[k];
        } else if FindById(prev, prnHits[n].id).None? {
          assert r[|prev|] == prnHits[n];
        }
      }
    }
  }

  /** The merge lists no id twice when the email hits do not. */
  lemma {:induction false} MergedDistinct(emailHits: seq<Participant>, prnHits: seq<Participant>)
    requires DistinctIds(emailHits)
    ensures DistinctIds(Merged(emailHits, prnHits))
    decreases |prnHits|
  {
    if prnHits != [] {
      var n := |prnHits| - 1;
      MergedDistinct(emailHits, prnHits[..n]);
      var prev := Merged(emailHits, prnHits[..n]);
      if FindById(prev, prnHits[n].id).None? {
        var r := prev + [prnHits[n]];
        forall i, j | 0 <= i < j < |r| ensures r[i].id != r[j].id {
          if j == |prev| {
            assert r[i] == prev[i];
          } else {
            assert r[i] == prev[i] && r[j] == prev[j];
          }
        }
      }
    }
  }

  /** A PRN hit that is already among the email hits is not listed a second time. */
  lemma {:induction false} MergedSkipsEmailHits(emailHits: seq<Participant>, prnHits: seq<Participant>)
    ensures forall i :: |emailHits| <= i < |Merged(emailHits, prnHits)| ==> !HasId(emailHits, Merged(emailHits, prnHits)[i].id)
    decreases |prnHits|
  {
    if prnHits != [] {
      var n := |prnHits| - 1;
      var prev := Merged(emailHits, prnHits[..n]);
      MergedSkipsEmailHits(emailHits, prnHits[..n]);
      if FindById(prev, prnHits[n].id).None? {
        forall i | 0 <= i < |emailHits| ensures emailHits[i].id != prnHits[n].id {
          assert prev[..|emailHits|][i] == prev[i];
        }
        var r := prev + [prnHits[n]];
        assert Merged(emailHits, prnHits) == r;
        forall i | |emailHits| <= i < |r| ensures !HasId(emailHits, r[i].id) {
          if i < |prev| {
            assert r[i] == prev[i];
          } else {
            assert r[i] == prnHits[n];
          }
        }
      } else {
        assert Merged(emailHits, prnHits) == prev;
      }
    }
  }

  /** The test a PRN hit must pass to be added after the email hits. */
  function NotAmong(emailHits: seq<Participant>): Participant -> bool {
    (p: Participant) => !HasId(emailHits, p.id)
  }

  /** A PRN hit whose id no earlier PRN hit has is found in the merge so far exactly when an email hit has it. */
  lemma FoundOnlyAmongEmailHits(emailHits: seq<Participant>, init: seq<Participant>, x: Participant)
    requires forall i :: 0 <= i < |init| ==> init[i].id != x.id
    ensures FindById(Merged(emailHits, init), x.id).Some? <==> HasId(emailHits, x.id)
  {
    var prev := Merged(emailHits, init);
    if FindById(prev, x.id).Some? {
      var k :| 0 <= k < |prev| && prev[k].id == x.id;
      if k < |emailHits| {
        assert prev[..|emailHits|][k] == prev[k];
      }
    }
    if HasId(emailHits, x.id) {
      var k :| 0 <= k < |emailHits| && emailHits[k].id == x.id;
      assert prev[..|emailHits|][k] == prev[k];
    }
  }

  /** In a list with distinct ids, the last participant's id is not among the earlier ones, which are distinct too. */
  lemma LastIdIsNew(s: seq<Participant>, init: seq<Participant>)
    requires s != [] && DistinctIds(s) && init == s[..|s| - 1]
    ensures DistinctIds(init)
    ensures forall i :: 0 <= i < |init| ==> init[i].id != s[|s| - 1].id
  {
    assert forall i :: 0 <= i < |init| ==> init[i] == s[i];
  }

  /**
   * When the PRN hits carry distinct ids, what follows the email hits is exactly
   * the PRN hits whose id no email hit has, in the order of the PRN query.
   */
  lemma {:induction false} MergedTailIsFilter(emailHits: seq<Participant>, prnHits: seq<Participant>)
    requires DistinctIds(prnHits)
    ensures Merged(emailHits, prnHits)[|emailHits|..] == Filter(prnHits, NotAmong(emailHits))
    decreases |prnHits|
  {
    if prnHits != [] {
      var n := |prnHits| - 1;
      var init, x := prnHits[..n], prnHits[n];
      var prev := Merged(emailHits, init);
      LastIdIsNew(prnHits, init);
      MergedTailIsFilter(emailHits, init);
      FilterLast(prnHits, NotAmong(emailHits));
      FoundOnlyAmongEmailHits(emailHits, init, x);
      if FindById(prev, x.id).None? {
        assert (prev + [x])[|emailHits|..] == prev[|emailHits|..] + [x];
      }
    }
  }

  /** The loop over the PRN hits, with its `find` check, that builds the participant list. */
  method MergeHits(emailHits: seq<Participant>, prnHits: seq<Participant>) returns (participants: seq<Participant>)
    ensures participants == Merged(emailHits, prnHits)
  {
    participants := emailHits;
    var i := 0;
    while i < |prnHits|
      invariant 0 <= i <= |prnHits|
      invariant participants == Merged(emailHits, prnHits[..i])
    {
      assert prnHits[..i + 1][..i] == prnHits[..i];
      if FindById(participants, prnHits[i].id).None? {
        participants := participants + [prnHits[i]];
      }
      i := i + 1;
    }
    assert prnHits[..i] == prnHits;
  }

  /** One entry of the student lookup's result: a certificate with the names to show. */
  datatype StudentCertificate = StudentCertificate(cert: CertDoc, eventName: string, participantName: string)

  const UNKNOWN_EVENT := "Unknown Event"

  /** The title shown for an event id: its `eventName`, else its `name`, or "Unknown Event" when it does not exist. */
  function EventTitle(events: map<string, EventDoc>, eventId: string): (t: string)
    ensures eventId !in events ==> t == UNKNOWN_EVENT
    ensures eventId in events && events[eventId].eventName != "" ==> t == events[eventId].eventName
    ensures eventId in events && events[eventId].eventName == "" ==> t == events[eventId].name
  {
    if eventId !in events then UNKNOWN_EVENT else TitleOf(events[eventId])
  }

  /** The certificate query for one participant: all of theirs, or (with an event scope) theirs for that event. */
  function CertQuery(certs: seq<CertDoc>, participantId: string, scope: Option<string>): seq<CertDoc> {
    Filter(certs, (c: CertDoc) => c.participantId == participantId && (scope.None? || c.eventId == scope.value))
  }

  /** The event looked up for a certificate: its own event, or the scope's event in the event variant. */
  function LookupEventId(c: CertDoc, scope: Option<string>): string {
    if scope.Some? then scope.value else c.eventId
  }

  function Entries(p: Participant, cs: seq<CertDoc>, events: map<string, EventDoc>, scope: Option<string>): seq<StudentCertificate> {
    seq(|cs|, i requires 0 <= i < |cs| =>
      StudentCertificate(cs[i], EventTitle(events, LookupEventId(cs[i], scope)), p.name))
  }

  /** The entry was produced for participant `p`. */
  predicate BelongsTo(e: StudentCertificate, p: Participant) {
    e.cert.participantId == p.id && e.participantName == p.name
  }

  /** The results of the student lookup for a list of participants, in the order the loops produce them. */
  function Gathered(ps: seq<Participant>, certs: seq<CertDoc>, events: map<string, EventDoc>, scope: Option<string>): (r: seq<StudentCertificate>)
    ensures forall k :: 0 <= k < |r| ==> r[k].cert in certs && (scope.Some? ==> r[k].cert.eventId == scope.value)
    ensures forall k :: 0 <= k < |r| ==> exists i :: 0 <= i < |ps| && BelongsTo(r[k], ps[i])
  {
    if ps == [] then []
    else
      var n := |ps| - 1;
      var prev := Gathered(ps[..n], certs, events, scope);
      var more := Entries(ps[n], CertQuery(certs, ps[n].id, scope), events, scope);
      var r := prev + more;
      EntriesOfQuery(ps[n], certs, events, scope);
      forall k | 0 <= k < |r| ensures r[k].cert in certs && (scope.Some? ==> r[k].cert.eventId == scope.value)
        ensures exists i :: 0 <= i < |ps| && BelongsTo(r[k], ps[i])
      {
        if k < |prev| {
          var i :| 0 <= i < n && BelongsTo(prev[k], ps[..n][i]);
          assert ps[..n][i] == ps[i];
          assert BelongsTo(r[k], ps[i]);
        } else {
          assert r[k] == more[k - |prev|];
          assert BelongsTo(r[k], ps[n]);
        }
      }
      r
  }

  /** The entries for one participant's query are theirs, come from the collection, and lie in the scope's event. */
  lemma EntriesOfQuery(p: Participant, certs: seq<CertDoc>, events: map<string, EventDoc>, scope: Option<string>)
    ensures var more := Entries(p, CertQuery(certs, p.id, scope), events, scope);
      forall k :: 0 <= k < |more| ==>
        more[k].cert in certs && (scope.Some? ==> more[k].cert.eventId == scope.value) && BelongsTo(more[k], p)
  {
  }

  lemma EntriesSnoc(p: Participant, cs: seq<CertDoc>, j: nat, events: map<string, EventDoc>, scope: Option<string>)
    requires j < |cs|
    ensures Entries(p, cs[..j + 1], events, scope)
      == Entries(p, cs[..j], events, scope) + [StudentCertificate(cs[j], EventTitle(events, LookupEventId(cs[j], scope)), p.name)]
  {
  }

  /** The nested loops over the participants and over each one's certificates. */
  method GatherCertificates(ps: seq<Participant>, certs: seq<CertDoc>, events: map<string, EventDoc>, scope: Option<string>)
    returns (results: seq<StudentCertificate>)
    ensures results == Gathered(ps, certs, events, scope)
  {
    results := [];
    var i := 0;
    while i < |ps|
      invariant 0 <= i <= |ps|
      invariant results == Gathered(ps[..i], certs, events, scope)
    {
      var p := ps[i];
      var certSnap := CertQuery(certs, p.id, scope);
      ghost var before := results;
      var j := 0;
      while j < |certSnap|
        invariant 0 <= j <= |certSnap|
        invariant results == before + Entries(p, certSnap[..j], events, scope)
      {
        var c := certSnap[j];
        var eventName := EventTitle(events, LookupEventId(c, scope));
        EntriesSnoc(p, certSnap, j, events, scope);
        results := results + [StudentCertificate(c, eventName, p.name)];
        j := j + 1;
      }
      assert certSnap[..j] == certSnap;
      assert ps[..i + 1][..i] == ps[..i];
      i := i + 1;
    }
    assert ps[..i] == ps;
  }

  predicate EmailIs(identifier: string, a: Participant) { a.email == identifier }
  predicate PrnIs(identifier: string, a: Participant) { a.prn == identifier }

  /** `a` is an attendee the identifier names, by email or by PRN. */
  predicate Named(a: Participant, identifier: string) {
    a.email == identifier || a.prn == identifier
  }

  /** Every entry belongs to an attendee whose email or PRN is the identifier, and carries that attendee's name. */
  ghost predicate OwnedBy(results: seq<StudentCertificate>, attendees: seq<Participant>, identifier: string) {
    forall k :: 0 <= k < |results| ==> exists a :: a in attendees && Named(a, identifier) && BelongsTo(results[k], a)
  }

  lemma GatheredOwned(ps: seq<Participant>, attendees: seq<Participant>, identifier: string,
                      certs: seq<CertDoc>, events: map<string, EventDoc>, scope: Option<string>)
    requires forall i :: 0 <= i < |ps| ==> ps[i] in attendees && Named(ps[i], identifier)
    ensures OwnedBy(Gathered(ps, certs, events, scope), attendees, identifier)
  {
    var r := Gathered(ps, certs, events, scope);
    forall k | 0 <= k < |r| ensures exists a :: a in attendees && Named(a, identifier) && BelongsTo(r[k], a) {
      var i :| 0 <= i < |ps| && BelongsTo(r[k], ps[i]);
      var a := ps[i];
    }
  }

  /** `getCertificatesByStudent`, without its final sort by generation time. */
  method CertificatesByStudent(identifier: string, attendees: seq<Participant>, certs: seq<CertDoc>, events: map<string, EventDoc>)
    returns (results: seq<StudentCertificate>)
    ensures identifier == "" ==> results == []
    ensures identifier != "" ==> results == Gathered(
      Merged(Filter(attendees, a => EmailIs(identifier, a)), Filter(attendees, a => PrnIs(identifier, a))), certs, events, None)
    ensures OwnedBy(results, attendees, identifier)
    ensures forall k :: 0 <= k < |results| ==> results[k].cert in certs
  {
    if identifier == "" {
      return [];
    }
    var emailHits := Filter(attendees, a => EmailIs(identifier, a));
    var prnHits := Filter(attendees, a => PrnIs(identifier, a));
    var participants := MergeHits(emailHits, prnHits);
    if |participants| == 0 {
      return [];
    }
    results := GatherCertificates(participants, certs, events, None);
    MergedFromHits(emailHits, prnHits);
    GatheredOwned(participants, attendees, identifier, certs, events, None);
  }

  predicate EmailAt(identifier: string, eventId: string, a: Participant) { a.email == identifier && a.eventId == eventId }
  predicate PrnAt(identifier: string, eventId: string, a: Participant) { a.prn == identifier && a.eventId == eventId }

  /** `getCertificatesByStudentAndEvent`: the same lookup restricted to one event. */
  method CertificatesByStudentAndEvent(identifier: string, eventId: string, attendees: seq<Participant>,
                                       certs: seq<CertDoc>, events: map<string, EventDoc>)
    returns (results: seq<StudentCertificate>)
    ensures identifier == "" || eventId == "" ==> results == []
    ensures identifier != "" && eventId != "" ==> results == Gathered(
      Merged(Filter(attendees, a => EmailAt(identifier, eventId, a)), Filter(attendees, a => PrnAt(identifier, eventId, a))),
      certs, events, Some(eventId))
    ensures OwnedBy(results, attendees, identifier)
    ensures forall k :: 0 <= k < |results| ==> results[k].cert in certs && results[k].cert.eventId == eventId
  {
    if identifier == "" || eventId == "" {
      return [];
    }
    var emailHits := Filter(attendees, a => EmailAt(identifier, eventId, a));
    var prnHits := Filter(attendees, a => PrnAt(identifier, eventId, a));
    var participants := MergeHits(emailHits, prnHits);
    if |participants| == 0 {
      return [];
    }
    results := GatherCertificates(participants, certs, events, Some(eventId));
    MergedFromHits(emailHits, prnHits);
    GatheredOwned(participants, attendees, identifier, certs, events, Some(eventId));
  }

  // ---- templates ----

  /** What `getTemplateData` returns. */
  datatype TemplateInfo = TemplateInfo(data: string, mimeType: string, name: string, fieldPositions: Placements)

  /** `getTemplateData`: None (null) unless the event exists and has template data; positions default to {}. */
  function GetTemplateData(events: map<string, EventDoc>, eventId: string): (r: Option<TemplateInfo>)
    ensures r.Some? <==> eventId in events && events[eventId].templateData != ""
    ensures r.Some? ==> r.value == TemplateInfo(events[eventId].templateData, events[eventId].templateType,
      events[eventId].templateName, events[eventId].fieldPositions.GetOr(map[]))
  {
    if eventId in events && events[eventId].templateData != "" then
      var d := events[eventId];
      Some(TemplateInfo(d.templateData, d.templateType, d.templateName, d.fieldPositions.GetOr(map[])))
    else None
  }

  const NO_EVENT := EventDoc("", "", "", "", "", "", "", None)

  /** The events after `uploadCertificateTemplate`: the four template fields set, positions defaulting to {}, creating the event when missing. */
  function WithTemplate(events: map<string, EventDoc>, eventId: string, data: string, mimeType: string,
                        fileName: string, positions: Option<Placements>): (r: map<string, EventDoc>)
    ensures r.Keys == events.Keys + {eventId}
    ensures forall k :: k in events && k != eventId ==> r[k] == events[k]
    ensures r[eventId].templateData == data && r[eventId].templateType == mimeType && r[eventId].templateName == fileName
    ensures r[eventId].fieldPositions == Some(positions.GetOr(map[]))
    ensures eventId in events ==> (r[eventId].name == events[eventId].name
      && r[eventId].eventName == events[eventId].eventName && r[eventId].date == events[eventId].date)
    ensures r[eventId].id == if eventId in events then events[eventId].id else eventId
  {
    var base := if eventId in events then events[eventId] else NO_EVENT.(id := eventId);
    events[eventId := base.(templateData := data, templateType := mimeType, templateName := fileName,
                            fieldPositions := Some(positions.GetOr(map[])))]
  }

  /** The events after deleting `templateData`, `templateType`, `templateName` and `fieldPositions`; None when the event does not exist (the update fails). */
  function WithoutTemplate(events: map<string, EventDoc>, eventId: string): (r: Option<map<string, EventDoc>>)
    ensures r.None? <==> eventId !in events
    ensures r.Some? ==> r.value.Keys == events.Keys
    ensures r.Some? ==> forall k :: k in events && k != eventId ==> r.value[k] == events[k]
    ensures r.Some? ==> r.value[eventId] == events[eventId].(templateData := "", templateType := "", templateName := "", fieldPositions := None)
  {
    if eventId !in events then None
    else Some(events[eventId := events[eventId].(templateData := "", templateType := "", templateName := "", fieldPositions := None)])
  }

  /** What was uploaded is what is read back, positions defaulting to {}; empty data reads back as no template. */
  lemma UploadThenRead(events: map<string, EventDoc>, eventId: string, data: string, mimeType: string,
                       fileName: string, positions: Option<Placements>)
    ensures GetTemplateData(WithTemplate(events, eventId, data, mimeType, fileName, positions), eventId)
      == if data == "" then None else Some(TemplateInfo(data, mimeType, fileName, positions.GetOr(map[])))
  {
  }

  /** After the template is cleared, no template is read back for that event. */
  lemma ClearThenRead(events: map<string, EventDoc>, eventId: string)
    requires eventId in events
    ensures GetTemplateData(WithoutTemplate(events, eventId).value, eventId).None?
  {
  }

  // ---- the writes ----

  /** The events collection. */
  class EventStore {
    var events: map<string, EventDoc>

    constructor (initial: map<string, EventDoc>)
      ensures events == initial
    {
      events := initial;
    }

    method UploadCertificateTemplate(data: string, mimeType: string, fileName: string, eventId: string, positions: Option<Placements>)
      modifies this
      ensures events == WithTemplate(old(events), eventId, data, mimeType, fileName, positions)
    {
      events := WithTemplate(events, eventId, data, mimeType, fileName, positions);
    }

    /** The update that deletes the four template fields; false, changing nothing, when the event does not exist. */
    method DeleteTemplateFields(eventId: string) returns (ok: bool)
      modifies this
      ensures ok <==> eventId in old(events)
      ensures events == WithoutTemplate(old(events), eventId).GetOr(old(events))
    {
      if eventId !in events {
        return false;
      }
      events := events[eventId := events[eventId].(templateData := "", templateType := "", templateName := "", fieldPositions := None)];
      return true;
    }
  }

  predicate IdUnused(docs: seq<CertDoc>, id: string) {
    forall i :: 0 <= i < |docs| ==> docs[i].id != id
  }

  /** The certificates collection. */
  class CertificateStore {
    var docs: seq<CertDoc>

    constructor (initial: seq<CertDoc>)
      ensures docs == initial
    {
      docs := initial;
    }

    /** `saveCertificateRecord`: adds exactly one document under a fresh id (the store picks it) and returns that id. */
    method SaveCertificateRecord(data: CertDoc, newId: string) returns (id: string)
      requires IdUnused(docs, newId)
      modifies this
      ensures id == newId
      ensures docs == old(docs) + [data.(id := newId)]
    {
      docs := docs + [data.(id := newId)];
      id := newId;
    }

    method DeleteCertificate(certificateId: string)
      modifies this
      ensures docs == Filter(old(docs), (c: CertDoc) => c.id != certificateId)
    {
      docs := Filter(docs, (c: CertDoc) => c.id != certificateId);
    }

    /** `deleteCertificatesByEvent`: every certificate of the event goes; the count is how many the query matched. */
    method DeleteCertificatesByEvent(eventId: string) returns (count: nat)
      modifies this
      ensures count == |Filter(old(docs), ByEvent(eventId))|
      ensures docs == Filter(old(docs), NotInEvent(eventId))
      ensures count + |docs| == |old(docs)|
    {
      var matched := Filter(docs, ByEvent(eventId));
      FilterPartition(docs, ByEvent(eventId), NotInEvent(eventId));
      docs := Filter(docs, NotInEvent(eventId));
      count := |matched|;
    }
  }
}
