/** The participants page's search box. */
module Participants {
  import opened Common
  import opened Text
  import opened Records

  /** The lower-cased term occurs in the lower-cased name, PRN or email (a missing one being ''). */
  predicate MatchesTerm(p: Participant, term: string) {
    var q := ToLower(term);
    Includes(ToLower(p.name), q) || Includes(ToLower(p.prn), q) || Includes(ToLower(p.email), q)
  }

  /** The participants the search keeps, in the order they were listed. */
  function FilterParticipants(ps: seq<Participant>, term: string): (r: seq<Participant>)
    ensures |r| <= |ps|
    ensures forall i :: 0 <= i < |ps| ==> (ps[i] in r <==> MatchesTerm(ps[i], term))
    ensures forall p :: multiset(r)[p] == if MatchesTerm(p, term) then multiset(ps)[p] else 0
  {
    var r := Filter(ps, p => MatchesTerm(p, term));
    FilterCount(ps, p => MatchesTerm(p, term));
    assert forall i :: 0 <= i < |ps| && ps[i] in r ==> MatchesTerm(ps[i], term) by {
      forall i | 0 <= i < |ps| && ps[i] in r ensures MatchesTerm(ps[i], term) {
        var k :| 0 <= k < |r| && r[k] == ps[i];
      }
    }
    r
  }

  /** An empty search term keeps everyone. */
  lemma EmptyTermKeepsAll(ps: seq<Participant>)
    ensures FilterParticipants(ps, "") == ps
  {
    forall i | 0 <= i < |ps| ensures MatchesTerm(ps[i], "") {
      IncludesEmpty(ToLower(ps[i].name));
    }
    FilterKeepsAll(ps, p => MatchesTerm(p, ""));
  }

  /** The search only deletes participants; the rest keep their order. */
  lemma FilterKeepsOrder(ps: seq<Participant>, term: string)
    ensures IsSubsequence(FilterParticipants(ps, term), ps)
  {
    FilterIsSubsequence(ps, p => MatchesTerm(p, term));
  }

  /** Case does not matter, for the term or for the fields. */
  lemma SearchIgnoresCase(p: Participant, term: string)
    ensures MatchesTerm(p, ToLower(term)) == MatchesTerm(p, term)
  {
    ToLowerIdempotent(term);
  }
}
