/** The applicants page of a task: the list loaded once, and accepting an
    applicant, which drops them from the list. */
module Applicants {
  import opened Basics
  import opened Seqs

  datatype Applicant = Applicant(id: string, username: string)

  /** The list after the initial fetch: the server's list, or the empty list
      it started as when the request failed. */
  function Loaded(response: Option<seq<Applicant>>): (r: seq<Applicant>)
    ensures response.Some? ==> r == response.value
    ensures response.None? ==> r == []
  {
    match response
    case Some(list) => list
    case None => []
  }

  function NotId(userId: string): Applicant -> bool
  {
    (a: Applicant) => a.id != userId
  }

  /** `acceptApplicant(userId)`: once the server confirms, every applicant
      with that id leaves the list and the rest keep their order; a failed
      request changes nothing. */
  function Accept(list: seq<Applicant>, userId: string, confirmed: bool): (r: seq<Applicant>)
    ensures !confirmed ==> r == list
    ensures IsSubseq(r, list)
    ensures confirmed ==> forall i :: 0 <= i < |r| ==> r[i].id != userId
  {
    if confirmed then Filter(list, NotId(userId))
    else
      SubseqRefl(list);
      list
  }

  /** Accepting keeps every other applicant. */
  lemma AcceptKeepsOthers(list: seq<Applicant>, userId: string, a: Applicant)
    requires a in list && a.id != userId
    ensures forall confirmed :: a in Accept(list, userId, confirmed)
  {
    FilterMembership(list, NotId(userId), a);
  }

  /** An accept attempt: the applicant's id and whether the server
      confirmed it. */
  datatype Attempt = Attempt(userId: string, confirmed: bool)

  function AcceptAll(list: seq<Applicant>, attempts: seq<Attempt>): seq<Applicant>
    decreases |attempts|
  {
    if |attempts| == 0 then list
    else AcceptAll(Accept(list, attempts[0].userId, attempts[0].confirmed), attempts[1..])
  }

  /** After loading, the list only shrinks: it stays a subsequence of what
      was loaded, and no confirmed applicant ever reappears. */
  lemma {:induction false} AcceptAllShrinks(list: seq<Applicant>, attempts: seq<Attempt>)
    ensures IsSubseq(AcceptAll(list, attempts), list)
    ensures forall k, i :: 0 <= k < |attempts| && attempts[k].confirmed && 0 <= i < |AcceptAll(list, attempts)| ==>
      AcceptAll(list, attempts)[i].id != attempts[k].userId
    decreases |attempts|
  {
    if |attempts| == 0 {
      SubseqRefl(list);
    } else {
      var next := Accept(list, attempts[0].userId, attempts[0].confirmed);
      AcceptAllShrinks(next, attempts[1..]);
      SubseqTrans(AcceptAll(list, attempts), next, list);
      var final := AcceptAll(list, attempts);
      forall k, i | 0 <= k < |attempts| && attempts[k].confirmed && 0 <= i < |final|
        ensures final[i].id != attempts[k].userId
      {
        if k == 0 {
          assert final[i] in final;
          SubseqMembers(final, next, final[i]);
        } else {
          assert attempts[1..][k - 1] == attempts[k];
        }
      }
    }
  }
}
