/**
  The application database (Models/CMCSDbContext.cs) as an in-memory store: the lecturer,
  claim and supporting-document tables, and the key lookups the services issue against them
  (`FirstOrDefaultAsync(x => x.Id == id)` and `Include(c => c.SupportingDocuments)`).
*/
module CmcsDb {
  import opened Wrappers
  import opened Seqs
  import opened Lookup
  import opened ClaimModel

  /** A read-only view of the three tables at one moment. */
  datatype Snapshot = Snapshot(
    lecturers: seq<Lecturer>,
    claims: seq<Claim>,
    documents: seq<SupportingDocument>)

  /** The database context; services update its tables in place. */
  class Database {
    var lecturers: seq<Lecturer>
    var claims: seq<Claim>
    var documents: seq<SupportingDocument>

    constructor (lecturers: seq<Lecturer>, claims: seq<Claim>, documents: seq<SupportingDocument>)
      ensures this.lecturers == lecturers && this.claims == claims && this.documents == documents
    {
      this.lecturers := lecturers;
      this.claims := claims;
      this.documents := documents;
    }

    function State(): (s: Snapshot)
      reads this
      ensures s.lecturers == lecturers && s.claims == claims && s.documents == documents
    {
      Snapshot(lecturers, claims, documents)
    }
  }

  /** The position of the first claim with key `id`, as `FirstOrDefaultAsync` finds it. */
  function ClaimIndex(claims: seq<Claim>, id: int): Option<nat> {
    FirstIndex(claims, ClaimKey(), id)
  }

  function ClaimKey(): Claim -> int {
    (c: Claim) => c.id
  }

  /** The first claim with key `id`, or none. */
  function FindClaim(claims: seq<Claim>, id: int): (r: Option<Claim>)
    ensures r.Some? <==> ClaimIndex(claims, id).Some?
    ensures r.Some? ==> r.value == claims[ClaimIndex(claims, id).value]
  {
    match ClaimIndex(claims, id)
    case None => None
    case Some(k) => Some(claims[k])
  }

  /** The first lecturer with key `id`, or none. */
  function FindLecturer(lecturers: seq<Lecturer>, id: int): (r: Option<Lecturer>)
    ensures r.Some? ==> r.value in lecturers && r.value.id == id
    ensures r.None? <==> forall k :: 0 <= k < |lecturers| ==> lecturers[k].id != id
    ensures forall k :: 0 <= k < |lecturers| && lecturers[k].id == id && IdAbsentBefore(lecturers, id, k) ==>
      r == Some(lecturers[k])
  {
    if lecturers == [] then None
    else if lecturers[0].id == id then Some(lecturers[0])
    else FindLecturer(lecturers[1..], id)
  }

  /** The claim's lecturer row exists. */
  function HasLecturer(lecturers: seq<Lecturer>): Claim -> bool {
    (c: Claim) => FindLecturer(lecturers, c.lecturerId).Some?
  }

  /**
    The claim table as `Include(c => c.Lecturer)` reads it. `LecturerId` is a required foreign
    key, so the include is an inner join: a claim whose lecturer row is missing is not loaded.
  */
  function ClaimsWithLecturer(claims: seq<Claim>, lecturers: seq<Lecturer>): (r: seq<Claim>)
    ensures forall c :: c in r <==> c in claims && FindLecturer(lecturers, c.lecturerId).Some?
  {
    Filter(claims, HasLecturer(lecturers))
  }

  function JoinKey(lecturers: seq<Lecturer>): Claim -> (int, bool) {
    (c: Claim) => (c.id, HasLecturer(lecturers)(c))
  }

  /**
    The position of the claim that `Include(c => c.Lecturer).FirstOrDefaultAsync(c => c.Id == id)`
    loads: the first claim with key `id` whose lecturer row exists.
  */
  function LecturerClaimIndex(claims: seq<Claim>, lecturers: seq<Lecturer>, id: int): (r: Option<nat>)
    ensures r.Some? ==>
      r.value < |claims| && claims[r.value].id == id && FindLecturer(lecturers, claims[r.value].lecturerId).Some?
    ensures r.Some? ==> forall j :: 0 <= j < r.value && claims[j].id == id ==>
      FindLecturer(lecturers, claims[j].lecturerId).None?
    ensures r.None? <==> forall j :: 0 <= j < |claims| && claims[j].id == id ==>
      FindLecturer(lecturers, claims[j].lecturerId).None?
  {
    var r := FirstIndex(claims, JoinKey(lecturers), (id, true));
    assert forall j :: 0 <= j < |claims| ==>
      (JoinKey(lecturers)(claims[j]) == (id, true) <==> claims[j].id == id && HasLecturer(lecturers)(claims[j]));
    r
  }

  /** The claim `Include(c => c.Lecturer).FirstOrDefaultAsync(c => c.Id == id)` loads, or none. */
  function FindClaimWithLecturer(claims: seq<Claim>, lecturers: seq<Lecturer>, id: int): (r: Option<Claim>)
    ensures r.Some? <==> LecturerClaimIndex(claims, lecturers, id).Some?
    ensures r.Some? ==> r.value == claims[LecturerClaimIndex(claims, lecturers, id).value]
  {
    match LecturerClaimIndex(claims, lecturers, id)
    case None => None
    case Some(k) => Some(claims[k])
  }

  /** When every claim's lecturer exists, the join loses nothing: the lookup is the plain key lookup. */
  lemma LecturerClaimIndexWhenLecturersExist(claims: seq<Claim>, lecturers: seq<Lecturer>, id: int)
    requires forall j :: 0 <= j < |claims| ==> FindLecturer(lecturers, claims[j].lecturerId).Some?
    ensures LecturerClaimIndex(claims, lecturers, id) == ClaimIndex(claims, id)
  {
    forall j | 0 <= j < |claims| ensures ClaimKey()(claims[j]) == claims[j].id {
    }
  }

  /** A stored claim whose lecturer row is missing is not found by a query that includes the lecturer. */
  lemma OrphanClaimNotFound(claim: Claim)
    ensures ClaimIndex([claim], claim.id) == Some(0)
    ensures LecturerClaimIndex([claim], [], claim.id) == None
  {
    assert ClaimKey()(claim) == claim.id;
  }

  /** No lecturer before position `k` has the id. */
  predicate IdAbsentBefore(lecturers: seq<Lecturer>, id: int, k: int)
    requires 0 <= k <= |lecturers|
  {
    forall j :: 0 <= j < k ==> lecturers[j].id != id
  }

  function BelongsTo(claimId: int): SupportingDocument -> bool {
    (d: SupportingDocument) => d.claimId == claimId
  }

  /** The document rows of a claim, as `Include(c => c.SupportingDocuments)` loads them. */
  function DocumentsOf(documents: seq<SupportingDocument>, claimId: int): (r: seq<SupportingDocument>)
    ensures forall d :: d in r ==> d in documents && d.claimId == claimId
    ensures forall d :: d in documents && d.claimId == claimId ==> d in r
  {
    Filter(documents, BelongsTo(claimId))
  }
}
