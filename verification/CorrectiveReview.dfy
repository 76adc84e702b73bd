/** Resolving a conflict review with corrective events
    (crates/ham-client/src/serve.rs:4306-4350 and 5314-5443;
    crates/ham-core/src/sync/offline.rs:1413-1440 and 1495-1539). Each submission's
    queue entry is the subject of OfflineSubmit; here a submission either appends one
    event or fails. */
module CorrectiveReview {
  import opened Basics
  import opened Text
  import opened Event
  import opened Chain
  import Json

  datatype Proposal = Proposal(proposalType: string, entityId: Option<Uuid>, payload: Json.Value)

  datatype Request = Request(reviewId: Uuid, proposals: seq<Proposal>, note: Option<string>)

  datatype Status = Open | Resolved

  datatype Resolution = Resolution(eventHashes: seq<string>, note: Option<string>, device: Uuid)

  datatype Review = Review(id: Uuid, status: Status, resolution: Option<Resolution>, updatedAt: int, resolvedAt: Option<int>)

  const MAX_NOTE_BYTES: nat := 4096

  const CREATING: set<string> := {
    "proposal.qso.create", "proposal.activation.create", "proposal.activation.start", "proposal.net.template.create",
    "proposal.net.session.start", "proposal.net.checkin.create", "proposal.net.traffic.create"}

  const CORRECTIVE: set<string> := CREATING + {
    "proposal.qso.correct", "proposal.qso.delete", "proposal.qso.restore", "proposal.qso.note.add",
    "proposal.activation.update", "proposal.activation.end", "proposal.activation.cancel", "proposal.activation.note.add",
    "proposal.qso.activation.link", "proposal.qso.activation.unlink", "proposal.net.template.update",
    "proposal.net.session.end", "proposal.net.session.cancel", "proposal.net.checkin.update",
    "proposal.net.checkin.delete", "proposal.net.traffic.update", "proposal.net.report.export"}

  predicate NeedsEntity(proposalType: string) {
    proposalType !in CREATING
  }

  predicate HasContext(proposalType: string) {
    proposalType in CORRECTIVE
  }

  /** What is wrong with one proposal before anything is submitted. */
  function ProposalFault(p: Proposal): Option<string> {
    var proposalType := Trim(p.proposalType);
    if proposalType == "" then Some("corrective proposal_type is required")
    else if !p.payload.Object? then Some("corrective proposal payload must be a JSON object")
    else if NeedsEntity(proposalType) && p.entityId.None? then
      Some("corrective proposal entity_id is required for this proposal type")
    else if !HasContext(proposalType) then Some("unsupported corrective proposal type `" + proposalType + "`")
    else None
  }

  /** The domain's verdict on a proposal, given the log so far: the event to append,
      or why not. */
  type Judge = (seq<Envelope>, Proposal) -> Result<NewEvent, string>

  datatype Ids = Ids(eventId: Uuid, now: int)

  datatype Progress = Progress(log: seq<Envelope>, failure: Option<string>)

  /** Submitting the first proposals one by one, up to a rejection. */
  function SubmitAll(h: HashFunction, judge: Judge, log: seq<Envelope>, proposals: seq<Proposal>, ids: seq<Ids>): Progress
    requires |ids| >= |proposals|
  {
    if proposals == [] then Progress(log, None)
    else
      var n := |proposals| - 1;
      var before := SubmitAll(h, judge, log, proposals[..n], ids);
      if before.failure.Some? then before
      else
        match judge(before.log, proposals[n])
        case Err(error) => before.(failure := Some(error))
        case Ok(input) => Progress(before.log + [FromNew(h, input, Head(before.log), ids[n].eventId, ids[n].now)], None)
  }

  function Hashes(events: seq<Envelope>): (r: seq<string>)
    ensures |r| == |events| && forall i :: 0 <= i < |r| ==> r[i] == events[i].eventHash
  {
    seq(|events|, i requires 0 <= i < |events| => events[i].eventHash)
  }

  predicate AllBlank(hashes: seq<string>) {
    forall i :: 0 <= i < |hashes| ==> Blank(hashes[i])
  }

  /** validate_resolution_for_report, for corrective events. */
  function ResolutionFault(r: Resolution): Option<string> {
    if r.note.Some? && |r.note.value| > MAX_NOTE_BYTES then Some("conflict review note exceeds 4096 bytes")
    else if AllBlank(r.eventHashes) then Some("corrective event hashes are required for corrective-event resolution")
    else None
  }

  function FindReview(reviews: seq<Review>, id: Uuid): (r: Option<nat>)
    ensures r.Some? ==> r.value < |reviews| && reviews[r.value].id == id
    ensures r.None? ==> forall i :: 0 <= i < |reviews| ==> reviews[i].id != id
  {
    if reviews == [] then None
    else if reviews[0].id == id then Some(0)
    else match FindReview(reviews[1..], id) case None => None case Some(i) => Some(i + 1)
  }

  predicate IsOpen(reviews: seq<Review>, id: Uuid) {
    exists i :: 0 <= i < |reviews| && reviews[i].id == id && reviews[i].status == Open
  }

  /** resolve_review. */
  function Resolve(reviews: seq<Review>, id: Uuid, resolution: Resolution, now: int): (Option<string>, seq<Review>) {
    match FindReview(reviews, id)
    case None => (Some("conflict review was not found"), reviews)
    case Some(i) =>
      var fault := ResolutionFault(resolution);
      if fault.Some? then (fault, reviews)
      else
        (None, reviews[i := reviews[i].(status := Resolved, resolution := Some(resolution), updatedAt := now, resolvedAt := Some(now))])
  }

  class JsonConflictReviewStore {
    var reviews: seq<Review>

    constructor (reviews: seq<Review>)
      ensures this.reviews == reviews
    {
      this.reviews := reviews;
    }

    method ResolveReview(id: Uuid, resolution: Resolution, now: int) returns (error: Option<string>)
      modifies this
      ensures (error, reviews) == Resolve(old(reviews), id, resolution, now)
    {
      var found := FindReview(reviews, id);
      if found.None? {
        return Some("conflict review was not found");
      }
      error := ResolutionFault(resolution);
      if error.None? {
        var review := reviews[found.value];
        reviews := reviews[found.value := review.(status := Resolved, resolution := Some(resolution), updatedAt := now, resolvedAt := Some(now))];
      }
    }
  }

  /** What is refused before the first submission. */
  predicate Refused(reviews: seq<Review>, request: Request) {
    || request.proposals == []
    || (request.note.Some? && |request.note.value| > MAX_NOTE_BYTES)
    || (exists i :: 0 <= i < |request.proposals| && ProposalFault(request.proposals[i]).Some?)
    || !IsOpen(reviews, request.reviewId)
  }

  function NoteKept(note: Option<string>): Option<string> {
    if note.Some? && !Blank(note.value) then note else None
  }

  datatype Outcome = Outcome(log: seq<Envelope>, reviews: seq<Review>, ok: bool)

  /** handle_conflict_review_corrective_events, from the log and the reviews to the
      log and the reviews. */
  function Handle(
    h: HashFunction, judge: Judge, device: Uuid, log: seq<Envelope>, reviews: seq<Review>, request: Request, ids: seq<Ids>, now: int)
    : (o: Outcome)
    requires |ids| >= |request.proposals|
  {
    if Refused(reviews, request) then Outcome(log, reviews, false)
    else
      var end := SubmitAll(h, judge, log, request.proposals, ids);
      SubmitGrows(h, judge, log, request.proposals, ids);
      if end.failure.Some? then Outcome(end.log, reviews, false)
      else
        var resolution := Resolution(Hashes(end.log[|log|..]), NoteKept(request.note), device);
        var (error, reviews') := Resolve(reviews, request.reviewId, resolution, now);
        Outcome(end.log, reviews', error.None?)
  }

  lemma {:induction false} SubmitGrows(h: HashFunction, judge: Judge, log: seq<Envelope>, proposals: seq<Proposal>, ids: seq<Ids>)
    requires |ids| >= |proposals|
    ensures IsPrefix(log, SubmitAll(h, judge, log, proposals, ids).log)
  {
    if proposals != [] {
      SubmitGrows(h, judge, log, proposals[..|proposals| - 1], ids);
    }
  }

  /** The checks made before anything is submitted. */
  method Precheck(reviews: seq<Review>, request: Request) returns (refused: bool)
    ensures refused == Refused(reviews, request)
  {
    hide ProposalFault, IsOpen;
    if request.proposals == [] || (request.note.Some? && |request.note.value| > MAX_NOTE_BYTES) {
      return true;
    }
    for i := 0 to |request.proposals|
      invariant forall k :: 0 <= k < i ==> ProposalFault(request.proposals[k]).None?
    {
      if ProposalFault(request.proposals[i]).Some? {
        return true;
      }
    }
    return !IsOpen(reviews, request.reviewId);
  }

  /** Submitting proposal by proposal and collecting hashes. */
  method SubmitProposals(h: HashFunction, judge: Judge, log: seq<Envelope>, proposals: seq<Proposal>, ids: seq<Ids>)
    returns (log': seq<Envelope>, hashes: seq<string>, failure: Option<string>)
    requires |ids| >= |proposals|
    ensures Progress(log', failure) == SubmitAll(h, judge, log, proposals, ids)
    ensures |log| <= |log'| && hashes == Hashes(log'[|log|..])
  {
    hide Hashes, FromNew;
    log', hashes := log, [];
    assert proposals[..0] == [] && log[|log|..] == [];
    HashesNothing();
    for i := 0 to |proposals|
      invariant SubmitAll(h, judge, log, proposals[..i], ids) == Progress(log', None)
      invariant |log| <= |log'| && hashes == Hashes(log'[|log|..])
    {
      assert proposals[..i + 1][..i] == proposals[..i];
      RejectionEnds(h, judge, log, proposals, ids, i + 1);
      var verdict := judge(log', proposals[i]);
      if verdict.Err? {
        return log', hashes, Some(verdict.error);
      }
      var e := FromNew(h, verdict.value, Head(log'), ids[i].eventId, ids[i].now);
      HashesGrow(log, log', e);
      log', hashes := log' + [e], hashes + [e.eventHash];
    }
    assert proposals[..|proposals|] == proposals;
    failure := None;
  }

  method HandleCorrectiveEvents(
    store: JsonConflictReviewStore, h: HashFunction, judge: Judge, device: Uuid,
    log: seq<Envelope>, request: Request, ids: seq<Ids>, now: int)
    returns (log': seq<Envelope>, ok: bool)
    requires |ids| >= |request.proposals|
    modifies store
    ensures Outcome(log', store.reviews, ok) == Handle(h, judge, device, log, old(store.reviews), request, ids, now)
  {
    hide Refused, Resolve, SubmitAll, Hashes;
    var refused := Precheck(store.reviews, request);
    if refused {
      return log, false;
    }
    var hashes, failure;
    log', hashes, failure := SubmitProposals(h, judge, log, request.proposals, ids);
    if failure.Some? {
      return log', false;
    }
    var error := store.ResolveReview(request.reviewId, Resolution(hashes, NoteKept(request.note), device), now);
    return log', error.None?;
  }

  lemma HashesNothing()
    ensures Hashes([]) == []
  {
  }

  lemma HashesGrow(log: seq<Envelope>, longer: seq<Envelope>, e: Envelope)
    requires |log| <= |longer|
    ensures Hashes((longer + [e])[|log|..]) == Hashes(longer[|log|..]) + [e.eventHash]
  {
    assert (longer + [e])[|log|..] == longer[|log|..] + [e];
    HashesSnoc(longer[|log|..], e);
  }

  lemma HashesSnoc(events: seq<Envelope>, e: Envelope)
    ensures Hashes(events + [e]) == Hashes(events) + [e.eventHash]
  {
  }

  lemma {:induction false} RejectionEnds(h: HashFunction, judge: Judge, log: seq<Envelope>, proposals: seq<Proposal>, ids: seq<Ids>, k: nat)
    requires k <= |proposals| <= |ids|
    ensures SubmitAll(h, judge, log, proposals[..k], ids).failure.Some? ==>
      SubmitAll(h, judge, log, proposals, ids) == SubmitAll(h, judge, log, proposals[..k], ids)
  {
    if k < |proposals| {
      RejectionEnds(h, judge, log, proposals[..|proposals| - 1], ids, k);
      assert proposals[..|proposals| - 1][..k] == proposals[..k];
    } else {
      assert proposals[..k] == proposals;
    }
  }

  // ----- what the handler guarantees -----

  /** The events appended, one for each proposal accepted: all of them, or those
      before the first rejected one. */
  lemma {:induction false} AcceptedPrefix(h: HashFunction, judge: Judge, log: seq<Envelope>, proposals: seq<Proposal>, ids: seq<Ids>)
    requires |ids| >= |proposals|
    ensures var end := SubmitAll(h, judge, log, proposals, ids); var k := |end.log| - |log|;
      && 0 <= k <= |proposals|
      && (end.failure.None? <==> k == |proposals|)
      && (forall i :: 0 <= i < k ==> AppendedAt(h, judge, log, end.log, proposals, ids, i))
      && (k < |proposals| ==> judge(end.log, proposals[k]) == Err(end.failure.value))
  {
    if proposals != [] {
      var n := |proposals| - 1;
      AcceptedPrefix(h, judge, log, proposals[..n], ids);
      SubmitGrows(h, judge, log, proposals[..n], ids);
      var before := SubmitAll(h, judge, log, proposals[..n], ids);
      var end := SubmitAll(h, judge, log, proposals, ids);
      hide AppendedAt, FromNew;
      assert IsPrefix(before.log, end.log);
      forall i | 0 <= i < |before.log| - |log| ensures AppendedAt(h, judge, log, end.log, proposals, ids, i) {
        AppendedStays(h, judge, log, before.log, end.log, proposals, ids, i);
      }
      if before.failure.None? && end.failure.None? {
        LastAppended(h, judge, log, before.log, end.log, proposals, ids);
      }
    }
  }

  lemma AppendedStays(
    h: HashFunction, judge: Judge, log: seq<Envelope>, shorter: seq<Envelope>, longer: seq<Envelope>, proposals: seq<Proposal>, ids: seq<Ids>, i: int)
    requires proposals != [] && AppendedAt(h, judge, log, shorter, proposals[..|proposals| - 1], ids, i) && IsPrefix(shorter, longer)
    ensures AppendedAt(h, judge, log, longer, proposals, ids, i)
  {
    hide FromNew;
    assert longer[..|log| + i] == shorter[..|log| + i];
    assert longer[|log| + i] == shorter[|log| + i];
  }

  lemma LastAppended(
    h: HashFunction, judge: Judge, log: seq<Envelope>, before: seq<Envelope>, after: seq<Envelope>, proposals: seq<Proposal>, ids: seq<Ids>)
    requires proposals != [] && |ids| >= |proposals| && |before| == |log| + |proposals| - 1
    requires judge(before, proposals[|proposals| - 1]).Ok?
    requires var n := |proposals| - 1;
      after == before + [FromNew(h, judge(before, proposals[n]).value, Head(before), ids[n].eventId, ids[n].now)]
    ensures AppendedAt(h, judge, log, after, proposals, ids, |proposals| - 1)
  {
    hide FromNew;
    assert after[..|before|] == before;
  }

  /** Event i of the new ones is the accepted form of proposal i, chained to what
      stood before it. */
  predicate AppendedAt(h: HashFunction, judge: Judge, log: seq<Envelope>, log': seq<Envelope>, proposals: seq<Proposal>, ids: seq<Ids>, i: int)
  {
    && 0 <= i < |proposals| && i < |ids| && |log| + i < |log'|
    && var before := log'[..|log| + i];
       var verdict := judge(before, proposals[i]);
       verdict.Ok? && log'[|log| + i] == FromNew(h, verdict.value, Head(before), ids[i].eventId, ids[i].now)
  }

  predicate DistinctReviews(reviews: seq<Review>) {
    forall i, j :: 0 <= i < j < |reviews| ==> reviews[i].id != reviews[j].id
  }

  /** A review that was open is resolved exactly when nothing was refused beforehand,
      every proposal was accepted and some new hash is not blank; it then records the
      hashes of exactly the new events, in order. Otherwise every review stays as it
      was, and the log keeps the events accepted before the rejection. */
  lemma ResolvedIff(
    h: HashFunction, judge: Judge, device: Uuid, log: seq<Envelope>, reviews: seq<Review>, request: Request, ids: seq<Ids>, now: int, k: nat)
    requires |ids| >= |request.proposals| && DistinctReviews(reviews)
    requires k < |reviews| && reviews[k].id == request.reviewId && reviews[k].status == Open
    ensures var o := Handle(h, judge, device, log, reviews, request, ids, now);
      var accepted := |o.log| - |log|;
      && IsPrefix(log, o.log) && |o.reviews| == |reviews|
      && (o.ok <==> !Refused(reviews, request) && accepted == |request.proposals| && !AllBlank(Hashes(o.log[|log|..])))
      && (o.ok <==> o.reviews[k].status == Resolved)
      && (o.ok ==>
            var resolution := Resolution(Hashes(o.log[|log|..]), NoteKept(request.note), device);
            o.reviews[k] == Review(request.reviewId, Resolved, Some(resolution), now, Some(now)))
      && (!o.ok ==> o.reviews == reviews)
      && (forall i :: 0 <= i < |reviews| && i != k ==> o.reviews[i] == reviews[i])
  {
    hide Refused, SubmitAll, AllBlank, Blank, Hashes, NoteKept, AppendedAt;
    var o := Handle(h, judge, device, log, reviews, request, ids, now);
    SubmitGrows(h, judge, log, request.proposals, ids);
    AcceptedPrefix(h, judge, log, request.proposals, ids);
    assert FindReview(reviews, request.reviewId) == Some(k);
    NoteFits(reviews, request);
    NothingSubmitted(reviews, request);
  }

  /** A resolution goes through exactly when the review is there, its note is no longer
      than 4096 bytes and some hash has a character that is no space; the first review
      with the id is then resolved, and otherwise nothing changes. */
  lemma ResolveExactly(reviews: seq<Review>, id: Uuid, resolution: Resolution, now: int)
    ensures var (error, reviews') := Resolve(reviews, id, resolution, now);
      && (error.None? <==>
            && (exists r :: r in reviews && r.id == id)
            && (resolution.note.Some? ==> |resolution.note.value| <= 4096)
            && exists hash :: hash in resolution.eventHashes && !AllSpaces(hash))
      && (error.Some? ==> reviews' == reviews)
      && (error.None? ==> exists i: nat ::
            FirstReview(reviews, id, i) && reviews' == reviews[i := Review(id, Resolved, Some(resolution), now, Some(now))])
  {
    forall i | 0 <= i < |resolution.eventHashes|
      ensures Blank(resolution.eventHashes[i]) <==> AllSpaces(resolution.eventHashes[i])
    {
      BlankExactly(resolution.eventHashes[i]);
    }
    hide Blank, AllSpaces;
    assert AllBlank(resolution.eventHashes) <==> forall hash :: hash in resolution.eventHashes ==> AllSpaces(hash);
    hide AllBlank;
    var found := FindReview(reviews, id);
    FirstFound(reviews, id);
    hide FindReview;
    if found.Some? {
      assert reviews[found.value] in reviews;
    }
  }

  predicate FirstReview(reviews: seq<Review>, id: Uuid, i: nat) {
    i < |reviews| && reviews[i].id == id && forall j :: 0 <= j < i ==> reviews[j].id != id
  }

  lemma {:induction false} FirstFound(reviews: seq<Review>, id: Uuid)
    ensures FindReview(reviews, id).Some? ==> FirstReview(reviews, id, FindReview(reviews, id).value)
  {
    if reviews != [] && reviews[0].id != id {
      FirstFound(reviews[1..], id);
      if FindReview(reviews[1..], id).Some? {
        var i := FindReview(reviews[1..], id).value;
        forall j | 0 <= j < i + 1 ensures reviews[j].id != id {
          assert j > 0 ==> reviews[j] == reviews[1..][j - 1];
        }
      }
    }
  }

  lemma NoteFits(reviews: seq<Review>, request: Request)
    ensures !Refused(reviews, request) ==>
      var note := NoteKept(request.note); note.Some? ==> |note.value| <= MAX_NOTE_BYTES
  {
  }

  lemma NothingSubmitted(reviews: seq<Review>, request: Request)
    ensures !Refused(reviews, request) ==> request.proposals != []
  {
  }

  /** Corrective events keep the official log a valid chain. */
  lemma {:induction false} CorrectionsKeepChain(h: HashFunction, judge: Judge, log: seq<Envelope>, proposals: seq<Proposal>, ids: seq<Ids>)
    requires |ids| >= |proposals| && ValidChain(h, log)
    requires forall i, e :: 0 <= i < |ids| && e in log ==> e.eventId != ids[i].eventId
    requires forall i, j :: 0 <= i < j < |ids| ==> ids[i].eventId != ids[j].eventId
    ensures ValidChain(h, SubmitAll(h, judge, log, proposals, ids).log)
    ensures forall e :: e in SubmitAll(h, judge, log, proposals, ids).log ==>
      e in log || exists i :: 0 <= i < |proposals| && e.eventId == ids[i].eventId
  {
    hide ValidChain;
    if proposals != [] {
      var n := |proposals| - 1;
      CorrectionsKeepChain(h, judge, log, proposals[..n], ids);
      var before := SubmitAll(h, judge, log, proposals[..n], ids);
      if before.failure.None? && judge(before.log, proposals[n]).Ok? {
        var e := FromNew(h, judge(before.log, proposals[n]).value, Head(before.log), ids[n].eventId, ids[n].now);
        forall i | 0 <= i < |before.log| ensures before.log[i].eventId != e.eventId {
          assert before.log[i] in before.log;
        }
        ChainExtends(h, before.log, e);
        assert e.eventId == ids[n].eventId;
      }
    }
  }
}
