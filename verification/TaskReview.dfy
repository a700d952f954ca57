/** Task reviews (packages/core task-review.ts). */
module TaskReview {
  import opened Prelude
  import opened JsText

  datatype Person = Person(id: string, name: string)

  datatype Status = NotStarted | Working | Blocked | InReview | Done

  datatype Verdict = Pending | Approved | ChangesRequested

  datatype Reviewer = Reviewer(
    id: string, name: string, verdict: Verdict, note: Option<string>, respondedAt: Option<int>)

  datatype ReviewState = Open(verdict: Verdict) | Cancelled | Invalidated

  datatype Review = Review(
    id: string, round: nat, requestedBy: Person, requestedAt: int, requestedVersion: nat, note: string,
    dueDate: Option<string>, state: ReviewState, closedAt: Option<int>, closingNote: Option<string>,
    reviewers: seq<Reviewer>)

  datatype Command =
    | Request(reviewerIds: seq<string>, note: string, dueDate: Option<string>)
    | Respond(roundId: string, approve: bool, note: string)
    | Cancel(roundId: string, note: string)

  datatype Refusal =
    | NotATask | NotReviewable | NoteMissing | RoundPending | BadReviewers | ReviewerUnknown
    | RoundReplaced | RoundClosed | NotAReviewer | AlreadyResponded | NotApproved | ChangedWork

  datatype Applied = Applied(review: Review, status: Status)

  /** The part of a work item the review rules look at. */
  datatype Subject = Subject(isTask: bool, status: Status, version: nat, review: Option<Review>,
                             title: string, description: string, planning: Option<string>)

  datatype Patch = Patch(title: Option<string>, description: Option<string>, planning: Option<string>,
                         status: Option<Status>)

  const MAX_REVIEWERS := 25

  predicate Distinct(ids: seq<string>) {
    forall i, k :: 0 <= i < |ids| && i < k < |ids| ==> ids[i] != ids[k]
  }

  function Find(people: seq<Person>, id: string): Option<Person> {
    if people == [] then None
    else if people[0].id == id then Some(people[0])
    else Find(people[1..], id)
  }

  function FreshReviewers(people: seq<Person>, ids: seq<string>): Option<seq<Reviewer>> {
    if ids == [] then Some([])
    else
      match (Find(people, ids[0]), FreshReviewers(people, ids[1..]))
      case (Some(p), Some(rest)) => Some([Reviewer(p.id, p.name, Pending, None, None)] + rest)
      case (_, _) => None
  }

  /** The verdict of a round: any requested change decides it, then unanimity, else it stays pending. */
  function Tally(reviewers: seq<Reviewer>): Verdict {
    if exists i :: 0 <= i < |reviewers| && reviewers[i].verdict == ChangesRequested then ChangesRequested
    else if forall i :: 0 <= i < |reviewers| ==> reviewers[i].verdict == Approved then Approved
    else Pending
  }

  function RecordResponse(reviewers: seq<Reviewer>, actor: string, verdict: Verdict, note: string, now: int)
    : seq<Reviewer>
  {
    Map((r: Reviewer) => if r.id == actor then Reviewer(r.id, r.name, verdict, Some(note), Some(now)) else r, reviewers)
  }

  function FindReviewer(reviewers: seq<Reviewer>, id: string): Option<Reviewer> {
    if reviewers == [] then None
    else if reviewers[0].id == id then Some(reviewers[0])
    else FindReviewer(reviewers[1..], id)
  }

  function RequestReview(s: Subject, ids: seq<string>, note: string, dueDate: Option<string>, actor: Person, now: int,
                         newId: string, people: seq<Person>): Result<Applied, Refusal>
  {
    if s.review.Some? && s.review.value.state == Open(Pending) then Err(RoundPending)
    else if ids == [] || |ids| > MAX_REVIEWERS || !Distinct(ids) then Err(BadReviewers)
    else
      match FreshReviewers(people, ids)
      case None => Err(ReviewerUnknown)
      case Some(reviewers) =>
        var round := if s.review.Some? then s.review.value.round + 1 else 1;
        Ok(Applied(Review(newId, round, actor, now, s.version, Trim(note), dueDate, Open(Pending), None, None,
                          reviewers), InReview))
  }

  function RespondToReview(r: Review, verdict: Verdict, note: string, actor: Person, now: int)
    : Result<Applied, Refusal>
  {
    match FindReviewer(r.reviewers, actor.id)
    case None => Err(NotAReviewer)
    case Some(mine) =>
      if mine.verdict != Pending then Err(AlreadyResponded)
      else
        var reviewers := RecordResponse(r.reviewers, actor.id, verdict, Trim(note), now);
        var v := Tally(reviewers);
        Ok(Applied(r.(reviewers := reviewers, state := Open(v),
                      closedAt := if v != Pending then Some(now) else r.closedAt),
                   if v == ChangesRequested then Working else InReview))
  }

  function NoteOf(c: Command): string {
    match c
    case Request(_, n, _) => n
    case Respond(_, _, n) => n
    case Cancel(_, n) => n
  }

  /** applyTaskReview */
  function ApplyTaskReview(s: Subject, c: Command, actor: Person, now: int, newId: string, people: seq<Person>)
    : Result<Applied, Refusal>
  {
    if !s.isTask then Err(NotATask)
    else if s.status == Done || s.status == Blocked then Err(NotReviewable)
    else if Trim(NoteOf(c)) == "" then Err(NoteMissing)
    else if c.Request? then RequestReview(s, c.reviewerIds, c.note, c.dueDate, actor, now, newId, people)
    else if s.review.None? || s.review.value.id != c.roundId then Err(RoundReplaced)
    else
      var r := s.review.value;
      if !(r.state in {Open(Pending), Open(ChangesRequested)} || (c.Cancel? && r.state == Invalidated)) then
        Err(RoundClosed)
      else
        match c
        case Cancel(_, note) =>
          Ok(Applied(r.(state := Cancelled, closedAt := Some(now), closingNote := Some(Trim(note))), Working))
        case Respond(_, approve, note) =>
          RespondToReview(r, if approve then Approved else ChangesRequested, note, actor, now)
  }

  predicate Revises(s: Subject, p: Patch) {
    || (p.title.Some? && p.title.value != s.title)
    || (p.description.Some? && p.description.value != s.description)
    || (p.planning.Some? && p.planning != s.planning)
    || (s.status == Done && p.status.Some? && p.status.value != Done)
  }

  const REVISED_NOTE := "The task was revised or reopened. Send a new review round for the updated work."

  /** reviewForTaskChange */
  function ReviewForTaskChange(s: Subject, p: Patch, now: int): Result<Option<Review>, Refusal> {
    if s.review.None? then Ok(None)
    else
      var r := s.review.value;
      if p.status == Some(Done) && r.state != Open(Approved) && r.state != Cancelled then Err(NotApproved)
      else if Revises(s, p) && p.status == Some(Done) && r.state != Cancelled then Err(ChangedWork)
      else if Revises(s, p) && r.state != Cancelled && r.state != Invalidated then
        Ok(Some(r.(state := Invalidated, closedAt := Some(now), closingNote := Some(REVISED_NOTE))))
      else Ok(s.review)
  }

  // ---- What a review's state says ----

  /** An open round shows the tally of its reviewers, who are different and at least one. */
  ghost predicate Honest(r: Review) {
    && r.reviewers != [] && (r.state.Open? ==> r.state.verdict == Tally(r.reviewers))
    && forall i, k :: 0 <= i < k < |r.reviewers| ==> r.reviewers[i].id != r.reviewers[k].id
  }

  /** Complete work has no review, or one that was cancelled, or one every reviewer approved. */
  ghost predicate SettledIfDone(status: Status, review: Option<Review>) {
    review.Some? ==>
      && Honest(review.value)
      && (status == Done ==> review.value.state == Cancelled || review.value.state == Open(Approved))
  }

  lemma {:induction false} FreshReviewersPending(people: seq<Person>, ids: seq<string>)
    requires FreshReviewers(people, ids).Some?
    ensures var r := FreshReviewers(people, ids).value;
      |r| == |ids| && forall i :: 0 <= i < |r| ==> r[i].verdict == Pending && r[i].id == ids[i]
  {
    if ids != [] {
      FreshReviewersPending(people, ids[1..]);
      FindHasId(people, ids[0]);
    }
  }

  lemma {:induction false} FindHasId(people: seq<Person>, id: string)
    ensures Find(people, id).Some? ==> Find(people, id).value.id == id
  {
    if people != [] && people[0].id != id { FindHasId(people[1..], id); }
  }

  lemma {:induction false} FindReviewerAt(reviewers: seq<Reviewer>, id: string) returns (i: nat)
    requires FindReviewer(reviewers, id).Some?
    ensures i < |reviewers| && reviewers[i] == FindReviewer(reviewers, id).value && reviewers[i].id == id
  {
    if reviewers[0].id == id {
      i := 0;
    } else {
      var k := FindReviewerAt(reviewers[1..], id);
      i := k + 1;
    }
  }

  /** An accepted answer is the first and only one of an assigned reviewer, and records just that verdict. */
  lemma ResponseRecordsOneVerdict(s: Subject, c: Command, actor: Person, now: int, newId: string, people: seq<Person>)
    returns (at: nat)
    requires c.Respond? && SettledIfDone(s.status, s.review)
    requires ApplyTaskReview(s, c, actor, now, newId, people).Ok?
    ensures s.review.Some? && at < |s.review.value.reviewers|
    ensures var before := s.review.value.reviewers;
      var after := ApplyTaskReview(s, c, actor, now, newId, people).value.review.reviewers;
      && before[at].id == actor.id && before[at].verdict == Pending
      && |after| == |before|
      && after[at] == before[at].(verdict := if c.approve then Approved else ChangesRequested,
                                  note := Some(Trim(c.note)), respondedAt := Some(now))
      && forall i :: 0 <= i < |before| && i != at ==> after[i] == before[i]
  {
    at := FindReviewerAt(s.review.value.reviewers, actor.id);
  }

  /** What an accepted answer decides, read off the verdicts: a requested change is decisive, then unanimity;
      otherwise the round goes on. */
  lemma AnswerDecides(s: Subject, c: Command, actor: Person, now: int, newId: string, people: seq<Person>)
    requires c.Respond? && ApplyTaskReview(s, c, actor, now, newId, people).Ok?
    ensures s.review.Some?
    ensures var before, a := s.review.value, ApplyTaskReview(s, c, actor, now, newId, people).value;
      var after := a.review;
      var objected := exists i :: 0 <= i < |after.reviewers| && after.reviewers[i].verdict == ChangesRequested;
      && (!c.approve ==> objected)
      && (objected <==> after.state == Open(ChangesRequested)) && (objected <==> a.status == Working)
      && (!objected ==> a.status == InReview)
      && (after.state == Open(Approved) <==>
            forall i :: 0 <= i < |after.reviewers| ==> after.reviewers[i].verdict == Approved)
      && (after.state == Open(Pending) <==>
            !objected && exists i :: 0 <= i < |after.reviewers| && after.reviewers[i].verdict == Pending)
      && after.closedAt == (if after.state == Open(Pending) then before.closedAt else Some(now))
      && after == before.(reviewers := after.reviewers, state := after.state, closedAt := after.closedAt)
  {
    var rs := s.review.value.reviewers;
    var k := FindReviewerAt(rs, actor.id);
    var after := ApplyTaskReview(s, c, actor, now, newId, people).value.review.reviewers;
    assert after[k].verdict == if c.approve then Approved else ChangesRequested;
  }

  /** An accepted request opens a round of its own, for the named people in order. */
  lemma RequestOpensRound(s: Subject, c: Command, actor: Person, now: int, newId: string, people: seq<Person>)
    requires c.Request? && ApplyTaskReview(s, c, actor, now, newId, people).Ok?
    ensures var a := ApplyTaskReview(s, c, actor, now, newId, people).value;
      && a.status == InReview
      && a.review == Review(newId, if s.review.Some? then s.review.value.round + 1 else 1, actor, now, s.version,
                            Trim(c.note), c.dueDate, Open(Pending), None, None, a.review.reviewers)
      && |a.review.reviewers| == |c.reviewerIds|
      && forall i :: 0 <= i < |c.reviewerIds| ==>
           var r := a.review.reviewers[i];
           r == Reviewer(c.reviewerIds[i], r.name, Pending, None, None) && Person(r.id, r.name) in people
  {
    FreshReviewersKnown(people, c.reviewerIds);
  }

  lemma {:induction false} FreshReviewersKnown(people: seq<Person>, ids: seq<string>)
    ensures FreshReviewers(people, ids).Some? <==> forall i :: 0 <= i < |ids| ==> Known(people, ids[i])
    ensures FreshReviewers(people, ids).Some? ==>
      var r := FreshReviewers(people, ids).value;
      |r| == |ids| && forall i :: 0 <= i < |r| ==>
        r[i] == Reviewer(ids[i], r[i].name, Pending, None, None) && Person(r[i].id, r[i].name) in people
  {
    if ids != [] {
      FreshReviewersKnown(people, ids[1..]);
      FindKnown(people, ids[0]);
      assert forall i :: 0 <= i < |ids[1..]| ==> ids[1..][i] == ids[i + 1];
    }
  }

  predicate Known(people: seq<Person>, id: string) { exists p :: p in people && p.id == id }

  lemma {:induction false} FindKnown(people: seq<Person>, id: string)
    ensures Find(people, id).Some? <==> Known(people, id)
    ensures Find(people, id).Some? ==> Find(people, id).value in people && Find(people, id).value.id == id
  {
    if people != [] {
      assert people[0] in people;
      FindKnown(people[1..], id);
    }
  }

  /** This person is asked in this round and has not answered; of several entries the first counts. */
  ghost predicate MayAnswer(reviewers: seq<Reviewer>, id: string) {
    exists i :: 0 <= i < |reviewers| && reviewers[i].id == id && reviewers[i].verdict == Pending
      && forall k :: 0 <= k < i ==> reviewers[k].id != id
  }

  lemma {:induction false} FindReviewerIff(reviewers: seq<Reviewer>, id: string)
    ensures MayAnswer(reviewers, id) <==>
      FindReviewer(reviewers, id).Some? && FindReviewer(reviewers, id).value.verdict == Pending
  {
    if reviewers != [] && reviewers[0].id != id {
      FindReviewerIff(reviewers[1..], id);
      MayAnswerTail(reviewers, id);
    }
  }

  lemma MayAnswerTail(reviewers: seq<Reviewer>, id: string)
    requires reviewers != [] && reviewers[0].id != id
    ensures MayAnswer(reviewers, id) <==> MayAnswer(reviewers[1..], id)
  {
    var tail := reviewers[1..];
    if MayAnswer(tail, id) {
      var i :| 0 <= i < |tail| && tail[i].id == id && tail[i].verdict == Pending
        && forall k :: 0 <= k < i ==> tail[k].id != id;
      forall k | 0 <= k < i + 1 ensures reviewers[k].id != id { if k > 0 { assert tail[k - 1] == reviewers[k]; } }
      assert reviewers[i + 1] == tail[i];
    }
    if MayAnswer(reviewers, id) {
      var i :| 0 <= i < |reviewers| && reviewers[i].id == id && reviewers[i].verdict == Pending
        && forall k :: 0 <= k < i ==> reviewers[k].id != id;
      forall k | 0 <= k < i - 1 ensures tail[k].id != id { assert tail[k] == reviewers[k + 1]; }
      assert tail[i - 1] == reviewers[i];
    }
  }

  /** When a review command is accepted. */
  lemma ReviewAcceptedIff(s: Subject, c: Command, actor: Person, now: int, newId: string, people: seq<Person>)
    ensures ApplyTaskReview(s, c, actor, now, newId, people).Ok? <==>
      && s.isTask && s.status in {NotStarted, Working, InReview} && Trim(c.note) != ""
      && match c
         case Request(ids, _, _) =>
           && (s.review.Some? ==> s.review.value.state != Open(Pending)) && 1 <= |ids| <= 25
           && (forall i, k :: 0 <= i < k < |ids| ==> ids[i] != ids[k])
           && forall i :: 0 <= i < |ids| ==> Known(people, ids[i])
         case Respond(roundId, _, _) =>
           && s.review.Some? && s.review.value.id == roundId
           && s.review.value.state in {Open(Pending), Open(ChangesRequested)}
           && MayAnswer(s.review.value.reviewers, actor.id)
         case Cancel(roundId, _) =>
           && s.review.Some? && s.review.value.id == roundId
           && s.review.value.state in {Open(Pending), Open(ChangesRequested), Invalidated}
  {
    match c
    case Request(ids, _, _) => FreshReviewersKnown(people, ids);
    case Respond(_, _, _) => if s.review.Some? { FindReviewerIff(s.review.value.reviewers, actor.id); }
    case Cancel(_, _) =>
  }

  /** Every accepted review command leaves an honest review on unfinished work, and a cancellation keeps
      every recorded answer. */
  lemma ApplyKeepsHonest(s: Subject, c: Command, actor: Person, now: int, newId: string, people: seq<Person>)
    requires SettledIfDone(s.status, s.review)
    requires ApplyTaskReview(s, c, actor, now, newId, people).Ok?
    ensures var a := ApplyTaskReview(s, c, actor, now, newId, people).value;
      && Honest(a.review) && SettledIfDone(a.status, Some(a.review)) && a.status in {InReview, Working}
      && (c.Cancel? ==> s.review.Some? && a.status == Working)
      && (c.Cancel? ==>
            a.review == s.review.value.(state := Cancelled, closedAt := Some(now), closingNote := Some(Trim(c.note))))
      && (c.Request? ==> a.review.state == Open(Pending) && a.review.requestedVersion == s.version)
  {
    if c.Request? {
      FreshReviewersPending(people, c.reviewerIds);
      assert FreshReviewers(people, c.reviewerIds).value[0].verdict == Pending;
    } else if c.Respond? {
      var _ := ResponseRecordsOneVerdict(s, c, actor, now, newId, people);
    }
  }

  /** A change that completes a task is accepted only with an approved or cancelled review, and an approval
      never survives revised work. */
  lemma ChangeKeepsSettled(s: Subject, p: Patch, now: int)
    requires SettledIfDone(s.status, s.review) && ReviewForTaskChange(s, p, now).Ok?
    ensures var r := ReviewForTaskChange(s, p, now).value;
      && (r.Some? <==> s.review.Some?)
      && (r.Some? ==> Honest(r.value))
      && (p.status == Some(Done) ==> SettledIfDone(Done, r))
      && (r.Some? && Revises(s, p) ==> r.value.state == Cancelled || r.value.state == Invalidated)
      && (!Revises(s, p) ==> r == s.review)
  {
  }

  /** A review ended by new work: everything recorded in it stays. */
  ghost predicate EndedBy(after: Option<Review>, before: Option<Review>, now: int) {
    && before.Some? && after.Some? && after.value.state == Invalidated && after.value.closedAt == Some(now)
    && after.value == before.value.(state := Invalidated, closedAt := Some(now), closingNote := after.value.closingNote)
  }

  /** Revised work, field by field: a new title, description or planning, or reopening finished work, ends an open
      review; nothing else touches it. */
  lemma RevisionEndsReview(s: Subject, p: Patch, now: int)
    requires s.review.Some? && ReviewForTaskChange(s, p, now).Ok?
    ensures var after, state := ReviewForTaskChange(s, p, now).value, s.review.value.state;
      && (p.title.Some? && p.title.value != s.title && state.Open? ==> EndedBy(after, s.review, now))
      && (p.description.Some? && p.description.value != s.description && state.Open? ==> EndedBy(after, s.review, now))
      && (p.planning.Some? && p.planning != s.planning && state.Open? ==> EndedBy(after, s.review, now))
      && (s.status == Done && p.status.Some? && p.status.value != Done && state.Open? ==>
            EndedBy(after, s.review, now))
      && (after != s.review ==>
            || p.title !in {None, Some(s.title)} || p.description !in {None, Some(s.description)}
            || p.planning !in {None, s.planning} || (s.status == Done && p.status !in {None, Some(Done)}))
      && (!state.Open? ==> after == s.review)
  {
  }

  /** When a change is accepted: always, unless it completes the task; then only with no review, a cancelled one, or
      an approved one and nothing in the text revised. */
  lemma CompletionAcceptedIff(s: Subject, p: Patch, now: int)
    ensures ReviewForTaskChange(s, p, now).Ok? <==>
      || p.status != Some(Done) || s.review.None? || s.review.value.state == Cancelled
      || (s.review.value.state == Open(Approved) && p.title in {None, Some(s.title)}
          && p.description in {None, Some(s.description)} && p.planning in {None, s.planning})
  {
  }
}
