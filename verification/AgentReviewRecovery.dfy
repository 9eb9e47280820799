/** Recovery of reviews that were interrupted (recoverInterruptedAgentReviews, isResolvedAskOnlyReview and
    shouldRecoverTimestamp in apps/browser-demo/src/agentReviewRecovery.ts). Date.parse is a partial function. */
module AgentReviewRecovery {
  import opened StableSort
  import opened Wrappers

  const ASK_ONLY_REASON := "Ask-agent conversation only. No decision recorded."
  const INTERRUPTED_REVIEW_REASON := "The app closed before the agent returned. Ask the agent again to restart the check."
  const INTERRUPTED_ASK_REASON := "The app closed before the agent answered. Ask again to restart the conversation."

  datatype Exchange = Exchange(id: string, question: string, askedAt: string, pending: bool,
                               error: Option<string>, answeredAt: Option<string>)

  datatype Review = Review(status: string, reason: Option<string>, checkedAt: Option<string>,
                           conversation: Option<seq<Exchange>>)

  datatype Record = Record(updatedAt: Option<string>, review: Option<Review>)

  datatype Options = Options(nowIso: string, staleAfterMs: int, parse: string -> Option<int>)

  // Date.parse of the empty string is not a number.
  predicate ParsesDates(o: Options) {
    o.parse("").None?
  }

  const CHECKING := "checking"

  function StaleAfter(o: Options): nat {
    if o.staleAfterMs > 0 then o.staleAfterMs else 0
  }

  // shouldRecoverTimestamp
  predicate IsStale(o: Options, value: Option<string>) {
    var now := o.parse(o.nowIso);
    || now.None? || value.None? || value.value == "" || o.parse(value.value).None?
    || now.value - o.parse(value.value).value >= StaleAfter(o)
  }

  function Exchanges(review: Review): seq<Exchange> {
    review.conversation.GetOr([])
  }

  function IsPending(e: Exchange): bool {
    e.pending
  }

  predicate HasPending(review: Review) {
    exists e | e in Exchanges(review) :: e.pending
  }

  predicate IsResolvedAskOnly(review: Review) {
    review.status == CHECKING && review.reason == Some(ASK_ONLY_REASON) && Exchanges(review) != [] && !HasPending(review)
  }

  // The review itself is taken to be interrupted.
  predicate Interrupted(o: Options, record: Record) {
    && record.review.Some? && record.review.value.status == CHECKING
    && IsStale(o, if record.review.value.checkedAt.Some? then record.review.value.checkedAt else record.updatedAt)
    && !IsResolvedAskOnly(record.review.value)
  }

  predicate Unanswered(o: Options, e: Exchange) {
    e.pending && IsStale(o, Some(e.askedAt))
  }

  predicate HasUnanswered(o: Options, review: Review) {
    exists e | e in Exchanges(review) :: Unanswered(o, e)
  }

  function Answered(o: Options): Exchange -> Exchange {
    (e: Exchange) =>
      if Unanswered(o, e) then e.(pending := false, error := Some(INTERRUPTED_ASK_REASON), answeredAt := Some(o.nowIso)) else e
  }

  function FailedReview(o: Options, review: Review): Review {
    review.(status := "error", reason := Some(INTERRUPTED_REVIEW_REASON), checkedAt := Some(o.nowIso))
  }

  function AnsweredReview(o: Options, review: Review): Review {
    review.(conversation := Some(Map(Answered(o), Exchanges(review))),
            checkedAt := Some(review.checkedAt.GetOr(o.nowIso)))
  }

  function Recovered(o: Options, record: Record): Record {
    if record.review.None? then record
    else
      var review := record.review.value;
      var failed := if Interrupted(o, record) then FailedReview(o, review) else review;
      var next := if HasUnanswered(o, review) then AnsweredReview(o, failed) else failed;
      if next == review then record else Record(Some(o.nowIso), Some(next))
  }

  function RecoveredAll(o: Options, records: seq<Record>): seq<Record> {
    Map((record: Record) => Recovered(o, record), records)
  }

  // ---- The code ------------------------------------------------------------------------------------------

  method RecoverConversation(o: Options, conversation: seq<Exchange>) returns (next: seq<Exchange>, changed: bool)
    ensures next == Map(Answered(o), conversation)
    ensures changed <==> exists e | e in conversation :: Unanswered(o, e)
  {
    hide IsStale;
    next, changed := [], false;
    for i := 0 to |conversation|
      invariant |next| == i && forall k | 0 <= k < i :: next[k] == Answered(o)(conversation[k])
      invariant changed <==> exists k | 0 <= k < i :: Unanswered(o, conversation[k])
    {
      var entry := conversation[i];
      if entry.pending && IsStale(o, Some(entry.askedAt)) {
        changed := true;
        entry := entry.(pending := false, error := Some(INTERRUPTED_ASK_REASON), answeredAt := Some(o.nowIso));
      }
      next := next + [entry];
    }
  }

  method RecoverRecord(o: Options, record: Record) returns (next: Record, changed: bool)
    ensures next == Recovered(o, record)
    ensures changed <==> next != record
  {
    ReplacedIff(o, record);
    hide IsStale;
    if record.review.None? {
      return record, false;
    }
    var review := record.review.value;
    var nextReview, reviewChanged := review, false;
    var pending := Filter(IsPending, Exchanges(review));
    FilterMembers(IsPending, Exchanges(review));
    assert pending != [] <==> HasPending(review) by {
      assert pending != [] ==> pending[0] in pending;
    }
    if review.status == CHECKING
       && IsStale(o, if review.checkedAt.Some? then review.checkedAt else record.updatedAt)
       && !(review.reason == Some(ASK_ONLY_REASON) && Exchanges(review) != [] && |pending| == 0) {
      nextReview := FailedReview(o, nextReview);
      reviewChanged := true;
    }
    if |pending| > 0 {
      var conversation, conversationChanged := RecoverConversation(o, review.conversation.value);
      if conversationChanged {
        nextReview := nextReview.(conversation := Some(conversation), checkedAt := Some(nextReview.checkedAt.GetOr(o.nowIso)));
        reviewChanged := true;
      }
    }
    if !reviewChanged {
      return record, false;
    }
    return Record(Some(o.nowIso), Some(nextReview)), true;
  }

  method RecoverInterruptedAgentReviews(o: Options, records: seq<Record>) returns (recovered: seq<Record>, changed: bool)
    ensures recovered == RecoveredAll(o, records)
    ensures changed <==> recovered != records
  {
    hide Recovered;
    recovered, changed := [], false;
    for i := 0 to |records|
      invariant |recovered| == i && forall k | 0 <= k < i :: recovered[k] == Recovered(o, records[k])
      invariant changed <==> exists k | 0 <= k < i :: recovered[k] != records[k]
    {
      var next, replaced := RecoverRecord(o, records[i]);
      recovered := recovered + [next];
      if replaced {
        changed := true;
      }
    }
  }

  // ---- What recovery does --------------------------------------------------------------------------------

  lemma AnsweredDiffers(o: Options, exchanges: seq<Exchange>)
    ensures Map(Answered(o), exchanges) != exchanges <==> exists e | e in exchanges :: Unanswered(o, e)
  {
    hide IsStale;
    if e :| e in exchanges && Unanswered(o, e) {
      var k :| 0 <= k < |exchanges| && exchanges[k] == e;
      assert Map(Answered(o), exchanges)[k] != exchanges[k];
    }
  }

  /** A record is replaced if and only if its review was interrupted or an exchange of it was. */
  lemma ReplacedIff(o: Options, record: Record)
    ensures Recovered(o, record) != record <==>
      Interrupted(o, record) || (record.review.Some? && HasUnanswered(o, record.review.value))
    ensures record.review.Some? && HasUnanswered(o, record.review.value) ==>
      Recovered(o, record).review.value.conversation != record.review.value.conversation
  {
    hide IsStale;
    if record.review.Some? {
      AnsweredDiffers(o, Exchanges(record.review.value));
    }
  }

  // An exchange after recovery: an unanswered one has failed now, any other is as it was.
  predicate EndsAs(o: Options, e: Exchange, next: Exchange) {
    && next.id == e.id && next.question == e.question && next.askedAt == e.askedAt
    && if Unanswered(o, e)
       then !next.pending && next.error == Some(INTERRUPTED_ASK_REASON) && next.answeredAt == Some(o.nowIso)
       else next.pending == e.pending && next.error == e.error && next.answeredAt == e.answeredAt
  }

  /** What a replaced record looks like: an interrupted review has failed now and any other keeps its status and reason,
      each unanswered exchange has failed now and the others stand as they were, and the record is dated now. */
  lemma ReplacedRecord(o: Options, record: Record)
    requires Recovered(o, record) != record
    ensures var next := Recovered(o, record);
      && record.review.Some? && next.review.Some? && next.updatedAt == Some(o.nowIso)
      && var review, review' := record.review.value, next.review.value;
      && (if Interrupted(o, record)
          then review'.status == "error" && review'.reason == Some(INTERRUPTED_REVIEW_REASON) && review'.checkedAt == Some(o.nowIso)
          else review'.status == review.status && review'.reason == review.reason
               && review'.checkedAt == Some(review.checkedAt.GetOr(o.nowIso)))
      && |Exchanges(review')| == |Exchanges(review)|
      && forall k | 0 <= k < |Exchanges(review)| :: EndsAs(o, Exchanges(review)[k], Exchanges(review')[k])
  {
    ReplacedIff(o, record);
    hide IsStale, IsResolvedAskOnly;
    assert forall k | 0 <= k < |Exchanges(record.review.value)| :: Exchanges(record.review.value)[k] in Exchanges(record.review.value);
    hide Interrupted;
  }

  // The first recovery answers an exchange of a review whose only timestamp, the record's, lies in the future;
  // it dates the review now, and so makes it stale for a second one.
  predicate NeedsSecondPass(o: Options, record: Record) {
    && record.review.Some? && StaleAfter(o) == 0
    && var review := record.review.value;
    && review.status == CHECKING && review.checkedAt.None? && !IsStale(o, record.updatedAt) && HasUnanswered(o, review)
    && !(review.reason == Some(ASK_ONLY_REASON) && AnswersAll(o, review))
  }

  lemma AnsweredLeaves(o: Options, exchanges: seq<Exchange>)
    ensures var next := Map(Answered(o), exchanges);
      && (forall e | e in next :: !Unanswered(o, e))
      && ((exists e | e in next :: e.pending) <==> exists e | e in exchanges :: e.pending && !Unanswered(o, e))
  {
    hide IsStale;
    var next := Map(Answered(o), exchanges);
    forall e | e in next ensures !Unanswered(o, e) {
      var k :| 0 <= k < |next| && next[k] == e;
    }
    if e :| e in next && e.pending {
      var k :| 0 <= k < |next| && next[k] == e;
      assert exchanges[k] in exchanges;
    }
    if e :| e in exchanges && e.pending && !Unanswered(o, e) {
      var k :| 0 <= k < |exchanges| && exchanges[k] == e;
      assert next[k] == e;
    }
  }

  lemma NowIsStaleIff(o: Options)
    ensures IsStale(o, Some(o.nowIso)) <==> o.parse(o.nowIso).None? || o.nowIso == "" || StaleAfter(o) == 0
  {
  }

  /** What has a date is stale from the given age on, ages below zero counting as zero; what has none always is. */
  lemma StaleIff(o: Options, value: Option<string>)
    requires ParsesDates(o) && o.parse(o.nowIso).Some?
    ensures IsStale(o, value) <==>
      match value
      case None => true
      case Some(date) =>
        o.parse(date).Some? ==>
          o.parse(o.nowIso).value - o.parse(date).value >= if o.staleAfterMs < 0 then 0 else o.staleAfterMs
  {
  }

  // After one recovery no exchange is unanswered, so only the review itself can be interrupted again.
  lemma AfterOne(o: Options, record: Record)
    requires record.review.Some?
    ensures var next := Recovered(o, record);
      && next.review.Some? && !HasUnanswered(o, next.review.value)
      && (Interrupted(o, record) ==> next.review.value.status != CHECKING)
      && (!Interrupted(o, record) && HasUnanswered(o, record.review.value) ==>
            next == Record(Some(o.nowIso), Some(AnsweredReview(o, record.review.value))))
  {
    ReplacedIff(o, record);
    var review := record.review.value;
    AnsweredLeaves(o, Exchanges(review));
    hide IsStale, IsResolvedAskOnly;
  }

  predicate AnswersAll(o: Options, review: Review) {
    forall e | e in Exchanges(review) && e.pending :: Unanswered(o, e)
  }

  lemma ResolvedOnceAnswered(o: Options, review: Review)
    requires HasUnanswered(o, review)
    ensures IsResolvedAskOnly(AnsweredReview(o, review)) <==>
      review.status == CHECKING && review.reason == Some(ASK_ONLY_REASON) && AnswersAll(o, review)
    ensures !IsResolvedAskOnly(review)
  {
    AnsweredLeaves(o, Exchanges(review));
    assert HasPending(review);
    hide Unanswered, Answered;
  }

  lemma SecondPassInterrupts(o: Options, record: Record)
    requires ParsesDates(o) && record.review.Some? && !Interrupted(o, record) && HasUnanswered(o, record.review.value)
    ensures Interrupted(o, Recovered(o, record)) <==> NeedsSecondPass(o, record)
  {
    AfterOne(o, record);
    NowIsStaleIff(o);
    ResolvedOnceAnswered(o, record.review.value);
    assert record.review.value.status == CHECKING ==>
      o.parse(o.nowIso).Some? && !IsStale(o, if record.review.value.checkedAt.Some? then record.review.value.checkedAt else record.updatedAt);
    hide Recovered, Map, IsResolvedAskOnly, HasUnanswered, AnswersAll, Exchanges, Unanswered;
  }

  lemma RecordIsSettledIff(o: Options, record: Record)
    requires ParsesDates(o)
    ensures Recovered(o, Recovered(o, record)) == Recovered(o, record) <==> !NeedsSecondPass(o, record)
  {
    if record.review.Some? {
      AfterOne(o, record);
      ReplacedIff(o, record);
      ReplacedIff(o, Recovered(o, record));
      if !Interrupted(o, record) && HasUnanswered(o, record.review.value) {
        SecondPassInterrupts(o, record);
      }
      hide Recovered, IsResolvedAskOnly, HasUnanswered;
    }
  }

  /** Recovery is idempotent if and only if no record needs a second pass. */
  lemma RecoveryIsIdempotentIff(o: Options, records: seq<Record>)
    requires ParsesDates(o)
    ensures RecoveredAll(o, RecoveredAll(o, records)) == RecoveredAll(o, records) <==>
      forall record | record in records :: !NeedsSecondPass(o, record)
  {
    hide Recovered, NeedsSecondPass;
    var once := RecoveredAll(o, records);
    var twice := RecoveredAll(o, once);
    if forall record | record in records :: !NeedsSecondPass(o, record) {
      forall k | 0 <= k < |records| ensures twice[k] == once[k] {
        RecordIsSettledIff(o, records[k]);
      }
    } else {
      var record :| record in records && NeedsSecondPass(o, record);
      var k :| 0 <= k < |records| && records[k] == record;
      RecordIsSettledIff(o, record);
      assert twice[k] != once[k];
    }
  }

  // No timestamp of the record lies after now.
  predicate NoFuture(o: Options, record: Record) {
    && (record.updatedAt.Some? ==> NotFuture(o, record.updatedAt.value))
    && (record.review.Some? ==>
          && (record.review.value.checkedAt.Some? ==> NotFuture(o, record.review.value.checkedAt.value))
          && forall e | e in Exchanges(record.review.value) :: NotFuture(o, e.askedAt))
  }

  predicate NotFuture(o: Options, value: string) {
    var now := o.parse(o.nowIso);
    now.Some? && o.parse(value).Some? ==> o.parse(value).value <= now.value
  }

  /** It is when stale means a positive age, or when nothing is dated in the future. */
  lemma RecoveryIsIdempotent(o: Options, records: seq<Record>)
    requires ParsesDates(o)
    requires o.staleAfterMs > 0 || forall record | record in records :: NoFuture(o, record)
    ensures RecoveredAll(o, RecoveredAll(o, records)) == RecoveredAll(o, records)
  {
    RecoveryIsIdempotentIff(o, records);
  }

  /** With no staleness to wait for and nothing dated in the future, no exchange stays pending, and a review
      stays `checking` if and only if it is a conversation that has all its answers. */
  lemma NothingStaysInterrupted(o: Options, record: Record)
    requires o.staleAfterMs <= 0 && NoFuture(o, record) && record.review.Some?
    ensures var next := Recovered(o, record).review.value;
      && !HasPending(next)
      && (next.status == CHECKING <==> IsResolvedAskOnly(record.review.value))
  {
    var review := record.review.value;
    AfterOne(o, record);
    ReplacedIff(o, record);
    AnsweredLeaves(o, Exchanges(review));
    forall e | e in Exchanges(review) ensures IsStale(o, Some(e.askedAt)) {
      assert NotFuture(o, e.askedAt);
    }
    hide Answered;
  }

  /** It is not for a record saved by a clock that runs ahead. */
  lemma FutureRecordTakesTwoPasses(o: Options, later: string) returns (record: Record)
    requires ParsesDates(o) && o.staleAfterMs == 0 && o.parse(o.nowIso).Some? && o.parse(later).Some? && later != ""
    requires o.parse(later).value > o.parse(o.nowIso).value
    ensures Recovered(o, Recovered(o, record)) != Recovered(o, record)
  {
    var exchange := Exchange("1", "Why?", o.nowIso, true, None, None);
    record := Record(Some(later), Some(Review(CHECKING, None, None, Some([exchange]))));
    assert Unanswered(o, exchange) && exchange in Exchanges(record.review.value);
    RecordIsSettledIff(o, record);
    hide Recovered;
  }
}
