/** The search service's projection of posts, maintained by its two event
    handlers. Both handlers catch every error, so neither ever fails the
    message; `errorLogged` records whether the catch block ran. */
module SearchProjection {
  import opened Common
  import opened Events

  datatype SearchRecord = SearchRecord(postId: string, userId: string, content: string, createdAt: int)

  /** What a handler leaves behind. */
  datatype Handled = Handled(records: seq<SearchRecord>, errorLogged: bool)

  /** The query `{ postId }` as a test on one record. */
  function OfPost(postId: string): SearchRecord -> bool
  {
    (r: SearchRecord) => r.postId == postId
  }

  /** Number of projection records for one post. */
  function RecordsFor(records: seq<SearchRecord>, postId: string): nat
  {
    Count(records, OfPost(postId))
  }

  /** The record `handlePostCreated` saves for an event. */
  function RecordOf(event: Event): SearchRecord
    requires event.PostCreated?
  {
    SearchRecord(event.postId, event.userId, event.content, event.createdAt)
  }

  /** `handlePostCreated` (bound to `post.created` only). `saved` says whether
      the store's `save` succeeded. There is no check for an existing record. */
  function HandlePostCreated(records: seq<SearchRecord>, event: Event, saved: bool): (h: Handled)
    requires event.PostCreated?
    ensures saved ==> |h.records| == |records| + 1 && h.records[..|records|] == records
    ensures saved ==> var added := h.records[|records|];
                      added.postId == event.postId && added.userId == event.userId
                      && added.content == event.content && added.createdAt == event.createdAt
    ensures saved ==> RecordsFor(h.records, event.postId) == RecordsFor(records, event.postId) + 1
    ensures !saved ==> h.records == records
    ensures h.errorLogged <==> !saved
  {
    if saved then
      var r := records + [RecordOf(event)];
      CountAppend(records, [RecordOf(event)], OfPost(event.postId));
      assert [RecordOf(event)][1..] == [];
      Handled(r, false)
    else Handled(records, true)
  }

  /** `handlePostDeleted` (bound to `post.deleted` only). `deleted` says whether
      the store's `findOneAndDelete` succeeded. The log line after it names an
      undeclared variable, so the catch block runs on every call, after the
      deletion has taken effect. */
  function HandlePostDeleted(records: seq<SearchRecord>, event: Event, deleted: bool): (h: Handled)
    requires event.PostDeleted?
    ensures h.errorLogged
    ensures RecordsFor(records, event.postId) == 0 || !deleted ==> h.records == records
    ensures RecordsFor(records, event.postId) > 0 && deleted ==>
              && RecordsFor(h.records, event.postId) == RecordsFor(records, event.postId) - 1
              && |h.records| == |records| - 1
    ensures forall r: SearchRecord :: r.postId != event.postId ==> multiset(h.records)[r] == multiset(records)[r]
    ensures RecordsFor(records, event.postId) > 0 && deleted ==>
              && FirstIndex(records, OfPost(event.postId)).Some?
              && h.records == RemoveAt(records, FirstIndex(records, OfPost(event.postId)).value)
  {
    var matches := OfPost(event.postId);
    CountZero(records, matches);
    if !deleted then Handled(records, true)
    else
      match FirstIndex(records, matches)
      case None => Handled(records, true)
      case Some(i) =>
        RemoveFirstMatch(records, matches, i);
        Handled(RemoveAt(records, i), true)
  }

  /** Redelivering a `post.created` event inserts a second record for the
      same post: the handler is not idempotent. */
  lemma CreatedReplayDuplicates(records: seq<SearchRecord>, event: Event)
    requires event.PostCreated?
    ensures var once := HandlePostCreated(records, event, true).records;
            var twice := HandlePostCreated(once, event, true).records;
            RecordsFor(twice, event.postId) == RecordsFor(records, event.postId) + 2
  {
  }

  /** A `post.deleted` event arriving before (or without) its `post.created`
      leaves the projection as it was. */
  lemma DeleteWithoutRecordIsNoop(records: seq<SearchRecord>, event: Event, deleted: bool)
    requires event.PostDeleted?
    requires forall r :: r in records ==> r.postId != event.postId
    ensures HandlePostDeleted(records, event, deleted).records == records
  {
    CountZero(records, OfPost(event.postId));
  }
}
