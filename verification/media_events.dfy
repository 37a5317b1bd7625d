/** The media service's `post.deleted` handler: find the media records whose
    id the event lists, and for each, in store order, delete the remote asset
    and then the local record, stopping at the first remote failure. Every
    error is caught and logged; nothing is retried. */
module MediaCleanup {
  import opened Common
  import Json

  datatype Media = Media(id: string, publicId: string, user: string)

  /** Side effects in the order the handler performs them. */
  datatype Effect = RemoteDelete(media: Media) | LocalDelete(media: Media)

  /** The media store after the handler, its effects, and whether the catch
      block logged an error. */
  datatype Cleanup = Cleanup(store: seq<Media>, effects: seq<Effect>, errorLogged: bool)

  /** The store's `_id` index: no two records share an id. */
  predicate UniqueIds(store: seq<Media>)
  {
    forall i, j :: 0 <= i < j < |store| ==> store[i].id != store[j].id
  }

  /** The two JavaScript values the guard compares. */
  datatype JsValue = JsBool(b: bool) | JsNumber(n: int)

  /** `!mediaIds.length !== 0`: `!` yields a boolean, and a boolean is never
      strictly equal to a number. */
  predicate GuardAsWritten(length: nat)
  {
    JsBool(length == 0) != JsNumber(0)
  }

  /** The guard holds for every length, so the "no media" branch never runs. */
  lemma GuardAlwaysHolds(length: nat)
    ensures GuardAsWritten(length)
  {
  }

  predicate Referenced(m: Media, mediaIds: seq<Json.Value>)
  {
    Json.Str(m.id) in mediaIds
  }

  /** The query `{ _id: { $in: mediaIds } }` as a test on one record. */
  function ReferencedBy(mediaIds: seq<Json.Value>): Media -> bool
  {
    (m: Media) => Referenced(m, mediaIds)
  }

  /** `Media.find({ _id: { $in: mediaIds } })`: the referenced records, in
      store order. */
  function Matching(store: seq<Media>, mediaIds: seq<Json.Value>): (r: seq<Media>)
    ensures forall m :: m in r <==> m in store && Referenced(m, mediaIds)
    ensures |r| <= |store|
  {
    Filter(store, ReferencedBy(mediaIds))
  }

  /** The query keeps store order and multiplicity: matching a store made of
      two parts matches each part in turn. */
  lemma MatchingAppend(a: seq<Media>, b: seq<Media>, mediaIds: seq<Json.Value>)
    ensures Matching(a + b, mediaIds) == Matching(a, mediaIds) + Matching(b, mediaIds)
  {
    FilterAppend(a, b, ReferencedBy(mediaIds));
  }

  function IdsOf(ms: seq<Media>): set<string>
  {
    set m | m in ms :: m.id
  }

  /** A record that survives deleting the ids in `gone`. */
  function Kept(gone: set<string>): Media -> bool
  {
    (m: Media) => m.id !in gone
  }

  /** `store` after deleting by id every record whose id is in `gone`. */
  function Removed(store: seq<Media>, gone: set<string>): (r: seq<Media>)
    ensures forall m :: m in r <==> m in store && m.id !in gone
    ensures |r| <= |store|
  {
    Filter(store, Kept(gone))
  }

  /** Index of the first matched record whose remote delete fails, or the
      number of matched records when none fails. */
  function FailurePoint(matched: seq<Media>, remoteOk: string -> bool): (k: nat)
    ensures k <= |matched|
    ensures forall j :: 0 <= j < k ==> remoteOk(matched[j].publicId)
    ensures k < |matched| ==> !remoteOk(matched[k].publicId)
  {
    match FirstIndex(matched, (m: Media) => !remoteOk(m.publicId))
    case None => |matched|
    case Some(k) => k
  }

  /** The effects of fully processing `ms`: remote then local delete, record
      after record. */
  function Steps(ms: seq<Media>): (e: seq<Effect>)
    ensures |e| == 2 * |ms|
  {
    if |ms| == 0 then []
    else Steps(ms[..|ms| - 1]) + [RemoteDelete(ms[|ms| - 1]), LocalDelete(ms[|ms| - 1])]
  }

  /** The ids Mongoose's `$in` looks up: an array as it is, any other value
      wrapped in a one-element array. */
  function Operand(mediaIds: Json.Value): seq<Json.Value>
  {
    if mediaIds.Array? then mediaIds.items else [mediaIds]
  }

  /** Every id of the operand casts to an ObjectId (`castsToId` says whether
      Mongoose can cast a value); one that does not makes the query throw a
      CastError before it reads the store. */
  predicate AllCast(operand: seq<Json.Value>, castsToId: Json.Value -> bool)
  {
    forall v :: v in operand ==> castsToId(v)
  }

  /** The outcome the handler is expected to reach. `null` throws at the
      guard and an id that does not cast throws in the query, both caught
      with nothing changed. Otherwise the records before the first remote
      failure are deleted, the failing one has had only its remote delete
      attempted, and the rest are untouched. */
  function Expected(store: seq<Media>, mediaIds: Json.Value, castsToId: Json.Value -> bool,
                    remoteOk: string -> bool): (c: Cleanup)
  {
    if mediaIds.Null? || !AllCast(Operand(mediaIds), castsToId) then Cleanup(store, [], true)
    else Run(store, Matching(store, Operand(mediaIds)), remoteOk)
  }

  /** The loop over the matched records `matched`, stated declaratively. */
  function Run(store: seq<Media>, matched: seq<Media>, remoteOk: string -> bool): (c: Cleanup)
  {
    var k := FailurePoint(matched, remoteOk);
    Cleanup(Removed(store, IdsOf(matched[..k])),
            Steps(matched[..k]) + (if k < |matched| then [RemoteDelete(matched[k])] else []),
            k < |matched|)
  }

  lemma RemovedMore(store: seq<Media>, gone: set<string>, id: string)
    ensures Removed(Removed(store, gone), {id}) == Removed(store, gone + {id})
  {
    FilterFilter(store, Kept(gone), Kept({id}), Kept(gone + {id}));
  }

  lemma RemovedNothing(store: seq<Media>)
    ensures Removed(store, {}) == store
  {
    FilterAll(store, Kept({}));
  }

  /** One more record fully processed. */
  lemma Advance(store: seq<Media>, matched: seq<Media>, i: nat)
    requires i < |matched|
    ensures Removed(Removed(store, IdsOf(matched[..i])), {matched[i].id}) == Removed(store, IdsOf(matched[..i + 1]))
    ensures Steps(matched[..i + 1]) == Steps(matched[..i]) + [RemoteDelete(matched[i]), LocalDelete(matched[i])]
  {
    var m := matched[i];
    assert matched[..i + 1] == matched[..i] + [m];
    assert IdsOf(matched[..i + 1]) == IdsOf(matched[..i]) + {m.id};
    assert matched[..i + 1][..i] == matched[..i];
    RemovedMore(store, IdsOf(matched[..i]), m.id);
  }

  /** `handlePostDeleted`. `mediaIds` is the event's field (`None` when it is
      missing); `castsToId` says which values Mongoose casts to an ObjectId;
      `remoteOk(publicId)` says whether the cloud delete of that asset
      succeeds. */
  method HandlePostDeleted(store: seq<Media>, mediaIds: Option<Json.Value>, castsToId: Json.Value -> bool,
                           remoteOk: string -> bool)
    returns (c: Cleanup)
    ensures mediaIds.None? ==> c == Cleanup(store, [], true)
    ensures mediaIds.Some? && (mediaIds.value.Null? || !AllCast(Operand(mediaIds.value), castsToId))
            ==> c == Cleanup(store, [], true)
    ensures mediaIds.Some? ==> c == Expected(store, mediaIds.value, castsToId, remoteOk)
  {
    if mediaIds.None? || mediaIds.value.Null? {
      // `undefined.length` and `null.length` throw
      return Cleanup(store, [], true);
    }
    var operand := Operand(mediaIds.value);
    if !AllCast(operand, castsToId) {
      // the CastError of `$in`, before the store is read
      return Cleanup(store, [], true);
    }
    // the "no media attached" branch is dead: see GuardAlwaysHolds
    c := Sweep(store, Matching(store, operand), remoteOk);
  }

  /** The `for ... of` loop: for each matched record, the cloud delete and
      then the store delete; the first failing cloud delete throws. */
  method Sweep(store: seq<Media>, matched: seq<Media>, remoteOk: string -> bool) returns (c: Cleanup)
    ensures c == Run(store, matched, remoteOk)
  {
    ghost var k := FailurePoint(matched, remoteOk);
    var current := store;
    var effects: seq<Effect> := [];
    var i := 0;
    RemovedNothing(store);
    assert IdsOf(matched[..0]) == {};
    while i < |matched|
      invariant 0 <= i <= k
      invariant current == Removed(store, IdsOf(matched[..i]))
      invariant effects == Steps(matched[..i])
    {
      var m := matched[i];
      if !remoteOk(m.publicId) {
        RunAtFailure(store, matched, remoteOk, i);
        return Cleanup(current, effects + [RemoteDelete(m)], true);
      }
      assert i < k;
      Advance(store, matched, i);
      current := Removed(current, {m.id});
      effects := effects + [RemoteDelete(m), LocalDelete(m)];
      i := i + 1;
    }
    RunAtEnd(store, matched, remoteOk);
    assert matched[..i] == matched;
    return Cleanup(current, effects, false);
  }

  /** `Run` when the remote delete of the `i`-th matched record fails. */
  lemma RunAtFailure(store: seq<Media>, matched: seq<Media>, remoteOk: string -> bool, i: nat)
    requires i <= FailurePoint(matched, remoteOk)
    requires i < |matched| && !remoteOk(matched[i].publicId)
    ensures Run(store, matched, remoteOk)
              == Cleanup(Removed(store, IdsOf(matched[..i])), Steps(matched[..i]) + [RemoteDelete(matched[i])], true)
  {
  }

  /** `Run` when every remote delete succeeds. */
  lemma RunAtEnd(store: seq<Media>, matched: seq<Media>, remoteOk: string -> bool)
    requires FailurePoint(matched, remoteOk) == |matched|
    ensures Run(store, matched, remoteOk) == Cleanup(Removed(store, IdsOf(matched)), Steps(matched), false)
  {
    var k := FailurePoint(matched, remoteOk);
    var c := Run(store, matched, remoteOk);
    assert matched[..k] == matched;
    assert c.store == Removed(store, IdsOf(matched));
    assert c.effects == Steps(matched);
  }

  /** Position `2j` of the trace is the remote delete of the `j`-th record and
      position `2j + 1` its local delete. */
  lemma {:induction false} StepsPairs(ms: seq<Media>)
    ensures forall i :: 0 <= i < |Steps(ms)| ==>
              Steps(ms)[i].media == ms[i / 2] && (Steps(ms)[i].LocalDelete? <==> i % 2 == 1)
  {
    if |ms| > 0 {
      var init := ms[..|ms| - 1];
      StepsPairs(init);
      assert forall j :: 0 <= j < |init| ==> init[j] == ms[j];
    }
  }

  /** Subsetting a store keeps its ids unique. */
  lemma {:induction false} MatchingUniqueIds(store: seq<Media>, mediaIds: seq<Json.Value>)
    requires UniqueIds(store)
    ensures UniqueIds(Matching(store, mediaIds))
  {
    if |store| > 0 {
      var rest := store[1..];
      MatchingUniqueIds(rest, mediaIds);
      assert UniqueIds(rest) by {
        forall i, j | 0 <= i < j < |rest| ensures rest[i].id != rest[j].id {
          assert rest[i] == store[i + 1] && rest[j] == store[j + 1];
        }
      }
      assert forall m | m in rest :: m.id != store[0].id by {
        forall m | m in rest ensures m.id != store[0].id {
          var j :| 0 <= j < |rest| && rest[j] == m;
          assert store[j + 1] == m;
        }
      }
    }
  }

  lemma {:induction false} MatchingNone(store: seq<Media>, mediaIds: seq<Json.Value>)
    requires forall m | m in store :: !Referenced(m, mediaIds)
    ensures Matching(store, mediaIds) == []
  {
    if |store| > 0 {
      assert store[0] in store;
      MatchingNone(store[1..], mediaIds);
    }
  }

  /** The trace of the loop over `matched`: effect `2j` is the remote delete
      of the `j`-th record and effect `2j + 1` its local delete, and a
      failure adds one last remote delete. */
  lemma RunTrace(store: seq<Media>, matched: seq<Media>, remoteOk: string -> bool)
    ensures var c := Run(store, matched, remoteOk);
            var k := FailurePoint(matched, remoteOk);
            && |c.effects| == 2 * k + (if c.errorLogged then 1 else 0)
            && (forall i :: 0 <= i < |c.effects| ==>
                  c.effects[i].media == matched[i / 2] && (c.effects[i].LocalDelete? <==> i % 2 == 1))
  {
    var k := FailurePoint(matched, remoteOk);
    var done := Steps(matched[..k]);
    StepsPairs(matched[..k]);
    assert forall i :: 0 <= i < |done| ==> done[i].media == matched[i / 2];
    var effects := done + (if k < |matched| then [RemoteDelete(matched[k])] else []);
    forall i | 0 <= i < |effects|
      ensures effects[i].media == matched[i / 2] && (effects[i].LocalDelete? <==> i % 2 == 1)
    {
      if i < |done| {
        assert effects[i] == done[i];
      } else {
        assert i == 2 * k && effects[i] == RemoteDelete(matched[k]);
        assert i / 2 == k && i % 2 == 0;
      }
    }
    var c := Run(store, matched, remoteOk);
    assert c.effects == effects;
    assert c.errorLogged == (k < |matched|);
  }

  /** The trace: each processed record's remote delete comes immediately
      before its local delete, records are processed in store order, and a
      failure ends the trace with the failed remote delete. */
  lemma ExpectedTrace(store: seq<Media>, mediaIds: Json.Value, castsToId: Json.Value -> bool,
                      remoteOk: string -> bool)
    requires !mediaIds.Null? && AllCast(Operand(mediaIds), castsToId)
    ensures var c := Expected(store, mediaIds, castsToId, remoteOk);
            var matched := Matching(store, Operand(mediaIds));
            var k := FailurePoint(matched, remoteOk);
            && |c.effects| == 2 * k + (if c.errorLogged then 1 else 0)
            && (forall i :: 0 <= i < |c.effects| ==>
                  c.effects[i].media == matched[i / 2] && (c.effects[i].LocalDelete? <==> i % 2 == 1))
  {
    var matched := Matching(store, Operand(mediaIds));
    assert Expected(store, mediaIds, castsToId, remoteOk) == Run(store, matched, remoteOk);
    RunTrace(store, matched, remoteOk);
  }

  /** A record the event does not reference is never deleted. */
  lemma ExpectedKeepsUnreferenced(store: seq<Media>, mediaIds: Json.Value, castsToId: Json.Value -> bool,
                                  remoteOk: string -> bool, m: Media)
    requires m in store
    requires !Referenced(m, Operand(mediaIds))
    ensures m in Expected(store, mediaIds, castsToId, remoteOk).store
  {
    if !mediaIds.Null? && AllCast(Operand(mediaIds), castsToId) {
      var matched := Matching(store, Operand(mediaIds));
      var k := FailurePoint(matched, remoteOk);
      forall m' | m' in matched[..k] ensures m'.id != m.id {
        var i :| 0 <= i < k && matched[..k][i] == m';
        assert matched[i] == m' && m' in matched;
        assert Referenced(m', Operand(mediaIds));
      }
    }
  }

  /** Deleting the ids of a prefix removes every record of the prefix. */
  lemma PrefixGone(store: seq<Media>, matched: seq<Media>, k: nat)
    requires k <= |matched|
    ensures forall j :: 0 <= j < k ==> matched[j] !in Removed(store, IdsOf(matched[..k]))
  {
    forall j | 0 <= j < k
      ensures matched[j].id in IdsOf(matched[..k])
    {
      assert matched[..k][j] == matched[j];
    }
  }

  /** With unique ids, deleting the ids of a prefix keeps every stored
      record after it. */
  lemma SuffixKept(store: seq<Media>, matched: seq<Media>, k: nat)
    requires k <= |matched| && UniqueIds(matched)
    requires forall m | m in matched :: m in store
    ensures forall j :: k <= j < |matched| ==> matched[j] in Removed(store, IdsOf(matched[..k]))
  {
    forall j | k <= j < |matched|
      ensures matched[j].id !in IdsOf(matched[..k]) && matched[j] in store
    {
      assert matched[j] in matched;
      forall m' | m' in matched[..k] ensures m'.id != matched[j].id {
        var i :| 0 <= i < k && matched[..k][i] == m';
        assert matched[i] == m';
      }
    }
  }

  /** The loop over stored records with unique ids deletes exactly those
      before the failure point among them. */
  lemma RunDeletesPrefix(store: seq<Media>, matched: seq<Media>, remoteOk: string -> bool)
    requires UniqueIds(matched)
    requires forall m | m in matched :: m in store
    ensures var c := Run(store, matched, remoteOk);
            var k := FailurePoint(matched, remoteOk);
            && (forall j :: 0 <= j < k ==> matched[j] !in c.store)
            && (forall j :: k <= j < |matched| ==> matched[j] in c.store)
  {
    var k := FailurePoint(matched, remoteOk);
    PrefixGone(store, matched, k);
    SuffixKept(store, matched, k);
  }

  /** With unique ids: the records before the failure point are gone, the
      failing record and every later one are still stored. */
  lemma ExpectedDeletesPrefix(store: seq<Media>, mediaIds: Json.Value, castsToId: Json.Value -> bool,
                              remoteOk: string -> bool)
    requires UniqueIds(store)
    requires !mediaIds.Null? && AllCast(Operand(mediaIds), castsToId)
    ensures var c := Expected(store, mediaIds, castsToId, remoteOk);
            var matched := Matching(store, Operand(mediaIds));
            var k := FailurePoint(matched, remoteOk);
            && (forall j :: 0 <= j < k ==> matched[j] !in c.store)
            && (forall j :: k <= j < |matched| ==> matched[j] in c.store)
  {
    var matched := Matching(store, Operand(mediaIds));
    assert Expected(store, mediaIds, castsToId, remoteOk) == Run(store, matched, remoteOk);
    MatchingUniqueIds(store, Operand(mediaIds));
    RunDeletesPrefix(store, matched, remoteOk);
  }

  /** An event listing no stored media changes nothing, and logs an error
      exactly when one of its ids does not cast. */
  lemma ExpectedNothingReferenced(store: seq<Media>, mediaIds: Json.Value, castsToId: Json.Value -> bool,
                                  remoteOk: string -> bool)
    requires !mediaIds.Null?
    requires forall m | m in store :: !Referenced(m, Operand(mediaIds))
    ensures Expected(store, mediaIds, castsToId, remoteOk)
            == Cleanup(store, [], !AllCast(Operand(mediaIds), castsToId))
  {
    MatchingNone(store, Operand(mediaIds));
    assert IdsOf([]) == {};
    RemovedNothing(store);
  }

  /** Redelivering the event after a clean run finds nothing left to delete. */
  lemma ExpectedReplay(store: seq<Media>, mediaIds: Json.Value, castsToId: Json.Value -> bool,
                       remoteOk: string -> bool)
    requires !Expected(store, mediaIds, castsToId, remoteOk).errorLogged
    ensures var after := Expected(store, mediaIds, castsToId, remoteOk).store;
            Expected(after, mediaIds, castsToId, remoteOk) == Cleanup(after, [], false)
  {
    assert !mediaIds.Null? && AllCast(Operand(mediaIds), castsToId);
    var matched := Matching(store, Operand(mediaIds));
    var k := FailurePoint(matched, remoteOk);
    assert matched[..k] == matched;
    var after := Removed(store, IdsOf(matched));
    forall m | m in store && Referenced(m, Operand(mediaIds)) ensures m.id in IdsOf(matched) {
      assert m in matched;
    }
    ExpectedNothingReferenced(after, mediaIds, castsToId, remoteOk);
  }

  /** A single id that is not in an array is looked up as if it were the only
      element of one. */
  lemma ExpectedWrapsSingleId(store: seq<Media>, mediaId: Json.Value, castsToId: Json.Value -> bool,
                              remoteOk: string -> bool)
    requires !mediaId.Null? && !mediaId.Array?
    ensures Expected(store, mediaId, castsToId, remoteOk)
            == Expected(store, Json.Array([mediaId]), castsToId, remoteOk)
  {
  }
}
