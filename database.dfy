/**
 * The shallow collection of `database.py`: three schedule keys are handled
 * by their operator, every other key is compared for equality against the
 * stored document itself (which holds no `_id`), `insert_one` pops `_id`
 * from the caller's dictionary, and `$pull` removes every occurrence.
 */
module Database {
  import opened Ordering
  import opened Documents

  const DaysKey := "schedule_details.days"
  const StartKey := "schedule_details.start_time"
  const EndKey := "schedule_details.end_time"

  // ---------------------------------------------------------------------------
  // The query matcher
  // ---------------------------------------------------------------------------

  /** `doc["schedule_details"][field]`, when both levels are present. */
  function Detail(doc: Doc, field: string): Option<Value>
  {
    if "schedule_details" in doc && doc["schedule_details"].Obj? && field in doc["schedule_details"].fields
    then Some(doc["schedule_details"].fields[field])
    else None
  }

  /** `"op" in value` for a query value; only a dictionary can name an operator. */
  predicate HasOperator(value: Value, op: string)
  {
    value.Obj? && op in value.fields
  }

  /** One query key against a stored document. */
  predicate KeyMatches(doc: Doc, key: string, value: Value)
  {
    if key == DaysKey then
      HasOperator(value, "$in") ==>
        var days := Detail(doc, "days");
        days.Some? && SharesElement(days.value, value.fields["$in"])
    else if key == StartKey then
      HasOperator(value, "$gte") ==>
        var start := Detail(doc, "start_time");
        start.Some? && !Less(start.value, value.fields["$gte"])
    else if key == EndKey then
      HasOperator(value, "$lte") ==>
        var end := Detail(doc, "end_time");
        end.Some? && !Less(value.fields["$lte"], end.value)
    else key in doc && doc[key] == value
  }

  predicate Satisfies(doc: Doc, query: Pairs)
  {
    forall i :: 0 <= i < |query| ==> KeyMatches(doc, query[i].0, query[i].1)
  }

  /** The inner loop of `find`, with its `match` flag and its early exits. */
  method MatchDocument(doc: Doc, query: Pairs) returns (match_: bool)
    ensures match_ == Satisfies(doc, query)
  {
    match_ := true;
    var i := 0;
    while i < |query|
      invariant 0 <= i <= |query|
      invariant match_ && forall j :: 0 <= j < i ==> KeyMatches(doc, query[j].0, query[j].1)
    {
      var (key, value) := query[i];
      if key == DaysKey {
        if HasOperator(value, "$in") {
          var daysToMatch := value.fields["$in"];
          var days := Detail(doc, "days");
          if days.None? {
            match_ := false;
            break;
          }
          if !SharesElement(days.value, daysToMatch) {
            match_ := false;
            break;
          }
        }
      } else if key == StartKey {
        if HasOperator(value, "$gte") {
          var minTime := value.fields["$gte"];
          var start := Detail(doc, "start_time");
          if start.None? {
            match_ := false;
            break;
          }
          if Less(start.value, minTime) {
            match_ := false;
            break;
          }
        }
      } else if key == EndKey {
        if HasOperator(value, "$lte") {
          var maxTime := value.fields["$lte"];
          var end := Detail(doc, "end_time");
          if end.None? {
            match_ := false;
            break;
          }
          if Less(maxTime, end.value) {
            match_ := false;
            break;
          }
        }
      } else if key !in doc || doc[key] != value {
        match_ := false;
        break;
      }
      i := i + 1;
    }
  }

  predicate Covers(keys: seq<Value>, entries: map<Value, Doc>)
  {
    forall i :: 0 <= i < |keys| ==> keys[i] in entries
  }

  /** What `find(query)` returns: copies of the matching documents with `_id` attached, in store order. */
  function Select(keys: seq<Value>, entries: map<Value, Doc>, query: Pairs): seq<Doc>
    requires Covers(keys, entries)
    decreases |keys|
  {
    if |keys| == 0 then []
    else
      (if Satisfies(entries[keys[0]], query) then [WithId(entries[keys[0]], keys[0])] else [])
      + Select(keys[1..], entries, query)
  }

  lemma SelectStep(keys: seq<Value>, entries: map<Value, Doc>, query: Pairs, i: nat)
    requires Covers(keys, entries) && i < |keys|
    ensures Select(keys[i..], entries, query) ==
      (if Satisfies(entries[keys[i]], query) then [WithId(entries[keys[i]], keys[i])] else [])
      + Select(keys[i + 1..], entries, query)
  {
    assert keys[i..][0] == keys[i] && keys[i..][1..] == keys[i + 1..];
  }

  /** A result of `find` is exactly the copy of a stored document that satisfies the query. */
  lemma {:induction false} SelectMembers(keys: seq<Value>, entries: map<Value, Doc>, query: Pairs, d: Doc)
    requires Covers(keys, entries)
    ensures d in Select(keys, entries, query) <==>
      exists i :: 0 <= i < |keys| && Satisfies(entries[keys[i]], query) && d == WithId(entries[keys[i]], keys[i])
    decreases |keys|
  {
    if |keys| > 0 {
      SelectMembers(keys[1..], entries, query, d);
      if exists i :: 0 <= i < |keys[1..]| && Satisfies(entries[keys[1..][i]], query) && d == WithId(entries[keys[1..][i]], keys[1..][i]) {
        var i :| 0 <= i < |keys[1..]| && Satisfies(entries[keys[1..][i]], query) && d == WithId(entries[keys[1..][i]], keys[1..][i]);
        assert keys[1..][i] == keys[i + 1];
      }
      if exists i :: 0 <= i < |keys| && Satisfies(entries[keys[i]], query) && d == WithId(entries[keys[i]], keys[i]) {
        var i :| 0 <= i < |keys| && Satisfies(entries[keys[i]], query) && d == WithId(entries[keys[i]], keys[i]);
        if i > 0 {
          assert keys[1..][i - 1] == keys[i];
        }
      }
    }
  }

  /** An empty query returns a copy of every document, in store order. */
  lemma {:induction false} SelectEverything(keys: seq<Value>, entries: map<Value, Doc>)
    requires Covers(keys, entries)
    ensures |Select(keys, entries, [])| == |keys|
    ensures forall i :: 0 <= i < |keys| ==> Select(keys, entries, [])[i] == WithId(entries[keys[i]], keys[i])
    decreases |keys|
  {
    if |keys| > 0 {
      SelectEverything(keys[1..], entries);
      assert forall i :: 1 <= i < |keys| ==> keys[1..][i - 1] == keys[i];
    }
  }

  /** `count_documents({})` is the number of keys in the store. */
  lemma CountAll(st: Store)
    requires st.Valid()
    ensures |Select(st.keys, st.entries, [])| == |st.entries|
  {
    SelectEverything(st.keys, st.entries);
    SizeOfValid(st);
  }

  /** The `$in` query on days holds exactly when the document lists one of the days. */
  lemma DaysQuery(doc: Doc, days: seq<Value>)
    ensures Satisfies(doc, [(DaysKey, Obj(map["$in" := List(days)]))]) <==>
      Detail(doc, "days").Some? && exists j :: 0 <= j < |days| && Contains(Detail(doc, "days").value, days[j])
  {
    var q := [(DaysKey, Obj(map["$in" := List(days)]))];
    assert q[0] == (DaysKey, Obj(map["$in" := List(days)]));
    assert Candidates(List(days)) == days;
  }

  /** A start/end window query holds exactly when the activity lies inside the window. */
  lemma TimeWindowQuery(doc: Doc, from: string, to: string)
    ensures Satisfies(doc, [(StartKey, Obj(map["$gte" := Str(from)])), (EndKey, Obj(map["$lte" := Str(to)]))]) <==>
      && Detail(doc, "start_time").Some? && Detail(doc, "end_time").Some?
      && !Less(Detail(doc, "start_time").value, Str(from))
      && !Less(Str(to), Detail(doc, "end_time").value)
  {
    var q := [(StartKey, Obj(map["$gte" := Str(from)])), (EndKey, Obj(map["$lte" := Str(to)]))];
    assert StartKey != DaysKey && EndKey != DaysKey && EndKey != StartKey by {
      assert StartKey[17] != DaysKey[17] && EndKey[17] != DaysKey[17] && EndKey[17] != StartKey[17];
    }
    assert q[0].0 == StartKey && q[1].0 == EndKey;
  }

  /** The key `find_one` and `update_one` take: the one whose copy heads the result of `find`. */
  function FirstKey(keys: seq<Value>, entries: map<Value, Doc>, query: Pairs): (r: Option<Value>)
    requires Covers(keys, entries)
    ensures r.None? <==> Select(keys, entries, query) == []
    ensures r.Some? ==> (r.value in entries && Satisfies(entries[r.value], query)
      && Select(keys, entries, query)[0] == WithId(entries[r.value], r.value))
    decreases |keys|
  {
    if |keys| == 0 then None
    else if Satisfies(entries[keys[0]], query) then Some(keys[0])
    else FirstKey(keys[1..], entries, query)
  }

  // ---------------------------------------------------------------------------
  // Documents without identifiers
  // ---------------------------------------------------------------------------

  /** No stored document holds an `_id` field: `insert_one` pops it. */
  predicate NoStoredIds(st: Store)
  {
    forall k :: k in st.entries ==> Id !in st.entries[k]
  }

  function IdQuery(k: Value): Pairs
  {
    [(Id, k)]
  }

  /** `_id` is none of the three schedule keys, so it is compared for equality. */
  lemma IdIsPlainKey(doc: Doc, k: Value)
    ensures Satisfies(doc, IdQuery(k)) <==> Id in doc && doc[Id] == k
  {
    assert |Id| == 3 && |DaysKey| > 3 && |StartKey| > 3 && |EndKey| > 3;
    assert IdQuery(k)[0] == (Id, k);
  }

  /** `find({"_id": k})` matches nothing while no stored document holds `_id`. */
  lemma {:induction false} ByIdFindsNothing(keys: seq<Value>, entries: map<Value, Doc>, k: Value)
    requires Covers(keys, entries)
    requires forall i :: 0 <= i < |keys| ==> Id !in entries[keys[i]]
    ensures Select(keys, entries, IdQuery(k)) == []
    decreases |keys|
  {
    if |keys| > 0 {
      IdIsPlainKey(entries[keys[0]], k);
      ByIdFindsNothing(keys[1..], entries, k);
    }
  }

  lemma ByIdFindsNothingIn(st: Store, k: Value)
    requires st.Valid() && NoStoredIds(st)
    ensures Select(st.keys, st.entries, IdQuery(k)) == []
    ensures FirstKey(st.keys, st.entries, IdQuery(k)).None?
  {
    ByIdFindsNothing(st.keys, st.entries, k);
  }

  /** Seeding with documents that carry no `_id` keeps the store free of them. */
  lemma {:induction false} PutSeedsNoIds(st: Store, seeds: seq<(string, Doc)>)
    requires NoStoredIds(st) && SeedShaped(seeds)
    ensures NoStoredIds(PutSeeds(st, seeds))
    decreases |seeds|
  {
    if |seeds| > 0 {
      assert forall i :: 0 <= i < |seeds| - 1 ==> seeds[1..][i] == seeds[i + 1];
      PutSeedsNoIds(st.Put(Str(seeds[0].0), seeds[0].1), seeds[1..]);
    }
  }

  // ---------------------------------------------------------------------------
  // $push and $pull
  // ---------------------------------------------------------------------------

  /** `[item for item in xs if item != v]`. */
  function RemoveAll(xs: seq<Value>, v: Value): (r: seq<Value>)
    ensures v !in r
    ensures forall x :: x in r <==> x in xs && x != v
    decreases |xs|
  {
    if |xs| == 0 then []
    else
      assert xs == [xs[0]] + xs[1..];
      (if xs[0] == v then [] else [xs[0]]) + RemoveAll(xs[1..], v)
  }

  /** The comprehension drops every copy of the value and no copy of anything else. */
  lemma {:induction false} RemoveAllCounts(xs: seq<Value>, v: Value)
    ensures multiset(RemoveAll(xs, v)) == multiset(xs)[v := 0]
    decreases |xs|
  {
    if |xs| > 0 {
      RemoveAllCounts(xs[1..], v);
      assert xs == [xs[0]] + xs[1..];
    }
  }

  /** The comprehension on a list with a known first element. */
  lemma RemoveAllCons(x: Value, xs: seq<Value>, v: Value)
    ensures RemoveAll([x] + xs, v) == (if x == v then [] else [x]) + RemoveAll(xs, v)
  {
    assert ([x] + xs)[0] == x && ([x] + xs)[1..] == xs;
  }

  /** The comprehension keeps the order of what it keeps: filtering distributes over concatenation. */
  lemma {:induction false} RemoveAllConcat(xs: seq<Value>, ys: seq<Value>, v: Value)
    ensures RemoveAll(xs + ys, v) == RemoveAll(xs, v) + RemoveAll(ys, v)
    decreases |xs|
  {
    if |xs| == 0 {
      assert xs + ys == ys;
    } else {
      var head := if xs[0] == v then [] else [xs[0]];
      calc {
        RemoveAll(xs + ys, v);
        { assert xs + ys == [xs[0]] + (xs[1..] + ys); }
        RemoveAll([xs[0]] + (xs[1..] + ys), v);
        { RemoveAllCons(xs[0], xs[1..] + ys, v); }
        head + RemoveAll(xs[1..] + ys, v);
        { RemoveAllConcat(xs[1..], ys, v); }
        head + (RemoveAll(xs[1..], v) + RemoveAll(ys, v));
        (head + RemoveAll(xs[1..], v)) + RemoveAll(ys, v);
        { RemoveAllCons(xs[0], xs[1..], v); assert xs == [xs[0]] + xs[1..]; }
        RemoveAll(xs, v) + RemoveAll(ys, v);
      }
    }
  }

  /** A list without `v` comes back from the comprehension unchanged. */
  lemma {:induction false} RemoveAllAbsent(xs: seq<Value>, v: Value)
    requires v !in xs
    ensures RemoveAll(xs, v) == xs
    decreases |xs|
  {
    if |xs| > 0 {
      RemoveAllAbsent(xs[1..], v);
      assert xs == [xs[0]] + xs[1..];
    }
  }

  /** Filtering a value just appended to a list that lacked it gives the list back. */
  lemma {:induction false} RemoveAllAppended(xs: seq<Value>, v: Value)
    requires v !in xs
    ensures RemoveAll(xs + [v], v) == xs
    decreases |xs|
  {
    if |xs| > 0 {
      assert (xs + [v])[0] == xs[0] && (xs + [v])[1..] == xs[1..] + [v];
      RemoveAllAppended(xs[1..], v);
      assert xs == [xs[0]] + xs[1..];
    } else {
      assert [] + [v] == [v];
    }
  }

  /** `$pull` on one field: filter the list; a missing or a non-list field is left alone. */
  function Pull(doc: Doc, field: string, v: Value): Doc
  {
    if field in doc && doc[field].List? then doc[field := List(RemoveAll(doc[field].items, v))] else doc
  }

  /**
   * All `$pull` items in order; no field appears or disappears, each named
   * field holds what one `Pull` of it gives, so no pulled value is left in a list.
   */
  function PullAll(doc: Doc, ops: Pairs): (r: Doc)
    ensures r.Keys == doc.Keys
    ensures forall f :: f !in Fields(ops) && f in doc ==> r[f] == doc[f]
    ensures DistinctFields(ops) ==>
      forall i :: 0 <= i < |ops| && ops[i].0 in doc ==> r[ops[i].0] == Pull(doc, ops[i].0, ops[i].1)[ops[i].0]
    ensures DistinctFields(ops) ==>
      forall i :: 0 <= i < |ops| && ops[i].0 in doc && doc[ops[i].0].List? ==>
        r[ops[i].0].List? && ops[i].1 !in r[ops[i].0].items
    decreases |ops|
  {
    if |ops| == 0 then doc
    else
      FieldsCons(ops);
      assert forall i :: 1 <= i < |ops| ==> ops[1..][i - 1] == ops[i];
      PullAll(Pull(doc, ops[0].0, ops[0].1), ops[1..])
  }

  /** One step of `PullAll` from position `i`, as the `$pull` loop takes it. */
  lemma PullAllStep(doc: Doc, ops: Pairs, i: nat)
    requires i < |ops|
    ensures PullAll(doc, ops[i..]) == PullAll(Pull(doc, ops[i].0, ops[i].1), ops[i + 1..])
  {
    assert ops[i..][0] == ops[i] && ops[i..][1..] == ops[i + 1..];
  }

  /** `$push` only touches fields that are lists, where present. */
  predicate UpdateTyped(doc: Doc, update: Update)
  {
    ListsAt(doc, Fields(update.push))
  }

  function ApplyUpdate(doc: Doc, update: Update): (r: Doc)
    requires UpdateTyped(doc, update)
    ensures forall f :: f !in Fields(update.push) + Fields(update.pull) ==>
      (f in r <==> f in doc) && (f in doc ==> r[f] == doc[f])
  {
    PullAll(PushAll(doc, update.push), update.pull)
  }

  /** `$push v` then `$pull v` on a list field that lacked `v` restores the document. */
  lemma PushThenPullRestores(doc: Doc, field: string, v: Value)
    requires field in doc && doc[field].List? && v !in doc[field].items
    ensures Pull(Push(doc, field, v), field, v) == doc
  {
    var xs := doc[field].items;
    RemoveAllAppended(xs, v);
    assert Pull(Push(doc, field, v), field, v) == doc[field := List(xs)];
    assert List(xs) == doc[field];
  }

  /** Starting an absent field as `[]` and appending gives what `Push` gives. */
  lemma PushStartsEmpty(doc: Doc, field: string, v: Value)
    requires field in doc ==> doc[field].List?
    ensures var started := if field in doc then doc else doc[field := List([])];
      started[field := List(started[field].items + [v])] == Push(doc, field, v)
  {
    assert [] + [v] == [v];
  }

  /** The `$push` loop of `update_one`: `doc[field]` starts as `[]`, then gets the value. */
  method PushEach(stored: Doc, ops: Pairs) returns (r: Doc)
    requires ListsAt(stored, Fields(ops))
    ensures r == PushAll(stored, ops)
  {
    r := stored;
    var i := 0;
    while i < |ops|
      invariant 0 <= i <= |ops|
      invariant ListsAt(r, Fields(ops[i..]))
      invariant PushAll(r, ops[i..]) == PushAll(stored, ops)
    {
      var (field, value) := ops[i];
      PushAllStep(r, ops, i);
      ghost var before := r;
      if field !in r {
        r := r[field := List([])];
      }
      r := r[field := List(r[field].items + [value])];
      PushStartsEmpty(before, field, value);
      i := i + 1;
    }
  }

  /** The `$pull` loop of `update_one`. */
  method PullEach(stored: Doc, ops: Pairs) returns (r: Doc)
    ensures r == PullAll(stored, ops)
  {
    r := stored;
    var i := 0;
    while i < |ops|
      invariant 0 <= i <= |ops|
      invariant PullAll(r, ops[i..]) == PullAll(stored, ops)
    {
      var (field, value) := ops[i];
      PullAllStep(r, ops, i);
      if field in r && r[field].List? {
        r := r[field := List(RemoveAll(r[field].items, value))];
      }
      i := i + 1;
    }
  }

  // ---------------------------------------------------------------------------
  // aggregate and init_database
  // ---------------------------------------------------------------------------

  /** The pipeline shape `aggregate` recognises: three stages, an unwind, then a group. */
  predicate Groups(pipeline: seq<Doc>)
  {
    |pipeline| == 3 && "$unwind" in pipeline[0] && "$group" in pipeline[1]
  }

  /** The loop of `aggregate`: `days.update(...)` for every stored document. */
  method CollectDays(keys: seq<Value>, entries: map<Value, Doc>) returns (days: set<string>)
    requires Covers(keys, entries)
    ensures days == AllDays(keys, entries)
  {
    days := {};
    var i := 0;
    while i < |keys|
      invariant 0 <= i <= |keys|
      invariant days + AllDays(keys[i..], entries) == AllDays(keys, entries)
    {
      AllDaysStep(keys, entries, i);
      days := days + Strings(DayList(entries[keys[i]]));
      i := i + 1;
    }
    assert keys[i..] == [];
  }

  /** The `else` branch as written: insert each seed that `find_one({"_id": name})` misses. */
  function PutUnmatched(st: Store, seeds: seq<(string, Doc)>): (r: Store)
    requires st.Valid()
    ensures r.Valid()
    decreases |seeds|
  {
    if |seeds| == 0 then st
    else
      var next := if Select(st.keys, st.entries, IdQuery(Str(seeds[0].0))) == [] then st.Put(Str(seeds[0].0), seeds[0].1) else st;
      PutUnmatched(next, seeds[1..])
  }

  /**
   * Since stored documents hold no `_id`, the lookup never succeeds and the
   * `else` branch inserts every seed again, exactly as the empty branch does.
   */
  lemma {:induction false} PutUnmatchedIsPutSeeds(st: Store, seeds: seq<(string, Doc)>)
    requires st.Valid() && NoStoredIds(st) && SeedShaped(seeds)
    ensures PutUnmatched(st, seeds) == PutSeeds(st, seeds)
    decreases |seeds|
  {
    if |seeds| > 0 {
      ByIdFindsNothingIn(st, Str(seeds[0].0));
      assert forall i :: 0 <= i < |seeds| - 1 ==> seeds[1..][i] == seeds[i + 1];
      PutUnmatchedIsPutSeeds(st.Put(Str(seeds[0].0), seeds[0].1), seeds[1..]);
    }
  }

  /** The activities after `init_database`: all seeds if empty, else the seeds `find_one` misses. */
  function InitActivities(st: Store, seeds: seq<(string, Doc)>): Store
    requires st.Valid()
  {
    if |st.keys| == 0 then PutSeeds(st, seeds) else PutUnmatched(st, seeds)
  }

  /**
   * On either branch each seed activity ends up stored as its seed document.
   * On values this resets a changed activity to its seed; the source shares
   * the seed's lists with the stored document, which this model does not.
   */
  lemma InitStoresSeeds(st: Store, seeds: seq<(string, Doc)>)
    requires st.Valid() && NoStoredIds(st) && SeedShaped(seeds)
    requires forall i, j :: 0 <= i < j < |seeds| ==> seeds[i].0 != seeds[j].0
    ensures InitActivities(st, seeds) == PutSeeds(st, seeds)
    ensures forall i :: 0 <= i < |seeds| ==> InitActivities(st, seeds).entries[Str(seeds[i].0)] == seeds[i].1
    ensures NoStoredIds(InitActivities(st, seeds))
  {
    PutUnmatchedIsPutSeeds(st, seeds);
    PutSeedsStores(st, seeds);
    PutSeedsNoIds(st, seeds);
  }

  /** Seeding a store that already holds every seed document changes nothing. */
  lemma {:induction false} PutSeedsSame(st: Store, seeds: seq<(string, Doc)>)
    requires forall i :: 0 <= i < |seeds| ==> Str(seeds[i].0) in st.entries && st.entries[Str(seeds[i].0)] == seeds[i].1
    ensures PutSeeds(st, seeds) == st
    decreases |seeds|
  {
    if |seeds| > 0 {
      assert st.Put(Str(seeds[0].0), seeds[0].1) == st;
      assert forall i :: 0 <= i < |seeds| - 1 ==> seeds[1..][i] == seeds[i + 1];
      PutSeedsSame(st, seeds[1..]);
    }
  }

  /** Running the initialisation again leaves what the first run left. */
  lemma InitIdempotent(st: Store, seeds: seq<(string, Doc)>)
    requires st.Valid() && NoStoredIds(st) && SeedShaped(seeds)
    requires forall i, j :: 0 <= i < j < |seeds| ==> seeds[i].0 != seeds[j].0
    ensures InitActivities(InitActivities(st, seeds), seeds) == InitActivities(st, seeds)
  {
    var once := InitActivities(st, seeds);
    InitStoresSeeds(st, seeds);
    PutUnmatchedIsPutSeeds(once, seeds);
    PutSeedsSame(once, seeds);
  }

  /** The document loop of `find`: keep the matching documents, each copied with its `_id`. */
  method MatchAll(keys: seq<Value>, entries: map<Value, Doc>, query: Pairs) returns (results: seq<Doc>)
    requires Covers(keys, entries)
    ensures results == Select(keys, entries, query)
  {
    results := [];
    var i := 0;
    while i < |keys|
      invariant 0 <= i <= |keys|
      invariant results + Select(keys[i..], entries, query) == Select(keys, entries, query)
    {
      var docId := keys[i];
      var doc := entries[docId];
      var match_ := MatchDocument(doc, query);
      SelectStep(keys, entries, query, i);
      if match_ {
        results := results + [WithId(doc, docId)];
      }
      i := i + 1;
    }
    assert keys[i..] == [];
  }

  // ---------------------------------------------------------------------------
  // The collection
  // ---------------------------------------------------------------------------

  class MockCollection {
    var data: Store

    ghost predicate Valid()
      reads this
    {
      data.Valid()
    }

    constructor (data: Store)
      requires data.Valid()
      ensures Valid() && this.data == data
    {
      this.data := data;
    }

    method Find(query: Option<Pairs>) returns (results: seq<Doc>)
      requires Valid()
      ensures results == Select(data.keys, data.entries, QueryOrAll(query))
    {
      results := MatchAll(data.keys, data.entries, QueryOrAll(query));
    }

    method FindOne(query: Pairs) returns (r: Option<Doc>)
      requires Valid()
      ensures var found := Select(data.keys, data.entries, query);
        r == if found == [] then None else Some(found[0])
      ensures r.Some? <==> FirstKey(data.keys, data.entries, query).Some?
    {
      var results := Find(Some(query));
      r := if results != [] then Some(results[0]) else None;
    }

    method CountDocuments(query: Pairs) returns (n: nat)
      requires Valid()
      ensures n == |Select(data.keys, data.entries, query)|
    {
      var results := Find(Some(query));
      n := |results|;
    }

    /**
     * Pops `_id` from the caller's dictionary and stores what is left under it;
     * `remaining` is the caller's dictionary afterwards.
     */
    method InsertOne(doc: Doc) returns (r: Result<Value>, remaining: Doc)
      requires Valid()
      modifies this
      ensures Valid()
      ensures Id !in doc ==> r == Err(KeyError) && remaining == doc && data == old(data)
      ensures Id in doc ==> remaining == doc - {Id} && Id !in remaining
      ensures Id in doc && !Hashable(doc[Id]) ==> r == Err(TypeError) && data == old(data)
      ensures Id in doc && Hashable(doc[Id]) ==> r == Ok(doc[Id]) && data == old(data).Put(doc[Id], remaining)
      ensures NoStoredIds(old(data)) ==> NoStoredIds(data)
    {
      if Id !in doc {
        return Err(KeyError), doc;
      }
      var docId := doc[Id];
      remaining := doc - {Id};
      if !Hashable(docId) {
        return Err(TypeError), remaining;
      }
      data := data.Put(docId, remaining);
      return Ok(docId), remaining;
    }

    /** Applies `$push`, then `$pull`, to the first matching document only. */
    method UpdateOne(query: Pairs, update: Update) returns (modifiedCount: nat)
      requires Valid()
      requires var k := FirstKey(data.keys, data.entries, query);
        k.Some? ==> UpdateTyped(data.entries[k.value], update)
      modifies this
      ensures Valid()
      ensures var k := FirstKey(old(data).keys, old(data).entries, query);
        && (k.None? ==> modifiedCount == 0 && data == old(data))
        && (k.Some? ==> modifiedCount == 1 && data == old(data).Put(k.value, ApplyUpdate(old(data).entries[k.value], update)))
      ensures NoStoredIds(old(data)) && Id !in Fields(update.push) ==> NoStoredIds(data)
    {
      var results := Find(Some(query));
      if results != [] {
        ghost var k := FirstKey(data.keys, data.entries, query);
        var docId := results[0][Id];
        assert docId == k.value;
        var doc := data.entries[docId];
        doc := PushEach(doc, update.push);
        doc := PullEach(doc, update.pull);
        data := data.Put(docId, doc);
        return 1;
      }
      return 0;
    }

    /** The sorted distinct days, for the one pipeline shape `aggregate` knows. */
    method Aggregate(pipeline: seq<Doc>) returns (r: seq<Doc>)
      requires Valid()
      ensures r == if Groups(pipeline) then IdDocs(Sorted(AllDays(data.keys, data.entries))) else []
    {
      if |pipeline| == 3 && "$unwind" in pipeline[0] && "$group" in pipeline[1] {
        var days := CollectDays(data.keys, data.entries);
        return IdDocs(Sorted(days));
      }
      return [];
    }
  }

  /** The insert loop of `init_database`; `insert_one` pops `_id` from a fresh dictionary. */
  method InsertSeeds(collection: MockCollection, seeds: seq<(string, Doc)>)
    requires collection.Valid() && SeedShaped(seeds)
    modifies collection
    ensures collection.Valid()
    ensures collection.data == PutSeeds(old(collection.data), seeds)
  {
    var i := 0;
    while i < |seeds|
      invariant 0 <= i <= |seeds|
      invariant collection.Valid()
      invariant PutSeeds(collection.data, seeds[i..]) == PutSeeds(old(collection.data), seeds)
    {
      var (name, details) := seeds[i];
      assert seeds[i..][0] == (name, details) && seeds[i..][1..] == seeds[i + 1..];
      SeedDocSplits(name, details);
      var _, _ := collection.InsertOne(SeedDoc(name, details));
      i := i + 1;
    }
  }

  /** The loop meant to add the seed activities a non-empty collection lacks. */
  method InsertUnmatched(collection: MockCollection, seeds: seq<(string, Doc)>)
    requires collection.Valid() && SeedShaped(seeds)
    modifies collection
    ensures collection.Valid()
    ensures collection.data == PutUnmatched(old(collection.data), seeds)
  {
    var i := 0;
    while i < |seeds|
      invariant 0 <= i <= |seeds|
      invariant collection.Valid()
      invariant PutUnmatched(collection.data, seeds[i..]) == PutUnmatched(old(collection.data), seeds)
    {
      var (name, details) := seeds[i];
      assert seeds[i..][0] == (name, details) && seeds[i..][1..] == seeds[i + 1..];
      var found := collection.FindOne(IdQuery(Str(name)));
      if found.None? {
        SeedDocSplits(name, details);
        var _, _ := collection.InsertOne(SeedDoc(name, details));
      }
      i := i + 1;
    }
  }

  /** `init_database` on the two collections, with the seed catalogue as parameters. */
  method InitDatabase(activities: MockCollection, teachers: MockCollection,
                      seedActivities: seq<(string, Doc)>, seedTeachers: seq<Teacher>)
    requires activities != teachers && activities.Valid() && teachers.Valid()
    requires SeedShaped(seedActivities)
    modifies activities, teachers
    ensures activities.Valid() && teachers.Valid()
    ensures activities.data == InitActivities(old(activities.data), seedActivities)
    ensures teachers.data == InitTeachers(old(teachers.data), seedTeachers)
  {
    var count := activities.CountDocuments([]);
    CountAll(activities.data);
    SizeOfValid(activities.data);
    if count == 0 {
      InsertSeeds(activities, seedActivities);
    } else {
      InsertUnmatched(activities, seedActivities);
    }

    var teacherCount := teachers.CountDocuments([]);
    CountAll(teachers.data);
    SizeOfValid(teachers.data);
    if teacherCount == 0 {
      InsertSeeds(teachers, TeacherSeeds(seedTeachers));
    }
  }
}
