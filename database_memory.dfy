/**
 * The deep-copying collection of `database_memory.py`: queries are matched
 * against a copy of each stored document that carries its `_id`, a query key
 * must be a literal top-level field of that copy, dotted keys are then
 * resolved through nested dictionaries, and `$pull` removes only the first
 * occurrence of a value.
 */
module MemoryDatabase {
  import opened Ordering
  import opened Documents

  // ---------------------------------------------------------------------------
  // Dotted paths
  // ---------------------------------------------------------------------------

  /** Python's `key.split('.')`. */
  function Split(s: string): (parts: seq<string>)
    ensures |parts| >= 1
    decreases |s|
  {
    if |s| == 0 then [""]
    else
      var rest := Split(s[1..]);
      if s[0] == '.' then [""] + rest else [[s[0]] + rest[0]] + rest[1..]
  }

  /** Python's `'.'.join(parts)`, the inverse of `Split`. */
  function Join(parts: seq<string>): string
    requires |parts| >= 1
    decreases |parts|
  {
    if |parts| == 1 then parts[0] else parts[0] + "." + Join(parts[1..])
  }

  lemma {:induction false} JoinSplit(s: string)
    ensures Join(Split(s)) == s
    decreases |s|
  {
    if |s| > 0 {
      JoinSplit(s[1..]);
      var rest := Split(s[1..]);
      if s[0] == '.' {
        assert ([""] + rest)[1..] == rest;
        assert s == "." + s[1..];
      } else {
        var parts := [[s[0]] + rest[0]] + rest[1..];
        assert s == [s[0]] + s[1..];
        if |rest| > 1 {
          assert parts[1..] == rest[1..];
          assert Join(parts) == ([s[0]] + rest[0]) + "." + Join(rest[1..]);
        }
      }
    }
  }

  /** No part of a split key contains the separator. */
  lemma {:induction false} SplitPartsUndotted(s: string)
    ensures forall i :: 0 <= i < |Split(s)| ==> '.' !in Split(s)[i]
    decreases |s|
  {
    if |s| > 0 {
      SplitPartsUndotted(s[1..]);
      var rest := Split(s[1..]);
      if s[0] == '.' {
        assert forall i :: 1 <= i < |Split(s)| ==> Split(s)[i] == rest[i - 1];
      } else {
        assert forall i :: 1 <= i < |Split(s)| ==> Split(s)[i] == rest[i];
        assert Split(s)[0] == [s[0]] + rest[0];
      }
    }
  }

  /** A key splits into two or more parts exactly when it is dotted. */
  lemma {:induction false} SplitDotted(s: string)
    ensures '.' in s <==> |Split(s)| >= 2
    decreases |s|
  {
    if |s| > 0 {
      SplitDotted(s[1..]);
      assert '.' in s <==> s[0] == '.' || '.' in s[1..];
    }
  }

  /** Following `path` through nested dictionaries; `None` when a step is missing. */
  function Resolve(cur: Value, path: seq<string>): Option<Value>
    decreases |path|
  {
    if |path| == 0 then Some(cur)
    else if cur.Obj? && path[0] in cur.fields then Resolve(cur.fields[path[0]], path[1..])
    else None
  }

  /** The path loop of `find`: walk the parts, stop at the first missing one. */
  method ResolvePath(root: Value, path: seq<string>) returns (found: bool, cur: Value)
    ensures found <==> Resolve(root, path).Some?
    ensures found ==> cur == Resolve(root, path).value
  {
    cur := root;
    found := true;
    var i := 0;
    while i < |path|
      invariant 0 <= i <= |path|
      invariant Resolve(root, path) == Resolve(cur, path[i..])
    {
      assert path[i..][0] == path[i] && path[i..][1..] == path[i + 1..];
      if cur.Obj? && path[i] in cur.fields {
        cur := cur.fields[path[i]];
      } else {
        found := false;
        break;
      }
      i := i + 1;
    }
  }

  // ---------------------------------------------------------------------------
  // The query matcher
  // ---------------------------------------------------------------------------

  /** The operator tests applied to a resolved dotted path, in the source's order. */
  predicate OperatorMatches(current: Value, value: Value)
  {
    if value.Obj? && "$in" in value.fields then SharesElement(current, value.fields["$in"])
    else if value.Obj? && "$gte" in value.fields then !Less(current, value.fields["$gte"])
    else if value.Obj? && "$lte" in value.fields then !Less(value.fields["$lte"], current)
    else current == value
  }

  /** One query key against the `_id`-carrying copy: it must be a literal field first. */
  predicate KeyMatches(docCopy: Doc, key: string, value: Value)
  {
    && key in docCopy
    && if '.' in key then
         var r := Resolve(Obj(docCopy), Split(key));
         r.Some? && OperatorMatches(r.value, value)
       else docCopy[key] == value
  }

  predicate Satisfies(docCopy: Doc, query: Pairs)
  {
    forall i :: 0 <= i < |query| ==> KeyMatches(docCopy, query[i].0, query[i].1)
  }

  /** The inner loop of `find`, with its `matches` flag. */
  method MatchDocument(docCopy: Doc, query: Pairs) returns (matches: bool)
    ensures matches == Satisfies(docCopy, query)
  {
    matches := true;
    var i := 0;
    while i < |query|
      invariant 0 <= i <= |query|
      invariant matches <==> forall j :: 0 <= j < i ==> KeyMatches(docCopy, query[j].0, query[j].1)
    {
      var (key, value) := query[i];
      if key !in docCopy {
        matches := false;
        break;
      }
      if '.' in key {
        var found, current := ResolvePath(Obj(docCopy), Split(key));
        if !found {
          matches := false;
        }
        if !matches {
          break;
        }
        if value.Obj? && "$in" in value.fields {
          if !SharesElement(current, value.fields["$in"]) {
            matches := false;
          }
        } else if value.Obj? && "$gte" in value.fields {
          if Less(current, value.fields["$gte"]) {
            matches := false;
          }
        } else if value.Obj? && "$lte" in value.fields {
          if Less(value.fields["$lte"], current) {
            matches := false;
          }
        } else if current != value {
          matches := false;
        }
      } else if docCopy[key] != value {
        matches := false;
        break;
      }
      i := i + 1;
    }
  }

  predicate Covers(keys: seq<Value>, entries: map<Value, Doc>)
  {
    forall i :: 0 <= i < |keys| ==> keys[i] in entries
  }

  /** What `find(query)` returns: the matching copies in store order. */
  function Select(keys: seq<Value>, entries: map<Value, Doc>, query: Pairs): seq<Doc>
    requires Covers(keys, entries)
    decreases |keys|
  {
    if |keys| == 0 then []
    else
      var docCopy := WithId(entries[keys[0]], keys[0]);
      (if Satisfies(docCopy, query) then [docCopy] else []) + Select(keys[1..], entries, query)
  }

  lemma SelectStep(keys: seq<Value>, entries: map<Value, Doc>, query: Pairs, i: nat)
    requires Covers(keys, entries) && i < |keys|
    ensures Select(keys[i..], entries, query) ==
      (if Satisfies(WithId(entries[keys[i]], keys[i]), query) then [WithId(entries[keys[i]], keys[i])] else [])
      + Select(keys[i + 1..], entries, query)
  {
    assert keys[i..][0] == keys[i] && keys[i..][1..] == keys[i + 1..];
  }

  /** A result of `find` is exactly a stored document's copy that satisfies the query. */
  lemma {:induction false} SelectMembers(keys: seq<Value>, entries: map<Value, Doc>, query: Pairs, d: Doc)
    requires Covers(keys, entries)
    ensures d in Select(keys, entries, query) <==>
      exists i :: 0 <= i < |keys| && d == WithId(entries[keys[i]], keys[i]) && Satisfies(d, query)
    decreases |keys|
  {
    if |keys| > 0 {
      SelectMembers(keys[1..], entries, query, d);
      if exists i :: 0 <= i < |keys[1..]| && d == WithId(entries[keys[1..][i]], keys[1..][i]) && Satisfies(d, query) {
        var i :| 0 <= i < |keys[1..]| && d == WithId(entries[keys[1..][i]], keys[1..][i]) && Satisfies(d, query);
        assert keys[1..][i] == keys[i + 1];
      }
      if exists i :: 0 <= i < |keys| && d == WithId(entries[keys[i]], keys[i]) && Satisfies(d, query) {
        var i :| 0 <= i < |keys| && d == WithId(entries[keys[i]], keys[i]) && Satisfies(d, query);
        if i > 0 {
          assert keys[1..][i - 1] == keys[i];
        }
      }
    }
  }

  /** An empty query returns a copy of every document, in store order. */
  lemma {:induction false} SelectEverything(keys: seq<Value>, entries: map<Value, Doc>)
    requires Covers(keys, entries)
    ensures |Select(keys, entries, [])| == |keys|
    ensures forall i :: 0 <= i < |keys| ==> Select(keys, entries, [])[i] == WithId(entries[keys[i]], keys[i])
    decreases |keys|
  {
    if |keys| > 0 {
      SelectEverything(keys[1..], entries);
      assert forall i :: 1 <= i < |keys| ==> keys[1..][i - 1] == keys[i];
    }
  }

  /** `count_documents({})` is the number of keys in the store. */
  lemma CountAll(st: Store)
    requires st.Valid()
    ensures |Select(st.keys, st.entries, [])| == |st.entries|
  {
    SelectEverything(st.keys, st.entries);
    SizeOfValid(st);
  }

  /** The query `{"_id": k}` holds of a copy exactly when the copy carries `k`. */
  lemma SatisfiesById(docCopy: Doc, k: Value)
    ensures Satisfies(docCopy, [(Id, k)]) <==> Id in docCopy && docCopy[Id] == k
  {
    assert Id == ['_', 'i', 'd'];
    assert '.' !in Id;
    assert [(Id, k)][0] == (Id, k);
  }

  /** `{"_id": k}` finds exactly the document stored under `k`. */
  lemma {:induction false} SelectById(keys: seq<Value>, entries: map<Value, Doc>, k: Value)
    requires Covers(keys, entries) && Distinct(keys)
    ensures Select(keys, entries, [(Id, k)]) == if k in keys then [WithId(entries[k], k)] else []
    decreases |keys|
  {
    if |keys| > 0 {
      SelectById(keys[1..], entries, k);
      SatisfiesById(WithId(entries[keys[0]], keys[0]), k);
      assert k in keys <==> k == keys[0] || k in keys[1..] by {
        assert keys == [keys[0]] + keys[1..];
      }
      if k == keys[0] {
        assert k !in keys[1..] by {
          assert forall i :: 0 <= i < |keys[1..]| ==> keys[1..][i] == keys[i + 1];
        }
      }
    }
  }

  /** After `insert_one(doc)`, `find({"_id": doc["_id"]})` returns exactly `doc` again. */
  lemma InsertThenFindById(st: Store, doc: Doc)
    requires st.Valid() && Id in doc && Hashable(doc[Id])
    ensures var after := st.Put(doc[Id], doc - {Id});
      Select(after.keys, after.entries, [(Id, doc[Id])]) == [doc]
  {
    var after := st.Put(doc[Id], doc - {Id});
    SelectById(after.keys, after.entries, doc[Id]);
    WithIdRestores(doc);
  }

  /**
   * A dotted query key that no stored document holds as a literal field
   * matches nothing: the literal-field test comes before the dotted-path branch.
   */
  lemma {:induction false} SelectDottedMissing(keys: seq<Value>, entries: map<Value, Doc>, query: Pairs, j: nat)
    requires Covers(keys, entries)
    requires j < |query| && '.' in query[j].0
    requires forall i :: 0 <= i < |keys| ==> query[j].0 !in entries[keys[i]]
    ensures Select(keys, entries, query) == []
    decreases |keys|
  {
    if |keys| > 0 {
      assert query[j].0 != Id;
      assert !KeyMatches(WithId(entries[keys[0]], keys[0]), query[j].0, query[j].1);
      SelectDottedMissing(keys[1..], entries, query, j);
    }
  }

  /** The key `find_one` picks: the one whose copy heads the result of `find`. */
  function FirstKey(keys: seq<Value>, entries: map<Value, Doc>, query: Pairs): (r: Option<Value>)
    requires Covers(keys, entries)
    ensures r.None? <==> Select(keys, entries, query) == []
    ensures r.Some? ==> r.value in entries && Select(keys, entries, query)[0] == WithId(entries[r.value], r.value)
    decreases |keys|
  {
    if |keys| == 0 then None
    else if Satisfies(WithId(entries[keys[0]], keys[0]), query) then Some(keys[0])
    else FirstKey(keys[1..], entries, query)
  }

  /** The copy of the document stored under `keys[i]` satisfies the query. */
  predicate Hit(keys: seq<Value>, entries: map<Value, Doc>, query: Pairs, i: nat)
    requires Covers(keys, entries) && i < |keys|
  {
    Satisfies(WithId(entries[keys[i]], keys[i]), query)
  }

  /** `find_one` finds nothing exactly when no stored document satisfies the query. */
  lemma {:induction false} FirstKeyNone(keys: seq<Value>, entries: map<Value, Doc>, query: Pairs)
    requires Covers(keys, entries)
    ensures FirstKey(keys, entries, query).None? <==> forall i :: 0 <= i < |keys| ==> !Hit(keys, entries, query, i)
    decreases |keys|
  {
    if |keys| > 0 {
      if !Hit(keys, entries, query, 0) {
        FirstKeyNone(keys[1..], entries, query);
        assert forall j :: 0 <= j < |keys| - 1 ==> keys[1..][j] == keys[j + 1];
        assert forall j :: 0 <= j < |keys| - 1 ==> (Hit(keys[1..], entries, query, j) <==> Hit(keys, entries, query, j + 1));
        if exists i :: 0 <= i < |keys| && Hit(keys, entries, query, i) {
          var i :| 0 <= i < |keys| && Hit(keys, entries, query, i);
          assert Hit(keys[1..], entries, query, i - 1);
        }
      }
    }
  }

  /** The picked key sits at the first index whose document satisfies the query. */
  lemma {:induction false} FirstKeyIsFirst(keys: seq<Value>, entries: map<Value, Doc>, query: Pairs, i: nat)
    requires Covers(keys, entries) && i < |keys|
    requires Hit(keys, entries, query, i) && forall j :: 0 <= j < i ==> !Hit(keys, entries, query, j)
    ensures FirstKey(keys, entries, query) == Some(keys[i])
    decreases i
  {
    if i > 0 {
      assert forall j :: 0 <= j < |keys| - 1 ==> keys[1..][j] == keys[j + 1];
      assert forall j :: 0 <= j < i ==> (Hit(keys[1..], entries, query, j) <==> Hit(keys, entries, query, j + 1));
      assert !Hit(keys, entries, query, 0);
      FirstKeyIsFirst(keys[1..], entries, query, i - 1);
    }
  }

  // ---------------------------------------------------------------------------
  // $push and $pull
  // ---------------------------------------------------------------------------

  /** Python's `list.remove(value)`: drop the first element equal to `v`. */
  function RemoveFirst(xs: seq<Value>, v: Value): (r: seq<Value>)
    ensures v in xs ==> |r| == |xs| - 1
    decreases |xs|
  {
    if |xs| == 0 then []
    else if xs[0] == v then
      assert xs == [xs[0]] + xs[1..];
      xs[1..]
    else
      assert xs == [xs[0]] + xs[1..];
      [xs[0]] + RemoveFirst(xs[1..], v)
  }

  /** As a multiset, `remove` drops one copy of the value and nothing else. */
  lemma {:induction false} RemoveFirstCounts(xs: seq<Value>, v: Value)
    ensures multiset(RemoveFirst(xs, v)) == multiset(xs) - multiset{v}
    decreases |xs|
  {
    if |xs| > 0 {
      RemoveFirstCounts(xs[1..], v);
      assert xs == [xs[0]] + xs[1..];
    }
  }

  /** `remove` takes out the element at the first index holding `v`, and nothing else. */
  lemma {:induction false} RemoveFirstAt(xs: seq<Value>, v: Value, i: nat)
    requires i < |xs| && xs[i] == v && v !in xs[..i]
    ensures RemoveFirst(xs, v) == xs[..i] + xs[i + 1..]
    decreases i
  {
    if i > 0 {
      assert xs[1..][..i - 1] == xs[1..i];
      assert v !in xs[1..][..i - 1];
      RemoveFirstAt(xs[1..], v, i - 1);
      assert xs[..i] == [xs[0]] + xs[1..i];
      assert xs[1..][i..] == xs[i + 1..];
    }
  }

  /** `$pull` on one field: remove the first occurrence, if the field holds the value. */
  function Pull(doc: Doc, field: string, v: Value): Doc
    requires field in doc ==> doc[field].List?
  {
    if field in doc && v in doc[field].items then doc[field := List(RemoveFirst(doc[field].items, v))] else doc
  }

  /**
   * All `$pull` items in order; no field appears or disappears, lists stay
   * lists, and each named field holds what one `Pull` of it gives.
   */
  function PullAll(doc: Doc, ops: Pairs): (r: Doc)
    requires ListsAt(doc, Fields(ops))
    ensures r.Keys == doc.Keys
    ensures forall f :: f !in Fields(ops) && f in doc ==> r[f] == doc[f]
    ensures ListsAt(r, Fields(ops))
    ensures DistinctFields(ops) ==>
      forall i :: 0 <= i < |ops| && ops[i].0 in doc ==> r[ops[i].0] == Pull(doc, ops[i].0, ops[i].1)[ops[i].0]
    decreases |ops|
  {
    if |ops| == 0 then doc
    else
      FieldsCons(ops);
      assert forall i :: 1 <= i < |ops| ==> ops[1..][i - 1] == ops[i];
      PullAll(Pull(doc, ops[0].0, ops[0].1), ops[1..])
  }

  /** One step of `PullAll` from position `i`, as the `$pull` loop takes it. */
  lemma PullAllStep(doc: Doc, ops: Pairs, i: nat)
    requires i < |ops| && ListsAt(doc, Fields(ops[i..]))
    ensures ops[i].0 in doc ==> doc[ops[i].0].List?
    ensures ListsAt(Pull(doc, ops[i].0, ops[i].1), Fields(ops[i + 1..]))
    ensures PullAll(doc, ops[i..]) == PullAll(Pull(doc, ops[i].0, ops[i].1), ops[i + 1..])
  {
    assert ops[i..][0] == ops[i] && ops[i..][1..] == ops[i + 1..];
    FieldsCons(ops[i..]);
  }

  /** `$push` and `$pull` only touch fields that are lists, where present. */
  predicate UpdateTyped(doc: Doc, update: Update)
  {
    ListsAt(doc, Fields(update.push) + Fields(update.pull))
  }

  /** The pushes, then the pulls, on one document. */
  function ApplyUpdate(doc: Doc, update: Update): (r: Doc)
    requires UpdateTyped(doc, update)
    ensures forall f :: f !in Fields(update.push) + Fields(update.pull) ==>
      (f in r <==> f in doc) && (f in doc ==> r[f] == doc[f])
  {
    PullAll(PushAll(doc, update.push), update.pull)
  }

  /** `remove` after `append` of a value the list did not hold gives the list back. */
  lemma {:induction false} RemoveFirstAppended(xs: seq<Value>, v: Value)
    requires v !in xs
    ensures RemoveFirst(xs + [v], v) == xs
    decreases |xs|
  {
    if |xs| > 0 {
      assert (xs + [v])[0] == xs[0] && (xs + [v])[1..] == xs[1..] + [v];
      RemoveFirstAppended(xs[1..], v);
      assert xs == [xs[0]] + xs[1..];
    } else {
      assert [] + [v] == [v];
    }
  }

  /** `$push v` then `$pull v` on a list field that lacked `v` restores the document. */
  lemma PushThenPullRestores(doc: Doc, field: string, v: Value)
    requires field in doc && doc[field].List? && v !in doc[field].items
    ensures Pull(Push(doc, field, v), field, v) == doc
  {
    RemoveFirstAppended(doc[field].items, v);
    assert List(doc[field].items) == doc[field];
  }

  /** The `$push` loop of `update_one` on the stored document. */
  method PushEach(stored: Doc, ops: Pairs) returns (r: Doc)
    requires ListsAt(stored, Fields(ops))
    ensures r == PushAll(stored, ops)
  {
    r := stored;
    var i := 0;
    while i < |ops|
      invariant 0 <= i <= |ops|
      invariant ListsAt(r, Fields(ops[i..]))
      invariant PushAll(r, ops[i..]) == PushAll(stored, ops)
    {
      var (field, value) := ops[i];
      PushAllStep(r, ops, i);
      if field in r {
        r := r[field := List(r[field].items + [value])];
      } else {
        r := r[field := List([value])];
      }
      i := i + 1;
    }
  }

  /** The `$pull` loop of `update_one` on the stored document. */
  method PullEach(stored: Doc, ops: Pairs) returns (r: Doc)
    requires ListsAt(stored, Fields(ops))
    ensures r == PullAll(stored, ops)
  {
    r := stored;
    var i := 0;
    while i < |ops|
      invariant 0 <= i <= |ops|
      invariant ListsAt(r, Fields(ops[i..]))
      invariant PullAll(r, ops[i..]) == PullAll(stored, ops)
    {
      var (field, value) := ops[i];
      PullAllStep(r, ops, i);
      if field in r && value in r[field].items {
        r := r[field := List(RemoveFirst(r[field].items, value))];
      }
      i := i + 1;
    }
  }

  // ---------------------------------------------------------------------------
  // aggregate and init_database
  // ---------------------------------------------------------------------------

  /** The one pipeline shape `aggregate` recognises. */
  predicate Unwinds(pipeline: seq<Doc>)
  {
    |pipeline| >= 2 && "$unwind" in pipeline[0] && pipeline[0]["$unwind"] == Str("$schedule_details.days")
  }

  /** The `else` branch of the initialisation: insert the seeds whose name is not a key. */
  function PutMissing(st: Store, seeds: seq<(string, Doc)>): (r: Store)
    ensures forall i :: 0 <= i < |seeds| ==> Str(seeds[i].0) in r.entries
    ensures st.keys <= r.keys
    ensures forall k :: k in st.entries ==> k in r.entries && r.entries[k] == st.entries[k]
    ensures st.Valid() ==> r.Valid()
    decreases |seeds|
  {
    if |seeds| == 0 then st
    else
      var next := if Str(seeds[0].0) in st.entries then st else st.Put(Str(seeds[0].0), seeds[0].1);
      var r := PutMissing(next, seeds[1..]);
      assert forall i :: 1 <= i < |seeds| ==> seeds[i] == seeds[1..][i - 1];
      r
  }

  /**
   * With distinct seed names, the "add missing" loop adds exactly the seed
   * names as keys, and each seed that was missing is stored as its document.
   */
  lemma {:induction false} PutMissingStores(st: Store, seeds: seq<(string, Doc)>)
    requires forall i, j :: 0 <= i < j < |seeds| ==> seeds[i].0 != seeds[j].0
    ensures forall k :: k in PutMissing(st, seeds).entries <==> k in st.entries || Named(seeds, k)
    ensures forall i :: 0 <= i < |seeds| && Str(seeds[i].0) !in st.entries ==>
      PutMissing(st, seeds).entries[Str(seeds[i].0)] == seeds[i].1
    decreases |seeds|
  {
    if |seeds| > 0 {
      var k0 := Str(seeds[0].0);
      var next := if k0 in st.entries then st else st.Put(k0, seeds[0].1);
      var rest := seeds[1..];
      assert forall i :: 0 <= i < |rest| ==> rest[i] == seeds[i + 1];
      PutMissingStores(next, rest);
      assert k0 in next.entries;
      forall k | Named(seeds, k) ensures k == k0 || Named(rest, k) {
        var i :| 0 <= i < |seeds| && Str(seeds[i].0) == k;
        if i > 0 {
          assert rest[i - 1] == seeds[i];
        }
      }
      forall i | 1 <= i < |seeds| && Str(seeds[i].0) !in st.entries
        ensures PutMissing(st, seeds).entries[Str(seeds[i].0)] == seeds[i].1
      {
        assert seeds[i] == rest[i - 1];
        assert Str(seeds[i].0) != k0;
      }
    }
  }

  lemma {:induction false} PutMissingPresent(st: Store, seeds: seq<(string, Doc)>)
    requires forall i :: 0 <= i < |seeds| ==> Str(seeds[i].0) in st.entries
    ensures PutMissing(st, seeds) == st
    decreases |seeds|
  {
    if |seeds| > 0 {
      assert forall i :: 0 <= i < |seeds[1..]| ==> seeds[1..][i] == seeds[i + 1];
      PutMissingPresent(st, seeds[1..]);
    }
  }

  /** The activities after `init_database`: all seeds if empty, else only the missing ones. */
  function InitActivities(st: Store, seeds: seq<(string, Doc)>): Store
  {
    if |st.keys| == 0 then PutSeeds(st, seeds) else PutMissing(st, seeds)
  }

  /** After initialisation every seed activity is a key, and nothing stored before is altered. */
  lemma InitActivitiesKeeps(st: Store, seeds: seq<(string, Doc)>)
    requires st.Valid()
    ensures forall i :: 0 <= i < |seeds| ==> Str(seeds[i].0) in InitActivities(st, seeds).entries
    ensures forall k :: k in st.entries ==> InitActivities(st, seeds).entries[k] == st.entries[k]
  {
    SizeOfValid(st);
  }

  /**
   * After initialisation the keys are the old ones plus the seed names, and
   * each seed that was not stored before is stored as its document.
   */
  lemma InitActivitiesStores(st: Store, seeds: seq<(string, Doc)>)
    requires st.Valid()
    requires forall i, j :: 0 <= i < j < |seeds| ==> seeds[i].0 != seeds[j].0
    ensures forall k :: k in InitActivities(st, seeds).entries <==> k in st.entries || Named(seeds, k)
    ensures forall i :: 0 <= i < |seeds| && Str(seeds[i].0) !in st.entries ==>
      InitActivities(st, seeds).entries[Str(seeds[i].0)] == seeds[i].1
  {
    if |st.keys| == 0 {
      PutSeedsKeys(st, seeds);
      PutSeedsStores(st, seeds);
    } else {
      PutMissingStores(st, seeds);
    }
  }

  /** A second `init_database` changes nothing. */
  lemma InitIdempotent(activities: Store, seeds: seq<(string, Doc)>, teachers: Store, ts: seq<Teacher>)
    requires activities.Valid() && teachers.Valid()
    ensures InitActivities(InitActivities(activities, seeds), seeds) == InitActivities(activities, seeds)
    ensures InitTeachers(InitTeachers(teachers, ts), ts) == InitTeachers(teachers, ts)
  {
    var a1 := InitActivities(activities, seeds);
    assert a1.Valid();
    if |a1.keys| == 0 {
      assert |seeds| == 0;
    } else {
      PutMissingPresent(a1, seeds);
    }
    var t1 := InitTeachers(teachers, ts);
    assert t1.Valid();
    if |teachers.keys| == 0 && |t1.keys| == 0 {
      assert |TeacherSeeds(ts)| == 0;
    }
  }

  /** The document loop of `find`: copy, attach the identifier, keep the matches. */
  method MatchAll(keys: seq<Value>, entries: map<Value, Doc>, query: Pairs) returns (results: seq<Doc>)
    requires Covers(keys, entries)
    ensures results == Select(keys, entries, query)
  {
    results := [];
    var i := 0;
    while i < |keys|
      invariant 0 <= i <= |keys|
      invariant results + Select(keys[i..], entries, query) == Select(keys, entries, query)
    {
      var docId := keys[i];
      var docCopy := WithId(entries[docId], docId);
      var matches := MatchDocument(docCopy, query);
      SelectStep(keys, entries, query, i);
      if matches {
        results := results + [docCopy];
      }
      i := i + 1;
    }
    assert keys[i..] == [];
  }

  /** The two loops of `aggregate`: every day of every stored document, once. */
  method CollectDays(keys: seq<Value>, entries: map<Value, Doc>) returns (uniqueDays: set<string>)
    requires Covers(keys, entries)
    ensures uniqueDays == AllDays(keys, entries)
  {
    uniqueDays := {};
    var i := 0;
    while i < |keys|
      invariant 0 <= i <= |keys|
      invariant uniqueDays + AllDays(keys[i..], entries) == AllDays(keys, entries)
    {
      AllDaysStep(keys, entries, i);
      var days := DayList(entries[keys[i]]);
      var j := 0;
      while j < |days|
        invariant 0 <= j <= |days|
        invariant uniqueDays + Strings(days[j..]) + AllDays(keys[i + 1..], entries) == AllDays(keys, entries)
      {
        StringsStep(days, j);
        if days[j].Str? {
          uniqueDays := uniqueDays + {days[j].s};
        }
        j := j + 1;
      }
      assert days[j..] == [];
      i := i + 1;
    }
    assert keys[i..] == [];
  }

  // ---------------------------------------------------------------------------
  // The collection
  // ---------------------------------------------------------------------------

  class MockCollection {
    var dataStore: Store

    ghost predicate Valid()
      reads this
    {
      dataStore.Valid()
    }

    constructor (dataStore: Store)
      requires dataStore.Valid()
      ensures Valid() && this.dataStore == dataStore
    {
      this.dataStore := dataStore;
    }

    method Find(query: Option<Pairs>) returns (results: seq<Doc>)
      requires Valid()
      ensures results == Select(dataStore.keys, dataStore.entries, QueryOrAll(query))
    {
      results := MatchAll(dataStore.keys, dataStore.entries, QueryOrAll(query));
    }

    method FindOne(query: Pairs) returns (r: Option<Doc>)
      requires Valid()
      ensures var found := Select(dataStore.keys, dataStore.entries, query);
        r == if found == [] then None else Some(found[0])
      ensures r.Some? <==> FirstKey(dataStore.keys, dataStore.entries, query).Some?
    {
      var results := Find(Some(query));
      r := if results != [] then Some(results[0]) else None;
    }

    method CountDocuments(query: Pairs) returns (n: nat)
      requires Valid()
      ensures n == |Select(dataStore.keys, dataStore.entries, query)|
    {
      var results := Find(Some(query));
      n := |results|;
    }

    /** Stores a copy of `document` without `_id` under its `_id`, overwriting. */
    method InsertOne(document: Doc) returns (r: Result<bool>)
      requires Valid()
      modifies this
      ensures Valid()
      ensures Id !in document ==> r == Err(KeyError) && dataStore == old(dataStore)
      ensures Id in document && !Hashable(document[Id]) ==> r == Err(TypeError) && dataStore == old(dataStore)
      ensures Id in document && Hashable(document[Id]) ==>
        r == Ok(true) && dataStore == old(dataStore).Put(document[Id], document - {Id})
    {
      if Id !in document {
        return Err(KeyError);
      }
      var docCopy := document - {Id};
      var docId := document[Id];
      if !Hashable(docId) {
        return Err(TypeError);
      }
      dataStore := dataStore.Put(docId, docCopy);
      return Ok(true);
    }

    /** Applies `$push`, then `$pull`, to the first matching document only. */
    method UpdateOne(filterQuery: Pairs, updateQuery: Update) returns (modifiedCount: nat)
      requires Valid()
      requires var k := FirstKey(dataStore.keys, dataStore.entries, filterQuery);
        k.Some? ==> UpdateTyped(dataStore.entries[k.value], updateQuery)
      modifies this
      ensures Valid()
      ensures var k := FirstKey(old(dataStore).keys, old(dataStore).entries, filterQuery);
        && (k.None? ==> modifiedCount == 0 && dataStore == old(dataStore))
        && (k.Some? ==> modifiedCount == 1 && dataStore == old(dataStore).Put(k.value, ApplyUpdate(old(dataStore).entries[k.value], updateQuery)))
    {
      var doc := FindOne(filterQuery);
      if doc.None? {
        return 0;
      }
      ghost var k := FirstKey(dataStore.keys, dataStore.entries, filterQuery);
      var docId := doc.value[Id];
      assert docId == k.value;
      var stored := dataStore.entries[docId];
      stored := PushEach(stored, updateQuery.push);
      stored := PullEach(stored, updateQuery.pull);
      dataStore := dataStore.Put(docId, stored);
      return 1;
    }

    /** The sorted distinct days, for the one unwind pipeline `aggregate` knows. */
    method Aggregate(pipeline: seq<Doc>) returns (r: seq<Doc>)
      requires Valid()
      ensures r == if Unwinds(pipeline) then IdDocs(Sorted(AllDays(dataStore.keys, dataStore.entries))) else []
    {
      if |pipeline| >= 2 && "$unwind" in pipeline[0] && pipeline[0]["$unwind"] == Str("$schedule_details.days") {
        var uniqueDays := CollectDays(dataStore.keys, dataStore.entries);
        return IdDocs(Sorted(uniqueDays));
      }
      return [];
    }
  }

  /** The insert loop of the empty-collection branch. */
  method InsertSeeds(collection: MockCollection, seeds: seq<(string, Doc)>)
    requires collection.Valid() && SeedShaped(seeds)
    modifies collection
    ensures collection.Valid()
    ensures collection.dataStore == PutSeeds(old(collection.dataStore), seeds)
  {
    var i := 0;
    while i < |seeds|
      invariant 0 <= i <= |seeds|
      invariant collection.Valid()
      invariant PutSeeds(collection.dataStore, seeds[i..]) == PutSeeds(old(collection.dataStore), seeds)
    {
      var (name, details) := seeds[i];
      assert seeds[i..][0] == (name, details) && seeds[i..][1..] == seeds[i + 1..];
      SeedDocSplits(name, details);
      var _ := collection.InsertOne(SeedDoc(name, details));
      i := i + 1;
    }
  }

  /** The loop that adds the seed activities a non-empty collection lacks. */
  method InsertMissing(collection: MockCollection, seeds: seq<(string, Doc)>)
    requires collection.Valid() && SeedShaped(seeds)
    modifies collection
    ensures collection.Valid()
    ensures collection.dataStore == PutMissing(old(collection.dataStore), seeds)
  {
    var i := 0;
    while i < |seeds|
      invariant 0 <= i <= |seeds|
      invariant collection.Valid()
      invariant PutMissing(collection.dataStore, seeds[i..]) == PutMissing(old(collection.dataStore), seeds)
    {
      var (name, details) := seeds[i];
      assert seeds[i..][0] == (name, details) && seeds[i..][1..] == seeds[i + 1..];
      var found := collection.FindOne([(Id, Str(name))]);
      SelectById(collection.dataStore.keys, collection.dataStore.entries, Str(name));
      if found.None? {
        SeedDocSplits(name, details);
        var _ := collection.InsertOne(SeedDoc(name, details));
      }
      i := i + 1;
    }
  }

  /** `init_database` on the two collections, with the seed catalogue as parameters. */
  method InitDatabase(activities: MockCollection, teachers: MockCollection,
                      seedActivities: seq<(string, Doc)>, seedTeachers: seq<Teacher>)
    requires activities != teachers && activities.Valid() && teachers.Valid()
    requires SeedShaped(seedActivities)
    modifies activities, teachers
    ensures activities.Valid() && teachers.Valid()
    ensures activities.dataStore == InitActivities(old(activities.dataStore), seedActivities)
    ensures teachers.dataStore == InitTeachers(old(teachers.dataStore), seedTeachers)
  {
    var count := activities.CountDocuments([]);
    CountAll(activities.dataStore);
    SizeOfValid(activities.dataStore);
    if count == 0 {
      InsertSeeds(activities, seedActivities);
    } else {
      InsertMissing(activities, seedActivities);
    }

    var teacherCount := teachers.CountDocuments([]);
    CountAll(teachers.dataStore);
    SizeOfValid(teachers.dataStore);
    if teacherCount == 0 {
      InsertSeeds(teachers, TeacherSeeds(seedTeachers));
    }
  }
}
