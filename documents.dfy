/**
 * The values both collection models store, the insertion-ordered dictionary
 * that holds one collection, and the pieces of Python semantics the two
 * `MockCollection` classes share (`in`, `<`, the day aggregation, the seed
 * records).
 */
module Documents {
  import opened Ordering

  datatype Option<T> = None | Some(value: T)

  /** The Python exceptions the modelled code raises. */
  datatype Error = KeyError | TypeError

  datatype Result<T> = Ok(value: T) | Err(error: Error)

  /** A field value: a string, an integer, a list or a nested dictionary. */
  datatype Value =
    | Str(s: string)
    | Int(i: int)
    | List(items: seq<Value>)
    | Obj(fields: map<string, Value>)

  /** A document: field name to value. Python compares dicts without regard to order. */
  type Doc = map<string, Value>

  /** The items of a Python dict in insertion order: a query, a `$push` or `$pull` operand. */
  type Pairs = seq<(string, Value)>

  /** The identifier field, held outside the stored document and attached to copies. */
  const Id := "_id"

  /** Only strings and integers can be dictionary keys. */
  predicate Hashable(v: Value)
  {
    v.Str? || v.Int?
  }

  /** A copy of `doc` carrying `k` as its identifier, as `find` returns it. */
  function WithId(doc: Doc, k: Value): Doc
  {
    doc[Id := k]
  }

  /** Detaching the identifier and attaching it again gives the document back. */
  lemma WithIdRestores(doc: Doc)
    requires Id in doc
    ensures WithId(doc - {Id}, doc[Id]) == doc
  {
    assert WithId(doc - {Id}, doc[Id]).Keys == doc.Keys;
  }

  /** Python's `<` on two values of the same scalar kind; any other pair is not ordered. */
  predicate Less(a: Value, b: Value)
  {
    || (a.Str? && b.Str? && StrLess(a.s, b.s))
    || (a.Int? && b.Int? && a.i < b.i)
  }

  /** The candidates of an `$in` operand: the elements of a list. */
  function Candidates(v: Value): seq<Value>
  {
    if v.List? then v.items else []
  }

  /** Python's `item in container` with a list as the container. */
  predicate Contains(container: Value, item: Value)
  {
    container.List? && item in container.items
  }

  /** Some candidate of `operand` is an element of `container`. */
  predicate SharesElement(container: Value, operand: Value)
  {
    exists j :: 0 <= j < |Candidates(operand)| && Contains(container, Candidates(operand)[j])
  }

  /** The field names of a dict's items. */
  function Fields(ops: Pairs): set<string>
  {
    set i | 0 <= i < |ops| :: ops[i].0
  }

  lemma FieldsCons(ops: Pairs)
    requires |ops| > 0
    ensures Fields(ops) == {ops[0].0} + Fields(ops[1..])
  {
    forall f | f in Fields(ops) ensures f in {ops[0].0} + Fields(ops[1..]) {
      var i :| 0 <= i < |ops| && ops[i].0 == f;
      if i > 0 {
        assert ops[1..][i - 1].0 == f;
      }
    }
    forall f | f in Fields(ops[1..]) ensures f in Fields(ops) {
      var i :| 0 <= i < |ops[1..]| && ops[1..][i].0 == f;
      assert ops[i + 1].0 == f;
    }
  }

  /** An `update_one` document: the items of its `$push` and of its `$pull` (empty when absent). */
  datatype Update = Update(push: Pairs, pull: Pairs)

  /** `$push` on one field: append to the list, which starts as `[]` when absent. */
  function Push(doc: Doc, field: string, v: Value): Doc
    requires field in doc ==> doc[field].List?
  {
    if field in doc then doc[field := List(doc[field].items + [v])] else doc[field := List([v])]
  }

  /** The items of a dict name each field once. */
  predicate DistinctFields(ops: Pairs)
  {
    forall i, j :: 0 <= i < j < |ops| ==> ops[i].0 != ops[j].0
  }

  /**
   * All `$push` items in order; only the named fields change, and each named
   * field ends holding its old list with the pushed value appended.
   */
  function PushAll(doc: Doc, ops: Pairs): (r: Doc)
    requires ListsAt(doc, Fields(ops))
    ensures forall f :: f !in Fields(ops) ==> (f in r <==> f in doc) && (f in doc ==> r[f] == doc[f])
    ensures forall f :: f in Fields(ops) ==> f in r && r[f].List?
    ensures DistinctFields(ops) ==>
      forall i :: 0 <= i < |ops| ==> r[ops[i].0] == Push(doc, ops[i].0, ops[i].1)[ops[i].0]
    decreases |ops|
  {
    if |ops| == 0 then doc
    else
      FieldsCons(ops);
      assert forall i :: 1 <= i < |ops| ==> ops[1..][i - 1] == ops[i];
      PushAll(Push(doc, ops[0].0, ops[0].1), ops[1..])
  }

  /** One step of `PushAll` from position `i`, as the `$push` loops take it. */
  lemma PushAllStep(doc: Doc, ops: Pairs, i: nat)
    requires i < |ops| && ListsAt(doc, Fields(ops[i..]))
    ensures ops[i].0 in doc ==> doc[ops[i].0].List?
    ensures ListsAt(Push(doc, ops[i].0, ops[i].1), Fields(ops[i + 1..]))
    ensures PushAll(doc, ops[i..]) == PushAll(Push(doc, ops[i].0, ops[i].1), ops[i + 1..])
  {
    assert ops[i..][0] == ops[i] && ops[i..][1..] == ops[i + 1..];
    FieldsCons(ops[i..]);
  }

  /** `find(query)` with `query=None` searches with `{}`. */
  function QueryOrAll(query: Option<Pairs>): Pairs
  {
    if query.None? then [] else query.value
  }

  /** Every field of `fs` that `doc` holds is a list, so `append` and `remove` apply. */
  predicate ListsAt(doc: Doc, fs: set<string>)
  {
    forall f :: f in fs && f in doc ==> doc[f].List?
  }

  predicate Distinct<T(==)>(s: seq<T>)
  {
    forall i, j :: 0 <= i < j < |s| ==> s[i] != s[j]
  }

  lemma {:induction false} DistinctCardinality<T>(s: seq<T>)
    requires Distinct(s)
    ensures |set x | x in s| == |s|
  {
    if |s| > 0 {
      var last := s[|s| - 1];
      var init := s[..|s| - 1];
      assert Distinct(init);
      DistinctCardinality(init);
      assert (set x | x in s) == (set x | x in init) + {last};
      assert last !in init;
    }
  }

  /** One collection: a Python dict, whose iteration order is insertion order. */
  datatype Store = Store(keys: seq<Value>, entries: map<Value, Doc>)
  {
    ghost predicate Valid()
    {
      && Distinct(keys)
      && (forall i :: 0 <= i < |keys| ==> keys[i] in entries)
      && (forall k :: k in entries ==> k in keys && Hashable(k))
    }

    /** `store[k] = d`: a new key goes last, an existing key keeps its place. */
    function Put(k: Value, d: Doc): (r: Store)
      ensures r.entries == entries[k := d]
      ensures keys <= r.keys
      ensures Valid() && Hashable(k) ==> r.Valid()
    {
      Store(if k in entries then keys else keys + [k], entries[k := d])
    }
  }

  /** `len(store)` is the number of keys. */
  lemma SizeOfValid(st: Store)
    requires st.Valid()
    ensures |st.entries| == |st.keys|
  {
    DistinctCardinality(st.keys);
    assert st.entries.Keys == set x | x in st.keys;
  }

  /** The document `{"_id": name, **details}` that the initialisation inserts. */
  function SeedDoc(name: string, details: Doc): Doc
  {
    map[Id := Str(name)] + details
  }

  /** The seed catalogue never names its own identifier field. */
  predicate SeedShaped(seeds: seq<(string, Doc)>)
  {
    forall i :: 0 <= i < |seeds| ==> Id !in seeds[i].1
  }

  /** Inserting `SeedDoc(name, details)` stores `details` under `name`. */
  lemma SeedDocSplits(name: string, details: Doc)
    requires Id !in details
    ensures Id in SeedDoc(name, details) && SeedDoc(name, details)[Id] == Str(name)
    ensures SeedDoc(name, details) - {Id} == details
  {
    assert (SeedDoc(name, details) - {Id}).Keys == details.Keys;
  }

  /** The inserts of one initialisation loop, first seed first. */
  function PutSeeds(st: Store, seeds: seq<(string, Doc)>): (r: Store)
    ensures forall i :: 0 <= i < |seeds| ==> Str(seeds[i].0) in r.entries
    ensures st.keys <= r.keys && st.entries.Keys <= r.entries.Keys
    ensures st.Valid() ==> r.Valid()
    decreases |seeds|
  {
    if |seeds| == 0 then st
    else
      var r := PutSeeds(st.Put(Str(seeds[0].0), seeds[0].1), seeds[1..]);
      assert forall i :: 1 <= i < |seeds| ==> seeds[i] == seeds[1..][i - 1];
      r
  }

  /** The seed names, as the keys they are stored under. */
  predicate Named(seeds: seq<(string, Doc)>, k: Value)
  {
    exists i :: 0 <= i < |seeds| && Str(seeds[i].0) == k
  }

  /** Seeding adds exactly the seed names as keys. */
  lemma {:induction false} PutSeedsKeys(st: Store, seeds: seq<(string, Doc)>)
    ensures forall k :: k in PutSeeds(st, seeds).entries <==> k in st.entries || Named(seeds, k)
    decreases |seeds|
  {
    if |seeds| > 0 {
      PutSeedsKeys(st.Put(Str(seeds[0].0), seeds[0].1), seeds[1..]);
      assert forall i :: 0 <= i < |seeds| - 1 ==> seeds[1..][i] == seeds[i + 1];
      forall k | Named(seeds, k) ensures k == Str(seeds[0].0) || Named(seeds[1..], k) {
        var i :| 0 <= i < |seeds| && Str(seeds[i].0) == k;
        if i > 0 {
          assert seeds[1..][i - 1] == seeds[i];
        }
      }
    }
  }

  /** Seeding leaves every key that no seed names as it was. */
  lemma {:induction false} PutSeedsUntouched(st: Store, seeds: seq<(string, Doc)>, k: Value)
    requires k in st.entries && !Named(seeds, k)
    ensures PutSeeds(st, seeds).entries[k] == st.entries[k]
    decreases |seeds|
  {
    if |seeds| > 0 {
      assert Str(seeds[0].0) != k;
      assert forall i :: 0 <= i < |seeds| - 1 ==> seeds[1..][i] == seeds[i + 1];
      PutSeedsUntouched(st.Put(Str(seeds[0].0), seeds[0].1), seeds[1..], k);
    }
  }

  /** With distinct names, each seed ends up stored under its own name. */
  lemma {:induction false} PutSeedsStores(st: Store, seeds: seq<(string, Doc)>)
    requires forall i, j :: 0 <= i < j < |seeds| ==> seeds[i].0 != seeds[j].0
    ensures forall i :: 0 <= i < |seeds| ==> PutSeeds(st, seeds).entries[Str(seeds[i].0)] == seeds[i].1
    decreases |seeds|
  {
    if |seeds| > 0 {
      var next := st.Put(Str(seeds[0].0), seeds[0].1);
      var rest := seeds[1..];
      assert forall i :: 0 <= i < |rest| ==> rest[i] == seeds[i + 1];
      PutSeedsStores(next, rest);
      assert !Named(rest, Str(seeds[0].0));
      PutSeedsUntouched(next, rest, Str(seeds[0].0));
      forall i | 1 <= i < |seeds|
        ensures PutSeeds(st, seeds).entries[Str(seeds[i].0)] == seeds[i].1
      {
        assert seeds[i] == rest[i - 1];
      }
    }
  }

  /** A teacher account; the password is an opaque hash. */
  datatype Teacher = Teacher(username: string, displayName: string, password: string, role: string)

  function TeacherDoc(t: Teacher): Doc
  {
    map["username" := Str(t.username), "display_name" := Str(t.displayName),
        "password" := Str(t.password), "role" := Str(t.role)]
  }

  /** The teacher seeds as the (identifier, document) pairs the insert loop stores. */
  function TeacherSeeds(ts: seq<Teacher>): (r: seq<(string, Doc)>)
    ensures |r| == |ts| && SeedShaped(r)
    ensures forall i :: 0 <= i < |ts| ==> r[i] == (ts[i].username, TeacherDoc(ts[i]))
  {
    seq(|ts|, i requires 0 <= i < |ts| => (ts[i].username, TeacherDoc(ts[i])))
  }

  /** The teachers after `init_database`: seeded only when the collection is empty. */
  function InitTeachers(st: Store, teachers: seq<Teacher>): Store
  {
    if |st.keys| == 0 then PutSeeds(st, TeacherSeeds(teachers)) else st
  }

  /** Seeding an empty collection stores each teacher under their username. */
  lemma InitTeachersStores(st: Store, teachers: seq<Teacher>)
    requires st.Valid() && |st.keys| == 0
    requires forall i, j :: 0 <= i < j < |teachers| ==> teachers[i].username != teachers[j].username
    ensures InitTeachers(st, teachers).Valid()
    ensures forall k :: k in InitTeachers(st, teachers).entries <==>
      exists i :: 0 <= i < |teachers| && k == Str(teachers[i].username)
    ensures forall i :: 0 <= i < |teachers| ==>
      InitTeachers(st, teachers).entries[Str(teachers[i].username)] == TeacherDoc(teachers[i])
  {
    var seeds := TeacherSeeds(teachers);
    PutSeedsStores(st, seeds);
    PutSeedsKeys(st, seeds);
  }

  /** The list under `schedule_details.days`, or nothing if the document has none. */
  function DayList(doc: Doc): seq<Value>
  {
    if "schedule_details" in doc && doc["schedule_details"].Obj?
       && "days" in doc["schedule_details"].fields
       && doc["schedule_details"].fields["days"].List?
    then doc["schedule_details"].fields["days"].items
    else []
  }

  /** The string elements of a list. */
  function Strings(vs: seq<Value>): set<string>
    decreases |vs|
  {
    if |vs| == 0 then {} else (if vs[0].Str? then {vs[0].s} else {}) + Strings(vs[1..])
  }

  lemma {:induction false} StringsMembers(vs: seq<Value>)
    ensures forall d :: d in Strings(vs) <==> Str(d) in vs
    decreases |vs|
  {
    if |vs| > 0 {
      StringsMembers(vs[1..]);
      assert forall d :: Str(d) in vs <==> Str(d) == vs[0] || Str(d) in vs[1..];
    }
  }

  /** Every day named by the documents stored under `keys`. */
  function AllDays(keys: seq<Value>, entries: map<Value, Doc>): set<string>
    requires forall i :: 0 <= i < |keys| ==> keys[i] in entries
    decreases |keys|
  {
    if |keys| == 0 then {} else Strings(DayList(entries[keys[0]])) + AllDays(keys[1..], entries)
  }

  /** A day is collected exactly when some stored document lists it. */
  lemma {:induction false} AllDaysMembers(keys: seq<Value>, entries: map<Value, Doc>)
    requires forall i :: 0 <= i < |keys| ==> keys[i] in entries
    ensures forall d :: d in AllDays(keys, entries) <==> exists i :: 0 <= i < |keys| && Str(d) in DayList(entries[keys[i]])
    decreases |keys|
  {
    if |keys| > 0 {
      AllDaysMembers(keys[1..], entries);
      StringsMembers(DayList(entries[keys[0]]));
      forall d ensures d in AllDays(keys, entries) <==> exists i :: 0 <= i < |keys| && Str(d) in DayList(entries[keys[i]]) {
        if d in AllDays(keys[1..], entries) {
          var i :| 0 <= i < |keys[1..]| && Str(d) in DayList(entries[keys[1..][i]]);
          assert Str(d) in DayList(entries[keys[i + 1]]);
        }
        if exists i :: 0 <= i < |keys| && Str(d) in DayList(entries[keys[i]]) {
          var i :| 0 <= i < |keys| && Str(d) in DayList(entries[keys[i]]);
          if i > 0 {
            assert keys[1..][i - 1] == keys[i];
          }
        }
      }
    }
  }

  lemma StringsStep(vs: seq<Value>, j: nat)
    requires j < |vs|
    ensures Strings(vs[j..]) == (if vs[j].Str? then {vs[j].s} else {}) + Strings(vs[j + 1..])
  {
    assert vs[j..][0] == vs[j] && vs[j..][1..] == vs[j + 1..];
  }

  lemma AllDaysStep(keys: seq<Value>, entries: map<Value, Doc>, i: nat)
    requires (forall i :: 0 <= i < |keys| ==> keys[i] in entries) && i < |keys|
    ensures AllDays(keys[i..], entries) == Strings(DayList(entries[keys[i]])) + AllDays(keys[i + 1..], entries)
  {
    assert keys[i..][0] == keys[i] && keys[i..][1..] == keys[i + 1..];
  }

  /** `IdDocs` holds `{"_id": d}` exactly when `d` is one of the days. */
  lemma IdDocsMembers(days: seq<string>, d: string)
    ensures map[Id := Str(d)] in IdDocs(days) <==> d in days
  {
    var r := IdDocs(days);
    if map[Id := Str(d)] in r {
      var i :| 0 <= i < |r| && r[i] == map[Id := Str(d)];
      assert r[i][Id] == Str(days[i]);
    }
    if d in days {
      var i :| 0 <= i < |days| && days[i] == d;
      assert r[i] == map[Id := Str(d)];
    }
  }

  /**
   * What `aggregate` returns: the `_id`s are strictly ascending, and a day is
   * among them exactly when some stored document lists it.
   */
  lemma AggregateDays(keys: seq<Value>, entries: map<Value, Doc>, d: string)
    requires forall i :: 0 <= i < |keys| ==> keys[i] in entries
    ensures var r := IdDocs(Sorted(AllDays(keys, entries)));
      && (forall i, j :: 0 <= i < j < |r| ==> Id in r[i] && Id in r[j] && StrLess(r[i][Id].s, r[j][Id].s))
      && (map[Id := Str(d)] in r <==> exists k :: 0 <= k < |keys| && Str(d) in DayList(entries[keys[k]]))
  {
    var days := Sorted(AllDays(keys, entries));
    AllDaysMembers(keys, entries);
    IdDocsMembers(days, d);
  }

  /** `[{'_id': day} for day in days]`. */
  function IdDocs(days: seq<string>): (r: seq<Doc>)
    ensures |r| == |days|
    ensures forall i :: 0 <= i < |days| ==> r[i] == map[Id := Str(days[i])]
  {
    seq(|days|, i requires 0 <= i < |days| => map[Id := Str(days[i])])
  }
}
