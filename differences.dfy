/**
 * Where the two collection models part ways on the same input: a dotted
 * query on the days, a lookup by `_id`, a `$pull` of a repeated value and
 * the pipeline shape `aggregate` accepts.
 */
module Differences {
  import opened Documents
  import MemoryDatabase
  import Database

  /** Neither model stores a literal `schedule_details.days` field in an activity. */
  predicate NoDottedFields(st: Store)
  {
    forall k :: k in st.entries ==> Database.DaysKey !in st.entries[k]
  }

  function DaysIn(days: seq<Value>): Pairs
  {
    [(Database.DaysKey, Obj(map["$in" := List(days)]))]
  }

  /**
   * `find({"schedule_details.days": {"$in": days}})` finds nothing in the
   * deep-copying model, since the key must first be a literal field; the
   * shallow model finds exactly the activities listing one of the days.
   */
  lemma DaysQueryDiffers(st: Store, days: seq<Value>, d: Doc)
    requires st.Valid() && NoDottedFields(st)
    ensures MemoryDatabase.Select(st.keys, st.entries, DaysIn(days)) == []
    ensures d in Database.Select(st.keys, st.entries, DaysIn(days)) <==>
      exists i :: 0 <= i < |st.keys| && d == WithId(st.entries[st.keys[i]], st.keys[i])
        && Database.Detail(st.entries[st.keys[i]], "days").Some?
        && exists j :: 0 <= j < |days| && Contains(Database.Detail(st.entries[st.keys[i]], "days").value, days[j])
  {
    assert DaysIn(days)[0].0 == Database.DaysKey;
    assert '.' in Database.DaysKey by {
      assert Database.DaysKey[16] == '.';
    }
    MemoryDatabase.SelectDottedMissing(st.keys, st.entries, DaysIn(days), 0);
    Database.SelectMembers(st.keys, st.entries, DaysIn(days), d);
    forall i | 0 <= i < |st.keys|
      ensures Database.Satisfies(st.entries[st.keys[i]], DaysIn(days)) <==>
        Database.Detail(st.entries[st.keys[i]], "days").Some?
        && exists j :: 0 <= j < |days| && Contains(Database.Detail(st.entries[st.keys[i]], "days").value, days[j])
    {
      Database.DaysQuery(st.entries[st.keys[i]], days);
    }
  }

  /**
   * After inserting `doc`, a lookup by its `_id` returns `doc` in the
   * deep-copying model and nothing in the shallow one.
   */
  lemma LookupByIdDiffers(st: Store, doc: Doc)
    requires st.Valid() && Database.NoStoredIds(st) && Id in doc && Hashable(doc[Id])
    ensures var after := st.Put(doc[Id], doc - {Id});
      && MemoryDatabase.Select(after.keys, after.entries, [(Id, doc[Id])]) == [doc]
      && Database.Select(after.keys, after.entries, [(Id, doc[Id])]) == []
  {
    var after := st.Put(doc[Id], doc - {Id});
    MemoryDatabase.InsertThenFindById(st, doc);
    assert Database.NoStoredIds(after);
    Database.ByIdFindsNothingIn(after, doc[Id]);
  }

  /**
   * `$pull` of a value held at least twice: `remove` drops one copy, the
   * comprehension drops every copy.
   */
  lemma PullRepeatedDiffers(doc: Doc, field: string, v: Value)
    requires field in doc && doc[field].List? && multiset(doc[field].items)[v] >= 2
    ensures var kept := MemoryDatabase.Pull(doc, field, v)[field];
      kept.List? && multiset(kept.items)[v] == multiset(doc[field].items)[v] - 1
    ensures var kept := Database.Pull(doc, field, v)[field];
      kept.List? && multiset(kept.items)[v] == 0
  {
    assert v in doc[field].items;
    Database.RemoveAllCounts(doc[field].items, v);
    MemoryDatabase.RemoveFirstCounts(doc[field].items, v);
  }

  /**
   * The deep-copying version accepts any pipeline of two or more stages that
   * first unwinds the days, the shallow one exactly three stages with an
   * `$unwind` and then a `$group`: a two-stage pipeline is aggregated by the
   * first only, and a three-stage one that unwinds the days by both.
   */
  lemma PipelineShapesDiffer(pipeline: seq<Doc>)
    requires |pipeline| >= 1 && "$unwind" in pipeline[0] && pipeline[0]["$unwind"] == Str("$schedule_details.days")
    ensures |pipeline| == 2 ==> MemoryDatabase.Unwinds(pipeline) && !Database.Groups(pipeline)
    ensures |pipeline| == 3 && "$group" in pipeline[1] ==> MemoryDatabase.Unwinds(pipeline) && Database.Groups(pipeline)
  {
  }
}
