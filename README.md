# Mergington High School activity store, modelled in Dafny

The Mergington High School API keeps its extracurricular activities and its
teacher accounts in two `MockCollection` objects, which mimic a small part of
the MongoDB collection interface over a Python `dict`: `find`, `find_one`,
`count_documents`, `insert_one`, `update_one` with `$push` and `$pull`, and
`aggregate` for the list of distinct meeting days. At start-up
`init_database` seeds the activities and the teacher accounts. The repository
has two versions of this layer, and the model covers both:

- `src/backend/database_memory.py`: the deep-copying collection. Module
  `MemoryDatabase` (`database_memory.dfy`).
- `src/backend/database.py`: the shallow collection. Module `Database`
  (`database.dfy`).

Shared pieces live in two more modules:

- `Documents` (`documents.dfy`): field values, documents, the
  insertion-ordered dictionary that holds a collection (`Store`), Python's
  `in` and `<`, `$push`, the seed records and the day collection.
- `Ordering` (`ordering.dfy`): Python's string order and `sorted` on a set
  of strings.

`Differences` (`differences.dfy`) proves where the two versions give
different answers to the same call.

Each collection is a `class` whose one field, the backing dictionary, is
replaced by every insert and update. Each loop of the source is a `method`
proved against a function that specifies it:

- the document loop of `find`: `MatchAll` against `Select`;
- the key loop: `MatchDocument` against `Satisfies`;
- the dotted-path walk: `ResolvePath` against `Resolve`;
- the `$push` loop and the `$pull` loop: `PushEach` and `PullEach` against
  `PushAll` and `PullAll`;
- the day loops of `aggregate`: `CollectDays` against `AllDays`;
- the seeding loops: `InsertSeeds`, `InsertMissing` and `InsertUnmatched`
  against `PutSeeds`, `PutMissing` and `PutUnmatched`.

The lemmas then state what the collection promises. On the memory side:

- an empty query returns every document in insertion order;
- `{"_id": k}` finds exactly the document stored under `k`;
- an insert is found again by its `_id`;
- `$push v` then `$pull v` on a list field that is present and lacks `v`
  restores the document (an absent field ends as `[]`, and a list already
  holding `v` loses its first copy instead);
- the days `aggregate` returns are distinct, sorted, and exactly the days some
  activity lists;
- a second `init_database` changes nothing.

The two versions differ in several ways, and the model proves each:

- The deep-copying `find` requires every query key to be a literal top-level
  field of the document before it looks at dotted paths. So a query on
  `schedule_details.days` with `$in` matches no activity in that version
  (`database_memory.py:29-31`), although the comment on the dotted-path
  branch (`database_memory.py:33`) names `schedule_details.days` as the
  nested query it handles: that branch is never reached for it. The model
  follows the code (`Differences.DaysQueryDiffers`). The shallow version
  answers the same query with the activities meeting on one of the days.
- The shallow `insert_one` pops `_id`, and its `find` compares plain keys
  against the stored document. So `find_one({"_id": name})` never finds
  anything there (`Database.ByIdFindsNothingIn`). As a result, the "add
  missing activities" branch of its `init_database` inserts every seed again
  (`Database.PutUnmatchedIsPutSeeds`). With documents as values, that resets
  every seed activity to its seed document (`Database.InitStoresSeeds`). In
  the source less is lost: `{"_id": name, **details}` (`database.py:128`,
  `133`) shares the participants list with the seed catalogue, and `$push`
  appends to that list in place (`database.py:91`), so a sign-up reaches the
  seed too and survives the re-insert. Only `$pull` rebinds the field
  (`database.py:97`); after one, a re-initialisation brings back the seed's
  list, undoing the removal and losing the sign-ups made since.
- `$pull` removes the first occurrence in one version and every occurrence in
  the other (`Differences.PullRepeatedDiffers`).

## Model

| member | source | states |
|---|---|---|
| Ordering.StrLess | src/backend/database_memory.py:53-56 | Python's `<` on strings: lexicographic by code point, a proper prefix being smaller (also `database.py:42`, `52` and the `sorted` at `database_memory.py:121`) |
| Ordering.Sorted | src/backend/database_memory.py:121 | `sorted` of a set of strings is strictly ascending in Python's string order, holds exactly the set's elements and has the set's size |
| Documents.WithId | src/backend/database_memory.py:23-24 | the copy `find` builds: the stored document with `_id` set to its key |
| Documents.WithIdRestores | src/backend/database_memory.py:80-85 | taking `_id` out of a document and attaching it again gives the document back |
| Documents.Less | src/backend/database_memory.py:53-56 | Python's `<` on two strings or two integers, the comparisons of the `$gte` and `$lte` tests (also `database.py:42`, `52`) |
| Documents.Contains | src/backend/database_memory.py:49 | `item in container` with a list as the container |
| Documents.SharesElement | src/backend/database_memory.py:49 | `any(item in container for item in operand)`: some candidate of the `$in` list is in the container (also `database.py:32`) |
| Documents.Store.Put | src/backend/database_memory.py:84 | assigning a key maps it to the new document, keeps existing keys in their order, and keeps the store well formed |
| Documents.Push | src/backend/database_memory.py:98-101 | `$push` on one field appends the value to its list, or makes `[value]` when the field is absent (the same as `database.py:89-91`) |
| Documents.PushAll | src/backend/database_memory.py:95-101 | after the `$push` items, every other field is unchanged, and each pushed field (the items of a dict name distinct fields) holds its old list with the pushed value appended, or `[value]` |
| Documents.SeedDoc | src/backend/database_memory.py:141 | the document `{"_id": name, **details}` |
| Documents.SeedDocSplits | src/backend/database_memory.py:141 | inserting `{"_id": name, **details}` stores exactly `details` under `name` |
| Documents.PutSeeds | src/backend/database_memory.py:139-141 | the insert loop makes every seed name a key, keeps the keys already there and keeps the store well formed |
| Documents.PutSeedsKeys | src/backend/database_memory.py:140-141 | the insert loop adds exactly the seed names as keys |
| Documents.PutSeedsStores | src/backend/database_memory.py:139-141 | with distinct names, each seed ends stored as its own document |
| Documents.PutSeedsUntouched | src/backend/database_memory.py:139-141 | a key that no seed names keeps its document |
| Documents.InitTeachers | src/backend/database_memory.py:148-151 | the teachers after `init_database`: seeded when the collection is empty, left alone otherwise (the same as `database.py:135-138`) |
| Documents.InitTeachersStores | src/backend/database_memory.py:149-151 | seeding an empty teacher collection with distinct usernames stores exactly the usernames as keys, each teacher as their account document |
| Documents.DayList | src/backend/database_memory.py:117-118 | the `days` list of an activity's `schedule_details`, or nothing when either is absent |
| Documents.AllDays | src/backend/database_memory.py:116-119 | every string day of every stored document, as a set |
| Documents.AllDaysMembers | src/backend/database_memory.py:115-119 | a day is collected exactly when some stored activity lists it |
| Documents.IdDocsMembers | src/backend/database_memory.py:121 | `{"_id": d}` is in the result exactly when `d` is one of the days |
| Documents.AggregateDays | src/backend/database_memory.py:114-121 | the `_id`s `aggregate` returns are strictly ascending, and `{"_id": d}` is among them exactly when some stored activity lists `d` |
| MemoryDatabase.Split | src/backend/database_memory.py:35 | `key.split('.')` has at least one part |
| MemoryDatabase.JoinSplit | src/backend/database_memory.py:35 | joining the parts of a split key with `.` gives the key back |
| MemoryDatabase.SplitPartsUndotted | src/backend/database_memory.py:35 | no part of a split key contains `.` |
| MemoryDatabase.SplitDotted | src/backend/database_memory.py:34-35 | a key splits into two or more parts exactly when it contains `.` |
| MemoryDatabase.Resolve | src/backend/database_memory.py:36-42 | following the path parts through nested dictionaries, with no value when a step is missing |
| MemoryDatabase.ResolvePath | src/backend/database_memory.py:36-45 | the path walk finds a value exactly when every step is present, and the value it finds is the one the path leads to |
| MemoryDatabase.OperatorMatches | src/backend/database_memory.py:47-60 | a resolved value passes `$in` when it holds a candidate, `$gte` and `$lte` when it is not on the wrong side, and otherwise when it equals the query value, tested in that order |
| MemoryDatabase.KeyMatches | src/backend/database_memory.py:29-64 | one query item holds of the copy when the key is a literal field of it, and then either the dotted path resolves and passes the operator test or the field equals the value |
| MemoryDatabase.Satisfies | src/backend/database_memory.py:27-64 | every query item holds of the copy |
| MemoryDatabase.MatchDocument | src/backend/database_memory.py:27-64 | the `matches` flag is true exactly when every query item holds of the copy: the key is a literal field, then the dotted path resolves and passes `$in`, `$gte`, `$lte` or equality |
| MemoryDatabase.MatchAll | src/backend/database_memory.py:22-67 | the document loop returns the matching copies, with `_id` attached, in store order |
| MemoryDatabase.Select | src/backend/database_memory.py:16-69 | the copies with `_id` attached of the stored documents that satisfy the query, in store order |
| MemoryDatabase.SelectMembers | src/backend/database_memory.py:16-69 | a document is in the result of `find` exactly when it is the `_id`-carrying copy of a stored document that satisfies the query |
| MemoryDatabase.SelectEverything | src/backend/database_memory.py:16-69 | `find({})` returns a copy of every document, in insertion order |
| MemoryDatabase.CountAll | src/backend/database_memory.py:76-78 | `count_documents({})` is the number of stored documents |
| MemoryDatabase.SatisfiesById | src/backend/database_memory.py:29-31 | `{"_id": k}` holds of a copy exactly when the copy carries `k` |
| MemoryDatabase.SelectById | src/backend/database_memory.py:16-69 | `find({"_id": k})` returns exactly the document stored under `k`, or nothing if there is none |
| MemoryDatabase.InsertThenFindById | src/backend/database_memory.py:80-85 | after `insert_one(doc)`, `find({"_id": doc["_id"]})` returns exactly `doc` |
| MemoryDatabase.SelectDottedMissing | src/backend/database_memory.py:29-31 | a dotted query key that no stored document holds as a literal field matches nothing |
| MemoryDatabase.FirstKey | src/backend/database_memory.py:71-74 | `find_one` finds nothing exactly when `find` returns nothing, and otherwise returns the first result |
| MemoryDatabase.FirstKeyNone | src/backend/database_memory.py:71-74 | `find_one` finds nothing exactly when no stored document satisfies the query |
| MemoryDatabase.FirstKeyIsFirst | src/backend/database_memory.py:71-74 | `find_one` picks the document at the first position that satisfies the query |
| MemoryDatabase.RemoveFirst | src/backend/database_memory.py:107 | `list.remove` shortens a list holding the value by one |
| MemoryDatabase.RemoveFirstCounts | src/backend/database_memory.py:107 | as a multiset, `list.remove` drops one copy of the value and nothing else |
| MemoryDatabase.RemoveFirstAt | src/backend/database_memory.py:107 | `list.remove` deletes the element at the first index holding the value, and nothing else |
| MemoryDatabase.RemoveFirstAppended | src/backend/database_memory.py:107 | removing a value just appended to a list that lacked it gives the list back |
| MemoryDatabase.Pull | src/backend/database_memory.py:106-107 | `$pull` on one field removes the first occurrence when the field holds the value, and otherwise leaves the document alone |
| MemoryDatabase.PullAll | src/backend/database_memory.py:103-107 | the `$pull` items add and remove no field, leave other fields unchanged, keep lists as lists, and leave each pulled field (distinct, as in a dict) as one `Pull` of it leaves it |
| MemoryDatabase.ApplyUpdate | src/backend/database_memory.py:95-107 | an update changes no field that it does not name |
| MemoryDatabase.PushThenPullRestores | src/backend/database_memory.py:95-107 | `$push v` then `$pull v` on a list field that lacked `v` restores the document |
| MemoryDatabase.PushEach | src/backend/database_memory.py:95-101 | the `$push` loop computes `PushAll` |
| MemoryDatabase.PullEach | src/backend/database_memory.py:103-107 | the `$pull` loop computes `PullAll` |
| MemoryDatabase.CollectDays | src/backend/database_memory.py:114-119 | the two day loops collect exactly the days of the stored activities |
| MemoryDatabase.Unwinds | src/backend/database_memory.py:114 | the pipelines `aggregate` answers: two or more stages, the first unwinding `$schedule_details.days` |
| MemoryDatabase.PutMissing | src/backend/database_memory.py:142-146 | the "add missing" loop makes every seed name a key, changes no document already stored and keeps the store well formed |
| MemoryDatabase.PutMissingStores | src/backend/database_memory.py:142-146 | with distinct seed names, the "add missing" loop adds exactly the seed names as keys, and each seed that was missing is stored as its document |
| MemoryDatabase.PutMissingPresent | src/backend/database_memory.py:142-146 | when every seed name is already a key, the "add missing" loop changes nothing |
| MemoryDatabase.InitActivities | src/backend/database_memory.py:138-146 | the activities after `init_database`: every seed inserted when the collection is empty, otherwise only the seeds whose name is not a key |
| MemoryDatabase.InitActivitiesKeeps | src/backend/database_memory.py:137-146 | after initialisation every seed activity is present, and no activity stored before has changed |
| MemoryDatabase.InitActivitiesStores | src/backend/database_memory.py:137-146 | with distinct seed names, after initialisation the keys are the old ones plus the seed names, and each seed not stored before is stored as its document |
| MemoryDatabase.InitIdempotent | src/backend/database_memory.py:135-151 | running the initialisation a second time changes neither collection |
| MemoryDatabase.MockCollection.constructor | src/backend/database_memory.py:13-14 | the collection wraps the given dictionary |
| MemoryDatabase.MockCollection.Find | src/backend/database_memory.py:16-69 | `find(query)` returns `Select` of the store, with `None` meaning `{}` |
| MemoryDatabase.MockCollection.FindOne | src/backend/database_memory.py:71-74 | `find_one` returns the first result of `find`, or `None` |
| MemoryDatabase.MockCollection.CountDocuments | src/backend/database_memory.py:76-78 | `count_documents` is the length of the result of `find` |
| MemoryDatabase.MockCollection.InsertOne | src/backend/database_memory.py:80-85 | a missing `_id` raises `KeyError` and an unhashable one `TypeError`, both leaving the store as it was; otherwise the document without `_id` is stored under its `_id`, overwriting, and the call returns true |
| MemoryDatabase.MockCollection.UpdateOne | src/backend/database_memory.py:87-109 | with no match the count is 0 and the store is unchanged; otherwise only the first match gets the pushes, then the pulls, and the count is 1 |
| MemoryDatabase.MockCollection.Aggregate | src/backend/database_memory.py:111-123 | for a pipeline of two or more stages whose first stage unwinds `$schedule_details.days`, returns `{"_id": day}` for every distinct day in ascending order; otherwise returns nothing |
| MemoryDatabase.InsertSeeds | src/backend/database_memory.py:139-141 | the empty-collection loop stores the seeds as `PutSeeds` says |
| MemoryDatabase.InsertMissing | src/backend/database_memory.py:142-146 | the "add missing" loop stores the seeds as `PutMissing` says |
| MemoryDatabase.InitDatabase | src/backend/database_memory.py:135-151 | activities are seeded if empty, otherwise only missing ones are added; teachers are seeded only if empty |
| Database.Detail | src/backend/database.py:29-52 | `doc["schedule_details"][field]`, when both levels are present |
| Database.HasOperator | src/backend/database.py:27-47 | `"$op" in value` for a query value, which names an operator only when it is a dictionary holding that key (tested at lines 27, 37 and 47) |
| Database.KeyMatches | src/backend/database.py:25-59 | the days key holds through `$in`, the start key through `$gte`, the end key through `$lte`, each trivially when its operator is absent; any other key holds when the stored document has it with that value |
| Database.Satisfies | src/backend/database.py:23-59 | every query item holds of the stored document |
| Database.MatchDocument | src/backend/database.py:23-58 | the `match` flag is true exactly when every query item holds: the three schedule keys through their operator, any other key by equality with the stored document |
| Database.MatchAll | src/backend/database.py:21-64 | the document loop returns the matching documents, each copied with `_id`, in store order |
| Database.Select | src/backend/database.py:16-66 | the stored documents that satisfy the query, each copied with `_id` attached, in store order |
| Database.SelectMembers | src/backend/database.py:16-66 | a document is in the result of `find` exactly when it is the `_id`-carrying copy of a stored document that satisfies the query |
| Database.SelectEverything | src/backend/database.py:16-66 | `find({})` returns a copy of every document, in insertion order |
| Database.CountAll | src/backend/database.py:72-73 | `count_documents({})` is the number of stored documents |
| Database.DaysQuery | src/backend/database.py:25-34 | `{"schedule_details.days": {"$in": days}}` holds exactly when the activity lists one of the days |
| Database.TimeWindowQuery | src/backend/database.py:35-54 | a `$gte` start plus a `$lte` end query holds exactly when the activity starts no earlier and ends no later |
| Database.FirstKey | src/backend/database.py:68-70 | `find_one` finds nothing exactly when `find` returns nothing, and otherwise returns the first result, which satisfies the query |
| Database.NoStoredIds | src/backend/database.py:76-77 | no stored document holds `_id`, since `insert_one` pops it before storing |
| Database.IdIsPlainKey | src/backend/database.py:55-58 | `{"_id": k}` is checked by plain equality against the stored document |
| Database.ByIdFindsNothing | src/backend/database.py:55-58 | while no stored document holds `_id`, `find({"_id": k})` returns nothing |
| Database.ByIdFindsNothingIn | src/backend/database.py:68-70 | while no stored document holds `_id`, `find_one({"_id": k})` finds nothing |
| Database.PutSeedsNoIds | src/backend/database.py:126-128 | seeding with documents without `_id` keeps the store free of `_id` fields |
| Database.RemoveAll | src/backend/database.py:97 | the comprehension leaves no copy of the value and keeps exactly the other elements |
| Database.RemoveAllCounts | src/backend/database.py:97 | as a multiset, the comprehension drops every copy of the value and no copy of anything else |
| Database.RemoveAllConcat | src/backend/database.py:97 | the comprehension keeps the order of what it keeps: filtering a concatenation concatenates the filtered pieces |
| Database.RemoveAllAbsent | src/backend/database.py:97 | filtering a value the list lacks gives the list back |
| Database.RemoveAllAppended | src/backend/database.py:97 | filtering a value just appended to a list that lacked it gives the list back |
| Database.Pull | src/backend/database.py:96-97 | `$pull` on one field filters the value out of a list and leaves a missing or non-list field alone |
| Database.PullAll | src/backend/database.py:93-97 | the `$pull` items add and remove no field and leave other fields unchanged; each pulled field (distinct, as in a dict) is left as one `Pull` leaves it, so a pulled list no longer holds the value |
| Database.ApplyUpdate | src/backend/database.py:86-97 | an update changes no field that it does not name |
| Database.PushThenPullRestores | src/backend/database.py:86-97 | `$push v` then `$pull v` on a list field that lacked `v` restores the document |
| Database.PushStartsEmpty | src/backend/database.py:89-91 | starting an absent field as `[]` and appending gives what `$push` gives |
| Database.PushEach | src/backend/database.py:86-91 | the `$push` loop computes `PushAll` |
| Database.PullEach | src/backend/database.py:93-97 | the `$pull` loop computes `PullAll` |
| Database.CollectDays | src/backend/database.py:105-108 | the day loop collects exactly the days of the stored activities |
| Database.Groups | src/backend/database.py:104 | the pipelines `aggregate` answers: exactly three stages, an `$unwind` first and a `$group` second |
| Database.PutUnmatched | src/backend/database.py:129-133 | the "add missing" loop keeps the store well formed |
| Database.PutUnmatchedIsPutSeeds | src/backend/database.py:129-133 | because lookups by `_id` never succeed, the "add missing" loop inserts every seed, exactly like the empty-collection loop |
| Database.InitActivities | src/backend/database.py:125-133 | the activities after `init_database`: every seed inserted when the collection is empty, otherwise each seed that `find_one({"_id": name})` misses |
| Database.InitStoresSeeds | src/backend/database.py:122-133 | with documents as values, after initialisation each seed activity is stored as its seed document, whatever was stored before, and no document holds `_id` |
| Database.PutSeedsSame | src/backend/database.py:126-128 | seeding a store that already holds every seed document changes nothing |
| Database.InitIdempotent | src/backend/database.py:122-133 | running the activity initialisation again leaves what the first run left |
| Database.MockCollection.constructor | src/backend/database.py:13-14 | the collection wraps the given dictionary |
| Database.MockCollection.Find | src/backend/database.py:16-66 | `find(query)` returns `Select` of the store, with `None` meaning `{}` |
| Database.MockCollection.FindOne | src/backend/database.py:68-70 | `find_one` returns the first result of `find`, or `None` |
| Database.MockCollection.CountDocuments | src/backend/database.py:72-73 | `count_documents` is the length of the result of `find` |
| Database.MockCollection.InsertOne | src/backend/database.py:75-78 | a missing `_id` raises `KeyError` and leaves the caller's dictionary alone. Otherwise `_id` is popped from the caller's dictionary. An unhashable `_id` then raises `TypeError` with the store unchanged; a hashable one stores the rest under it and returns it as `inserted_id`. Stores without `_id` fields stay so |
| Database.MockCollection.UpdateOne | src/backend/database.py:80-100 | with no match the count is 0 and the store is unchanged; otherwise only the first match gets the pushes, then the pulls, and the count is 1; unless `_id` is pushed, no stored document gains `_id` |
| Database.MockCollection.Aggregate | src/backend/database.py:102-110 | for a three-stage pipeline with `$unwind` first and `$group` second, returns `{"_id": day}` for every distinct day in ascending order; otherwise returns nothing |
| Database.InsertSeeds | src/backend/database.py:126-128 | the empty-collection loop stores the seeds as `PutSeeds` says |
| Database.InsertUnmatched | src/backend/database.py:129-133 | the "add missing" loop stores the seeds as `PutUnmatched` says |
| Database.InitDatabase | src/backend/database.py:122-138 | activities are seeded if empty and re-seeded otherwise; teachers are seeded only if empty |
| Differences.DaysQueryDiffers | src/backend/database_memory.py:29-31 | a `$in` query on `schedule_details.days` finds nothing in the deep-copying version, and in the shallow version finds exactly the activities listing one of the days |
| Differences.LookupByIdDiffers | src/backend/database.py:75-78 | after an insert, a lookup by `_id` returns the document in the deep-copying version and nothing in the shallow one |
| Differences.PullRepeatedDiffers | src/backend/database.py:97 | `$pull` of a value a list holds two or more times leaves one copy fewer in the deep-copying version and no copy in the shallow one |
| Differences.PipelineShapesDiffer | src/backend/database.py:104 | of the pipelines that first unwind the days, a two-stage one is aggregated by the deep-copying version only, a three-stage one with `$group` second by both |

## Left out

- Password hashing with Argon2 (`hash_password`) is a foreign library call. A teacher's password is an opaque string.
- The seed catalogue (`initial_activities`, `initial_teachers`) is a parameter of `InitDatabase`, not a constant. The module-level collection objects are parameters too.
- Aliasing is not modelled; documents are values. The deep-copying version copies each stored document on `find` and the caller's document on `insert_one`, but `$push` stores the caller's value itself (`database_memory.py:99`, `101`) and the constructor keeps the caller's dictionary (`database_memory.py:14`). The shallow version stores the caller's dictionary, returns shallow copies, and a seeded document shares its nested lists with the seed catalogue. None of that sharing is modelled.
- Database.InitStoresSeeds: on values a re-initialisation resets each seed activity to its seed document. In the source the participants list is shared with the seed catalogue and `$push` appends to it in place, so sign-ups survive a re-initialisation; only lists rebound by `$pull` are reset. The model does not capture that sharing.
- Documents.PushAll, MemoryDatabase.PullAll and Database.PullAll: the value each named field ends with is stated for items with distinct field names, as the items of a dict always are; a sequence of items naming one field twice is not a dict.
- The result objects of `insert_one` and `update_one` are reduced to what they carry: `inserted_id`, `modified_count`, or `True`.
- Only `$push` and `$pull` are modelled among update operators, and the source ignores every other operator too.
- Documents.Less: comparing values of different kinds is modelled as "not less". Python raises `TypeError` there. Lists and dictionaries are never ordered in the model.
- Documents.Contains and Documents.SharesElement: only a list can be searched. Python's `in` on a string, which is a substring test, and on a dictionary are not modelled.
- Documents.DayList and Documents.AllDays: only string days are collected, and only from a `days` list inside a dictionary. Python would also iterate a string or a dictionary there.
- MemoryDatabase.Resolve: a path step through a value that is not a dictionary means no match. Python would test `k in` a string or list and then index it, which may raise an error.
- MemoryDatabase.MockCollection.UpdateOne: requires every `$push` and `$pull` field of the matched document to be a list where present. On other values Python raises `AttributeError` or `TypeError`, or tests a substring.
- Database.MockCollection.UpdateOne: requires every `$push` field of the matched document to be a list where present. On other values Python raises `AttributeError`.
- Database.HasOperator: for the three schedule keys, a query value that is not a dictionary names no operator. Python would test `"$in" in value` on a string or list, and on a hit raise `TypeError`.
- Database.InitIdempotent: stated for the activities only, since the teachers are seeded only into an empty collection.
