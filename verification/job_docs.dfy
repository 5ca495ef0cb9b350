/** What each JobsDAL operation does to the jobs collection, stated as a
    transition on a map from `dateDocId` to document. The Mongo operators
    become the sequence operations they denote: `$concatArrays` is `+`,
    `$pull` a filter, `$set` with array filters a pointwise update, and the
    active-by-shift pipeline a filter plus a join. */
module JobDocs {
  import opened Records
  import opened Dates
  import opened ShiftRotation

  /** The jobs collection. */
  type Store = map<string, JobDoc>

  // ----- create_job_doc -----

  /** `[JobUserItem(status=True, userid=e) for e in employee_ids]`. */
  function SeedUsers(ids: seq<string>): (users: seq<JobUserItem>)
    ensures UserIds(users) == ids
    ensures forall u :: u in users ==> u.status
  {
    if ids == [] then [] else [JobUserItem(ids[0], true)] + SeedUsers(ids[1..])
  }

  /** The document inserted for a date that has none yet. */
  function NewJobDoc(date: CalendarDate, ids: seq<string>, now: int): JobDoc
  {
    JobDoc(DateKey(date), RotationFor(DaysSinceEpoch(date)), now, SeedUsers(ids), "", [])
  }

  datatype CreateOutcome = AlreadyExists | Created(dateDocId: string)

  function CreateStep(docs: Store, date: CalendarDate, ids: seq<string>, now: int): (r: (CreateOutcome, Store))
    ensures r.1.Keys == docs.Keys + {DateKey(date)}
    ensures forall k :: k in docs ==> r.1[k] == docs[k]
    ensures r.0 == AlreadyExists <==> DateKey(date) in docs
    ensures DateKey(date) !in docs ==>
      var doc := r.1[DateKey(date)];
      && r.0 == Created(DateKey(date))
      && doc.dateDocId == DateKey(date)
      && UserIds(doc.users) == ids
      && (forall u :: u in doc.users ==> u.status)
      && doc.randomizerLog == []
      && doc.prevDocId == ""
      && doc.shiftDetail == RotationFor(DaysSinceEpoch(date))
      && doc.createdOn == now
  {
    var key := DateKey(date);
    if key in docs then (AlreadyExists, docs)
    else (Created(key), docs[key := NewJobDoc(date, ids, now)])
  }

  /** A second creation for the same date, whatever roster and clock it is
      given, reports AlreadyExists and changes nothing: creating twice is
      creating once. */
  lemma CreateIsIdempotent(docs: Store, date: CalendarDate, ids: seq<string>, now: int,
                           ids2: seq<string>, now2: int)
    ensures CreateStep(CreateStep(docs, date, ids, now).1, date, ids2, now2)
         == (AlreadyExists, CreateStep(docs, date, ids, now).1)
  {
  }

  // ----- add_user_to_current_job_doc -----

  function AddUserStep(docs: Store, key: string, id: string): (r: Store)
    ensures r.Keys == docs.Keys
    ensures forall k :: k in docs && k != key ==> r[k] == docs[k]
    ensures key in docs ==>
      var before, after := docs[key].users, r[key].users;
      && |after| == |before| + 1
      && after[..|before|] == before
      && after[|before|] == JobUserItem(id, false)
      && r[key].(users := before) == docs[key]
  {
    if key in docs then
      docs[key := docs[key].(users := docs[key].users + [JobUserItem(id, false)])]
    else docs
  }

  // ----- remove_user_from_current_job_doc -----

  /** Number of entries of `users` with userid `id`. */
  function Occurrences(users: seq<JobUserItem>, id: string): (n: nat)
    ensures n <= |users|
  {
    if users == [] then 0
    else (if users[0].userid == id then 1 else 0) + Occurrences(users[1..], id)
  }

  /** `a` is `b` with some elements left out, the rest in the same order. */
  predicate IsSubsequence<T(==)>(a: seq<T>, b: seq<T>)
  {
    if a == [] then true
    else if b == [] then false
    else if a[0] == b[0] then IsSubsequence(a[1..], b[1..])
    else IsSubsequence(a, b[1..])
  }

  /** `$pull: {users: {userid: id}}`: every entry with that userid is
      dropped, the rest keep their order. The three first clauses determine
      the result: a subsequence, of the length of the entries with another
      userid, that holds none with this one. */
  function WithoutUser(users: seq<JobUserItem>, id: string): (r: seq<JobUserItem>)
    ensures IsSubsequence(r, users)
    ensures forall u :: u in r ==> u.userid != id
    ensures |r| == |users| - Occurrences(users, id)
    ensures Occurrences(users, id) == 0 ==> r == users
  {
    if users == [] then []
    else if users[0].userid == id then WithoutUser(users[1..], id)
    else [users[0]] + WithoutUser(users[1..], id)
  }

  function RemoveUserStep(docs: Store, key: string, id: string): (r: Store)
    ensures r.Keys == docs.Keys
    ensures forall k :: k in docs && k != key ==> r[k] == docs[k]
    ensures key in docs ==> r[key] == docs[key].(users := WithoutUser(docs[key].users, id))
    ensures key !in docs ==> r == docs
  {
    if key in docs then
      docs[key := docs[key].(users := WithoutUser(docs[key].users, id))]
    else docs
  }

  lemma {:induction false} WithoutUserDistributes(a: seq<JobUserItem>, b: seq<JobUserItem>, id: string)
    ensures WithoutUser(a + b, id) == WithoutUser(a, id) + WithoutUser(b, id)
  {
    if a == [] {
      assert a + b == b;
    } else {
      assert (a + b)[0] == a[0];
      assert (a + b)[1..] == a[1..] + b;
      WithoutUserDistributes(a[1..], b, id);
    }
  }

  /** Removing an employee who was just added, and was not on the list
      before, gives back the store as it was. */
  lemma RemoveUndoesAdd(docs: Store, key: string, id: string)
    requires key in docs ==> Occurrences(docs[key].users, id) == 0
    ensures RemoveUserStep(AddUserStep(docs, key, id), key, id) == docs
  {
    if key in docs {
      var users := docs[key].users;
      WithoutUserDistributes(users, [JobUserItem(id, false)], id);
      assert [JobUserItem(id, false)][1..] == [];
      assert WithoutUser([JobUserItem(id, false)], id) == [];
      assert WithoutUser(users + [JobUserItem(id, false)], id) == users;
      assert docs[key].(users := users) == docs[key];
    }
  }

  /** The id set of a document's users grows by the added id and loses the
      removed one. */
  lemma {:induction false} UserIdsAfterAddAndRemove(users: seq<JobUserItem>, id: string, other: string)
    ensures other in UserIds(users + [JobUserItem(id, false)]) <==> other in UserIds(users) || other == id
    ensures other in UserIds(WithoutUser(users, id)) <==> other in UserIds(users) && other != id
  {
    var added := users + [JobUserItem(id, false)];
    if other in UserIds(added) {
      var i :| 0 <= i < |added| && UserIds(added)[i] == other;
      if i < |users| { assert UserIds(users)[i] == other; }
    }
    if other in UserIds(users) {
      var i :| 0 <= i < |users| && UserIds(users)[i] == other;
      assert UserIds(added)[i] == other;
    }
    assert UserIds(added)[|users|] == id;
    WithoutUserKeepsOthers(users, id, other);
  }

  lemma {:induction false} WithoutUserKeepsOthers(users: seq<JobUserItem>, id: string, other: string)
    ensures other in UserIds(WithoutUser(users, id)) <==> other in UserIds(users) && other != id
  {
    if users != [] {
      WithoutUserKeepsOthers(users[1..], id, other);
      assert UserIds(users) == [users[0].userid] + UserIds(users[1..]);
      if users[0].userid != id {
        assert UserIds([users[0]] + WithoutUser(users[1..], id))
            == [users[0].userid] + UserIds(WithoutUser(users[1..], id));
      }
    }
  }

  // ----- update_user_status -----

  /** The status a request asks for `id`: the last request entry for it wins,
      as in the `set_dict` the source builds. */
  function RequestedStatus(request: seq<JobUserItem>, id: string): (r: Option<bool>)
    ensures r.None? <==> id !in UserIds(request)
    ensures r.Some? ==> JobUserItem(id, r.value) in request
  {
    if request == [] then None
    else if request[|request| - 1].userid == id then Some(request[|request| - 1].status)
    else
      var prefix := request[..|request| - 1];
      assert request == prefix + [request[|request| - 1]];
      UserIdsSnoc(prefix, request[|request| - 1]);
      RequestedStatus(prefix, id)
  }

  /** Each entry of `users` whose userid the request mentions takes the
      requested status; Mongo's array filters match every such entry. */
  function WithStatuses(users: seq<JobUserItem>, request: seq<JobUserItem>): (r: seq<JobUserItem>)
    ensures |r| == |users|
    ensures UserIds(r) == UserIds(users)
  {
    seq(|users|, i requires 0 <= i < |users| =>
      match RequestedStatus(request, users[i].userid)
      case Some(s) => JobUserItem(users[i].userid, s)
      case None => users[i])
  }

  /** Why Mongo refuses an update. */
  datatype StoreError = DuplicateArrayFilter

  /** The update, with the modified count the source returns. Two request
      entries with one userid give two array filters with one identifier,
      which Mongo rejects without touching the document. */
  function StatusStep(docs: Store, key: string, request: seq<JobUserItem>): (r: (Result<nat, StoreError>, Store))
    ensures r.0.Failure? <==> !Distinct(UserIds(request))
    ensures r.0.Failure? || key !in docs ==> r.1 == docs
    ensures r.1.Keys == docs.Keys
    ensures r.0.Success? && key in docs ==>
      r.1 == docs[key := docs[key].(users := WithStatuses(docs[key].users, request))]
    ensures r.0.Success? ==> r.0.value <= 1
    ensures r.0.Success? ==>
      (r.0.value == 1 <==> key in docs && WithStatuses(docs[key].users, request) != docs[key].users)
  {
    if !Distinct(UserIds(request)) then (Failure(DuplicateArrayFilter), docs)
    else if key !in docs then (Success(0), docs)
    else
      var users := WithStatuses(docs[key].users, request);
      (Success(if users == docs[key].users then 0 else 1), docs[key := docs[key].(users := users)])
  }

  lemma {:induction false} RequestedStatusOfDistinct(request: seq<JobUserItem>, j: int)
    requires Distinct(UserIds(request))
    requires 0 <= j < |request|
    ensures RequestedStatus(request, request[j].userid) == Some(request[j].status)
  {
    var n := |request| - 1;
    if j < n {
      var prefix := request[..n];
      var ids, prefixIds := UserIds(request), UserIds(prefix);
      assert request[j].userid != request[n].userid by {
        assert ids[j] != ids[n];
      }
      assert prefixIds == ids[..n];
      assert Distinct(prefixIds);
      assert prefix[j] == request[j];
      RequestedStatusOfDistinct(prefix, j);
    }
  }

  /** For a request with distinct userids: every entry whose userid is
      requested takes the requested status, every other entry is kept, and
      request ids that match no entry add nothing. */
  lemma StatusUpdateSemantics(users: seq<JobUserItem>, request: seq<JobUserItem>)
    requires Distinct(UserIds(request))
    ensures var r := WithStatuses(users, request);
      && |r| == |users|
      && (forall i :: 0 <= i < |users| ==> r[i].userid == users[i].userid)
      && (forall i, j :: 0 <= i < |users| && 0 <= j < |request| && users[i].userid == request[j].userid
            ==> r[i].status == request[j].status)
      && (forall i :: 0 <= i < |users| && users[i].userid !in UserIds(request) ==> r[i] == users[i])
  {
    var r := WithStatuses(users, request);
    forall i, j | 0 <= i < |users| && 0 <= j < |request| && users[i].userid == request[j].userid
      ensures r[i].status == request[j].status
    {
      RequestedStatusOfDistinct(request, j);
    }
  }

  // ----- update_shift_details_in_jobdoc -----

  /** The (field name, value) pairs a ShiftDetail yields when iterated, in
      declaration order. */
  function ShiftFields(detail: ShiftRecord): seq<(string, Option<string>)>
  {
    [("morning", detail.morning), ("afternoon", detail.afternoon), ("night", detail.night),
     ("general", detail.general), ("ramc", detail.ramc)]
  }

  /** `$set` of `shiftDetail.<name>` for each name in the map. */
  function ApplyShiftSet(detail: ShiftRecord, setDict: map<string, Option<string>>): ShiftRecord
  {
    ShiftRecord(
      if "morning" in setDict then setDict["morning"] else detail.morning,
      if "afternoon" in setDict then setDict["afternoon"] else detail.afternoon,
      if "night" in setDict then setDict["night"] else detail.night,
      if "general" in setDict then setDict["general"] else detail.general,
      if "ramc" in setDict then setDict["ramc"] else detail.ramc)
  }

  /** Every field is written, `None` ones included: the stored detail
      becomes the request's, whatever it was. */
  function ShiftDetailStep(docs: Store, key: string, detail: ShiftRecord): (r: (nat, Store))
    ensures r.1.Keys == docs.Keys
    ensures forall k :: k in docs && k != key ==> r.1[k] == docs[k]
    ensures key in docs ==> r.1[key].shiftDetail == detail && r.1[key].(shiftDetail := docs[key].shiftDetail) == docs[key]
    ensures r.0 <= 1
    ensures r.0 == 1 <==> key in docs && docs[key].shiftDetail != detail
  {
    if key !in docs then (0, docs)
    else (if docs[key].shiftDetail == detail then 0 else 1, docs[key := docs[key].(shiftDetail := detail)])
  }

  // ----- update_randomizer_run_in_job_doc -----

  function RecordRunStep(docs: Store, key: string, entry: LogEntry): (r: Store)
    ensures r.Keys == docs.Keys
    ensures forall k :: k in docs && k != key ==> r[k] == docs[k]
    ensures key in docs ==>
      var before, after := docs[key].randomizerLog, r[key].randomizerLog;
      && |after| == |before| + 1
      && after[..|before|] == before
      && after[|before|] == entry
      && r[key].(randomizerLog := before) == docs[key]
  {
    if key in docs then
      docs[key := docs[key].(randomizerLog := docs[key].randomizerLog + [entry])]
    else docs
  }

  /** A series of runs recorded one after another. */
  function RecordRuns(docs: Store, key: string, entries: seq<LogEntry>): Store
  {
    if entries == [] then docs
    else RecordRuns(RecordRunStep(docs, key, entries[0]), key, entries[1..])
  }

  /** N runs for one date, recorded one after another, leave N new log
      entries, in order, after the old ones: nothing is overwritten or
      merged, even for the same shift. */
  lemma {:induction false} RecordedRunsAccumulate(docs: Store, key: string, entries: seq<LogEntry>)
    requires key in docs
    ensures key in RecordRuns(docs, key, entries)
    ensures RecordRuns(docs, key, entries)[key].randomizerLog == docs[key].randomizerLog + entries
  {
    if entries != [] {
      var next := RecordRunStep(docs, key, entries[0]);
      RecordedRunsAccumulate(next, key, entries[1..]);
      assert next[key].randomizerLog == docs[key].randomizerLog + [entries[0]];
      assert [entries[0]] + entries[1..] == entries;
      assert docs[key].randomizerLog + [entries[0]] + entries[1..] == docs[key].randomizerLog + entries;
    }
  }

  // ----- get_active_users_id_by_shift -----

  /** `$lookup` of one userid in the roster, then `$unwind` and the shift
      `$match`: the roster records with that id and that shift, in roster
      order. */
  function Lookup(id: string, roster: seq<Employee>, shift: string): (rows: seq<Employee>)
    ensures forall e :: e in rows <==> e in roster && e.employeeId == id && e.shift == shift
  {
    if roster == [] then []
    else
      (if roster[0].employeeId == id && roster[0].shift == shift then [roster[0]] else [])
        + Lookup(id, roster[1..], shift)
  }

  /** `$unwind` of `users`, `$match` on status true, then the lookup: one row
      per pair of an active entry and a matching roster record, in `users`
      order. A row carries the entry's userid and the record's other fields,
      which is the record itself. */
  function ActiveJoin(users: seq<JobUserItem>, roster: seq<Employee>, shift: string): seq<Employee>
  {
    if users == [] then []
    else
      (if users[0].status then Lookup(users[0].userid, roster, shift) else [])
        + ActiveJoin(users[1..], roster, shift)
  }

  /** The whole pipeline for one date: the join over that date's document,
      nothing when the date has none. */
  function ActiveByShift(docs: Store, key: string, shift: string, roster: seq<Employee>): seq<Employee>
  {
    if key in docs then ActiveJoin(docs[key].users, roster, shift) else []
  }

  /** An employee is in the result exactly when the document lists them as
      active and the roster assigns them the requested shift. */
  lemma {:induction false} ActiveJoinMembership(users: seq<JobUserItem>, roster: seq<Employee>, shift: string, e: Employee)
    ensures e in ActiveJoin(users, roster, shift)
        <==> e in roster && e.shift == shift && JobUserItem(e.employeeId, true) in users
  {
    if users != [] {
      ActiveJoinMembership(users[1..], roster, shift, e);
      assert users == [users[0]] + users[1..];
    }
  }

  /** The result follows the order of `users`. */
  lemma {:induction false} ActiveJoinDistributes(a: seq<JobUserItem>, b: seq<JobUserItem>, roster: seq<Employee>, shift: string)
    ensures ActiveJoin(a + b, roster, shift) == ActiveJoin(a, roster, shift) + ActiveJoin(b, roster, shift)
  {
    if a == [] {
      assert a + b == b;
    } else {
      assert (a + b)[0] == a[0];
      assert (a + b)[1..] == a[1..] + b;
      ActiveJoinDistributes(a[1..], b, roster, shift);
    }
  }

  /** The unique index on employeeId: no two roster records share an id. */
  predicate UniqueIds(roster: seq<Employee>)
  {
    forall i, j :: 0 <= i < j < |roster| ==> roster[i].employeeId != roster[j].employeeId
  }

  lemma {:induction false} LookupAtMostOne(id: string, roster: seq<Employee>, shift: string)
    requires UniqueIds(roster)
    ensures |Lookup(id, roster, shift)| <= 1
  {
    if roster != [] {
      var rest := roster[1..];
      assert UniqueIds(rest) by {
        forall i, j | 0 <= i < j < |rest|
          ensures rest[i].employeeId != rest[j].employeeId
        {
          assert rest[i] == roster[i + 1] && rest[j] == roster[j + 1];
        }
      }
      LookupAtMostOne(id, rest, shift);
      if roster[0].employeeId == id && roster[0].shift == shift {
        forall e | e in rest
          ensures e.employeeId != id
        {
          var j :| 0 <= j < |rest| && rest[j] == e;
          assert roster[j + 1] == e;
        }
        LookupOfAbsentId(id, rest, shift);
      }
    }
  }

  lemma {:induction false} LookupOfAbsentId(id: string, roster: seq<Employee>, shift: string)
    requires forall e :: e in roster ==> e.employeeId != id
    ensures Lookup(id, roster, shift) == []
  {
    if roster != [] {
      assert roster[0] in roster;
      assert forall e :: e in roster[1..] ==> e in roster;
      LookupOfAbsentId(id, roster[1..], shift);
    }
  }

  /** With employee ids unique in the roster, the pipeline returns at most
      one row per entry of `users`. */
  lemma {:induction false} ActiveJoinAtMostOnePerEntry(users: seq<JobUserItem>, roster: seq<Employee>, shift: string)
    requires UniqueIds(roster)
    ensures |ActiveJoin(users, roster, shift)| <= |users|
  {
    if users != [] {
      LookupAtMostOne(users[0].userid, roster, shift);
      ActiveJoinAtMostOnePerEntry(users[1..], roster, shift);
    }
  }

  /** The worked example: A and B (alpha) active, C (bravo) inactive; asking
      for alpha returns A then B. */
  lemma ActiveJoinExample(a: Employee, b: Employee, c: Employee)
    requires a.employeeId == "A" && a.shift == "alpha"
    requires b.employeeId == "B" && b.shift == "alpha"
    requires c.employeeId == "C" && c.shift == "bravo"
    ensures ActiveJoin([JobUserItem("A", true), JobUserItem("B", true), JobUserItem("C", false)],
                       [a, b, c], "alpha") == [a, b]
  {
    var roster := [a, b, c];
    assert roster[1..] == [b, c] && roster[1..][1..] == [c] && [c][1..] == [];
    assert c.shift != "alpha" by { assert c.shift[0] != "alpha"[0]; }
    assert a.employeeId != "B" by { assert a.employeeId[0] != "B"[0]; }
    assert b.employeeId != "A" by { assert b.employeeId[0] != "A"[0]; }
    assert Lookup("A", [c], "alpha") == [];
    assert Lookup("B", [c], "alpha") == [];
    assert Lookup("A", [b, c], "alpha") == [] && Lookup("B", [b, c], "alpha") == [b];
    assert Lookup("A", roster, "alpha") == [a] && Lookup("B", roster, "alpha") == [b];
    var users := [JobUserItem("A", true), JobUserItem("B", true), JobUserItem("C", false)];
    assert users[1..] == [JobUserItem("B", true), JobUserItem("C", false)];
    assert users[1..][1..] == [JobUserItem("C", false)];
    assert ActiveJoin(users[1..][1..], roster, "alpha") == [];
    assert ActiveJoin(users[1..], roster, "alpha") == [b];
  }
}
