/** JobsDAL: the data-access object over the jobs collection. Each method
    changes the collection as the matching transition of JobDocs says; the
    loops that build the `$set` documents are methods of their own. */
module JobsDal {
  import opened Records
  import opened Dates
  import opened ShiftRotation
  import opened JobDocs

  /** The pydantic ShiftDetail object, whose slots populate_shifts sets in
      place. */
  class ShiftDetail {
    var morning: Option<string>
    var afternoon: Option<string>
    var night: Option<string>
    var general: Option<string>
    var ramc: Option<string>

    /** `ShiftDetail()`: every slot unset. */
    constructor()
      ensures Dump() == ShiftRecord(None, None, None, None, None)
    {
      morning, afternoon, night, general, ramc := None, None, None, None, None;
    }

    /** `model_dump()`: the form stored in a job document. */
    function Dump(): ShiftRecord
      reads this
    {
      ShiftRecord(morning, afternoon, night, general, ramc)
    }
  }

  class JobsStore {
    var docs: Store

    constructor()
      ensures docs == map[]
    {
      docs := map[];
    }

    /** populate_shifts: writes the rotation for `date` into `detail`. The
        weekday test holds on every day, so general and ramc are always set,
        whatever the object held before. */
    method PopulateShifts(date: CalendarDate, detail: ShiftDetail)
      modifies detail
      ensures detail.Dump() == RotationFor(DaysSinceEpoch(date))
    {
      var daysPassed := DaysSinceEpoch(date);
      var currentIndex := daysPassed % 5;
      assert currentIndex == RotationIndex(daysPassed);
      var nextIndex1 := (currentIndex + 1) % |SHIFT_NAMES|;
      var nextIndex2 := (currentIndex + 2) % |SHIFT_NAMES|;
      detail.morning := Some(SHIFT_NAMES[currentIndex]);
      detail.afternoon := Some(SHIFT_NAMES[nextIndex1]);
      detail.night := Some(SHIFT_NAMES[nextIndex2]);
      FixedSlotsSetOnEveryDay(Weekday(date));
      if SetsFixedSlots(Weekday(date)) {
        detail.general := Some("general");
        detail.ramc := Some("ramc");
      }
    }

    /** create_job_doc: inserts the day's document unless one with the same
        key exists. */
    method CreateJobDoc(date: CalendarDate, employeeIds: seq<string>, now: int) returns (r: CreateOutcome)
      modifies this
      ensures (r, docs) == CreateStep(old(docs), date, employeeIds, now)
    {
      var key := DateKey(date);
      if key in docs {
        return AlreadyExists;
      }
      var userItems := SeedUsers(employeeIds);
      var detail := new ShiftDetail();
      PopulateShifts(date, detail);
      var jobDoc := JobDoc(key, detail.Dump(), now, userItems, "", []);
      docs := docs[key := jobDoc];
      r := Created(key);
    }

    /** add_user_to_current_job_doc: appends (employeeId, inactive). */
    method AddUserToCurrentJobDoc(dateString: string, employeeId: string)
      modifies this
      ensures docs == AddUserStep(old(docs), dateString, employeeId)
    {
      if dateString in docs {
        var doc := docs[dateString];
        docs := docs[dateString := doc.(users := doc.users + [JobUserItem(employeeId, false)])];
      }
    }

    /** The loop of update_user_status: `set_dict` maps each requested
        userid to its status (a later entry overwrites an earlier one) and
        the array filters list the userids in request order. */
    static method StatusSetDict(request: seq<JobUserItem>) returns (setDict: map<string, bool>, arrayFilters: seq<string>)
      ensures arrayFilters == UserIds(request)
      ensures forall id :: id in setDict <==> id in UserIds(request)
      ensures forall id :: id in setDict ==> RequestedStatus(request, id) == Some(setDict[id])
    {
      setDict := map[];
      arrayFilters := [];
      for i := 0 to |request|
        invariant arrayFilters == UserIds(request[..i])
        invariant forall id :: id in setDict <==> id in UserIds(request[..i])
        invariant forall id :: id in setDict ==> RequestedStatus(request[..i], id) == Some(setDict[id])
      {
        var user := request[i];
        assert request[..i + 1] == request[..i] + [user];
        assert request[..i + 1][..i] == request[..i];
        UserIdsSnoc(request[..i], user);
        setDict := setDict[user.userid := user.status];
        arrayFilters := arrayFilters + [user.userid];
      }
      assert request[..|request|] == request;
    }

    /** update_user_status: one `$set` with one array filter per requested
        userid. */
    method UpdateUserStatus(dateString: string, request: seq<JobUserItem>) returns (r: Result<nat, StoreError>)
      modifies this
      ensures (r, docs) == StatusStep(old(docs), dateString, request)
    {
      var setDict, arrayFilters := StatusSetDict(request);
      if !Distinct(arrayFilters) {
        return Failure(DuplicateArrayFilter);
      }
      if dateString !in docs {
        return Success(0);
      }
      var doc := docs[dateString];
      var users := doc.users;
      var updated := seq(|users|, i requires 0 <= i < |users| =>
        if users[i].userid in setDict then JobUserItem(users[i].userid, setDict[users[i].userid]) else users[i]);
      assert updated == WithStatuses(users, request);
      docs := docs[dateString := doc.(users := updated)];
      r := Success(if updated == users then 0 else 1);
    }

    /** The loop of update_shift_details_in_jobdoc: one `$set` entry per
        field of the detail, unset fields included, so applying it replaces
        the stored detail whatever it was. */
    static method ShiftSetDict(detail: ShiftDetail) returns (setDict: map<string, Option<string>>)
      ensures setDict.Keys == {"morning", "afternoon", "night", "general", "ramc"}
      ensures forall stored: ShiftRecord :: ApplyShiftSet(stored, setDict) == detail.Dump()
    {
      var fields := ShiftFields(detail.Dump());
      setDict := map[];
      for i := 0 to |fields|
        invariant setDict.Keys == set k | 0 <= k < i :: fields[k].0
        invariant forall k :: 0 <= k < i ==> setDict[fields[k].0] == fields[k].1
      {
        setDict := setDict[fields[i].0 := fields[i].1];
      }
      assert fields[0] == ("morning", detail.morning) && setDict[fields[0].0] == fields[0].1;
      assert fields[1] == ("afternoon", detail.afternoon) && setDict[fields[1].0] == fields[1].1;
      assert fields[2] == ("night", detail.night) && setDict[fields[2].0] == fields[2].1;
      assert fields[3] == ("general", detail.general) && setDict[fields[3].0] == fields[3].1;
      assert fields[4] == ("ramc", detail.ramc) && setDict[fields[4].0] == fields[4].1;
    }

    /** update_shift_details_in_jobdoc, returning the modified count. */
    method UpdateShiftDetailsInJobDoc(dateString: string, detail: ShiftDetail) returns (modified: nat)
      modifies this
      ensures (modified, docs) == ShiftDetailStep(old(docs), dateString, detail.Dump())
    {
      var setDict := ShiftSetDict(detail);
      if dateString !in docs {
        return 0;
      }
      var doc := docs[dateString];
      var stored := ApplyShiftSet(doc.shiftDetail, setDict);
      modified := if stored == doc.shiftDetail then 0 else 1;
      docs := docs[dateString := doc.(shiftDetail := stored)];
    }

    /** get_active_users_id_by_shift, with each row read as an
        EmployeeByShiftResponse: the active employees of the date whose
        roster shift is `shift`; nothing for a date without a document. */
    function ActiveUsersByShift(dateString: string, shift: string, roster: seq<Employee>): (rows: seq<Employee>)
      reads this
      ensures forall e :: e in rows <==>
        dateString in docs && e in roster && e.shift == shift
        && JobUserItem(e.employeeId, true) in docs[dateString].users
    {
      assert dateString in docs ==> forall e :: e in ActiveByShift(docs, dateString, shift, roster) <==>
        e in roster && e.shift == shift && JobUserItem(e.employeeId, true) in docs[dateString].users
      by {
        if dateString in docs {
          forall e: Employee {
            ActiveJoinMembership(docs[dateString].users, roster, shift, e);
          }
        }
      }
      ActiveByShift(docs, dateString, shift, roster)
    }

    /** update_randomizer_run_in_job_doc: appends one log entry with the
        trigger time, the shift, the team and the result. */
    method UpdateRandomizerRunInJobDoc(response: RandomizerResult, dateString: string, team: string,
                                       shift: string, now: int)
      modifies this
      ensures docs == RecordRunStep(old(docs), dateString, LogEntry(now, shift, team, response))
    {
      if dateString in docs {
        var doc := docs[dateString];
        var entry := LogEntry(now, shift, team, response);
        docs := docs[dateString := doc.(randomizerLog := doc.randomizerLog + [entry])];
      }
    }

    /** remove_user_from_current_job_doc: `$pull` of every entry with the id. */
    method RemoveUserFromCurrentJobDoc(date: string, userId: string)
      modifies this
      ensures docs == RemoveUserStep(old(docs), date, userId)
    {
      if date in docs {
        var doc := docs[date];
        docs := docs[date := doc.(users := WithoutUser(doc.users, userId))];
      }
    }
  }
}
