/** The FastAPI handlers that compose JobsDAL operations: the job-document
    creation endpoints and the randomizer endpoint. The roster (the Users
    collection), the clock and the random draw are parameters. */
module Api {
  import opened Records
  import opened Dates
  import opened JobDocs
  import opened JobsDal
  import opened Randomizer

  /** get_employee_list: the employeeId of every roster record, in roster
      order. */
  function EmployeeIds(roster: seq<Employee>): (ids: seq<string>)
    ensures |ids| == |roster|
    ensures forall i :: 0 <= i < |roster| ==> ids[i] == roster[i].employeeId
  {
    seq(|roster|, i requires 0 <= i < |roster| => roster[i].employeeId)
  }

  /** createJobDoc (and create_daily_job_doc, which passes today's date):
      create_job_doc with the ids of the whole roster. */
  method CreateJobDocEndpoint(store: JobsStore, roster: seq<Employee>, date: CalendarDate, now: int)
    returns (r: CreateOutcome)
    modifies store
    ensures (r, store.docs) == CreateStep(old(store.docs), date, EmployeeIds(roster), now)
  {
    var empIdList := EmployeeIds(roster);
    r := store.CreateJobDoc(date, empIdList, now);
  }

  /** The document created for a new date lists every roster employee as
      active, one entry per roster record, in roster order. */
  lemma CreatedDocListsRoster(docs: Store, roster: seq<Employee>, date: CalendarDate, now: int)
    requires DateKey(date) !in docs
    ensures var users := CreateStep(docs, date, EmployeeIds(roster), now).1[DateKey(date)].users;
      && |users| == |roster|
      && forall i :: 0 <= i < |roster| ==> users[i] == JobUserItem(roster[i].employeeId, true)
  {
    var users := CreateStep(docs, date, EmployeeIds(roster), now).1[DateKey(date)].users;
    forall i | 0 <= i < |roster|
      ensures users[i] == JobUserItem(roster[i].employeeId, true)
    {
      assert UserIds(users)[i] == users[i].userid;
      assert users[i] in users;
    }
  }

  datatype ApiError = MissingArgument(parameter: string)

  /** get_random_users_by_shift as written: the update call passes the
      result, the date and the path's team but not the fourth argument, so the
      call fails with a TypeError before anything is written. The draw made
      before it is lost. */
  function RandomizerEndpointAsWritten(docs: Store, team: string, dateString: string)
    : (Result<RandomizerResult, ApiError>, Store)
  {
    (Failure(MissingArgument("shift")), docs)
  }

  /** get_random_users_by_shift with the missing argument supplied: draw from
      the team's active employees of the date, record the run, return the
      draw. */
  function RandomizerEndpoint(docs: Store, roster: seq<Employee>, dateString: string, team: string,
                              shift: string, perm: seq<nat>, now: int)
    : (Result<RandomizerResult, ApiError>, Store)
    requires IsPermutation(perm, |ActiveByShift(docs, dateString, team, roster)|)
  {
    var res := GetRandom(ActiveByShift(docs, dateString, team, roster), perm);
    (Success(res), RecordRunStep(docs, dateString, LogEntry(now, shift, team, res)))
  }

  /** The endpoint as written never answers and never logs a run, whatever
      the store holds, where the corrected one answers and appends the run to
      an existing document. */
  lemma AsWrittenLosesTheRun(docs: Store, roster: seq<Employee>, dateString: string, team: string,
                             shift: string, perm: seq<nat>, now: int)
    requires dateString in docs
    requires IsPermutation(perm, |ActiveByShift(docs, dateString, team, roster)|)
    ensures RandomizerEndpointAsWritten(docs, team, dateString).0.Failure?
    ensures RandomizerEndpointAsWritten(docs, team, dateString).1 == docs
    ensures RandomizerEndpoint(docs, roster, dateString, team, shift, perm, now).0.Success?
    ensures |RandomizerEndpoint(docs, roster, dateString, team, shift, perm, now).1[dateString].randomizerLog|
         == |docs[dateString].randomizerLog| + 1
  {
  }

  /** The corrected endpoint answers with a draw of 40% of the team's active
      employees, split 5:3, every one of them active on that date and on that
      team, and logs exactly that draw after the earlier runs. */
  lemma {:induction false} CorrectedRunIsLogged(docs: Store, roster: seq<Employee>, dateString: string, team: string,
                                                shift: string, perm: seq<nat>, now: int)
    requires dateString in docs
    requires IsPermutation(perm, |ActiveByShift(docs, dateString, team, roster)|)
    ensures var (r, after) := RandomizerEndpoint(docs, roster, dateString, team, shift, perm, now);
      && r.Success?
      && |r.value.mainList| + |r.value.standbyList| == SampleSize(|ActiveByShift(docs, dateString, team, roster)|)
      && (forall e :: e in r.value.mainList + r.value.standbyList ==>
            e in roster && e.shift == team && JobUserItem(e.employeeId, true) in docs[dateString].users)
      && after[dateString].randomizerLog == docs[dateString].randomizerLog + [LogEntry(now, shift, team, r.value)]
  {
    var active := ActiveByShift(docs, dateString, team, roster);
    var (r, after) := RandomizerEndpoint(docs, roster, dateString, team, shift, perm, now);
    var res := r.value;
    var sample := RandomSample(active, perm);
    assert res.mainList + res.standbyList == sample;
    forall e | e in sample
      ensures e in roster && e.shift == team && JobUserItem(e.employeeId, true) in docs[dateString].users
    {
      var i :| 0 <= i < |sample| && sample[i] == e;
      assert e == active[perm[i]];
      ActiveJoinMembership(docs[dateString].users, roster, team, e);
    }
    var before := docs[dateString].randomizerLog;
    var log := after[dateString].randomizerLog;
    assert log == log[..|before|] + [log[|before|]];
  }

  /** The handler as written: the draw is made, then the update call fails. */
  method GetRandomUsersByShiftAsWritten(store: JobsStore, roster: seq<Employee>, shift: string,
                                        dateString: string, perm: seq<nat>)
    returns (r: Result<RandomizerResult, ApiError>)
    requires IsPermutation(perm, |store.ActiveUsersByShift(dateString, shift, roster)|)
    ensures r == RandomizerEndpointAsWritten(store.docs, shift, dateString).0
  {
    var userList := store.ActiveUsersByShift(dateString, shift, roster);
    var res := GetRandom(userList, perm);
    r := Failure(MissingArgument("shift"));
  }

  /** The handler with the missing argument supplied. */
  method GetRandomUsersByShift(store: JobsStore, roster: seq<Employee>, team: string, dateString: string,
                               shift: string, perm: seq<nat>, now: int)
    returns (r: RandomizerResult)
    modifies store
    requires IsPermutation(perm, |store.ActiveUsersByShift(dateString, team, roster)|)
    ensures (Success(r), store.docs) == RandomizerEndpoint(old(store.docs), roster, dateString, team, shift, perm, now)
  {
    var userList := store.ActiveUsersByShift(dateString, team, roster);
    r := GetRandom(userList, perm);
    store.UpdateRandomizerRunInJobDoc(r, dateString, team, shift, now);
  }
}
