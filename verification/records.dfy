/** Record shapes shared by the job-document store, the randomizer and the
    report: the pydantic models of api/dal.py, as values. */
module Records {

  datatype Option<T> = None | Some(value: T)

  datatype Result<T, E> = Success(value: T) | Failure(error: E)

  /** One entry of a job document's `users` array: an employee id and
      whether that employee is active on the document's date. */
  datatype JobUserItem = JobUserItem(userid: string, status: bool)

  /** The stored (dumped) form of a ShiftDetail: five optional slot names. */
  datatype ShiftRecord = ShiftRecord(
    morning: Option<string>,
    afternoon: Option<string>,
    night: Option<string>,
    general: Option<string>,
    ramc: Option<string>)

  /** A roster record. The same six fields make up an
      EmployeeByShiftResponse, the row the active-by-shift join returns. */
  datatype Employee = Employee(
    employeeId: string,
    name: string,
    designation: string,
    email: string,
    phone: string,
    shift: string)

  /** RandomizerResponse1: the main and standby groups of one draw. */
  datatype RandomizerResult = RandomizerResult(mainList: seq<Employee>, standbyList: seq<Employee>)

  /** One element of a job document's `randomizerLog`. */
  datatype LogEntry = LogEntry(
    triggerDateTime: int,
    shift: string,
    allotedTeam: string,
    randomizerResult: RandomizerResult)

  /** A daily job document, keyed in the store by `dateDocId`. */
  datatype JobDoc = JobDoc(
    dateDocId: string,
    shiftDetail: ShiftRecord,
    createdOn: int,
    users: seq<JobUserItem>,
    prevDocId: string,
    randomizerLog: seq<LogEntry>)

  /** The employee ids of a `users` array, in array order. */
  function UserIds(users: seq<JobUserItem>): (ids: seq<string>)
    ensures |ids| == |users|
    ensures forall i :: 0 <= i < |users| ==> ids[i] == users[i].userid
  {
    if users == [] then [] else [users[0].userid] + UserIds(users[1..])
  }

  /** Appending an entry appends its userid. */
  lemma {:induction false} UserIdsSnoc(users: seq<JobUserItem>, u: JobUserItem)
    ensures UserIds(users + [u]) == UserIds(users) + [u.userid]
  {
    var ids := UserIds(users + [u]);
    assert |ids| == |UserIds(users) + [u.userid]|;
    forall i | 0 <= i < |ids|
      ensures ids[i] == (UserIds(users) + [u.userid])[i]
    {
      if i < |users| {
        assert (users + [u])[i] == users[i];
      }
    }
  }

  /** No element occurs twice. */
  predicate Distinct<T(==)>(s: seq<T>)
  {
    forall i, j :: 0 <= i < j < |s| ==> s[i] != s[j]
  }
}
