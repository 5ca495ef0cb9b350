/** clean_data_for_csv: flattens a job document's randomizer log into report
    rows, one per selected employee, labelled Main or Standby. */
module Report {
  import opened Records

  /** One report row: the run's trigger time and shift, the group, and the
      employee's own fields. */
  datatype CsvRow = CsvRow(triggerDateTime: int, shift: string, category: string, person: Employee)

  const MAIN: string := "Main"
  const STANDBY: string := "Standby"

  /** The rows of one group of one run, in the group's order. */
  function GroupRows(entry: LogEntry, category: string, people: seq<Employee>): (rows: seq<CsvRow>)
    ensures |rows| == |people|
  {
    seq(|people|, i requires 0 <= i < |people| =>
      CsvRow(entry.triggerDateTime, entry.shift, category, people[i]))
  }

  /** The rows of one run: its main group, then its standby group. */
  function EntryRows(entry: LogEntry): seq<CsvRow>
  {
    GroupRows(entry, MAIN, entry.randomizerResult.mainList)
      + GroupRows(entry, STANDBY, entry.randomizerResult.standbyList)
  }

  /** The report of a log: the runs' rows in log order. */
  function CsvRows(log: seq<LogEntry>): seq<CsvRow>
  {
    if log == [] then [] else CsvRows(log[..|log| - 1]) + EntryRows(log[|log| - 1])
  }

  /** The number of employees a log records as selected, main and standby. */
  function TotalSelected(log: seq<LogEntry>): nat
  {
    if log == [] then 0
    else
      var last := log[|log| - 1].randomizerResult;
      TotalSelected(log[..|log| - 1]) + |last.mainList| + |last.standbyList|
  }

  method CleanDataForCsv(data: seq<LogEntry>) returns (rows: seq<CsvRow>)
    ensures rows == CsvRows(data)
  {
    rows := [];
    for i := 0 to |data|
      invariant rows == CsvRows(data[..i])
    {
      var entry := data[i];
      var mainList := entry.randomizerResult.mainList;
      var standbyList := entry.randomizerResult.standbyList;
      ghost var before := rows;
      for j := 0 to |mainList|
        invariant rows == before + GroupRows(entry, MAIN, mainList[..j])
      {
        rows := rows + [CsvRow(entry.triggerDateTime, entry.shift, MAIN, mainList[j])];
      }
      assert mainList[..|mainList|] == mainList;
      ghost var withMain := rows;
      for j := 0 to |standbyList|
        invariant rows == withMain + GroupRows(entry, STANDBY, standbyList[..j])
      {
        rows := rows + [CsvRow(entry.triggerDateTime, entry.shift, STANDBY, standbyList[j])];
      }
      assert standbyList[..|standbyList|] == standbyList;
      assert data[..i + 1][..i] == data[..i];
    }
    assert data[..|data|] == data;
  }

  /** One row per selected employee: the report has as many rows as the
      log's main and standby groups have members together. */
  lemma {:induction false} CsvRowCount(log: seq<LogEntry>)
    ensures |CsvRows(log)| == TotalSelected(log)
  {
    if log != [] {
      CsvRowCount(log[..|log| - 1]);
    }
  }

  /** The report of a log is the report of its first part followed by the
      report of the rest: runs appear in log order. */
  lemma {:induction false} CsvRowsDistribute(a: seq<LogEntry>, b: seq<LogEntry>)
    ensures CsvRows(a + b) == CsvRows(a) + CsvRows(b)
    decreases |b|
  {
    if b == [] {
      assert a + b == a;
    } else {
      var n := |b| - 1;
      assert (a + b)[..|a + b| - 1] == a + b[..n];
      assert (a + b)[|a + b| - 1] == b[n];
      CsvRowsDistribute(a, b[..n]);
    }
  }

  /** Within a run: first every main member labelled Main, then every standby
      member labelled Standby, each with the run's trigger time and shift. */
  lemma EntryRowsLayout(entry: LogEntry)
    ensures var main, standby := entry.randomizerResult.mainList, entry.randomizerResult.standbyList;
      var rows := EntryRows(entry);
      && |rows| == |main| + |standby|
      && (forall i :: 0 <= i < |main| ==>
            rows[i] == CsvRow(entry.triggerDateTime, entry.shift, MAIN, main[i]))
      && (forall i :: 0 <= i < |standby| ==>
            rows[|main| + i] == CsvRow(entry.triggerDateTime, entry.shift, STANDBY, standby[i]))
  {
  }

  /** The report of a log with one more run ends with exactly that run's
      rows. */
  lemma ReportOfAppendedRun(log: seq<LogEntry>, entry: LogEntry)
    ensures CsvRows(log + [entry]) == CsvRows(log) + EntryRows(entry)
  {
    assert (log + [entry])[..|log|] == log;
  }
}
