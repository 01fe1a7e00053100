/**
 * The report the handler mails: the table rows of format_results_as_html,
 * the summary counters, and the subject line built from the account id.
 */
module Report {
  import opened Wrappers
  import opened Audit

  /** A table row: its CSS class and its six cells, in column order. */
  datatype Row = Row(rowClass: string, cells: seq<string>)

  /** The two numbers the summary sentence reports. */
  datatype Summary = Summary(instancesValidated: nat, port22Open: nat)

  /** The HTML body: the summary above a table of rows, in result order. */
  datatype HtmlBody = HtmlBody(summary: Summary, rows: seq<Row>)

  const OpenClass := "open-port"
  const ClosedClass := "closed-port"

  /** The text of the 'Port 22 Open' field. */
  function StatusLabel(s: PortStatus): string
  {
    match s
    case Open => "Open"
    case Closed => "Closed"
  }

  /** The label read back from a cell; anything else is not a status. */
  function ParseStatus(text: string): Option<PortStatus>
  {
    if text == "Open" then Some(Open)
    else if text == "Closed" then Some(Closed)
    else None
  }

  /** The row for one result: class by its status, cells Region, Name, Owner, Public IP, status, Instance ID. */
  function RowOf(item: Record): (row: Row)
    ensures row.rowClass == OpenClass <==> item.port22 == Open
    ensures row.rowClass == ClosedClass <==> item.port22 == Closed
    ensures |row.cells| == 6 && row.cells[4] == StatusLabel(item.port22)
    ensures ParseRow(row) == Some(item)
  {
    Row(if StatusLabel(item.port22) == "Open" then OpenClass else ClosedClass,
        [item.region, item.name, item.owner, item.publicIp, StatusLabel(item.port22), item.instanceId])
  }

  /** format_results_as_html: one row appended per result, in order, under the summary. */
  method FormatResultsAsHtml(results: seq<Record>, summary: Summary) returns (body: HtmlBody)
    ensures body.summary == summary
    ensures |body.rows| == |results|
    ensures forall k :: 0 <= k < |results| ==> body.rows[k] == RowOf(results[k])
    ensures forall k :: 0 <= k < |results| ==>
              (body.rows[k].rowClass == OpenClass <==> results[k].port22 == Open) &&
              (body.rows[k].rowClass == ClosedClass <==> results[k].port22 == Closed)
  {
    var rows: seq<Row> := [];
    for i := 0 to |results|
      invariant |rows| == i
      invariant forall k :: 0 <= k < i ==> rows[k] == RowOf(results[k])
    {
      var item := results[i];
      var rowClass := if StatusLabel(item.port22) == "Open" then OpenClass else ClosedClass;
      rows := rows + [Row(rowClass, [item.region, item.name, item.owner, item.publicIp,
                                     StatusLabel(item.port22), item.instanceId])];
    }
    body := HtmlBody(summary, rows);
  }

  /** Reads a result back from its row's cells. */
  function ParseRow(row: Row): Option<Record>
  {
    if |row.cells| != 6 then None
    else match ParseStatus(row.cells[4])
      case None => None
      case Some(status) => Some(Record(row.cells[0], row.cells[1], row.cells[2], row.cells[3], status, row.cells[5]))
  }

  /** Reads all results back from a table, failing on the first unreadable row. */
  function ParseRows(rows: seq<Row>): (parsed: Option<seq<Record>>)
    ensures parsed.Some? ==> |parsed.value| == |rows|
  {
    if rows == [] then Some([])
    else match (ParseRow(rows[0]), ParseRows(rows[1..]))
      case (Some(r), Some(rest)) => Some([r] + rest)
      case _ => None
  }

  /** The table loses nothing: reading the rows back gives the results, in order. */
  lemma {:induction false} ParseRowsRoundTrip(results: seq<Record>, rows: seq<Row>)
    requires |rows| == |results|
    requires forall k :: 0 <= k < |results| ==> rows[k] == RowOf(results[k])
    ensures ParseRows(rows) == Some(results)
  {
    if results != [] {
      assert ParseRow(rows[0]) == Some(results[0]);
      ParseRowsRoundTrip(results[1..], rows[1..]);
      assert results == [results[0]] + results[1..];
    }
  }

  /** The account suffix: the last four characters of the id, or the whole id when it is shorter. */
  function AccountSuffix(accountId: string): (suffix: string)
    ensures |suffix| == if |accountId| < 4 then |accountId| else 4
    ensures accountId == accountId[..|accountId| - |suffix|] + suffix
  {
    if |accountId| <= 4 then accountId else accountId[|accountId| - 4..]
  }

  const SubjectPrefix := "Daily EC2 Port 22 Status Report - Account "

  /** The email subject for an account suffix. */
  function Subject(suffix: string): (subject: string)
    ensures |subject| == |SubjectPrefix| + |suffix|
    ensures subject[..|SubjectPrefix|] == SubjectPrefix && subject[|SubjectPrefix|..] == suffix
  {
    SubjectPrefix + suffix
  }

  /** The account suffix a subject line names, if it is a report subject at all. */
  function SuffixOfSubject(subject: string): Option<string>
  {
    if |subject| >= |SubjectPrefix| && subject[..|SubjectPrefix|] == SubjectPrefix
    then Some(subject[|SubjectPrefix|..])
    else None
  }

  /** Subjects and suffixes correspond one to one. */
  lemma SubjectRoundTrip(suffix: string, subject: string)
    ensures SuffixOfSubject(Subject(suffix)) == Some(suffix)
    ensures SuffixOfSubject(subject) == Some(suffix) ==> Subject(suffix) == subject
  {
    assert Subject(suffix)[..|SubjectPrefix|] == SubjectPrefix;
    assert Subject(suffix)[|SubjectPrefix|..] == suffix;
    if SuffixOfSubject(subject) == Some(suffix) {
      assert subject == subject[..|SubjectPrefix|] + subject[|SubjectPrefix|..];
    }
  }
}
