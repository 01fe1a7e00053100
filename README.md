# EC2PortChecker core, modelled in Dafny

EC2PortChecker is an AWS Lambda that audits a cloud account. It lists the regions the account may
use, and in each of them the running EC2 instances. It checks whether TCP port 22 on each
instance's public address accepts a connection. It then mails a report with two counters (instances
validated, instances with port 22 open) and a table with one row per instance.

This project models the deterministic core of that handler (`pyton/index.py`):

- `wrappers.dfy` (`Wrappers`): `Option` and `Result`.
- `tags.dfy` (`Tags`): `get_instance_name` / `get_instance_owner`. Each is a linear scan over the
  Key/Value tag list that stops at the first exact key match and otherwise falls back to `"N/A"` or
  `"-"`. The scan is written once (`LookupTag`) and both lookups use it.
- `regions.dfy` (`Regions`): the eligibility filter of `get_all_regions`. It keeps
  `opt-in-not-required` and `opted-in` regions in their listed order.
- `audit.dfy` (`Audit`): the nested aggregation loops of `lambda_handler`. They build one record per
  instance and keep `total_instances` and `open_port_instances`. The port check `is_port_open` is an
  oracle `probe: string -> bool`. The loop also returns the addresses it probed, in call order, so
  that "never probed without an address" can be stated. The loops are proved against specification
  functions (`AllRecords`, `TotalInstances`, `CountOpen`, `ProbeCalls`), and the lemmas say what
  those functions mean.
- `report.dfy` (`Report`): the row loop of `format_results_as_html`. Rows are (class, cells) values,
  not HTML text. The file also holds the account suffix and the subject line.
- `handler.dfy` (`Handler`): `lambda_handler` end to end. Its inputs are the outcomes of the
  provider calls: the account id, the region listing, a per-region instance listing, the probe and
  the mail service's verdict. It returns status 200 or 500 and the email it handed to the mail
  service.

Behaviour of the code worth noting:

- The instances are probed one after another, inside the region and instance loops.
- The subject is `Daily EC2 Port 22 Status Report - Account <suffix>`.
- No CSV attachment is sent: the report is the HTML body alone.
- A `ClientError` from the mail service reaches the same `except ClientError` branch
  (`pyton/index.py:77`) as a failing provider call.
- The account suffix is Python's `account_id[-4:]`, which is the whole id when it is shorter than
  four characters.
- The Public IP field is `"N/A"` for an absent address and also for an empty one, because of
  Python truthiness. The port check is guarded by `public_ip != 'N/A'`.

## Model

| member | source | states |
|---|---|---|
| `Tags.LookupTag` | pyton/index.py:113-119 | The scan with early `break` returns the value of the first tag with the key, or the default when the tag list is absent, empty or lacks the key. |
| `Tags.GetInstanceName` | pyton/index.py:111-119 | The name is the first `Name` tag's value, else `"N/A"`. |
| `Tags.GetInstanceOwner` | pyton/index.py:121-129 | The owner is the first `OWNER` tag's value, else `"-"`. |
| `Tags.FirstValueFound` | pyton/index.py:115-118 | When index k is the first tag with the key, the lookup yields exactly that tag's value. |
| `Tags.FirstValueMissing` | pyton/index.py:113-119 | The lookup finds nothing iff no tag has the key. |
| `Tags.FirstValueAppend` | pyton/index.py:116-118 | Tags after the first match are never consulted: a lookup over `front + back` is the lookup over `front`, or over `back` only when `front` lacks the key. |
| `Tags.InstanceNameSpec` | pyton/index.py:111-119 | `None` tags, or tags without an exact `"Name"` key, give `"N/A"`; otherwise the first `"Name"` tag's value. |
| `Tags.InstanceOwnerSpec` | pyton/index.py:121-129 | `None` tags, or tags without an exact `"OWNER"` key, give `"-"`; otherwise the first `"OWNER"` tag's value. |
| `Regions.EligibleRegions` | pyton/index.py:93-97 | The filter never yields more names than there are entries. |
| `Regions.EligibleRegionsAppend` | pyton/index.py:93-97 | Filtering a concatenation is the concatenation of the filtered parts, so relative order is kept. |
| `Regions.EligibleRegionsMembership` | pyton/index.py:94-96 | A name is in the result iff some entry with that name has status `opt-in-not-required` or `opted-in`. |
| `Regions.EligibleRegionsPositions` | pyton/index.py:93-97 | The result is the names at strictly increasing positions of the listing. Those positions are exactly the eligible entries. |
| `Audit.PublicIp` | pyton/index.py:33 | The Public IP field is `"N/A"` when the address is absent or empty, and the address itself when it is present and non-empty. |
| `Audit.RecordOf` | pyton/index.py:30-48 | The record of one instance carries its region and id, the name and owner lookups, its Public IP field, and status Open iff that field is an address and the port check on it succeeds. |
| `Audit.CountOpen` | pyton/index.py:34-39 | The number of Open records never exceeds the number of records. |
| `Audit.AuditInstances` | pyton/index.py:19-48 | The results are all records in region-then-instance order. `total_instances` equals the number of results and the number of instances listed. `open_port_instances` equals the number of Open results and is at most the total. The probed addresses are exactly those of the records that have an address, in order. |
| `Audit.AuditRegion` | pyton/index.py:28-48 | One region's loop appends one record per instance, in order. It advances the total by the instance count and keeps both the open counter and the probe log equal to their count over all results so far. |
| `Audit.RegionRecordsLength` | pyton/index.py:28-48 | A region contributes exactly one record per instance. A region with no instances contributes none. |
| `Audit.RegionRecordAt` | pyton/index.py:28-48 | The k-th record of a region is built from its k-th instance and carries that region's name. |
| `Audit.AllRecordsLength` | pyton/index.py:24-29 | The number of records equals the total number of listed instances. |
| `Audit.RecordAt` | pyton/index.py:24-48 | Instance j of region i yields the record at position (instances in regions before i) + j, carrying region i. |
| `Audit.RecordOrigin` | pyton/index.py:24-48 | Every record is the record of some instance j of some region i, at that same position. |
| `Audit.AllRecordsStatus` | pyton/index.py:33-39 | Every record is Open iff it has an address and the port check on that address succeeded. |
| `Audit.NoAddressIsClosed` | pyton/index.py:33-37 | An instance with no or an empty address gets `"N/A"` and Closed, whatever the port check would answer. |
| `Audit.ProbeCallsSpec` | pyton/index.py:36-37 | The check is never called with `"N/A"`. Every record with an address had its address checked. There is at most one check per record. |
| `Audit.CountOpenIsOpenRecords` | pyton/index.py:34-39 | The open counter equals the size of the set of positions whose status is Open. |
| `Audit.AllChecksFail` | pyton/index.py:131-137 | When every port check fails, every record is Closed and the open counter is zero. |
| `Audit.TwoRegionRun` | pyton/index.py:24-48 | Region r1 has one instance with an address that answers; region r2 has one instance without an address. The run gives total 2, open 1, and the two records in order. |
| `Report.FormatResultsAsHtml` | pyton/index.py:211-226 | One row per result, in order, with cells Region, Name, Owner, Public IP, status and Instance ID. The class is `open-port` iff the status is Open, and `closed-port` iff it is Closed. The summary is kept. |
| `Report.RowOf` | pyton/index.py:212-224 | A row's class is `open-port` iff its result is Open and `closed-port` iff it is Closed. It has six cells with the status text fifth, and reading it back gives the result. |
| `Report.ParseRows` | pyton/index.py:217-225 | A table that reads back yields exactly one record per row. |
| `Report.ParseRowsRoundTrip` | pyton/index.py:211-226 | Reading the rendered rows back gives the results unchanged and in order. |
| `Report.AccountSuffix` | pyton/index.py:16 | The suffix is the last four characters of the account id, or the whole id when it is shorter. |
| `Report.Subject` | pyton/index.py:57 | The subject is the fixed prefix `Daily EC2 Port 22 Status Report - Account ` followed by exactly the account suffix. |
| `Report.SubjectRoundTrip` | pyton/index.py:57 | The subject embeds the suffix after the fixed prefix. The suffix is recovered from the subject, and only that subject names it. |
| `Handler.GatherInstances` | pyton/index.py:24-26 | The listing succeeds iff every region's instance listing succeeds. It then pairs each region with its instances, in order; otherwise it fails with the error of the first failing region, every region before it having succeeded. |
| `Handler.LambdaHandler` | pyton/index.py:11-86 | The status is 200 iff the report was composed and the mail service accepted it, else 500. A failing identity, region listing or instance listing gives 500 with that error kind and sends nothing. Otherwise the email goes from and to the fixed address. Its subject carries the account suffix, its summary the two counters, and its rows the records in order. |

## Left out

- The boto3 calls are inputs to `Handler.LambdaHandler`: `sts.get_caller_identity`, `describe_regions(AllRegions=True)`, `ec2.instances.filter(running)` and `ses.send_email`. Each is a value or an error kind, because they are foreign cloud APIs. The filter to running instances is the provider's job.
- `is_port_open`'s `socket.create_connection` with port 22 and a 3-second timeout is the oracle `probe`. It is network I/O, and its exception absorption is part of what a boolean oracle stands for.
- The JSON response bodies and exception message texts are left out. Only the status code and which `except` branch caught the failure are modelled.
- The literal HTML/CSS template, the decimal text of the summary sentence and `print` logging are left out: they are presentation text with no logic. The summary is modelled as its two counters, and rows as (class, cells) values.
- Handler.LambdaHandler: lists every region's instances before the first probe, while the source interleaves listing and probing. The status and the email agree with the source. Only which probes ran before a failing region is not modelled.
- Handler.LambdaHandler: takes the account id as a string. The case where the identity response has no `Account` key (a `TypeError` caught as an unexpected error) is covered only through the `identity` input being a failure.
- Python's dictionaries for records and tags are datatypes with the same fields.
