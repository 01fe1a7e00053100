/**
 * lambda_handler end to end: resolve the account, list the eligible regions,
 * list each region's running instances, audit them, render the report and
 * hand it to the mail service. Every call into the cloud provider is an
 * input here: its value, or the kind of exception it raised.
 */
module Handler {
  import opened Wrappers
  import opened Regions
  import opened Audit
  import opened Report

  /** The three exception branches of the handler. */
  datatype ErrorKind = NoCredentials | ClientError | Unexpected

  /** The handler's response: its status code and, on 500, which branch caught the failure. */
  datatype Response = Response(statusCode: int, failure: Option<ErrorKind>)

  datatype Email = Email(sender: string, recipient: string, subject: string, body: HtmlBody)

  const SenderEmail := "5625@pam4.com"
  const RecipientEmail := "5625@pam4.com"

  /**
   * Pairs each region name with its running instances, in order; the first
   * region whose listing fails stops the run with that failure.
   */
  function GatherInstances(names: seq<string>, inventory: string -> Result<seq<Instance>, ErrorKind>)
    : (r: Result<seq<RegionInstances>, ErrorKind>)
    ensures r.Success? <==> forall k :: 0 <= k < |names| ==> inventory(names[k]).Success?
    ensures r.Success? ==> |r.value| == |names|
    ensures r.Success? ==> forall k :: 0 <= k < |names| ==>
              r.value[k] == RegionInstances(names[k], inventory(names[k]).value)
    ensures r.Failure? ==> exists k :: 0 <= k < |names| && inventory(names[k]) == Failure(r.error)
                                       && forall j :: 0 <= j < k ==> inventory(names[j]).Success?
  {
    if names == [] then Success([])
    else match inventory(names[0])
      case Failure(e) => Failure(e)
      case Success(instances) =>
        match GatherInstances(names[1..], inventory)
        case Failure(e) =>
          var k :| 0 <= k < |names[1..]| && inventory(names[1..][k]) == Failure(e)
                   && forall j :: 0 <= j < k ==> inventory(names[1..][j]).Success?;
          assert names[k + 1] == names[1..][k];
          assert forall j :: 1 <= j < k + 1 ==> names[j] == names[1..][j - 1];
          Failure(e)
        case Success(rest) =>
          assert forall k :: 1 <= k < |names| ==> names[k] == names[1..][k - 1];
          Success([RegionInstances(names[0], instances)] + rest)
  }

  /** The email the handler composes for these regions and this account. */
  predicate IsAuditEmail(email: Email, accountId: string, regions: seq<RegionInstances>, probe: string -> bool)
  {
    var records := AllRecords(regions, probe);
    && email.sender == SenderEmail
    && email.recipient == RecipientEmail
    && email.subject == Subject(AccountSuffix(accountId))
    && email.body.summary == Summary(TotalInstances(regions), CountOpen(records))
    && |email.body.rows| == |records|
    && forall k :: 0 <= k < |records| ==> email.body.rows[k] == RowOf(records[k])
  }

  /**
   * lambda_handler. `sent` is the email handed to the mail service, if the
   * run got that far; `delivery` is the mail service's failure, if any.
   */
  method LambdaHandler(identity: Result<string, ErrorKind>, listing: Result<seq<RegionEntry>, ErrorKind>,
                       inventory: string -> Result<seq<Instance>, ErrorKind>, probe: string -> bool,
                       delivery: Option<ErrorKind>)
    returns (response: Response, sent: Option<Email>)
    ensures response.statusCode == (if response.failure.None? then 200 else 500)
    ensures response.statusCode == 200 <==> sent.Some? && delivery.None?
    ensures identity.Failure? ==> response.failure == Some(identity.error) && sent.None?
    ensures identity.Success? && listing.Failure? ==> response.failure == Some(listing.error) && sent.None?
    ensures identity.Success? && listing.Success? ==>
              var gathered := GatherInstances(EligibleRegions(listing.value), inventory);
              && (gathered.Failure? ==> response.failure == Some(gathered.error) && sent.None?)
              && (gathered.Success? ==> sent.Some? && response.failure == delivery
                                        && IsAuditEmail(sent.value, identity.value, gathered.value, probe))
  {
    if identity.Failure? {
      return Response(500, Some(identity.error)), None;
    }
    var accountSuffix := AccountSuffix(identity.value);
    if listing.Failure? {
      return Response(500, Some(listing.error)), None;
    }
    var regions := EligibleRegions(listing.value);
    var gathered := GatherInstances(regions, inventory);
    if gathered.Failure? {
      return Response(500, Some(gathered.error)), None;
    }
    var results, totalInstances, openPortInstances, _ := AuditInstances(gathered.value, probe);
    var body := FormatResultsAsHtml(results, Summary(totalInstances, openPortInstances));
    var email := Email(SenderEmail, RecipientEmail, Subject(accountSuffix), body);
    sent := Some(email);
    if delivery.Some? {
      response := Response(500, delivery);
    } else {
      response := Response(200, None);
    }
  }
}
