/**
 * `lambda_handler`: discover the accounts under the bucket prefix and the
 * regions of the first account, then register every missing
 * (account, region) partition for the date its process fixed when it loaded.
 */
module Handler {
  import opened Wrappers
  import opened PyStr
  import opened DateParts
  import opened Statements
  import opened Discovery
  import opened PartitionStore

  /** The five keys the handler reads from its event. */
  datatype Event = Event(bucketPrefix: string, bucketLogsPrefix: string, bucketName: string,
                         glueTableName: string, logType: string)

  /** The response of a completed run. */
  datatype Response = Response(statusCode: int, body: string)

  /** The accounts and regions a run will loop over. */
  datatype Plan = Plan(accounts: seq<string>, regions: seq<string>)

  /** The prefix template below which regions are listed and partitions are located. */
  function RegionTemplate(event: Event): string
  {
    event.bucketPrefix + event.bucketLogsPrefix
  }

  /**
   * What stays fixed during the loop for this event and date: the key is
   * the `#`-joined f-string, the statement comes from `build_query_partition`
   * with the region template.
   */
  function JobOf(event: Event, dt: DateTexts): Job
  {
    Job((p: Pair) => PartitionKey(event.logType, p.0, p.1, dt.strDate),
        (p: Pair) => BuildQueryPartition(p.0, p.1, event.glueTableName, event.bucketName, RegionTemplate(event), dt))
  }

  /**
   * The discovery phase: accounts are listed under the bucket prefix; the
   * regions are those listed for the FIRST account only and are then used
   * for every account. A listing without `CommonPrefixes` or an empty
   * account list stops the run.
   */
  function Discover(event: Event, listing: Listing): (r: Result<Plan, Error>)
    ensures listing(event.bucketName, event.bucketPrefix).None? ==>
      r == Err(MissingCommonPrefixes(event.bucketPrefix))
    ensures r == Err(NoAccounts) <==> listing(event.bucketName, event.bucketPrefix) == Some([])
    ensures r.Ok? ==> |r.value.accounts| >= 1
    ensures var accountListing := listing(event.bucketName, event.bucketPrefix);
      accountListing.Some? && accountListing.value != [] ==>
        var prefix := FormatAccount(RegionTemplate(event), ExtractId(accountListing.value[0], event.bucketPrefix));
        && (listing(event.bucketName, prefix).None? ==> r == Err(MissingCommonPrefixes(prefix)))
        && (listing(event.bucketName, prefix).Some? ==>
              r == Ok(Plan(Identifiers(accountListing.value, event.bucketPrefix),
                           Identifiers(listing(event.bucketName, prefix).value, prefix))))
    ensures r.Ok? <==>
      var accountListing := listing(event.bucketName, event.bucketPrefix);
      && accountListing.Some? && accountListing.value != []
      && listing(event.bucketName,
                 FormatAccount(RegionTemplate(event), ExtractId(accountListing.value[0], event.bucketPrefix))).Some?
    ensures r.Ok? ==>
      var accounts := r.value.accounts;
      var prefix := FormatAccount(RegionTemplate(event), accounts[0]);
      && listing(event.bucketName, event.bucketPrefix).Some?
      && accounts == Identifiers(listing(event.bucketName, event.bucketPrefix).value, event.bucketPrefix)
      && listing(event.bucketName, prefix).Some?
      && r.value.regions == Identifiers(listing(event.bucketName, prefix).value, prefix)
    ensures r.Ok? ==>
      (forall i :: 0 <= i < |r.value.accounts| ==> '/' !in r.value.accounts[i]) &&
      (forall j :: 0 <= j < |r.value.regions| ==> '/' !in r.value.regions[j])
  {
    match listing(event.bucketName, event.bucketPrefix)
    case None => Err(MissingCommonPrefixes(event.bucketPrefix))
    case Some(entries) =>
      var accounts := Identifiers(entries, event.bucketPrefix);
      if accounts == [] then Err(NoAccounts)
      else
        var prefix := FormatAccount(RegionTemplate(event), accounts[0]);
        match listing(event.bucketName, prefix)
        case None => Err(MissingCommonPrefixes(prefix))
        case Some(regionEntries) =>
          IdentifiersClean(entries, event.bucketPrefix);
          IdentifiersClean(regionEntries, prefix);
          Ok(Plan(accounts, Identifiers(regionEntries, prefix)))
  }

  /**
   * One iteration of the inner loop: look the partition key up, and when
   * the lookup finds nothing, insert the key and submit the statement.
   */
  method RegisterPartition(event: Event, dt: DateTexts, svc: Services, p: Pair)
    modifies svc
    ensures World(svc.partitions, svc.calls)
         == Step(JobOf(event, dt), svc.faults, World(old(svc.partitions), old(svc.calls)), p)
  {
    var partitionName := PartitionKey(event.logType, p.0, p.1, dt.strDate);
    var existing := svc.GetPartition(partitionName);
    if existing.None? {
      svc.InsertPartition(partitionName);
      var query := BuildQueryPartition(p.0, p.1, event.glueTableName, event.bucketName, RegionTemplate(event), dt);
      svc.RunQuery(query);
    }
  }

  /** The double loop of `lambda_handler`: accounts outer, regions inner. */
  method RegisterAll(event: Event, dt: DateTexts, svc: Services, accounts: seq<string>, regions: seq<string>)
    modifies svc
    ensures World(svc.partitions, svc.calls)
         == Run(JobOf(event, dt), svc.faults, World(old(svc.partitions), old(svc.calls)), Pairs(accounts, regions))
  {
    ghost var job := JobOf(event, dt);
    ghost var w0 := World(svc.partitions, svc.calls);

    for i := 0 to |accounts|
      invariant World(svc.partitions, svc.calls) == Run(job, svc.faults, w0, Pairs(accounts[..i], regions))
    {
      var accountId := accounts[i];
      ghost var done := Pairs(accounts[..i], regions);
      PairsRow(accounts, regions, i);
      for j := 0 to |regions|
        invariant World(svc.partitions, svc.calls) == Run(job, svc.faults, w0, done + Row(accountId, regions[..j]))
      {
        RegisterPartition(event, dt, svc, (accountId, regions[j]));
        RunRowStep(job, svc.faults, w0, done, accountId, regions, j);
      }
    }
    assert accounts[..|accounts|] == accounts;
  }

  /**
   * `lambda_handler`. When discovery fails the services are untouched and
   * the error is returned; otherwise the table and the call log end up as
   * `Run` over accounts × regions says, and the run reports success.
   */
  method LambdaHandler(event: Event, date: Date, listing: Listing, svc: Services)
    returns (r: Result<Response, Error>)
    modifies svc
    ensures Discover(event, listing).Err? ==>
      r == Err(Discover(event, listing).error) &&
      svc.partitions == old(svc.partitions) && svc.calls == old(svc.calls)
    ensures Discover(event, listing).Ok? ==>
      var plan := Discover(event, listing).value;
      r == Ok(Response(200, "Athena Partitions created")) &&
      World(svc.partitions, svc.calls)
        == Run(JobOf(event, TextsOf(date)), svc.faults, World(old(svc.partitions), old(svc.calls)),
               Pairs(plan.accounts, plan.regions))
  {
    var listed := ListAccounts(listing, event.bucketName, event.bucketPrefix);
    if listed.Err? {
      return Err(listed.error);
    }
    var accounts := listed.value;
    if |accounts| == 0 {
      return Err(NoAccounts);
    }
    var found := ListRegions(listing, event.bucketName, RegionTemplate(event), accounts[0]);
    if found.Err? {
      return Err(found.error);
    }
    var regions := found.value;
    var dt := TextsOf(date);
    RegisterAll(event, dt, svc, accounts, regions);
    return Ok(Response(200, "Athena Partitions created"));
  }

  /** A pair's key in the loop is `log_type#account#region#str_date`. */
  lemma JobKey(event: Event, date: Date, p: Pair)
    ensures KeyOf(JobOf(event, TextsOf(date)), p) == event.logType + "#" + p.0 + "#" + p.1 + "#" + StrDate(date)
  {
  }

  /** Identifiers without a quote make the loop's statements tell its pairs apart. */
  lemma JobQueriesDistinguish(event: Event, dt: DateTexts, ps: seq<Pair>)
    requires forall p :: p in ps ==> '\'' !in p.0 && '\'' !in p.1
    ensures QueriesDistinguish(JobOf(event, dt), ps)
  {
    var job := JobOf(event, dt);
    forall a, b | a in ps && b in ps && QueryOf(job, a) == QueryOf(job, b) ensures a == b {
      QueryInjective(a.0, a.1, b.0, b.1, event.glueTableName, event.bucketName, RegionTemplate(event), dt);
    }
  }

  /**
   * A completed invocation submits no statement twice, provided no lookup
   * fails and no listed identifier holds a quote; listed identifiers never
   * hold `/`.
   */
  lemma HandlerSubmitsNoDuplicate(event: Event, date: Date, faults: set<string>, w: World,
                                  accounts: seq<string>, regions: seq<string>)
    requires forall i :: 0 <= i < |accounts| ==> '\'' !in accounts[i]
    requires forall j :: 0 <= j < |regions| ==> '\'' !in regions[j]
    requires Keys(JobOf(event, TextsOf(date)), Pairs(accounts, regions)) !! faults
    ensures var job, ps := JobOf(event, TextsOf(date)), Pairs(accounts, regions);
      var s, n := Submitted(Run(job, faults, w, ps).log), |Submitted(w.log)|;
      forall i, j :: n <= i < j < |s| ==> s[i] != s[j]
  {
    var ps := Pairs(accounts, regions);
    forall p | p in ps ensures '\'' !in p.0 && '\'' !in p.1 {
      PairsMembership(accounts, regions, p);
    }
    JobQueriesDistinguish(event, TextsOf(date), ps);
    RunSubmitsNoDuplicate(JobOf(event, TextsOf(date)), faults, w, ps);
  }
}
