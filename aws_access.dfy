/** The concrete CloudFormation gateway (src/cloudformation/cmd/aws_access.go), for the parts
    that are decisions rather than SDK calls: ARN segment extraction, the change set name and
    input, the outcome of createChangeSet, getStack's single-result check, the per-region
    client table built from the opt-in status, and the routing of deletions. */
module AwsAccess {
  import opened Wrappers
  import opened Strings
  import opened CfnTypes

  // ---------------------------------------------------------------------------
  // ARN segments: arn:partition:service:region:account-id:resource

  /** getRegionFromArn: the fourth colon-separated segment; Go panics with fewer segments. */
  function RegionFromArn(arn: string): (region: string)
    requires |Split(arn, ':')| >= 4
    ensures ':' !in region
  {
    Split(arn, ':')[3]
  }

  /** getAccountIdFromArn: the fifth colon-separated segment; Go panics with fewer segments. */
  function AccountIdFromArn(arn: string): (account: string)
    requires |Split(arn, ':')| >= 5
    ensures ':' !in account
  {
    Split(arn, ':')[4]
  }

  /** The ARN with the given segments, joined by colons. */
  function Arn(partition: string, service: string, region: string, account: string, resource: string): string
  {
    Join(["arn", partition, service, region, account, resource], ":")
  }

  /** For every ARN of six colon-free segments, the region and account helpers return
      exactly the region and account segments. */
  lemma ArnSegments(partition: string, service: string, region: string, account: string, resource: string)
    requires ':' !in partition && ':' !in service && ':' !in region && ':' !in account && ':' !in resource
    ensures |Split(Arn(partition, service, region, account, resource), ':')| == 6
    ensures RegionFromArn(Arn(partition, service, region, account, resource)) == region
    ensures AccountIdFromArn(Arn(partition, service, region, account, resource)) == account
  {
    var segments := ["arn", partition, service, region, account, resource];
    assert ':' !in "arn";
    SplitJoin(segments, ':');
  }

  /** The unit test TestGetRegion, on the ARN
      "arn:partition:service:region:account-id:resourcetype/resource/qualifier". */
  lemma RegionOfSampleArn()
    ensures |Split(Arn("partition", "service", "region", "account-id", "resourcetype/resource/qualifier"), ':')| == 6
    ensures RegionFromArn(Arn("partition", "service", "region", "account-id", "resourcetype/resource/qualifier"))
         == "region"
  {
    ArnSegments("partition", "service", "region", "account-id", "resourcetype/resource/qualifier");
  }

  // ---------------------------------------------------------------------------
  // createChangeSet

  const ChangeSetPrefix: string := "ChangeSet-"

  /** The change set name: "ChangeSet-" and the fifth dash-separated group of the UUID string
      (Go panics when there are fewer than five groups). */
  function ChangeSetName(guid: string): (name: string)
    requires |Split(guid, '-')| >= 5
    ensures |name| >= |ChangeSetPrefix| && name[..|ChangeSetPrefix|] == ChangeSetPrefix
    ensures '-' !in name[|ChangeSetPrefix|..]
  {
    assert (ChangeSetPrefix + Split(guid, '-')[4])[|ChangeSetPrefix|..] == Split(guid, '-')[4];
    ChangeSetPrefix + Split(guid, '-')[4]
  }

  predicate IsHexDigit(c: char)
  {
    '0' <= c <= '9' || 'a' <= c <= 'f' || 'A' <= c <= 'F'
  }

  /** The string form of a UUID in section 3 of RFC 4122: 8-4-4-4-12 hexadecimal digits. */
  predicate IsUuidString(u: string)
  {
    |u| == 36 &&
    forall i :: 0 <= i < 36 ==>
      if i == 8 || i == 13 || i == 18 || i == 23 then u[i] == '-' else IsHexDigit(u[i])
  }

  /** A group of a UUID string holds no dash. */
  lemma GroupHasNoDash(u: string, lo: int, hi: int)
    requires IsUuidString(u)
    requires (lo == 0 && hi == 8) || (lo == 9 && hi == 13) || (lo == 14 && hi == 18)
          || (lo == 19 && hi == 23) || (lo == 24 && hi == 36)
    ensures '-' !in u[lo..hi]
  {
    forall k | 0 <= k < hi - lo ensures u[lo..hi][k] != '-' {
      assert u[lo..hi][k] == u[lo + k];
      assert IsHexDigit(u[lo + k]);
    }
  }

  /** The shape of a UUID string that splitting depends on: 36 characters, dashes at the
      four group boundaries and none inside a group. */
  predicate DashedGroups(u: string)
  {
    |u| == 36 && u[8] == '-' && u[13] == '-' && u[18] == '-' && u[23] == '-'
    && '-' !in u[..8] && '-' !in u[9..13] && '-' !in u[14..18] && '-' !in u[19..23] && '-' !in u[24..]
  }

  /** A UUID string has that shape. */
  lemma UuidIsDashedGroups(u: string)
    requires IsUuidString(u)
    ensures DashedGroups(u)
  {
    GroupHasNoDash(u, 0, 8);
    GroupHasNoDash(u, 9, 13);
    GroupHasNoDash(u, 14, 18);
    GroupHasNoDash(u, 19, 23);
    GroupHasNoDash(u, 24, 36);
    assert u[24..36] == u[24..];
    assert u[..8] == u[0..8];
  }

  /** Five dash-free groups joined by dashes split back into those groups. */
  lemma SplitFiveGroups(g0: string, g1: string, g2: string, g3: string, g4: string)
    requires '-' !in g0 && '-' !in g1 && '-' !in g2 && '-' !in g3 && '-' !in g4
    ensures Split(g0 + ['-'] + (g1 + ['-'] + (g2 + ['-'] + (g3 + ['-'] + g4))), '-') == [g0, g1, g2, g3, g4]
  {
    SplitWithoutSeparator(g4, '-');
    SplitAfterSegment(g3, '-', g4);
    SplitAfterSegment(g2, '-', g3 + ['-'] + g4);
    SplitAfterSegment(g1, '-', g2 + ['-'] + (g3 + ['-'] + g4));
    SplitAfterSegment(g0, '-', g1 + ['-'] + (g2 + ['-'] + (g3 + ['-'] + g4)));
  }

  /** A UUID string splits at its dashes into its five groups. */
  lemma SplitUuid(u: string)
    requires IsUuidString(u)
    ensures Split(u, '-') == [u[..8], u[9..13], u[14..18], u[19..23], u[24..]]
  {
    UuidIsDashedGroups(u);
    SplitDashedGroups(u);
  }

  /** A string of that shape splits into its five groups. */
  lemma SplitDashedGroups(u: string)
    requires DashedGroups(u)
    ensures Split(u, '-') == [u[..8], u[9..13], u[14..18], u[19..23], u[24..]]
  {
    assert u[19..] == u[19..23] + ['-'] + u[24..];
    assert u[14..] == u[14..18] + ['-'] + u[19..];
    assert u[9..] == u[9..13] + ['-'] + u[14..];
    assert u == u[..8] + ['-'] + u[9..];
    SplitFiveGroups(u[..8], u[9..13], u[14..18], u[19..23], u[24..]);
  }

  /** For a UUID string the name is "ChangeSet-" followed by the 12-digit node field, 22 characters. */
  lemma ChangeSetNameOfUuid(u: string)
    requires IsUuidString(u)
    ensures |Split(u, '-')| == 5
    ensures ChangeSetName(u) == ChangeSetPrefix + u[24..]
    ensures |ChangeSetName(u)| == 22
  {
    SplitUuid(u);
  }

  /** The capabilities every change set requests. */
  const IamCapabilities: seq<string> := ["CAPABILITY_IAM", "CAPABILITY_NAMED_IAM", "CAPABILITY_AUTO_EXPAND"]

  /** cloudformation.CreateChangeSetInput as createChangeSet fills it in. */
  datatype CreateChangeSetInput = CreateChangeSetInput(
    stackName: string, capabilities: seq<string>, params: seq<Parameter>, tags: seq<Tag>,
    templateBody: Option<string>, changeSetName: string, changeSetType: ChangeSetType,
    usePreviousTemplate: bool)

  /** The input createChangeSet submits for `request`, named from the UUID string `guid`. */
  function BuildChangeSetInput(m: CfnManager, request: ChangeSetRequest, guid: string): (input: CreateChangeSetInput)
    requires |Split(guid, '-')| >= 5
    ensures input.usePreviousTemplate <==> request.templateBody.None?
    ensures input.templateBody == request.templateBody && input.stackName == request.stackName
    ensures input.params == request.params && input.tags == request.tags && input.changeSetType == request.csType
    ensures input.capabilities == m.capabilities && input.changeSetName == ChangeSetName(guid)
  {
    CreateChangeSetInput(request.stackName, m.capabilities, request.params, request.tags,
                         request.templateBody, ChangeSetName(guid), request.csType,
                         request.templateBody == None)
  }

  /** The outcome of createChangeSet AS WRITTEN, given the answers of uuid.NewV4, of
      CreateChangeSet and of WaitUntilChangeSetCreateComplete: the guard after the wait tests
      the CreateChangeSet error a second time, so a failed wait is reported as success. */
  function CreateChangeSetAsWritten(guid: Result<string>, created: Result<ChangeSetOutput>, waited: Result<()>)
    : (r: Result<ChangeSetOutput>)
    ensures r.Ok? <==> guid.Ok? && created.Ok?
  {
    if guid.Err? then Err(guid.error)
    else if created.Err? then Err(created.error)
    // the guard meant for the wait re-tests `created`, which is known to be Ok here
    else Ok(created.value)
  }

  /** The outcome of createChangeSet as intended: every step's error is reported, in order. */
  function CreateChangeSetResult(guid: Result<string>, created: Result<ChangeSetOutput>, waited: Result<()>)
    : (r: Result<ChangeSetOutput>)
    ensures r.Ok? <==> guid.Ok? && created.Ok? && waited.Ok?
    ensures r.Ok? ==> r.value == created.value
    ensures guid.Err? ==> r == Err(guid.error)
    ensures guid.Ok? && created.Err? ==> r == Err(created.error)
    ensures guid.Ok? && created.Ok? && waited.Err? ==> r == Err(waited.error)
  {
    if guid.Err? then Err(guid.error)
    else if created.Err? then Err(created.error)
    else if waited.Err? then Err(waited.error)
    else Ok(created.value)
  }

  /** Any run in which the change set is accepted but never reaches CREATE_COMPLETE: the code
      as written reports the change set as ready, the intended outcome is the wait's error. */
  lemma WaitFailureSwallowed(guid: string, created: ChangeSetOutput, waitError: string)
    ensures CreateChangeSetAsWritten(Ok(guid), Ok(created), Err(waitError)) == Ok(created)
    ensures CreateChangeSetResult(Ok(guid), Ok(created), Err(waitError)) == Err(waitError)
  {
  }

  /** The outcome of executeChangeSet, given the answers of ExecuteChangeSet and of
      WaitUntilStackUpdateComplete: the first error, in that order. */
  function ExecuteChangeSetResult(executed: Result<()>, waited: Result<()>): (r: Result<()>)
    ensures r.Ok? <==> executed.Ok? && waited.Ok?
    ensures executed.Err? ==> r == executed
    ensures executed.Ok? ==> r == waited
  {
    if executed.Err? then executed else waited
  }

  // ---------------------------------------------------------------------------
  // getStack

  const MultipleStacksMessage: string := "Multiple stacks found."

  /** getStack given the answer of DescribeStacks: an error unless exactly one stack came
      back, and then that stack. It therefore never answers "no such stack". `listing` is
      the `%#v` rendering of the stacks that came back, appended to the message after a
      blank line. */
  function GetStack(described: Result<seq<Stack>>, listing: string): (r: Result<Option<Stack>>)
    ensures r.Ok? <==> described.Ok? && |described.value| == 1
    ensures r.Ok? ==> r.value == Some(described.value[0])
    ensures described.Err? ==> r == Err(described.error)
    ensures described.Ok? && |described.value| != 1 ==> r == Err(MultipleStacksMessage + "\n\n" + listing)
    ensures r != Ok(None)
  {
    if described.Err? then Err(described.error)
    else if |described.value| != 1 then Err(MultipleStacksMessage + "\n\n" + listing)
    else Ok(Some(described.value[0]))
  }

  // ---------------------------------------------------------------------------
  // The per-region clients

  /** One entry of ec2 DescribeRegions. */
  datatype RegionInfo = RegionInfo(name: string, optInStatus: string)

  /** A CloudFormation client configured for one region. */
  datatype RegionClient = RegionClient(region: string)

  /** cfnManager: the per-region client table and the requested capabilities. */
  datatype CfnManager = CfnManager(cfnRegions: map<string, RegionClient>, capabilities: seq<string>)

  const OptInNotRequired: string := "opt-in-not-required"

  /** The regions that need no opt-in: the only ones that get a client. */
  function EnabledRegions(regions: seq<RegionInfo>): set<string>
  {
    set r | r in regions && r.optInStatus == OptInNotRequired :: r.name
  }

  /** Every client in the table is configured for the region it is filed under. */
  predicate RoutesByOwnRegion(m: CfnManager)
  {
    forall n :: n in m.cfnRegions ==> m.cfnRegions[n].region == n
  }

  /** newCfnClient, given the regions DescribeRegions listed: one client per region whose
      opt-in status is "opt-in-not-required", filed under its own name. */
  method NewCfnClient(regions: seq<RegionInfo>) returns (m: CfnManager)
    ensures m.cfnRegions.Keys == EnabledRegions(regions)
    ensures GetRegionCount(m) == |EnabledRegions(regions)|
    ensures RoutesByOwnRegion(m)
    ensures m.capabilities == IamCapabilities
  {
    var cfnPerRegion: map<string, RegionClient> := map[];
    for i := 0 to |regions|
      invariant cfnPerRegion.Keys == EnabledRegions(regions[..i])
      invariant forall n :: n in cfnPerRegion ==> cfnPerRegion[n] == RegionClient(n)
    {
      assert regions[..i + 1] == regions[..i] + [regions[i]];
      if regions[i].optInStatus != OptInNotRequired {
        continue;
      }
      cfnPerRegion := cfnPerRegion[regions[i].name := RegionClient(regions[i].name)];
    }
    assert regions[..|regions|] == regions;
    m := CfnManager(cfnPerRegion, IamCapabilities);
  }

  /** getRegionCount: the number of regions with a client; zero exactly for an empty table
      (the unit test TestGetRegionsCount uses a manager without clients). */
  function GetRegionCount(m: CfnManager): (count: nat)
    ensures count == 0 <==> m.cfnRegions == map[]
  {
    assert m.cfnRegions != map[] ==> exists n :: n in m.cfnRegions;
    |m.cfnRegions|
  }

  /** delete: the client the DeleteStack request for `stackArn` is sent to, the one filed under
      the ARN's region (Go dereferences a nil client, and panics, when there is none). */
  function DeleteTarget(m: CfnManager, stackArn: string): (client: RegionClient)
    requires |Split(stackArn, ':')| >= 4
    requires RegionFromArn(stackArn) in m.cfnRegions
    ensures RoutesByOwnRegion(m) ==> client.region == RegionFromArn(stackArn)
  {
    m.cfnRegions[RegionFromArn(stackArn)]
  }
}
