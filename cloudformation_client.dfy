/** `CloudformationClient`: the stack summary and existence checks over `_get_summary`,
    the logical-to-physical resource mapping, and the create / update / no-change / wait
    decision of `deploy_stack`. */
module CloudformationClient {
  import opened Wrappers
  import opened AwsClient
  import opened Provider
  import Utils
  import Lookup

  // ----- get_stack_summary and _stack_exists --------------------------------------------

  /** A stack summary as `get_stack_summary` wants it: named `name`, not deleted. */
  predicate Live(s: Summary, name: string) {
    "StackStatus" in s && s["StackStatus"] != "DELETE_COMPLETE" && "StackName" in s && s["StackName"] == name
  }

  /** Every listed stack has a status and a name, as CloudFormation's summaries do. */
  predicate StacksWellFormed(ss: seq<Summary>) {
    forall s :: s in ss ==> "StackStatus" in s && "StackName" in s
  }

  /** `get_stack_summary` on a listing: `_get_summary` by "StackName" for one name, with
      the filter that drops DELETE_COMPLETE stacks; `None` when no stack matches. */
  function StackSummaryOf(pages: Pages, name: string): (r: Result<Option<Summary>>)
    ensures r.Ok? && r.value.Some? ==> Live(r.value.value, name) && r.value.value in Flatten(pages)
  {
    var found :- GetSummaryOf(pages, "StackName", One(name), NotDeleteComplete);
    GetSummarySound(pages, "StackName", One(name), NotDeleteComplete);
    if found.summary.Some? then SeenFlatten(pages, found.summary.value); Ok(found.summary)
    else Ok(found.summary)
  }

  /** `get_stack_summary` with the listing the service gives: a failed listing raises. */
  function StackSummaryFrom(listing: Result<Pages>, name: string): Result<Option<Summary>> {
    var pages :- listing;
    StackSummaryOf(pages, name)
  }

  /** `_stack_exists`: the summary is not `None`. */
  function StackExistsFrom(listing: Result<Pages>, name: string): (r: Result<bool>)
    ensures r.Ok? <==> StackSummaryFrom(listing, name).Ok?
    ensures r.Ok? ==> (r.value <==> StackSummaryFrom(listing, name).value.Some?)
  {
    var summary :- StackSummaryFrom(listing, name);
    Ok(summary.Some?)
  }

  method GetStackSummary(client: Client, name: string) returns (r: Result<Option<Summary>>)
    modifies client
    ensures client.calls == old(client.calls) + [ListStacks]
    ensures r == StackSummaryFrom(client.oracle.listStacks(client.calls), name)
  {
    var listing := client.ListAllStacks();
    if listing.Err? {
      return Err(listing.error);
    }
    var found := GetSummary(listing.value, "StackName", One(name), NotDeleteComplete);
    if found.Err? {
      return Err(found.error);
    }
    r := Ok(found.value.summary);
  }

  method StackExists(client: Client, name: string) returns (r: Result<bool>)
    modifies client
    ensures client.calls == old(client.calls) + [ListStacks]
    ensures r == StackExistsFrom(client.oracle.listStacks(client.calls), name)
  {
    var summary := GetStackSummary(client, name);
    if summary.Err? {
      return Err(summary.error);
    }
    r := Ok(summary.value.Some?);
  }

  /** Over a well-formed listing the existence test never raises, and a stack exists exactly when
      some listed stack has the name and a status other than DELETE_COMPLETE, so a stack
      that was deleted counts as absent. */
  lemma StackExistsIff(pages: Pages, name: string)
    requires StacksWellFormed(Flatten(pages))
    ensures StackSummaryOf(pages, name).Ok?
    ensures StackExistsFrom(Ok(pages), name) == Ok(exists s :: s in Flatten(pages) && Live(s, name))
  {
    var ss := Flatten(pages);
    assert WellFormed("StackName", NotDeleteComplete, ss);
    GetSummaryOne(pages, "StackName", name, NotDeleteComplete);
    assert Holds(name, "StackName", NotDeleteComplete, ss) <==> exists s :: s in ss && Live(s, name) by {
      forall s | s in ss
        ensures Hit([name], "StackName", NotDeleteComplete, s) <==> Live(s, name)
      {
      }
    }
  }

  /** A listed stack with no status raises KeyError in the filter before anything else is
      looked at. */
  lemma StackWithoutStatus(pages: Pages, name: string)
    requires |pages| > 0 && |pages[0]| > 0 && "StackStatus" !in pages[0][0]
    ensures StackSummaryOf(pages, name) == Err(KeyError("StackStatus"))
  {
    var e := Empty(1);
    assert Visit([name], "StackName", NotDeleteComplete, e, pages[0][0]) == Err(KeyError("StackStatus"));
  }

  /** The test listing: of "stack1" and "stack2", both CREATE_COMPLETE, "stack2" is the
      summary of "stack2". */
  lemma StackSummaryExample(stack1: Summary, stack2: Summary)
    requires "StackName" in stack1 && stack1["StackName"] == "stack1"
    requires "StackName" in stack2 && stack2["StackName"] == "stack2"
    requires "StackStatus" in stack1 && stack1["StackStatus"] == "CREATE_COMPLETE"
    requires "StackStatus" in stack2 && stack2["StackStatus"] == "CREATE_COMPLETE"
    ensures StackSummaryOf([[stack1, stack2]], "stack2") == Ok(Some(stack2))
  {
    var page := [stack1, stack2];
    assert page[0] == stack1 && page[1] == stack2;
    assert "CREATE_COMPLETE" != "DELETE_COMPLETE";
    assert "stack1" != "stack2";
    var e := Empty(1);
    assert e.slots == [None];
    var x := Scan([Some(stack2)], 1);
    assert e.slots[0 := Some(stack2)] == x.slots;
    assert Lookup.FirstIndex(["stack2"], "stack1") == 1 && Lookup.FirstIndex(["stack2"], "stack2") == 0;
    assert Visit(["stack2"], "StackName", NotDeleteComplete, e, stack1) == Ok((e, false));
    assert Visit(["stack2"], "StackName", NotDeleteComplete, e, stack2) == Ok((x, true));
    assert ScanPage(["stack2"], "StackName", NotDeleteComplete, e, page, 1) == Ok(x);
    OnePage(["stack2"], "StackName", NotDeleteComplete, page, x);
  }

  // ----- get_stack_resource_mapping ----------------------------------------------------

  const LogicalKey := "LogicalResourceId"
  const PhysicalKey := "PhysicalResourceId"

  /** The loop of `get_stack_resource_mapping` from resource `i` on, with what it has
      mapped so far. The assignment reads the physical ID before the logical one, so a
      resource missing both raises KeyError for the physical ID. */
  function MapFrom(rs: seq<Summary>, i: nat, acc: map<string, string>): (r: Result<map<string, string>>)
    requires i <= |rs|
    ensures r.Err? ==> r.error == KeyError(PhysicalKey) || r.error == KeyError(LogicalKey)
    decreases |rs| - i
  {
    if i == |rs| then Ok(acc)
    else if PhysicalKey !in rs[i] then Err(KeyError(PhysicalKey))
    else if LogicalKey !in rs[i] then Err(KeyError(LogicalKey))
    else MapFrom(rs, i + 1, acc[rs[i][LogicalKey] := rs[i][PhysicalKey]])
  }

  function ResourceMapOf(rs: seq<Summary>): Result<map<string, string>> {
    MapFrom(rs, 0, map[])
  }

  /** The loop that fills `resource_map`. */
  method ResourceMap(rs: seq<Summary>) returns (r: Result<map<string, string>>)
    ensures r == ResourceMapOf(rs)
  {
    var resourceMap: map<string, string> := map[];
    for i := 0 to |rs|
      invariant ResourceMapOf(rs) == MapFrom(rs, i, resourceMap)
    {
      var resource := rs[i];
      if PhysicalKey !in resource {
        return Err(KeyError(PhysicalKey));
      }
      var physical := resource[PhysicalKey];
      if LogicalKey !in resource {
        return Err(KeyError(LogicalKey));
      }
      resourceMap := resourceMap[resource[LogicalKey] := physical];
    }
    r := Ok(resourceMap);
  }

  /** Every resource summary has both IDs. */
  predicate ResourcesWellFormed(rs: seq<Summary>) {
    forall i :: 0 <= i < |rs| ==> PhysicalKey in rs[i] && LogicalKey in rs[i]
  }

  /** The reference mapping: each logical ID to the physical ID of its last resource. */
  function Table(rs: seq<Summary>): map<string, string>
    requires ResourcesWellFormed(rs)
  {
    if rs == [] then map[]
    else
      var last := rs[|rs| - 1];
      Table(rs[..|rs| - 1])[last[LogicalKey] := last[PhysicalKey]]
  }

  lemma {:induction false} MapFromTable(rs: seq<Summary>, i: nat)
    requires i <= |rs| && ResourcesWellFormed(rs)
    ensures ResourcesWellFormed(rs[..i])
    ensures MapFrom(rs, i, Table(rs[..i])) == Ok(Table(rs))
    decreases |rs| - i
  {
    if i == |rs| {
      assert rs[..i] == rs;
    } else {
      assert rs[..i + 1][..i] == rs[..i];
      assert rs[..i + 1][i] == rs[i];
      MapFromTable(rs, i + 1);
    }
  }

  lemma {:induction false} MapFromFails(rs: seq<Summary>, i: nat, acc: map<string, string>)
    requires i <= |rs| && MapFrom(rs, i, acc).Ok?
    ensures forall k :: i <= k < |rs| ==> PhysicalKey in rs[k] && LogicalKey in rs[k]
    decreases |rs| - i
  {
    if i < |rs| {
      MapFromFails(rs, i + 1, acc[rs[i][LogicalKey] := rs[i][PhysicalKey]]);
    }
  }

  /** The mapping raises exactly when some resource lacks an ID; otherwise it is the
      reference mapping. */
  lemma ResourceMapIsTable(rs: seq<Summary>)
    ensures ResourceMapOf(rs).Ok? <==> ResourcesWellFormed(rs)
    ensures ResourcesWellFormed(rs) ==> ResourceMapOf(rs) == Ok(Table(rs))
  {
    if ResourcesWellFormed(rs) {
      assert rs[..0] == [];
      MapFromTable(rs, 0);
    } else if ResourceMapOf(rs).Ok? {
      MapFromFails(rs, 0, map[]);
    }
  }

  lemma WellFormedInit(rs: seq<Summary>)
    requires rs != [] && ResourcesWellFormed(rs)
    ensures ResourcesWellFormed(rs[..|rs| - 1])
  {
    var init := rs[..|rs| - 1];
    forall i | 0 <= i < |init| ensures PhysicalKey in init[i] && LogicalKey in init[i] {
      assert init[i] == rs[i];
    }
  }

  /** The reference mapping has exactly the logical IDs of the resources. */
  lemma {:induction false} TableKeys(rs: seq<Summary>, k: string)
    requires ResourcesWellFormed(rs)
    ensures k in Table(rs) <==> exists i :: 0 <= i < |rs| && rs[i][LogicalKey] == k
  {
    if rs != [] {
      var n := |rs| - 1;
      var init := rs[..n];
      WellFormedInit(rs);
      TableKeys(init, k);
      assert forall i :: 0 <= i < n ==> init[i] == rs[i];
      assert k in Table(rs) <==> k in Table(init) || rs[n][LogicalKey] == k;
    }
  }

  /** The reference mapping maps a logical ID to the physical ID of its last resource. */
  lemma {:induction false} TableLast(rs: seq<Summary>, k: string)
    requires ResourcesWellFormed(rs)
    ensures k in Table(rs) ==> exists i :: (0 <= i < |rs| && rs[i][LogicalKey] == k && Table(rs)[k] == rs[i][PhysicalKey]
      && forall j :: i < j < |rs| ==> rs[j][LogicalKey] != k)
  {
    if rs != [] {
      var n := |rs| - 1;
      var init := rs[..n];
      WellFormedInit(rs);
      if rs[n][LogicalKey] == k {
        assert Table(rs)[k] == rs[n][PhysicalKey];
      } else if k in Table(rs) {
        assert k in Table(init) && Table(rs)[k] == Table(init)[k];
        TableLast(init, k);
        var i :| 0 <= i < |init| && init[i][LogicalKey] == k && Table(init)[k] == init[i][PhysicalKey]
          && forall j :: i < j < |init| ==> init[j][LogicalKey] != k;
        assert rs[i] == init[i];
        assert forall j :: i < j < n ==> rs[j] == init[j];
      }
    }
  }

  /** The reference mapping has every logical ID and maps it to the physical ID of the last
      resource with that logical ID; no status is consulted. */
  lemma TableLookup(rs: seq<Summary>, k: string)
    requires ResourcesWellFormed(rs)
    ensures k in Table(rs) <==> exists i :: 0 <= i < |rs| && rs[i][LogicalKey] == k
    ensures k in Table(rs) ==> exists i :: (0 <= i < |rs| && rs[i][LogicalKey] == k && Table(rs)[k] == rs[i][PhysicalKey]
      && forall j :: i < j < |rs| ==> rs[j][LogicalKey] != k)
  {
    TableKeys(rs, k);
    TableLast(rs, k);
  }

  /** The test's two resources, one of them DELETE_COMPLETE, both mapped. */
  lemma ResourceMapExample(r1: Summary, r2: Summary)
    requires LogicalKey in r1 && r1[LogicalKey] == "logical 1" && PhysicalKey in r1 && r1[PhysicalKey] == "resource 1"
    requires LogicalKey in r2 && r2[LogicalKey] == "logical 2" && PhysicalKey in r2 && r2[PhysicalKey] == "resource 2"
    ensures ResourceMapOf([r1, r2]) == Ok(map["logical 1" := "resource 1", "logical 2" := "resource 2"])
  {
    var rs := [r1, r2];
    assert rs[0] == r1 && rs[1] == r2;
    assert MapFrom(rs, 1, map["logical 1" := "resource 1"]) == MapFrom(rs, 2, map["logical 1" := "resource 1", "logical 2" := "resource 2"]);
  }

  /** A run of `get_stack_resource_mapping`: its outcome and the call log after it. */
  datatype MappingRun = MappingRun(outcome: Result<map<string, string>>, calls: seq<Call>)

  /** `get_stack_resource_mapping`: the stack's summary (no stack: `None["StackId"]`
      raises TypeError), its resources listed by the summary's StackId, then the loop. */
  function ResourceMappingRun(o: Oracle, h: seq<Call>, name: string): MappingRun {
    var h1 := h + [ListStacks];
    var summary := StackSummaryFrom(o.listStacks(h1), name);
    if summary.Err? then MappingRun(Err(summary.error), h1)
    else if summary.value.None? then MappingRun(Err(TypeError), h1)
    else if "StackId" !in summary.value.value then MappingRun(Err(KeyError("StackId")), h1)
    else
      var h2 := h1 + [ListStackResources(Some(summary.value.value["StackId"]))];
      var rs := o.listStackResources(h2);
      if rs.Err? then MappingRun(Err(rs.error), h2)
      else MappingRun(ResourceMapOf(rs.value), h2)
  }

  method GetStackResourceMapping(client: Client, name: string) returns (r: Result<map<string, string>>)
    modifies client
    ensures MappingRun(r, client.calls) == ResourceMappingRun(client.oracle, old(client.calls), name)
  {
    var summary := GetStackSummary(client, name);
    if summary.Err? {
      return Err(summary.error);
    }
    if summary.value.None? {
      return Err(TypeError);
    }
    if "StackId" !in summary.value.value {
      return Err(KeyError("StackId"));
    }
    var resources := client.ListResources(Some(summary.value.value["StackId"]));
    if resources.Err? {
      return Err(resources.error);
    }
    r := ResourceMap(resources.value);
  }

  /** Over a well-formed listing holding the live stack with a StackId, the resources are
      listed by that ID, and the outcome is the reference mapping of what comes back. */
  lemma ResourceMappingListsById(o: Oracle, h: seq<Call>, name: string, s: Summary)
    requires o.listStacks(h + [ListStacks]).Ok?
    requires StackSummaryOf(o.listStacks(h + [ListStacks]).value, name) == Ok(Some(s)) && "StackId" in s
    requires o.listStackResources(h + [ListStacks, ListStackResources(Some(s["StackId"]))]).Ok?
    requires ResourcesWellFormed(o.listStackResources(h + [ListStacks, ListStackResources(Some(s["StackId"]))]).value)
    ensures ResourceMappingRun(o, h, name).calls == h + [ListStacks, ListStackResources(Some(s["StackId"]))]
    ensures ResourceMappingRun(o, h, name).outcome ==
      Ok(Table(o.listStackResources(h + [ListStacks, ListStackResources(Some(s["StackId"]))]).value))
  {
    assert h + [ListStacks] + [ListStackResources(Some(s["StackId"]))] == h + [ListStacks, ListStackResources(Some(s["StackId"]))];
    ResourceMapIsTable(o.listStackResources(h + [ListStacks, ListStackResources(Some(s["StackId"]))]).value);
  }

  // ----- deploy_stack -------------------------------------------------------------------

  /** `deploy_stack`: inside one `try`, the existence check and then `update_stack` for an
      existing stack or `create_stack` otherwise, with the configured name and the template
      and parameters unchanged; a failure of either is handled by the message check; after
      a deploy call that succeeds, one wait with the matching waiter. */
  function DeployStackRun(o: Oracle, h: seq<Call>, config: Utils.StackConfig, template: string,
                          parameters: seq<Parameter>): Run
  {
    var name := config.stackName;
    var h1 := h + [ListStacks];
    var present := StackExistsFrom(o.listStacks(h1), name);
    if present.Err? then Run(Handled(present.error), h1)
    else
      var h2 := h1 + [DeployCall(present.value, name, template, parameters)];
      var d := o.deploy(h2);
      if d.Err? then Run(Handled(d.error), h2)
      else
        var h3 := h2 + [Wait(WaiterFor(present.value), name, Delay, MaxAttempts)];
        Run(o.wait(h3), h3)
  }

  method DeployStack(client: Client, config: Utils.StackConfig, template: string, parameters: seq<Parameter>)
    returns (r: Result<()>)
    modifies client
    ensures Run(r, client.calls) == DeployStackRun(client.oracle, old(client.calls), config, template, parameters)
  {
    var present := StackExists(client, config.stackName);
    if present.Err? {
      return Handled(present.error);
    }
    var waiter, call;
    if present.value {
      waiter := StackUpdateComplete;
      call := UpdateStack(config.stackName, template, parameters);
    } else {
      waiter := StackCreateComplete;
      call := CreateStack(config.stackName, template, parameters);
    }
    var d := client.Deploy(call);
    if d.Err? {
      return Handled(d.error);
    }
    r := client.WaitFor(waiter, config.stackName, Delay, MaxAttempts);
  }

  /** Over a well-formed listing, the second call updates the stack when a live stack has
      its name and creates it otherwise, passing name, template and parameters unchanged. */
  lemma DeployChoosesCall(o: Oracle, h: seq<Call>, config: Utils.StackConfig, template: string,
                          parameters: seq<Parameter>)
    requires o.listStacks(h + [ListStacks]).Ok? && StacksWellFormed(Flatten(o.listStacks(h + [ListStacks]).value))
    ensures |DeployStackRun(o, h, config, template, parameters).calls| >= |h| + 2
    ensures DeployStackRun(o, h, config, template, parameters).calls[..|h| + 2] == h + [ListStacks,
      DeployCall(exists s :: s in Flatten(o.listStacks(h + [ListStacks]).value) && Live(s, config.stackName),
                 config.stackName, template, parameters)]
  {
    StackExistsIff(o.listStacks(h + [ListStacks]).value, config.stackName);
    var run := DeployStackRun(o, h, config, template, parameters);
    assert run.calls[..|h| + 2] == run.calls[..|h| + 2];
  }

  /** An update or create refused with "No updates are to be performed." ends the
      deployment without error and without a wait; any other failure propagates, again
      without a wait; a call that succeeds is followed by exactly one wait on the stack,
      with the waiter that matches the call, a 5 second delay and at most 60 attempts,
      whose outcome is the deployment's. */
  lemma DeployOutcomes(o: Oracle, h: seq<Call>, config: Utils.StackConfig, template: string,
                       parameters: seq<Parameter>)
    requires StackExistsFrom(o.listStacks(h + [ListStacks]), config.stackName).Ok?
    ensures var present := StackExistsFrom(o.listStacks(h + [ListStacks]), config.stackName).value;
      var h2 := h + [ListStacks, DeployCall(present, config.stackName, template, parameters)];
      var run := DeployStackRun(o, h, config, template, parameters);
      && (o.deploy(h2).Err? && IsNoUpdates(o.deploy(h2).error) ==> run == Run(Ok(()), h2))
      && (o.deploy(h2).Err? && !IsNoUpdates(o.deploy(h2).error) ==> run == Run(Err(o.deploy(h2).error), h2))
      && (o.deploy(h2).Ok? ==>
            var w := Wait(WaiterFor(present), config.stackName, 5, 60);
            run == Run(o.wait(h2 + [w]), h2 + [w]))
  {
    var present := StackExistsFrom(o.listStacks(h + [ListStacks]), config.stackName).value;
    assert h + [ListStacks] + [DeployCall(present, config.stackName, template, parameters)]
      == h + [ListStacks, DeployCall(present, config.stackName, template, parameters)];
  }

  /** The existence check sits inside the `try`: a listing refused with the no-updates
      message ends the deployment quietly, any other listing failure propagates; nothing
      is deployed in either case. */
  lemma DeployListingFails(o: Oracle, h: seq<Call>, config: Utils.StackConfig, template: string,
                           parameters: seq<Parameter>)
    requires o.listStacks(h + [ListStacks]).Err?
    ensures DeployStackRun(o, h, config, template, parameters) ==
      Run(Handled(o.listStacks(h + [ListStacks]).error), h + [ListStacks])
  {
  }

  /** The tests' deployments: "stack2" is created when only "stack1" is listed and
      updated when it is listed itself, each followed by the matching wait. */
  lemma DeployExamples(o: Oracle, h: seq<Call>, stack: Summary, template: string, parameters: seq<Parameter>)
    requires "StackName" in stack && "StackStatus" in stack && stack["StackStatus"] == "CREATE_COMPLETE"
    requires o.listStacks(h + [ListStacks]) == Ok([[stack]])
    requires o.deploy(h + [ListStacks, DeployCall(stack["StackName"] == "stack2", "stack2", template, parameters)]).Ok?
    ensures var call := if stack["StackName"] == "stack2" then UpdateStack("stack2", template, parameters)
                        else CreateStack("stack2", template, parameters);
      var w := Wait(if stack["StackName"] == "stack2" then StackUpdateComplete else StackCreateComplete, "stack2", 5, 60);
      DeployStackRun(o, h, Utils.StackConfig("stack2", "template file"), template, parameters).calls ==
        h + [ListStacks, call, w]
  {
    var config := Utils.StackConfig("stack2", "template file");
    assert Flatten([[stack]]) == [stack] by {
      assert [[stack]][1..] == [];
    }
    assert "CREATE_COMPLETE" != "DELETE_COMPLETE";
    StackExistsIff([[stack]], "stack2");
    assert stack in [stack];
    assert (exists s :: s in [stack] && Live(s, "stack2")) <==> stack["StackName"] == "stack2";
    DeployOutcomes(o, h, config, template, parameters);
  }
}
