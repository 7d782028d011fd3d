/** The earlier deployment script (deploy/deploy_old.py): its own stack search, its own
    copies of the summary scan for phone numbers and contact flows, the resource mapping
    of `render_flow_template`, and `deploy`, which takes the two phone numbers out of the
    parameters before deploying the main and the flow stack. */
module DeployOld {
  import opened Wrappers
  import opened AwsClient
  import opened Provider
  import CloudformationClient
  import opened Lookup

  const MainStackName := "sicq-main-stack"
  const FlowStackName := "sicq-flow-stack"

  // ----- stack_id and stack_exists -------------------------------------------------------

  /** `stack_id` over the listed stacks in order: the StackId of the first stack whose
      status is not DELETE_COMPLETE and whose name is `name` (the name is read only for
      such stacks); `None` when there is none. */
  function StackIdIn(ss: seq<Summary>, name: string): Result<Option<string>>
    decreases |ss|
  {
    if ss == [] then Ok(None)
    else
      var s := ss[0];
      if "StackStatus" !in s then Err(KeyError("StackStatus"))
      else if s["StackStatus"] == "DELETE_COMPLETE" then StackIdIn(ss[1..], name)
      else if "StackName" !in s then Err(KeyError("StackName"))
      else if s["StackName"] != name then StackIdIn(ss[1..], name)
      else if "StackId" !in s then Err(KeyError("StackId"))
      else Ok(Some(s["StackId"]))
  }

  function StackIdFrom(listing: Result<Pages>, name: string): Result<Option<string>> {
    var pages :- listing;
    StackIdIn(Flatten(pages), name)
  }

  lemma FlattenFrom(pages: Pages, p: nat)
    requires p < |pages|
    ensures Flatten(pages[p..]) == pages[p] + Flatten(pages[p + 1..])
  {
    assert pages[p..][1..] == pages[p + 1..];
  }

  /** `stack_id`: the nested loops over pages and stacks, returning at the first match. */
  method StackId(client: Client, name: string) returns (r: Result<Option<string>>)
    modifies client
    ensures client.calls == old(client.calls) + [ListStacks]
    ensures r == StackIdFrom(client.oracle.listStacks(client.calls), name)
  {
    var listing := client.ListAllStacks();
    if listing.Err? {
      return Err(listing.error);
    }
    var pages := listing.value;
    assert pages[0..] == pages;
    for p := 0 to |pages|
      invariant client.calls == old(client.calls) + [ListStacks]
      invariant StackIdIn(Flatten(pages), name) == StackIdIn(Flatten(pages[p..]), name)
    {
      var page := pages[p];
      ghost var rest := Flatten(pages[p + 1..]);
      FlattenFrom(pages, p);
      assert page[0..] == page;
      for j := 0 to |page|
        invariant client.calls == old(client.calls) + [ListStacks]
        invariant StackIdIn(Flatten(pages), name) == StackIdIn(page[j..] + rest, name)
      {
        var stack := page[j];
        assert (page[j..] + rest)[0] == stack && (page[j..] + rest)[1..] == page[j + 1..] + rest;
        if "StackStatus" !in stack {
          return Err(KeyError("StackStatus"));
        }
        if stack["StackStatus"] != "DELETE_COMPLETE" {
          if "StackName" !in stack {
            return Err(KeyError("StackName"));
          }
          if stack["StackName"] == name {
            if "StackId" !in stack {
              return Err(KeyError("StackId"));
            }
            return Ok(Some(stack["StackId"]));
          }
        }
      }
      assert page[|page|..] + rest == rest;
    }
    assert pages[|pages|..] == [];
    r := Ok(None);
  }

  /** The live stacks named `name` all carry a StackId. */
  predicate IdsListed(ss: seq<Summary>, name: string) {
    forall s :: s in ss && CloudformationClient.Live(s, name) ==> "StackId" in s
  }

  /** `stack_id` finds the first live stack of the name, scanning pages in order, and
      `None` only when there is no live stack of that name; over well-formed listings it
      never raises. */
  lemma {:induction false} StackIdFirst(ss: seq<Summary>, name: string)
    ensures StackIdIn(ss, name) == Ok(None) ==> forall s :: s in ss ==> !CloudformationClient.Live(s, name)
    ensures StackIdIn(ss, name).Ok? && StackIdIn(ss, name).value.Some? ==>
      exists k :: (0 <= k < |ss| && CloudformationClient.Live(ss[k], name) && "StackId" in ss[k]
        && StackIdIn(ss, name).value.value == ss[k]["StackId"]
        && forall j :: 0 <= j < k ==> !CloudformationClient.Live(ss[j], name))
    ensures CloudformationClient.StacksWellFormed(ss) && IdsListed(ss, name) ==> StackIdIn(ss, name).Ok?
    decreases |ss|
  {
    if ss != [] {
      var s := ss[0];
      assert s in ss;
      assert forall x :: x in ss[1..] ==> x in ss;
      StackIdFirst(ss[1..], name);
      if StackIdIn(ss, name) == StackIdIn(ss[1..], name) && StackIdIn(ss, name).Ok? && StackIdIn(ss, name).value.Some? {
        if !CloudformationClient.Live(s, name) {
          var k :| 0 <= k < |ss[1..]| && CloudformationClient.Live(ss[1..][k], name) && "StackId" in ss[1..][k]
            && StackIdIn(ss[1..], name).value.value == ss[1..][k]["StackId"]
            && forall j :: 0 <= j < k ==> !CloudformationClient.Live(ss[1..][j], name);
          assert ss[k + 1] == ss[1..][k];
          assert forall j :: 1 <= j < k + 1 ==> ss[j] == ss[1..][j - 1];
        }
      }
      if StackIdIn(ss, name) == Ok(None) {
        assert forall x :: x in ss ==> x == s || x in ss[1..];
      }
    }
  }

  function StackExistsFrom(listing: Result<Pages>, name: string): Result<bool> {
    var id :- StackIdFrom(listing, name);
    Ok(id.Some?)
  }

  /** `stack_exists`: `stack_id` is not `None`. */
  method StackExists(client: Client, name: string) returns (r: Result<bool>)
    modifies client
    ensures client.calls == old(client.calls) + [ListStacks]
    ensures r == StackExistsFrom(client.oracle.listStacks(client.calls), name)
  {
    var id := StackId(client, name);
    if id.Err? {
      return Err(id.error);
    }
    r := Ok(id.value.Some?);
  }

  /** Over a well-formed listing whose live stacks of the name have IDs, this check and the
      client's `_stack_exists` agree. */
  lemma StackExistsRevisions(pages: Pages, name: string)
    requires CloudformationClient.StacksWellFormed(Flatten(pages)) && IdsListed(Flatten(pages), name)
    ensures StackExistsFrom(Ok(pages), name) == CloudformationClient.StackExistsFrom(Ok(pages), name)
  {
    var ss := Flatten(pages);
    StackIdFirst(ss, name);
    CloudformationClient.StackExistsIff(pages, name);
    if StackIdIn(ss, name).value.Some? {
      var k :| 0 <= k < |ss| && CloudformationClient.Live(ss[k], name);
      assert ss[k] in ss;
    }
  }

  // ----- deploy_stack ------------------------------------------------------------------

  /** `deploy_stack`: the existence check before the `try`, the deploy call with the
      mapping turned into a parameter list, the message check, one wait. */
  function DeployStackRun(o: Oracle, h: seq<Call>, name: string, template: string, parameters: Items): Run {
    var h1 := h + [ListStacks];
    var present := StackExistsFrom(o.listStacks(h1), name);
    if present.Err? then Run(Err(present.error), h1)
    else
      var h2 := h1 + [DeployCall(present.value, name, template, ParametersOf(parameters))];
      var d := o.deploy(h2);
      if d.Err? then Run(Handled(d.error), h2)
      else
        var h3 := h2 + [Wait(WaiterFor(present.value), name, Delay, MaxAttempts)];
        Run(o.wait(h3), h3)
  }

  method DeployStack(client: Client, name: string, template: string, parameters: Items) returns (r: Result<()>)
    modifies client
    ensures Run(r, client.calls) == DeployStackRun(client.oracle, old(client.calls), name, template, parameters)
  {
    var present := StackExists(client, name);
    if present.Err? {
      return Err(present.error);
    }
    var call, waiter;
    if present.value {
      call := UpdateStack(name, template, ParametersOf(parameters));
      waiter := StackUpdateComplete;
    } else {
      call := CreateStack(name, template, ParametersOf(parameters));
      waiter := StackCreateComplete;
    }
    var d := client.Deploy(call);
    if d.Err? {
      return Handled(d.error);
    }
    r := client.WaitFor(waiter, name, Delay, MaxAttempts);
  }

  /** Over a well-formed listing: an existing live stack is updated and any other is
      created, with one parameter per mapping item in order; the no-updates refusal ends
      quietly and any other failure propagates, neither with a wait; success is followed
      by one wait with a 5 second delay and at most 60 attempts. */
  lemma DeployOutcomes(o: Oracle, h: seq<Call>, name: string, template: string, parameters: Items)
    requires o.listStacks(h + [ListStacks]).Ok?
    requires CloudformationClient.StacksWellFormed(Flatten(o.listStacks(h + [ListStacks]).value))
    requires IdsListed(Flatten(o.listStacks(h + [ListStacks]).value), name)
    ensures var present := exists s :: s in Flatten(o.listStacks(h + [ListStacks]).value) && CloudformationClient.Live(s, name);
      var h2 := h + [ListStacks, DeployCall(present, name, template, ParametersOf(parameters))];
      var run := DeployStackRun(o, h, name, template, parameters);
      && (o.deploy(h2).Err? ==> run == Run(Handled(o.deploy(h2).error), h2))
      && (o.deploy(h2).Ok? ==>
            var w := Wait(WaiterFor(present), name, 5, 60);
            run == Run(o.wait(h2 + [w]), h2 + [w]))
  {
    var pages := o.listStacks(h + [ListStacks]).value;
    StackExistsRevisions(pages, name);
    CloudformationClient.StackExistsIff(pages, name);
    var present := StackExistsFrom(Ok(pages), name).value;
    assert h + [ListStacks] + [DeployCall(present, name, template, ParametersOf(parameters))]
      == h + [ListStacks, DeployCall(present, name, template, ParametersOf(parameters))];
  }

  /** Every create or update in `calls` carries the parameters `ps`. */
  predicate DeploysWith(calls: seq<Call>, ps: seq<Parameter>) {
    forall c :: c in calls && (c.CreateStack? || c.UpdateStack?) ==> c.parameters == ps
  }

  /** A run of `deploy_stack` extends the log, and every deploy call it adds carries the
      mapping's parameter list. */
  lemma DeployStackParameters(o: Oracle, h: seq<Call>, name: string, template: string, parameters: Items)
    ensures var run := DeployStackRun(o, h, name, template, parameters);
      |run.calls| >= |h| && run.calls[..|h|] == h && DeploysWith(run.calls[|h|..], ParametersOf(parameters))
  {
    var run := DeployStackRun(o, h, name, template, parameters);
    var t := run.calls[|h|..];
    assert run.calls == h + t;
    assert forall c :: c in t ==> c == ListStacks || c.Wait? || c.parameters == ParametersOf(parameters);
  }

  // ----- render_flow_template's resource mapping ------------------------------------------

  /** The mapping `render_flow_template` builds: the main stack's ID by `stack_id`, its
      resources listed by that ID (`None` when there was none), then the loop. */
  function RenderRun(o: Oracle, h: seq<Call>): CloudformationClient.MappingRun {
    var h1 := h + [ListStacks];
    var id := StackIdFrom(o.listStacks(h1), MainStackName);
    if id.Err? then CloudformationClient.MappingRun(Err(id.error), h1)
    else
      var h2 := h1 + [ListStackResources(id.value)];
      var rs := o.listStackResources(h2);
      if rs.Err? then CloudformationClient.MappingRun(Err(rs.error), h2)
      else CloudformationClient.MappingRun(CloudformationClient.ResourceMapOf(rs.value), h2)
  }

  method RenderFlowResources(client: Client) returns (r: Result<map<string, string>>)
    modifies client
    ensures CloudformationClient.MappingRun(r, client.calls) == RenderRun(client.oracle, old(client.calls))
  {
    var id := StackId(client, MainStackName);
    if id.Err? {
      return Err(id.error);
    }
    var resources := client.ListResources(id.value);
    if resources.Err? {
      return Err(resources.error);
    }
    r := CloudformationClient.ResourceMap(resources.value);
  }

  /** The resources are listed by the main stack's ID, and when every resource has both
      IDs the mapping is the reference one: each logical ID to its physical ID. */
  lemma RenderMapsResources(o: Oracle, h: seq<Call>)
    requires StackIdFrom(o.listStacks(h + [ListStacks]), MainStackName).Ok?
    ensures var id := StackIdFrom(o.listStacks(h + [ListStacks]), MainStackName).value;
      var h2 := h + [ListStacks, ListStackResources(id)];
      && RenderRun(o, h).calls == h2
      && (o.listStackResources(h2).Ok? && CloudformationClient.ResourcesWellFormed(o.listStackResources(h2).value) ==>
            RenderRun(o, h).outcome == Ok(CloudformationClient.Table(o.listStackResources(h2).value)))
  {
    var id := StackIdFrom(o.listStacks(h + [ListStacks]), MainStackName).value;
    var h2 := h + [ListStacks, ListStackResources(id)];
    assert h + [ListStacks] + [ListStackResources(id)] == h2;
    if o.listStackResources(h2).Ok? {
      CloudformationClient.ResourceMapIsTable(o.listStackResources(h2).value);
    }
  }

  // ----- phone_numbers and contact_flows -------------------------------------------------

  /** `phone_numbers`: the summary scan by "PhoneNumber" with no filter, one slot per
      requested number; a filled slot holds a listed summary of that number. */
  function PhoneNumbersOf(pages: Pages, numbers: seq<string>): (r: Result<seq<Option<Summary>>>)
    ensures r.Ok? ==> |r.value| == |numbers|
    ensures r.Ok? ==> forall i :: 0 <= i < |numbers| && r.value[i].Some? ==>
      SlotOk(numbers, "PhoneNumber", AcceptAll, pages, i, r.value[i].value)
  {
    var found :- GetSummaryOf(pages, "PhoneNumber", Many(numbers), AcceptAll);
    GetSummarySound(pages, "PhoneNumber", Many(numbers), AcceptAll);
    Ok(found.summaries)
  }

  /** The same loop as `_get_summary`, over the phone-number listing. */
  method PhoneNumbers(pages: Pages, numbers: seq<string>) returns (r: Result<seq<Option<Summary>>>)
    ensures r == PhoneNumbersOf(pages, numbers)
  {
    var found := GetSummary(pages, "PhoneNumber", Many(numbers), AcceptAll);
    if found.Err? {
      return Err(found.error);
    }
    r := Ok(found.value.summaries);
  }

  /** `contact_flows`: the scan by "Name" with no filter; a list of names gives the slots,
      one name gives its slot alone. */
  function ContactFlowsOf(pages: Pages, flows: Match): (r: Result<Found>)
    ensures r.Ok? && flows.Many? ==> (r.value.Slots? && |r.value.summaries| == |flows.values|
      && forall i :: 0 <= i < |flows.values| && r.value.summaries[i].Some? ==>
           SlotOk(flows.values, "Name", AcceptAll, pages, i, r.value.summaries[i].value))
    ensures r.Ok? && flows.One? ==> (r.value.Single?
      && (r.value.summary.Some? ==> SlotOk([flows.value], "Name", AcceptAll, pages, 0, r.value.summary.value)))
  {
    var found := GetSummaryOf(pages, "Name", flows, AcceptAll);
    if found.Ok? then GetSummarySound(pages, "Name", flows, AcceptAll); found else found
  }

  method ContactFlows(pages: Pages, flows: Match) returns (r: Result<Found>)
    ensures r == ContactFlowsOf(pages, flows)
  {
    r := GetSummary(pages, "Name", flows, AcceptAll);
  }

  // ----- deploy ------------------------------------------------------------------------

  /** `d.pop(key)`: the value of the entry with the key and the mapping without it;
      KeyError when there is none. */
  function Pop(items: Items, key: string): (r: Result<(string, Items)>)
    ensures r.Err? <==> forall i :: 0 <= i < |items| ==> items[i].0 != key
    ensures r.Err? ==> r.error == KeyError(key)
    ensures r.Ok? ==> var k := KeyIndex(items, key);
      k < |items| && r.value.0 == items[k].1 && r.value.1 == items[..k] + items[k + 1..]
  {
    var k := KeyIndex(items, key);
    if k == |items| then Err(KeyError(key)) else Ok((items[k].1, items[..k] + items[k + 1..]))
  }

  /** A mapping's keys are distinct, as a dict's are. */
  predicate Keyed(items: Items) {
    forall i, j :: 0 <= i < j < |items| ==> items[i].0 != items[j].0
  }

  /** On a dict, the popped key is gone and the rest keeps its keys. */
  lemma PopRemoves(items: Items, key: string)
    requires Keyed(items) && Pop(items, key).Ok?
    ensures Keyed(Pop(items, key).value.1)
    ensures forall i :: 0 <= i < |Pop(items, key).value.1| ==> Pop(items, key).value.1[i].0 != key
    ensures forall e :: e in items && e.0 != key ==> e in Pop(items, key).value.1
    ensures |Pop(items, key).value.1| + 1 == |items|
  {
    var r := Pop(items, key).value.1;
    var k := KeyIndex(items, key);
    assert forall i :: 0 <= i < |r| ==> r[i] == items[if i < k then i else i + 1];
    forall e | e in items && e.0 != key
      ensures e in r
    {
      var i :| 0 <= i < |items| && items[i] == e;
      if i < k { assert r[i] == e; } else { assert r[i - 1] == e; }
    }
  }

  /** `deploy` after the pops: the main stack deployed with the remaining parameters, the
      main stack's resources mapped, the flow stack deployed with the same parameters. The
      flow template is an input: rendering it is not part of this model. */
  function DeployStacksRun(o: Oracle, h: seq<Call>, parameters: Items, mainTemplate: string, flowTemplate: string): Run {
    var main := DeployStackRun(o, h, MainStackName, mainTemplate, parameters);
    if main.outcome.Err? then main
    else
      var render := RenderRun(o, main.calls);
      if render.outcome.Err? then Run(Err(render.outcome.error), render.calls)
      else DeployStackRun(o, render.calls, FlowStackName, flowTemplate, parameters)
  }

  /** `deploy`: PrivateNumber and PublicNumber are popped (KeyError, and no call, when
      either is missing) and the stacks deployed with what remains. */
  function DeployRun(o: Oracle, h: seq<Call>, env: Items, mainTemplate: string, flowTemplate: string): Run {
    var private := Pop(env, "PrivateNumber");
    if private.Err? then Run(Err(private.error), h)
    else
      var public := Pop(private.value.1, "PublicNumber");
      if public.Err? then Run(Err(public.error), h)
      else DeployStacksRun(o, h, public.value.1, mainTemplate, flowTemplate)
  }

  method Deploy(client: Client, env: Items, mainTemplate: string, flowTemplate: string) returns (r: Result<()>)
    modifies client
    ensures Run(r, client.calls) == DeployRun(client.oracle, old(client.calls), env, mainTemplate, flowTemplate)
  {
    var private := Pop(env, "PrivateNumber");
    if private.Err? {
      return Err(private.error);
    }
    var public := Pop(private.value.1, "PublicNumber");
    if public.Err? {
      return Err(public.error);
    }
    var parameters := public.value.1;
    r := DeployStack(client, MainStackName, mainTemplate, parameters);
    if r.Err? {
      return;
    }
    var resources := RenderFlowResources(client);
    if resources.Err? {
      return Err(resources.error);
    }
    r := DeployStack(client, FlowStackName, flowTemplate, parameters);
  }

  /** `calls` extends the log `h`, and every deploy call it adds carries `ps`. */
  predicate ExtendsWith(h: seq<Call>, calls: seq<Call>, ps: seq<Parameter>) {
    |calls| >= |h| && calls[..|h|] == h && DeploysWith(calls[|h|..], ps)
  }

  lemma ExtendsTrans(h: seq<Call>, a: seq<Call>, b: seq<Call>, ps: seq<Parameter>)
    requires ExtendsWith(h, a, ps) && ExtendsWith(a, b, ps)
    ensures ExtendsWith(h, b, ps)
  {
    var t1, t2 := a[|h|..], b[|a|..];
    assert a == h + t1 && b == a + t2;
    assert b == h + (t1 + t2);
    assert b[|h|..] == t1 + t2;
  }

  /** Mapping the main stack's resources lists, and deploys nothing. */
  lemma RenderDeploysNothing(o: Oracle, h: seq<Call>, ps: seq<Parameter>)
    ensures ExtendsWith(h, RenderRun(o, h).calls, ps)
  {
    var calls := RenderRun(o, h).calls;
    var t := calls[|h|..];
    assert calls == h + t;
    assert forall c :: c in t ==> c == ListStacks || c.ListStackResources?;
  }

  /** Both stack deployments extend the log with deploy calls that carry the given
      parameters; mapping the resources deploys nothing. */
  lemma DeployStacksParameters(o: Oracle, h: seq<Call>, parameters: Items, mainTemplate: string, flowTemplate: string)
    ensures var run := DeployStacksRun(o, h, parameters, mainTemplate, flowTemplate);
      |run.calls| >= |h| && run.calls[..|h|] == h && DeploysWith(run.calls[|h|..], ParametersOf(parameters))
  {
    var ps := ParametersOf(parameters);
    var main := DeployStackRun(o, h, MainStackName, mainTemplate, parameters);
    DeployStackParameters(o, h, MainStackName, mainTemplate, parameters);
    assert ExtendsWith(h, main.calls, ps);
    if main.outcome.Ok? {
      var render := RenderRun(o, main.calls);
      RenderDeploysNothing(o, main.calls, ps);
      ExtendsTrans(h, main.calls, render.calls, ps);
      if render.outcome.Ok? {
        var flow := DeployStackRun(o, render.calls, FlowStackName, flowTemplate, parameters);
        DeployStackParameters(o, render.calls, FlowStackName, flowTemplate, parameters);
        assert ExtendsWith(render.calls, flow.calls, ps);
        ExtendsTrans(h, render.calls, flow.calls, ps);
        assert DeployStacksRun(o, h, parameters, mainTemplate, flowTemplate) == flow;
      } else {
        assert DeployStacksRun(o, h, parameters, mainTemplate, flowTemplate).calls == render.calls;
      }
    }
  }

  /** Both stacks are deployed with the parameters less PrivateNumber and PublicNumber:
      every create or update `deploy` makes carries exactly the other items, in order. */
  lemma DeployPopsNumbers(o: Oracle, h: seq<Call>, env: Items, mainTemplate: string, flowTemplate: string)
    requires Keyed(env) && Pop(env, "PrivateNumber").Ok? && Pop(Pop(env, "PrivateNumber").value.1, "PublicNumber").Ok?
    ensures var rest := Pop(Pop(env, "PrivateNumber").value.1, "PublicNumber").value.1;
      var run := DeployRun(o, h, env, mainTemplate, flowTemplate);
      && (forall i :: 0 <= i < |rest| ==> rest[i].0 != "PrivateNumber" && rest[i].0 != "PublicNumber")
      && (forall e :: e in env && e.0 != "PrivateNumber" && e.0 != "PublicNumber" ==> e in rest)
      && |run.calls| >= |h| && run.calls[..|h|] == h
      && DeploysWith(run.calls[|h|..], ParametersOf(rest))
  {
    var rest := PopNumbers(env);
    DeployStacksParameters(o, h, rest, mainTemplate, flowTemplate);
    assert DeployRun(o, h, env, mainTemplate, flowTemplate) == DeployStacksRun(o, h, rest, mainTemplate, flowTemplate);
  }

  /** Popping both numbers from a dict leaves every other item and neither number. */
  lemma PopNumbers(env: Items) returns (rest: Items)
    requires Keyed(env) && Pop(env, "PrivateNumber").Ok? && Pop(Pop(env, "PrivateNumber").value.1, "PublicNumber").Ok?
    ensures rest == Pop(Pop(env, "PrivateNumber").value.1, "PublicNumber").value.1
    ensures forall i :: 0 <= i < |rest| ==> rest[i].0 != "PrivateNumber" && rest[i].0 != "PublicNumber"
    ensures forall e :: e in env && e.0 != "PrivateNumber" && e.0 != "PublicNumber" ==> e in rest
  {
    var mid := Pop(env, "PrivateNumber").value.1;
    PopRemoves(env, "PrivateNumber");
    PopRemoves(mid, "PublicNumber");
    rest := Pop(mid, "PublicNumber").value.1;
    assert forall i :: 0 <= i < |rest| ==> rest[i] in mid;
  }

  /** A missing number stops `deploy` before any call. */
  lemma DeployNeedsNumbers(o: Oracle, h: seq<Call>, env: Items, mainTemplate: string, flowTemplate: string)
    requires forall i :: 0 <= i < |env| ==> env[i].0 != "PrivateNumber"
    ensures DeployRun(o, h, env, mainTemplate, flowTemplate) == Run(Err(KeyError("PrivateNumber")), h)
  {
  }
}
