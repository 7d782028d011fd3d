/** The first deployment script (deploy/deploy.py): a stack exists when any listed stack
    has the name, whatever its status; every ClientError of the deploy call reads as "no
    changes"; the wait allows 100 attempts. */
module DeployFirst {
  import opened Wrappers
  import opened AwsClient
  import opened Provider
  import CloudformationClient
  import DeployOld

  const StackName := "sicq-demo-stack"
  const FirstMaxAttempts := 100

  /** `stack_exists` over the listed stacks in order: true at the first stack named `name`;
      a stack without a name raises KeyError. */
  function NamedIn(ss: seq<Summary>, name: string): Result<bool>
    decreases |ss|
  {
    if ss == [] then Ok(false)
    else if "StackName" !in ss[0] then Err(KeyError("StackName"))
    else if ss[0]["StackName"] == name then Ok(true)
    else NamedIn(ss[1..], name)
  }

  function StackExistsFrom(listing: Result<Pages>, name: string): Result<bool> {
    var pages :- listing;
    NamedIn(Flatten(pages), name)
  }

  /** `stack_exists`: the nested loops, returning at the first stack of the name. */
  method StackExists(client: Client, name: string) returns (r: Result<bool>)
    modifies client
    ensures client.calls == old(client.calls) + [ListStacks]
    ensures r == StackExistsFrom(client.oracle.listStacks(client.calls), name)
  {
    var listing := client.ListAllStacks();
    if listing.Err? {
      return Err(listing.error);
    }
    var pages := listing.value;
    assert pages[0..] == pages;
    for p := 0 to |pages|
      invariant client.calls == old(client.calls) + [ListStacks]
      invariant NamedIn(Flatten(pages), name) == NamedIn(Flatten(pages[p..]), name)
    {
      var page := pages[p];
      ghost var rest := Flatten(pages[p + 1..]);
      DeployOld.FlattenFrom(pages, p);
      assert page[0..] == page;
      for j := 0 to |page|
        invariant client.calls == old(client.calls) + [ListStacks]
        invariant NamedIn(Flatten(pages), name) == NamedIn(page[j..] + rest, name)
      {
        var stack := page[j];
        assert (page[j..] + rest)[0] == stack && (page[j..] + rest)[1..] == page[j + 1..] + rest;
        if "StackName" !in stack {
          return Err(KeyError("StackName"));
        }
        if stack["StackName"] == name {
          return Ok(true);
        }
      }
      assert page[|page|..] + rest == rest;
    }
    assert pages[|pages|..] == [];
    r := Ok(false);
  }

  /** When every listed stack has a name, the existence test holds exactly when one of them is
      named `name`, deleted or not. */
  lemma {:induction false} NamedInIff(ss: seq<Summary>, name: string)
    requires forall s :: s in ss ==> "StackName" in s
    ensures NamedIn(ss, name) == Ok(exists s :: s in ss && s["StackName"] == name)
    decreases |ss|
  {
    if ss != [] {
      assert ss[0] in ss;
      assert forall x :: x in ss[1..] ==> x in ss;
      NamedInIff(ss[1..], name);
      assert forall x :: x in ss ==> x == ss[0] || x in ss[1..];
    }
  }

  /** A deleted stack of the name still counts here, while the later revisions treat it
      as absent. */
  lemma DeletedStackCounts(s: Summary, name: string)
    requires "StackName" in s && s["StackName"] == name
    requires "StackStatus" in s && s["StackStatus"] == "DELETE_COMPLETE"
    ensures StackExistsFrom(Ok([[s]]), name) == Ok(true)
    ensures CloudformationClient.StackExistsFrom(Ok([[s]]), name) == Ok(false)
  {
    assert Flatten([[s]]) == [s] by {
      assert [[s]][1..] == [];
    }
    CloudformationClient.StackExistsIff([[s]], name);
    assert forall x :: x in [s] ==> x == s;
  }

  /** `deploy`: the existence check before the `try`, the deploy call with one parameter
      per dotenv item, any ClientError ending the deployment quietly, then one wait of at
      most 100 attempts. An error that is not a ClientError propagates. */
  function DeployRun(o: Oracle, h: seq<Call>, env: Items, template: string): Run {
    var h1 := h + [ListStacks];
    var present := StackExistsFrom(o.listStacks(h1), StackName);
    if present.Err? then Run(Err(present.error), h1)
    else
      var h2 := h1 + [DeployCall(present.value, StackName, template, ParametersOf(env))];
      var d := o.deploy(h2);
      if d.Err? then Run(if d.error.ClientError? then Ok(()) else Err(d.error), h2)
      else
        var h3 := h2 + [Wait(WaiterFor(present.value), StackName, Delay, FirstMaxAttempts)];
        Run(o.wait(h3), h3)
  }

  method Deploy(client: Client, env: Items, template: string) returns (r: Result<()>)
    modifies client
    ensures Run(r, client.calls) == DeployRun(client.oracle, old(client.calls), env, template)
  {
    var present := StackExists(client, StackName);
    if present.Err? {
      return Err(present.error);
    }
    var call, waiter;
    if present.value {
      call := UpdateStack(StackName, template, ParametersOf(env));
      waiter := StackUpdateComplete;
    } else {
      call := CreateStack(StackName, template, ParametersOf(env));
      waiter := StackCreateComplete;
    }
    var d := client.Deploy(call);
    if d.Err? {
      if d.error.ClientError? {
        return Ok(());
      }
      return Err(d.error);
    }
    r := client.WaitFor(waiter, StackName, Delay, FirstMaxAttempts);
  }

  /** Over a listing whose stacks all have names: a stack named "sicq-demo-stack" is
      updated and otherwise the stack is created, with one parameter per item in order;
      every ClientError, whatever its message, ends the run without error or wait; success
      is followed by one wait with a 5 second delay and at most 100 attempts. */
  lemma DeployOutcomes(o: Oracle, h: seq<Call>, env: Items, template: string)
    requires o.listStacks(h + [ListStacks]).Ok?
    requires forall s :: s in Flatten(o.listStacks(h + [ListStacks]).value) ==> "StackName" in s
    ensures var present := exists s :: s in Flatten(o.listStacks(h + [ListStacks]).value) && s["StackName"] == StackName;
      var h2 := h + [ListStacks, DeployCall(present, StackName, template, ParametersOf(env))];
      var run := DeployRun(o, h, env, template);
      && (o.deploy(h2).Err? && o.deploy(h2).error.ClientError? ==> run == Run(Ok(()), h2))
      && (o.deploy(h2).Err? && !o.deploy(h2).error.ClientError? ==> run == Run(Err(o.deploy(h2).error), h2))
      && (o.deploy(h2).Ok? ==>
            var w := Wait(WaiterFor(present), StackName, 5, 100);
            run == Run(o.wait(h2 + [w]), h2 + [w]))
  {
    var ss := Flatten(o.listStacks(h + [ListStacks]).value);
    NamedInIff(ss, StackName);
    var present := exists s :: s in ss && s["StackName"] == StackName;
    assert h + [ListStacks] + [DeployCall(present, StackName, template, ParametersOf(env))]
      == h + [ListStacks, DeployCall(present, StackName, template, ParametersOf(env))];
  }
}
