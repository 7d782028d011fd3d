/** The older `CloudformationClient` (src/shared/clients/cloudformation.py). Its
    `get_stack_summary` and `_stack_exists` are those of the newer client; its
    `deploy_stack` runs the existence check before the `try`, so a failed check is never
    read as "no changes". */
module Cloudformation {
  import opened Wrappers
  import opened Provider
  import Utils
  import CloudformationClient

  /** `deploy_stack` of this revision: the existence check, then (inside the `try`) the
      deploy call with the parameters unchanged, then one wait. */
  function DeployStackRun(o: Oracle, h: seq<Call>, config: Utils.StackConfig, template: string,
                          parameters: seq<Parameter>): Run
  {
    var name := config.stackName;
    var h1 := h + [ListStacks];
    var present := CloudformationClient.StackExistsFrom(o.listStacks(h1), name);
    if present.Err? then Run(Err(present.error), h1)
    else
      var h2 := h1 + [DeployCall(present.value, name, template, parameters)];
      var d := o.deploy(h2);
      if d.Err? then Run(Handled(d.error), h2)
      else
        var h3 := h2 + [Wait(WaiterFor(present.value), name, Delay, MaxAttempts)];
        Run(o.wait(h3), h3)
  }

  method DeployStack(client: Client, config: Utils.StackConfig, template: string, parameters: seq<Parameter>)
    returns (r: Result<()>)
    modifies client
    ensures Run(r, client.calls) == DeployStackRun(client.oracle, old(client.calls), config, template, parameters)
  {
    var present := CloudformationClient.StackExists(client, config.stackName);
    if present.Err? {
      return Err(present.error);
    }
    var call, waiter;
    if present.value {
      call := UpdateStack(config.stackName, template, parameters);
      waiter := StackUpdateComplete;
    } else {
      call := CreateStack(config.stackName, template, parameters);
      waiter := StackCreateComplete;
    }
    var d := client.Deploy(call);
    if d.Err? {
      return Handled(d.error);
    }
    r := client.WaitFor(waiter, config.stackName, Delay, MaxAttempts);
  }

  /** The two revisions make the same calls and end the same way, except when the existence
      check fails with the no-updates message: the newer one then ends quietly, this one
      raises it. */
  lemma RevisionsAgree(o: Oracle, h: seq<Call>, config: Utils.StackConfig, template: string,
                       parameters: seq<Parameter>)
    ensures DeployStackRun(o, h, config, template, parameters).calls ==
      CloudformationClient.DeployStackRun(o, h, config, template, parameters).calls
    ensures var check := CloudformationClient.StackExistsFrom(o.listStacks(h + [ListStacks]), config.stackName);
      if check.Err? && IsNoUpdates(check.error) then
        DeployStackRun(o, h, config, template, parameters).outcome == Err(ClientError(NoUpdatesMessage))
        && CloudformationClient.DeployStackRun(o, h, config, template, parameters).outcome == Ok(())
      else
        DeployStackRun(o, h, config, template, parameters) == CloudformationClient.DeployStackRun(o, h, config, template, parameters)
  {
  }

  /** A deploy call refused with the no-updates message ends without error and without a
      wait; another failure propagates; success is followed by exactly one wait with a 5
      second delay and at most 60 attempts on the configured stack. */
  lemma DeployOutcomes(o: Oracle, h: seq<Call>, config: Utils.StackConfig, template: string,
                       parameters: seq<Parameter>)
    requires CloudformationClient.StackExistsFrom(o.listStacks(h + [ListStacks]), config.stackName).Ok?
    ensures var present := CloudformationClient.StackExistsFrom(o.listStacks(h + [ListStacks]), config.stackName).value;
      var h2 := h + [ListStacks, DeployCall(present, config.stackName, template, parameters)];
      var run := DeployStackRun(o, h, config, template, parameters);
      && (o.deploy(h2).Err? ==> run == Run(if IsNoUpdates(o.deploy(h2).error) then Ok(()) else Err(o.deploy(h2).error), h2))
      && (o.deploy(h2).Ok? ==>
            var w := Wait(WaiterFor(present), config.stackName, 5, 60);
            run == Run(o.wait(h2 + [w]), h2 + [w]))
  {
    var present := CloudformationClient.StackExistsFrom(o.listStacks(h + [ListStacks]), config.stackName).value;
    assert h + [ListStacks] + [DeployCall(present, config.stackName, template, parameters)]
      == h + [ListStacks, DeployCall(present, config.stackName, template, parameters)];
  }
}
