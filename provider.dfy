/** The CloudFormation service as the deployment code sees it through boto3: every call
    it makes is recorded, and every answer comes from an oracle that may depend on all
    the calls made so far (the call just made included). */
module Provider {
  import opened Wrappers
  import AwsClient

  /** A stack parameter as the service takes it: `{"ParameterKey": …, "ParameterValue": …}`. */
  datatype Parameter = Parameter(key: string, value: string)

  /** The two waiters the deployment uses. */
  datatype WaiterKind = StackCreateComplete | StackUpdateComplete

  /** The service calls the modelled code makes. `ListStacks` stands for paging through
      `list_stacks`, modelled as one call that yields every page or fails as a whole;
      `ListStackResources` carries the stack ID the code passes,
      `None` when it found none. */
  datatype Call =
    | ListStacks
    | ListStackResources(stackId: Option<string>)
    | ValidateTemplate(templateBody: string)
    | CreateStack(stackName: string, templateBody: string, parameters: seq<Parameter>)
    | UpdateStack(stackName: string, templateBody: string, parameters: seq<Parameter>)
    | Wait(waiter: WaiterKind, stackName: string, delay: int, maxAttempts: int)

  /** The service's answers: the stack listing, a stack's resource summaries, the keys
      of a template's declared parameters, the outcome of a create or update, and the
      waiter's outcome (its polling is the service's business). */
  datatype Oracle = Oracle(
    listStacks: seq<Call> -> Result<AwsClient.Pages>,
    listStackResources: seq<Call> -> Result<seq<AwsClient.Summary>>,
    validateTemplate: seq<Call> -> Result<seq<string>>,
    deploy: seq<Call> -> Result<()>,
    wait: seq<Call> -> Result<()>)

  /** The message with which CloudFormation refuses an update that changes nothing. */
  const NoUpdatesMessage := "No updates are to be performed."

  /** The waiter configuration every revision but the first uses: 5 s between polls,
      60 polls. */
  const Delay := 5
  const MaxAttempts := 60

  /** The boto3 client: the calls made through it, in order. */
  class Client {
    const oracle: Oracle
    var calls: seq<Call>

    constructor (oracle: Oracle)
      ensures this.oracle == oracle && calls == []
    {
      this.oracle := oracle;
      calls := [];
    }

    method ListAllStacks() returns (r: Result<AwsClient.Pages>)
      modifies this
      ensures calls == old(calls) + [ListStacks]
      ensures r == oracle.listStacks(calls)
    {
      calls := calls + [ListStacks];
      r := oracle.listStacks(calls);
    }

    method ListResources(stackId: Option<string>) returns (r: Result<seq<AwsClient.Summary>>)
      modifies this
      ensures calls == old(calls) + [ListStackResources(stackId)]
      ensures r == oracle.listStackResources(calls)
    {
      calls := calls + [ListStackResources(stackId)];
      r := oracle.listStackResources(calls);
    }

    method Validate(template: string) returns (r: Result<seq<string>>)
      modifies this
      ensures calls == old(calls) + [ValidateTemplate(template)]
      ensures r == oracle.validateTemplate(calls)
    {
      calls := calls + [ValidateTemplate(template)];
      r := oracle.validateTemplate(calls);
    }

    /** `create_stack` or `update_stack`, whichever `call` is. */
    method Deploy(call: Call) returns (r: Result<()>)
      requires call.CreateStack? || call.UpdateStack?
      modifies this
      ensures calls == old(calls) + [call]
      ensures r == oracle.deploy(calls)
    {
      calls := calls + [call];
      r := oracle.deploy(calls);
    }

    /** `waiter.wait(StackName=…, WaiterConfig={"Delay": …, "MaxAttempts": …})`. */
    method WaitFor(waiter: WaiterKind, stackName: string, delay: int, maxAttempts: int) returns (r: Result<()>)
      modifies this
      ensures calls == old(calls) + [Wait(waiter, stackName, delay, maxAttempts)]
      ensures r == oracle.wait(calls)
    {
      calls := calls + [Wait(waiter, stackName, delay, maxAttempts)];
      r := oracle.wait(calls);
    }
  }

  /** How the deployment's `except ClientError` handlers read a failure: the error is a
      ClientError carrying the no-updates message. */
  predicate IsNoUpdates(e: Error) {
    e == ClientError(NoUpdatesMessage)
  }

  /** What the `except ClientError` handlers that check the message make of a failed
      step: the no-updates refusal ends the deployment quietly, any other error (caught
      and re-raised, or not a ClientError at all) propagates. */
  function Handled(e: Error): (r: Result<()>)
    ensures r.Ok? <==> IsNoUpdates(e)
    ensures r.Err? ==> r.error == e
  {
    if IsNoUpdates(e) then Ok(()) else Err(e)
  }

  /** The call that deploys: an update for an existing stack, a create otherwise. */
  function DeployCall(present: bool, name: string, template: string, parameters: seq<Parameter>): Call {
    if present then UpdateStack(name, template, parameters) else CreateStack(name, template, parameters)
  }

  /** The waiter that goes with the call. */
  function WaiterFor(present: bool): WaiterKind {
    if present then StackUpdateComplete else StackCreateComplete
  }

  /** A parameter mapping (a dotenv file) as its items, in file order. */
  type Items = seq<(string, string)>

  /** `[{"ParameterKey": p[0], "ParameterValue": p[1]} for p in parameters.items()]`. */
  function ParametersOf(items: Items): (ps: seq<Parameter>)
    ensures |ps| == |items|
    ensures forall i :: 0 <= i < |items| ==> ps[i].key == items[i].0 && ps[i].value == items[i].1
  {
    seq(|items|, i requires 0 <= i < |items| => Parameter(items[i].0, items[i].1))
  }

  /** The items a parameter list was built from. */
  function ItemsOf(ps: seq<Parameter>): (items: Items)
    ensures |items| == |ps|
  {
    seq(|ps|, i requires 0 <= i < |ps| => (ps[i].key, ps[i].value))
  }

  /** The conversion loses nothing: one parameter per item, in order, key and value kept. */
  lemma ParametersRoundTrip(items: Items, ps: seq<Parameter>)
    ensures ItemsOf(ParametersOf(items)) == items
    ensures ParametersOf(ItemsOf(ps)) == ps
  {
  }

  /** A run of a deployment step: its outcome and the call log after it. */
  datatype Run = Run(outcome: Result<()>, calls: seq<Call>)
}
