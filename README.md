# siqc deployment core in Dafny

This project models the deployment and export pipeline of siqc, a demo project that provisions an Amazon Connect contact centre with CloudFormation. The core covers four pieces:

- **Templatising exported contact flows.** A recursive walker (`walk_content`) goes over a JSON document. A first pass collects every `{id, text}` dict as `id -> text`. A second pass rewrites every dict value that is a collected id into the placeholder `{{resources['<LogicalId>']}}`. The older variant `export/templatise.py` does the same with two dedicated recursive functions, and its placeholder carries the resource type taken from the ARN.
- **Logical-ID normalisation.** `create_logical_id` splits at space, hyphen and underscore and upper-cases the first character of each piece, keeping the case of the rest. `logical_id`, the older one, also lower-cases the rest of each piece. The two file-name helpers `untemplate_filename` and `file_path` sit beside them.
- **The parameter binder** `create_stack_parameters`. Each declared template parameter such as `PublicNumberArn` is split at its capitals into a field (`public_number`) and an attribute (`Arn`). It is bound to the value of the first key of that field of the instance configuration that ends with the attribute.
- **The summary scan and the stack deployment.** `_get_summary` pages through listings and fills one slot per requested value. `deploy_stack` picks create or update, treats "No updates are to be performed." as success without a wait, re-raises every other error, and otherwise waits with a fixed delay and attempt bound. `get_stack_resource_mapping` folds a stack's resources into a map. Four revisions of the deployment are modelled side by side (`deploy/deploy.py`, `deploy/deploy_old.py`, `src/shared/clients/cloudformation.py` and `src/shared/clients/cloudformation_client.py`) with the current binder script `src/deploy/deploy.py`, and lemmas say where they differ.

## How it is modelled

- **Errors.** Python exceptions are `Result` errors (`wrappers.dfy`): `IndexError`, `KeyError(key)`, `ValueError`, `AttributeError(name)`, `TypeError`, `ClientError(message)`, `WaiterError`.
- **JSON documents** are the datatype `Document.Node`: dicts are key-ordered entry sequences, because the code's "first key whose value equals" lookup depends on order. The walker's in-place updates are modelled by methods that thread the updated tree and parent through the walk. A JSON tree has no aliasing, so this loses nothing. Each imperative function of the source is a Dafny `method` with its loops, proved equal to a recursive specification function. The properties are lemmas about that function.
- **The boto3 client** is the class `Provider.Client`. Its one mutable field is the log of calls made, `calls`. Answers come from an `Oracle`: functions from the call log so far to the outcome. Paginated listings are `seq<seq<map<string, string>>>`. A deployment step is specified by a function from the oracle and the call log before it to a `Run`: the outcome and the call log after it.
- **Lambdas.** The `filter_predicate` lambda of `_get_summary` becomes the two filters the callers pass (`AcceptAll`, `NotDeleteComplete`), because the stack filter can itself raise KeyError.
- **Display names.** Python's `str()` of a JSON value, which the older placeholder f-string applies, is `TemplatiseOld.Render`: a string is itself, a number, `True`, `False` or `None` its text, and a list or dict its `repr()`.
- **Records.** `StackConfig` and `InstanceConfig` are datatypes. Their constructors store their arguments by construction, and `MainStackConfig` / `FlowStackConfig` hold the source's constants.

Behaviour of the code worth noting:

- **List parents.** A collected id that is a list element, or the document root, is not replaced: the code's `parent.keys()` fails with AttributeError (`Templatise.ReplaceArnsStep`, `TemplatiseOld.ListArnRevisions`).
- **Unhashable ids.** Building the map can raise: an `id` that is a list or dict cannot be a dict key, so it raises TypeError (`Templatise.UpdateArnMapStep`).
- **Binder scope.** The binder takes every value from the three fields of the instance configuration: it has no raw-parameter overrides, no previous-stack resources and no `Content` parameters.
- **Leading and trailing delimiters.** Names like `" a - b_c "` are rejected with IndexError by both normalisers (`Utils.LogicalIdRejects`, `Shared.LowerLogicalIdRejects`).

## Model

| member | source | states |
|---|---|---|
| Text.Upper | src/shared/utils.py:73 | `str.upper` on one character: an ASCII lower-case letter becomes an upper-case letter, every other character is unchanged |
| Text.Lower | src/shared.py:45 | `str.lower` on one character: an ASCII capital becomes a lower-case letter, every other character is unchanged |
| Text.LowerStr | src/shared.py:45 | `token[1:].lower()` keeps the length and lower-cases position by position |
| Text.SplitJoin | src/shared.py:18 | joining the pieces of `s.split(d)` with `d` gives `s` back |
| Text.SplitOnPiecesFree | src/shared.py:37-43 | no piece of a split at the delimiters contains a delimiter |
| Text.EmptyTokenIff | src/shared.py:45 | a split yields an empty piece (so `token[0]` fails) exactly when the string is empty, or starts, ends with or doubles a separator |
| Text.SplitEachOn | src/shared.py:37-43 | splitting the token list again at one more delimiter is splitting the original string at all delimiters so far |
| Text.SplitWhitespace | src/deploy/deploy.py:27-29 | every token of `str.split()` is non-empty and free of whitespace |
| Text.SplitWhitespaceConcat | src/deploy/deploy.py:27-29 | the tokens of `str.split()` put together are the string without its whitespace: nothing else is lost |
| Document.Children | src/export/templatise.py:32-37 | the children the walk visits: a list's items in order, a dict's values in key order, none for a scalar |
| Document.SetChild | src/export/templatise.py:80 | `parent[key] = …` replaces exactly one child; the kind, the number of children, the keys and every other child are unchanged |
| Lookup.Get | src/export/templatise.py:56 | `node["id"]` for a present key is the value of the first entry with that key |
| Lookup.FirstIndex | src/export/templatise.py:77 | `list(parent.values()).index(node)`, and `values.index(...)` in the summary scan: the first position holding the value, or the length when none does |
| LogicalNames.CapitalizeAll | src/shared/utils.py:73 | capitalising and joining the tokens fails with IndexError exactly when some token is empty |
| LogicalNames.CapitalizeSplitIsCamel | src/shared.py:37-45 | splitting at the delimiters and capitalising each piece equals the character-by-character reference normaliser |
| LogicalNames.CamelLength | src/shared/utils.py:67-74 | the normalised text is as long as the input less its delimiter characters |
| LogicalNames.CamelNoDelimiters | src/shared/utils.py:67-74 | the normalised text holds no delimiter, since case mapping never produces one |
| LogicalNames.CamelCaseOf | src/shared/utils.py:73 | position by position the result is the input without delimiters, up to letter case: only case changes |
| LogicalNames.CamelEmptyToken | src/shared/utils.py:71-74 | the case changes of one pass do not change where the next pass finds an empty piece |
| LogicalNames.CamelCompose | src/shared/utils.py:71-74 | running the case-keeping pass for one more delimiter over the earlier passes' output is one pass over all those delimiters |
| LogicalNames.CamelNoDelimiterInput | src/shared/utils.py:73 | a delimiter-free string keeps its characters: the first is capitalised, the rest kept (or lower-cased in the `logical_id` variant) |
| LogicalNames.CamelFirstUpper | src/shared/utils.py:73 | a non-empty normalised name starts with a character that upper-casing leaves alone |
| Utils.CreateLogicalId | src/shared/utils.py:65-76 | the three split-and-capitalise passes raise IndexError exactly when some pass meets an empty piece, and otherwise return the reference normalisation over all three delimiters |
| Utils.PassSucceeds | src/shared/utils.py:73 | a name none of whose words is empty passes every split without IndexError |
| Utils.LogicalIdWords | src/shared/utils.py:71-74 | a name of non-empty words becomes its words, each with its first character upper-cased and the rest kept, concatenated |
| Utils.LogicalIdFixed | src/shared/utils.py:71-74 | a delimiter-free name whose first character upper-casing leaves alone is its own ID |
| Utils.MisplacedDelimiterFails | src/shared/utils.py:73 | a name that leads with, ends with or doubles the delimiter of a pass makes that pass fail |
| Utils.LogicalIdRejects | src/shared/utils.py:73 | the empty name and names with a leading, trailing or doubled delimiter of one kind raise IndexError |
| Utils.CreateLogicalIdSpaces | src/shared/test/test_utils.py:38 | "Test Logical Value" becomes "TestLogicalValue" |
| Utils.CreateLogicalIdHyphens | src/shared/test/test_utils.py:39 | "test-logical-value" becomes "TestLogicalValue" |
| Utils.CreateLogicalIdMixed | src/shared/test/test_utils.py:40 | "Test_logical-value" becomes "TestLogicalValue" |
| Utils.TwoWords | src/shared/utils.py:71-74 | two non-empty words around one delimiter become the two capitalised words |
| Utils.ThreeWords | src/shared/utils.py:71-74 | three non-empty words around two delimiters, of any kinds, become the three capitalised words |
| Utils.MockTextId | src/export/test/test_templatise.py:27-33 | the display name "mock text" becomes "MockText", the name in the expected placeholder |
| Utils.LogicalIdShape | src/shared/utils.py:67-74 | a successful ID has no space, hyphen or underscore, and its length is the input's less its delimiter count |
| Utils.MixedDelimitersAccepted | src/shared/utils.py:71-74 | adjacent delimiters of different kinds can pass: "a -_b" becomes "AB", because each pass sees only one kind |
| Utils.LogicalIdIdempotent | src/shared/utils.py:71-74 | normalising a successful ID again gives the same ID |
| Shared.LogicalId | src/shared.py:31-45 | the token-list loop, with its growing list and slice, computes the lower-casing normalisation: IndexError when a word is empty |
| Shared.LowerLogicalIdWords | src/shared.py:37-45 | `logical_id` capitalises (rest lower-cased) the pieces of one split at all three delimiters |
| Shared.LowerLogicalIdShape | src/shared.py:37-45 | a successful ID has no delimiter and is as long as the input less its delimiter count |
| Shared.LowerLogicalIdRejects | src/shared.py:45 | the empty name and names with a leading, trailing or any two adjacent delimiters raise IndexError |
| Shared.MixedDelimitersRejected | src/shared.py:37-45 | on "a -_b" `logical_id` fails while `create_logical_id` succeeds |
| Shared.LowerLogicalIdExample | src/shared.py:45 | "MOCK TEXT" becomes "MockText" |
| Shared.TwoWords | src/shared.py:37-45 | two non-empty words around one delimiter become each word with a capital first character and the rest lower-cased |
| Shared.NormalisersAgree | src/shared.py:45 | whenever `logical_id` succeeds, `create_logical_id` does too, with an ID of the same length that differs only in letter case |
| Shared.LowerLogicalIdTwice | src/shared.py:45 | `logical_id` is not idempotent: applied to its own output it keeps the first character and lower-cases every later capital |
| Shared.UntemplateFilename | src/shared.py:17-18 | dropping the last dot-separated part never makes the name longer |
| Shared.UntemplateFilenameSplits | src/shared.py:17-18 | a name with a dot is the result, a dot and a last part without dots; a name without a dot gives "" |
| Shared.UntemplateFilenameAppend | src/shared.py:17-18 | dropping an extension added after a dot gives the name back |
| Shared.UntemplateTemplateName | src/shared.py:17-18 | "cloudformation.yaml.j2" becomes "cloudformation.yaml" |
| Shared.FilePath | src/shared.py:20-21 | the path is the directory plus exactly one segment, the name with ".json" appended, and stripping that extension gives the name back |
| Templatise.UpdateArnMapStep | src/export/templatise.py:43-59 | for a dict with "id" and "text" it records `id -> text` and stops the descent; for every other node it descends and leaves the map alone; the parent is never changed; an unhashable id raises TypeError |
| Templatise.ReplaceArnsStep | src/export/templatise.py:62-83 | a string that is a collected id is rewritten to the placeholder of its normalised display name at the first parent entry holding it, and stops the descent; every other node descends with parent and map unchanged; a list or root parent fails with AttributeError; a failing normalisation fails |
| Templatise.Apply | src/export/templatise.py:29-39 | an operation call changes at most the node's own entry of its parent, never the parent of a container |
| Templatise.Walk | src/export/templatise.py:14-39 | a walk changes at most the node's own entry of its parent, and never the parent of a container |
| Templatise.WalkContent | src/export/templatise.py:14-39 | the recursive walk, reading each child live from the container as it stands, returns exactly the state and visit order `Walk` specifies |
| Templatise.KidsStep | src/export/templatise.py:32-37 | one turn of the children loop walks child `i` with the container as parent, stores the result back, then walks the rest with the updated map |
| Templatise.WalkDescends | src/export/templatise.py:31-37 | a list or dict whose call says descend ends as its children's loop: visited first, then its children in order |
| Templatise.PreorderDistinct | src/export/templatise.py:29-39 | a full walk calls the operation on no position twice |
| Templatise.PreorderComplete | src/export/templatise.py:29-39 | a full walk calls the operation on every position of the tree, scalars included |
| Templatise.Collect | src/export/templatise.py:55-56 | collecting the map fails only with TypeError, for an unhashable id |
| Templatise.UpdateWalkCollects | src/export/templatise.py:101 | the first walk changes neither the tree nor the parent, builds the map `Collect` describes, and visits exactly the positions outside `{id, text}` dicts, parents first |
| Templatise.UpdateKidsCollect | src/export/templatise.py:32-37 | the first pass's children loop collects the children in order and visits their pruned positions |
| Templatise.SubstitutedChildren | src/export/templatise.py:77-80 | the reference substitution keeps the container's shape and rewrites each child independently |
| Templatise.ReplaceWalk | src/export/templatise.py:102 | for a map whose keys are not placeholders, the second walk over a container succeeds exactly when every collected id in it is a dict value whose display name is a string that normalises, and then yields the substituted tree with the parent unchanged, visiting every position |
| Templatise.ReplaceKids | src/export/templatise.py:32-37 | the second pass's children loop succeeds exactly when every remaining child is acceptable, and ends with the substituted container |
| Templatise.ReplaceChild | src/export/templatise.py:75-83 | one child of the second pass is acceptable exactly when its walk succeeds, and that walk keeps the map and moves the loop on with the child substituted |
| Templatise.ReplaceArnChild | src/export/templatise.py:75-81 | a collected id in a dict is replaced in place by its placeholder; in a list it fails |
| Templatise.ReplaceScalarChild | src/export/templatise.py:75-83 | a scalar that is not a collected id is left as it is and only visited |
| Templatise.ReplaceFromRoot | src/export/templatise.py:102 | for a map whose keys are not placeholders, the second walk from the root succeeds exactly when neither the root nor any list element is a collected id and every collected dict value has a display name that normalises, and then yields the substituted tree |
| Templatise.TemplatiseFlow | src/export/templatise.py:100-102 | the two walks from a fresh map compute `TemplatiseFlowOf` |
| Templatise.TemplatiseFlowMeaning | src/export/templatise.py:100-102 | templatising fails with TypeError when an id is unhashable; otherwise, for a map whose keys are not placeholders, it succeeds exactly when the root is acceptable and then every dict value equal to a collected id, the `{id, text}` dict's own id included, is its placeholder, and nothing else changes |
| Templatise.CollectIdText | src/export/templatise.py:55-57 | an `{id, text}` dict adds `id -> text` and nothing below it |
| Templatise.MockPlaceholder | src/export/templatise.py:80 | the placeholder for the display name "mock text" is `{{resources['MockText']}}` |
| Templatise.UpdateArnMapExamples | src/export/test/test_templatise.py:13-24 | the `{id, text}` dict is recorded and not descended into; an empty dict, a string and a list leave the map empty and descend |
| Templatise.ReplaceArnsExample | src/export/test/test_templatise.py:27-33 | the collected id under "foo" is replaced by `{{resources['MockText']}}` and the descent stops |
| Templatise.ReplaceSingleEntry | src/export/templatise.py:75-81 | in a one-entry dict a collected id is replaced by the placeholder of its normalised name |
| Templatise.ReplaceArnsPassExamples | src/export/test/test_templatise.py:35-37 | a string that is not collected, a dict and a list leave the parent alone and descend |
| Templatise.WalkContentExample | src/export/test/test_templatise.py:40-47 | the second walk over two dicts rewrites the id in the first and leaves the second |
| Templatise.MockFlowCollects | src/export/test/test_templatise.py:50-57 | the first pass over the test flow builds `{"mock id": "mock text"}` |
| Templatise.MockMetaSubst | src/export/test/test_templatise.py:71 | the meta dict's id becomes the placeholder and its text stays |
| Templatise.MockFlowSubst | src/export/test/test_templatise.py:67-79 | the test flow is acceptable and its substitution is the expected templated flow |
| Templatise.TemplatiseFlowExample | src/export/test/test_templatise.py:50-79 | templatising the test flow gives the templated flow the test expects to be written |
| TemplatiseOld.BuildArnMap | export/templatise.py:11-21 | the older recursive map builder builds the same map as the newer first pass |
| TemplatiseOld.ResourceType | export/templatise.py:32 | `value.split("/")[-2]` fails with IndexError exactly when the value has no "/", and its result has no "/" |
| TemplatiseOld.ResourceTypeOf | export/templatise.py:32 | an ARN `<prefix>/<type>/<id>` has resource type `<type>` |
| TemplatiseOld.Render | export/templatise.py:33 | the f-string never fails: a string name renders as itself, another scalar as its text, a list in `[…]` and a dict in `{…}` |
| TemplatiseOld.RenderList | export/templatise.py:33 | the list name `["x"]` renders as `['x']` |
| TemplatiseOld.RenderDict | export/templatise.py:33 | a dict name whose value holds a `'` renders with that value in double quotes, as `repr()` does |
| TemplatiseOld.Rewrite | export/templatise.py:31-33 | a collected id is rewritten exactly when it has a "/", whatever its display name, to the placeholder of its resource type and rendered name |
| TemplatiseOld.ReplaceArns | export/templatise.py:24-35 | the loop that assigns entries while iterating computes `OldReplace` |
| TemplatiseOld.OldReplaceChildren | export/templatise.py:26-35 | on a list or dict it succeeds exactly when every child's rewrite does, keeps the shape (so dict keys never change) and rewrites each child |
| TemplatiseOld.OldReplaceClears | export/templatise.py:29-35 | for a map whose keys are not placeholders, what it leaves holds no collected id as a dict value at any depth |
| TemplatiseOld.OldReplaceFixes | export/templatise.py:29-35 | a tree with no collected id as a dict value is left exactly as it is |
| TemplatiseOld.OldReplaceIdempotent | export/templatise.py:24-35 | running the older rewrite again changes nothing |
| TemplatiseOld.OldReplaceKeepsListStrings | export/templatise.py:26-28 | a string that is a list element is never replaced |
| TemplatiseOld.OldReplaceNeedsSlash | export/templatise.py:32 | a collected id without "/" as a dict value makes the rewrite fail with IndexError |
| TemplatiseOld.ListArnRevisions | export/templatise.py:26-28 | on a collected id that is a list element the older rewrite leaves it while the newer walk fails with AttributeError |
| TemplatiseOld.OldReplaceEntry | export/templatise.py:31-33 | an ARN entry with a string name becomes `{{resources['<type>']['<name>']}}` |
| TemplatiseOld.OldReplaceEntryNode | export/templatise.py:31-33 | an ARN entry with any display name becomes the placeholder of its type and rendered name |
| TemplatiseOld.OldReplaceListName | export/templatise.py:31-33 | `{"k": "arn:x/type/id"}` with the list name `["x"]` becomes `{{resources['type']['['x']']}}` |
| AwsClient.Accepts | src/shared/clients/aws_client.py:22-23 | the default filter accepts everything; the stack filter rejects DELETE_COMPLETE and raises KeyError without a status |
| AwsClient.MatchList | src/shared/clients/aws_client.py:9-12 | a single value is scanned as a list of one, a list as itself |
| AwsClient.Empty | src/shared/clients/aws_client.py:15-16 | the scan starts with one empty slot per value and a zero counter |
| AwsClient.GetSummaryOf | src/shared/clients/aws_client.py:7-36 | a list of values gets one slot per value; a single value gets its one slot |
| AwsClient.GetSummary | src/shared/clients/aws_client.py:7-36 | the nested page and summary loops, with the counter and the inner `break`, compute `GetSummaryOf` |
| AwsClient.GetSummarySound | src/shared/clients/aws_client.py:15-28 | every filled slot `i` holds a listed summary that the filter accepts and whose match key has value `i`, at the first position of that value |
| AwsClient.GetSummaryNoBreak | src/shared/clients/aws_client.py:19-32 | when fewer summaries match than values were asked for, the answer is the reference: for each value's first position, the last accepted summary holding it, in the order of the values |
| AwsClient.GetSummaryOne | src/shared/clients/aws_client.py:19-36 | for a single value, on listings that raise nothing, the answer is a summary exactly when some accepted summary holds the value |
| AwsClient.ThreeSummariesExample | src/shared/clients/test/test_connect_client.py:34-80 | asking for the first and third, or the second and third, of three summaries gives those two, in the order asked |
| AwsClient.RepeatedMatchEndsPage | src/shared/clients/aws_client.py:28-32 | the counter counts matching summaries, not values: a repeated match ends the page before a later value is found |
| AwsClient.LaterPageOverwrites | src/shared/clients/aws_client.py:19-32 | the `break` leaves only the current page: a match on a later page overwrites the slot |
| AwsClient.MissingKeyRaises | src/shared/clients/aws_client.py:22-26 | an accepted summary without the match key raises KeyError; one the stack filter rejects is skipped |
| Provider.Client.constructor | src/shared/clients/aws_client.py:4-5 | a new client has made no calls |
| Provider.Client.ListAllStacks | src/shared/clients/aws_client.py:18-19 | paging through `list_stacks` logs one call and returns the service's pages |
| Provider.Client.ListResources | src/shared/clients/cloudformation_client.py:67-69 | `list_stack_resources` logs the call with the stack id and returns the service's summaries |
| Provider.Client.Validate | src/shared/clients/cloudformation_client.py:98 | `validate_template` logs the call with the template and returns the declared parameter keys |
| Provider.Client.Deploy | src/shared/clients/cloudformation_client.py:130-135 | `create_stack` or `update_stack` logs exactly that call and returns the service's answer |
| Provider.Client.WaitFor | src/shared/clients/cloudformation_client.py:145-151 | a wait logs the waiter, the stack name, the delay and the attempt bound and returns the waiter's outcome |
| Provider.Handled | src/shared/clients/cloudformation_client.py:137-142 | a failure is absorbed exactly when it is the ClientError "No updates are to be performed."; any other error is re-raised unchanged |
| Provider.ParametersOf | deploy/deploy_old.py:56-58 | one parameter per item, in order, with the item's key and value |
| Provider.ParametersRoundTrip | deploy/deploy_old.py:56-58 | building parameters from items loses nothing: the items can be recovered, and back |
| CloudformationClient.StackSummaryOf | src/shared/clients/cloudformation_client.py:43-52 | a found summary is a listed, non-deleted stack of the name |
| CloudformationClient.StackExistsFrom | src/shared/clients/cloudformation_client.py:78-87 | `_stack_exists` fails as the summary lookup does and otherwise holds exactly when a summary is found |
| CloudformationClient.GetStackSummary | src/shared/clients/cloudformation_client.py:34-52 | one `list_stacks` call; the answer is the stack-filtered summary scan of its pages |
| CloudformationClient.StackExists | src/shared/clients/cloudformation_client.py:78-87 | one `list_stacks` call; the answer is whether the summary scan found a stack |
| CloudformationClient.StackExistsIff | src/shared/clients/cloudformation_client.py:78-87 | on listings whose stacks all have name and status, a stack exists exactly when a listed stack has the name and is not DELETE_COMPLETE |
| CloudformationClient.StackWithoutStatus | src/shared/clients/cloudformation_client.py:50 | a first stack without a status makes the filter raise KeyError |
| CloudformationClient.StackSummaryExample | src/shared/clients/test/test_cloudformation_client.py:39-62 | of two live stacks, the one named "stack2" is found |
| CloudformationClient.MapFrom | src/shared/clients/cloudformation_client.py:71-74 | the resource loop fails only with KeyError on a missing resource id |
| CloudformationClient.ResourceMap | src/shared/clients/cloudformation_client.py:65-76 | the loop filling `resource_map` computes `ResourceMapOf` |
| CloudformationClient.MapFromTable | src/shared/clients/cloudformation_client.py:71-74 | the loop from any position on, started with the map of the resources before it, ends with the map of all of them |
| CloudformationClient.MapFromFails | src/shared/clients/cloudformation_client.py:71-74 | a loop that succeeds met no resource without both ids |
| CloudformationClient.ResourceMapIsTable | src/shared/clients/cloudformation_client.py:65-76 | the fold succeeds exactly when every resource has both ids, and then maps logical to physical ids, later resources winning |
| CloudformationClient.TableKeys | src/shared/clients/cloudformation_client.py:71-74 | the map's keys are exactly the listed logical ids, whatever the resource status |
| CloudformationClient.TableLast | src/shared/clients/cloudformation_client.py:71-74 | each logical id maps to the physical id of its last listed resource |
| CloudformationClient.TableLookup | src/shared/clients/cloudformation_client.py:71-74 | both of the above: keys are the logical ids, each mapped to its last resource's physical id |
| CloudformationClient.ResourceMapExample | src/shared/clients/test/test_cloudformation_client.py:65-109 | two resources give `{"logical 1": "resource 1", "logical 2": "resource 2"}` |
| CloudformationClient.GetStackResourceMapping | src/shared/clients/cloudformation_client.py:54-76 | the summary lookup, `summary["StackId"]` (TypeError on no stack, KeyError without an id), the listing and the fold, as `ResourceMappingRun` |
| CloudformationClient.ResourceMappingListsById | src/shared/clients/cloudformation_client.py:63-69 | for a found stack the resources are listed by its StackId and folded into the logical-to-physical map |
| CloudformationClient.DeployStack | src/shared/clients/cloudformation_client.py:100-153 | the existence check, the create or update call, the exception handler and the wait, as `DeployStackRun` |
| CloudformationClient.DeployChoosesCall | src/shared/clients/cloudformation_client.py:117-135 | an existing live stack is updated and otherwise created, with the stack name, template and parameters unchanged |
| CloudformationClient.DeployOutcomes | src/shared/clients/cloudformation_client.py:129-151 | "No updates are to be performed." ends without a wait, any other deploy error is re-raised, and success is followed by one wait on the matching waiter with delay 5 and at most 60 attempts |
| CloudformationClient.DeployListingFails | src/shared/clients/cloudformation_client.py:129-142 | an error of the existence check sits inside the `try`: the no-updates message is absorbed there too, others are re-raised |
| CloudformationClient.DeployExamples | src/shared/clients/test/test_cloudformation_client.py:140-244 | "stack2" is created when the listing holds another stack and updated when it holds "stack2", followed by the matching wait |
| Cloudformation.DeployStack | src/shared/clients/cloudformation.py:21-55 | the older revision with the existence check before the `try`, as its `DeployStackRun` |
| Cloudformation.RevisionsAgree | src/shared/clients/cloudformation.py:23-44 | both revisions make the same calls; they differ only when the existence check fails with the no-updates message, which only the newer one absorbs |
| Cloudformation.DeployOutcomes | src/shared/clients/cloudformation.py:33-53 | the deploy call's no-updates error ends without a wait, others are re-raised, and success waits with delay 5 and at most 60 attempts |
| DeployOld.StackId | deploy/deploy_old.py:24-33 | the nested search loop with early return computes `StackIdFrom` after one `list_stacks` call |
| DeployOld.StackIdFirst | deploy/deploy_old.py:24-33 | None means no live stack has the name; an id is the StackId of the first live stack of the name in page order; on well-formed listings the search does not raise |
| DeployOld.StackExists | deploy/deploy_old.py:36-37 | one `list_stacks` call; a stack exists when `stack_id` is not None |
| DeployOld.StackExistsRevisions | deploy/deploy_old.py:36-37 | on listings whose live stacks of the name have ids, the old check agrees with the client's `_stack_exists` |
| DeployOld.DeployStack | deploy/deploy_old.py:40-76 | the old deployment, as its `DeployStackRun` |
| DeployOld.DeployOutcomes | deploy/deploy_old.py:42-74 | update for a live stack, otherwise create; the no-updates message returns without a wait, other errors are re-raised, success waits with delay 5 and at most 60 attempts |
| DeployOld.DeployStackParameters | deploy/deploy_old.py:56-58 | every deploy call the old deployment makes carries one parameter per item of the mapping, in order |
| DeployOld.RenderFlowResources | deploy/deploy_old.py:79-91 | the main stack's id by `stack_id`, its resources listed by that id, then the fold into `resources` |
| DeployOld.RenderMapsResources | deploy/deploy_old.py:81-91 | the resources are listed by the main stack's id and, when well formed, mapped logical to physical |
| DeployOld.PhoneNumbersOf | deploy/deploy_old.py:109-126 | one slot per requested number; a filled slot holds a listed summary with that number |
| DeployOld.PhoneNumbers | deploy/deploy_old.py:109-126 | the copied scan loop computes `PhoneNumbersOf` |
| DeployOld.ContactFlowsOf | deploy/deploy_old.py:129-152 | a list of names gets one slot per name and a single name its one slot; a filled slot holds a listed flow of that name |
| DeployOld.ContactFlows | deploy/deploy_old.py:129-152 | the copied scan loop computes `ContactFlowsOf` |
| DeployOld.Pop | deploy/deploy_old.py:183-184 | `dict.pop` fails with KeyError exactly when the key is absent, and otherwise returns its value and the items without that entry |
| DeployOld.PopRemoves | deploy/deploy_old.py:183-184 | after a pop the key is gone, every other item remains and exactly one entry is removed |
| DeployOld.Deploy | deploy/deploy_old.py:179-200 | the pops, the main stack's deployment, the resource map and the flow stack's deployment, as `DeployRun` |
| DeployOld.DeployStacksParameters | deploy/deploy_old.py:191-200 | both stack deployments use the same parameters |
| DeployOld.DeployPopsNumbers | deploy/deploy_old.py:183-200 | PrivateNumber and PublicNumber are removed before either stack is deployed, every other item is kept, and every deploy call carries exactly the remaining items |
| DeployOld.DeployNeedsNumbers | deploy/deploy_old.py:183 | without PrivateNumber the deployment raises KeyError before any call |
| DeployFirst.StackExists | deploy/deploy.py:12-21 | the nested search loop with early return computes `StackExistsFrom` after one `list_stacks` call |
| DeployFirst.NamedInIff | deploy/deploy.py:12-21 | when every stack has a name, the existence test holds exactly when some listed stack has the name, whatever its status |
| DeployFirst.DeletedStackCounts | deploy/deploy.py:18 | a deleted stack of the name counts as existing here but not for the later revisions |
| DeployFirst.Deploy | deploy/deploy.py:23-58 | the first deployment, as its `DeployRun` |
| DeployFirst.DeployOutcomes | deploy/deploy.py:31-56 | "sicq-demo-stack" is updated when listed, otherwise created, with one parameter per item; every ClientError ends without error or wait, any other error is re-raised; success waits with delay 5 and at most 100 attempts |
| Deploy.CamelTokens | src/deploy/deploy.py:27-29 | spacing and splitting a concatenation of upper camel case words gives back the words |
| Deploy.DecomposeCamel | src/deploy/deploy.py:27-31 | a name of camel case words stands for the field of all words but the last, lower-cased and joined by "_", and the last word as attribute |
| Deploy.DecomposeFails | src/deploy/deploy.py:27-29 | unpacking fails with ValueError exactly for a name of whitespace only |
| Deploy.TwoWordName | src/deploy/deploy.py:27-31 | a two-word name is the first word lower-cased as field and the second as attribute |
| Deploy.ThreeWordName | src/deploy/deploy.py:27-31 | a three-word name is the first two words lower-cased and joined by "_" as field and the third as attribute |
| Deploy.InstanceArnName | src/deploy/deploy.py:26-31 | "InstanceArn" is field "instance" with attribute "Arn" |
| Deploy.PrivateNumberArnName | src/deploy/deploy.py:26-31 | "PrivateNumberArn" is field "private_number" with attribute "Arn" |
| Deploy.PublicNumberArnName | src/deploy/deploy.py:26-31 | "PublicNumberArn" is field "public_number" with attribute "Arn" |
| Deploy.MatchedKey | src/deploy/deploy.py:35-38 | the attribute becomes the first key of the field that ends with it, and stays as it is when none does |
| Deploy.MatchAttribute | src/deploy/deploy.py:35-38 | the `for … break` loop over the keys computes `MatchedKey` |
| Deploy.Get | src/deploy/deploy.py:42 | `field[key]` succeeds exactly when the key is present, with the value of its first entry, and otherwise raises KeyError |
| Deploy.ValueOfField | src/deploy/deploy.py:32-42 | a name whose field exists is bound to the value of the field's first key ending with the attribute, and fails with KeyError when no key does |
| Deploy.ValueOfUnknownField | src/deploy/deploy.py:32 | a field name other than instance, private_number and public_number fails with AttributeError |
| Deploy.OneWordName | src/deploy/deploy.py:27-32 | a one-token name asks for the field "" and fails with AttributeError |
| Deploy.BindAllOk | src/deploy/deploy.py:24-45 | binding succeeds exactly when every declared name can be bound, and then yields one parameter per name, in order, keyed by the name |
| Deploy.BindAllFails | src/deploy/deploy.py:24-45 | a failed binding fails with the error of the first name that cannot be bound |
| Deploy.BindParameter | src/deploy/deploy.py:27-42 | the loop body computes the value a name is bound to |
| Deploy.CreateStackParameters | src/deploy/deploy.py:17-45 | one `validate_template` call, then the appending loop, as `ParametersRun` |
| Deploy.DeployStack | src/deploy/deploy.py:48-57 | the binding, then the client's deployment with the bound parameters, as `DeployStackRun` |
| Deploy.DeployStackBinds | src/deploy/deploy.py:48-57 | a failed binding stops before any stack call; otherwise the deploy call carries one parameter per declared name, in order, with its bound value |
| Deploy.InstanceArnValue | src/deploy/test/test_deploy.py:25-38 | "InstanceArn" is bound to "instance arn" |
| Deploy.PrivateNumberArnValue | src/deploy/test/test_deploy.py:25-38 | "PrivateNumberArn" is bound to "private arn" through the key "PhoneNumberArn" |
| Deploy.PublicNumberArnValue | src/deploy/test/test_deploy.py:25-38 | "PublicNumberArn" is bound to "public arn" through the key "PhoneNumberArn" |
| Deploy.TestParameters | src/shared/test_helpers/helpers.py:90-94 | the three declared names are bound to the three expected parameters, in order |

## Left out

- Shared.FilePath: the path is a sequence of segments. pathlib's `joinpath` semantics are not modelled: an absolute name replacing the directory, or a name containing "/" adding segments.
- TemplatiseOld.Render: `repr()` of a string is modelled by its choice of quote only. Python's backslash escapes, of control characters and of a string holding both kinds of quote, are not modelled.
- File and JSON I/O, dotenv and template reading: `json.load`/`json.dump`, `read_file`/`write_file`, `read_parameters`, `Path.read_text` and the export scripts. Documents, templates and dotenv mappings are inputs.
- jinja2 rendering (deploy/deploy_old.py:94-106, export/templatise.py:67-72): the engine is a foreign library. `templatise` in export/templatise.py is the flow loop around that rendering.
- The boto3 service and waiter internals. Answers come from the oracle; the waiter's polling, including its attempt bound, is the oracle's `wait` outcome.
- Provider.Client.ListAllStacks, DeployOld.StackId, DeployFirst.StackExists: the stack listing is one call that yields every page or fails as a whole. boto3's paginator fetches pages lazily, so when a later page fails `stack_id` and `stack_exists` can still return a match found on an earlier page, where the model fails. The model also does not capture how many page requests are made.
- `paginate_args`: `_get_summary` never forwards it to `paginate()`, so a listing call carries no arguments in the model either.
- `_get_summary`'s `list_function` and `top_level_key` arguments: a listing is the sequence of pages' summaries under that key.
- `assign_numbers` (deploy/deploy_old.py:155-176): Connect SDK calls over the scan results.
- `deploy` in src/deploy/deploy.py:60-74: it only combines the Connect client's phone-number lookup with `deploy_stack`. `deploy_stack` is modelled; the Connect client is not part of this model.
- `instance_config.__getattribute__` is modelled for the configuration's three fields only; Python attributes other than those three are not modelled.
- The richer `deploy_stack` asserted at src/deploy/test/test_deploy.py:41-67 and the `CallerId` default at src/shared/test/test_utils.py:25 have no code in the modelled files.
- The Connect, SQS and S3 client wrappers, logging, diagram generation, the Lambda handlers and the setup, teardown and outbound scripts: thin SDK plumbing.
- Text.Upper, Text.Lower, Text.LowerStr: case mapping is ASCII only; Python's `str.upper`/`str.lower` map all Unicode letters.
- Dafny has no regular expressions, so `re.sub(r"([A-Z])", r" \1", …)` is modelled directly and matches ASCII capitals only.
- Dict keys are assumed unique in the dotenv items; `DeployOld.PopRemoves` and `DeployOld.DeployPopsNumbers` state it as a hypothesis.
- Templatise.ReplaceWalk: proved for maps none of whose string keys starts like a placeholder. Without that, a placeholder just written could itself be a collected id.
- Templatise.ReplaceFromRoot: proved under the same hypothesis on the map.
- Templatise.TemplatiseFlowMeaning: proved under the same hypothesis on the map.
- TemplatiseOld.OldReplaceClears: proved under the same hypothesis on the map.
- TemplatiseOld.OldReplaceIdempotent: proved under the same hypothesis on the map.
- AwsClient.GetSummaryNoBreak: the exact slots are stated only when the counter cannot reach the number of values. With an early exit only the soundness of `GetSummarySound` and the examples are stated.
- DeployOld.StackExistsRevisions: proved for listings where every live stack of the name has a StackId, the case in which `stack_id` cannot raise.
- Templatise.Collect and CloudformationClient.MapFrom: their own contracts only bound the errors; their meaning is stated by `UpdateWalkCollects` and `ResourceMapIsTable`.
