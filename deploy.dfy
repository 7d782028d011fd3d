/** The current deployment script (src/deploy/deploy.py): each parameter a template
    declares is bound to a value of the instance configuration, found through its upper
    camel case name (`PublicNumberArn` is the key ending in `Arn` of the `public_number`
    summary), and the stack is deployed with the bound parameters. */
module Deploy {
  import opened Wrappers
  import opened Text
  import opened Provider
  import Utils
  import CloudformationClient
  import Lookup

  /** A Connect summary record: its keys with their values, in key order. */
  type Record = Utils.Summary

  // ----- name decomposition -------------------------------------------------------------

  /** `re.sub(r"([A-Z])", r" \1", s)`: a space before every ASCII upper-case letter. */
  function Spaced(s: string): string
    decreases |s|
  {
    if s == [] then [] else (if IsAsciiUpper(s[0]) then [' ', s[0]] else [s[0]]) + Spaced(s[1..])
  }

  /** The tokens a declared name is split into: `re.sub(…).split()`. */
  function NameTokens(key: string): seq<string> {
    SplitWhitespace(Spaced(key))
  }

  /** `"_".join([token.lower() for token in tokens])`. */
  function FieldName(tokens: seq<string>): string {
    Join(seq(|tokens|, i requires 0 <= i < |tokens| => LowerStr(tokens[i])), "_")
  }

  /** `*name_tokens, attribute = …`: the field name and the attribute a declared name
      stands for; unpacking a name without tokens raises ValueError. */
  function Decompose(key: string): Result<(string, string)> {
    var tokens := NameTokens(key);
    if tokens == [] then Err(ValueError)
    else Ok((FieldName(tokens[..|tokens| - 1]), tokens[|tokens| - 1]))
  }

  lemma {:induction false} SpacedAppend(a: string, b: string)
    ensures Spaced(a + b) == Spaced(a) + Spaced(b)
    decreases |a|
  {
    if a != [] {
      assert (a + b)[0] == a[0] && (a + b)[1..] == a[1..] + b;
      SpacedAppend(a[1..], b);
      var head := if IsAsciiUpper(a[0]) then [' ', a[0]] else [a[0]];
      assert Spaced(a) == head + Spaced(a[1..]);
      assert Spaced(a + b) == head + Spaced(a[1..] + b);
      assert Spaced(a + b) == head + (Spaced(a[1..]) + Spaced(b));
      assert head + (Spaced(a[1..]) + Spaced(b)) == (head + Spaced(a[1..])) + Spaced(b);
    } else {
      assert a + b == b;
    }
  }

  /** An upper camel case word: an upper-case letter, then characters that are neither
      upper-case letters nor whitespace. */
  predicate CamelWord(w: string) {
    w != [] && IsAsciiUpper(w[0]) && forall i :: 1 <= i < |w| ==> !IsAsciiUpper(w[i]) && !IsSpace(w[i])
  }

  lemma {:induction false} SpacedPlain(s: string)
    requires forall i :: 0 <= i < |s| ==> !IsAsciiUpper(s[i])
    ensures Spaced(s) == s
    decreases |s|
  {
    if s != [] {
      SpacedPlain(s[1..]);
    }
  }

  lemma SpacedWord(w: string)
    requires CamelWord(w)
    ensures Spaced(w) == [' '] + w
  {
    SpacedPlain(w[1..]);
  }

  lemma {:induction false} WordOf(w: string, rest: string)
    requires w != [] && forall i :: 0 <= i < |w| ==> !IsSpace(w[i])
    requires rest == [] || IsSpace(rest[0])
    ensures Word(w + rest) == w
    decreases |w|
  {
    assert (w + rest)[1..] == w[1..] + rest;
    if |w| > 1 {
      WordOf(w[1..], rest);
    }
  }

  /** After a space, an upper camel case word followed by nothing or by whitespace is the
      next token. */
  lemma SplitAfterSpace(w: string, rest: string)
    requires CamelWord(w) && (rest == [] || IsSpace(rest[0]))
    ensures SplitWhitespace([' '] + w + rest) == [w] + SplitWhitespace(rest)
  {
    assert [' '] + w + rest == [' '] + (w + rest);
    SkipSpace(' ', w + rest);
    assert !IsSpace(w[0]);
    WordOf(w, rest);
    TakeWord(w + rest, |w|);
    assert (w + rest)[|w|..] == rest;
  }

  lemma SkipSpace(c: char, t: string)
    requires IsSpace(c)
    ensures SplitWhitespace([c] + t) == SplitWhitespace(t)
  {
    assert ([c] + t)[1..] == t;
  }

  lemma TakeWord(s: string, n: nat)
    requires s != [] && !IsSpace(s[0]) && n == |Word(s)|
    ensures SplitWhitespace(s) == [Word(s)] + SplitWhitespace(s[n..])
  {
  }

  /** Spacing a concatenation of upper camel case words yields nothing or starts with a
      space. */
  lemma SpacedWordsStart(words: seq<string>)
    requires forall k :: 0 <= k < |words| ==> CamelWord(words[k])
    ensures Spaced(Concat(words)) == [] || IsSpace(Spaced(Concat(words))[0])
  {
    if words != [] {
      assert Concat(words) == words[0] + Concat(words[1..]);
      SpacedAppend(words[0], Concat(words[1..]));
      SpacedWord(words[0]);
    }
  }

  /** Splitting a concatenation of upper camel case words recovers the words. */
  lemma {:induction false} CamelTokens(words: seq<string>)
    requires forall k :: 0 <= k < |words| ==> CamelWord(words[k])
    ensures NameTokens(Concat(words)) == words
    decreases |words|
  {
    if words != [] {
      var w, tail := words[0], words[1..];
      assert forall k :: 0 <= k < |tail| ==> tail[k] == words[k + 1];
      CamelTokens(tail);
      var rest := Spaced(Concat(tail));
      SpacedWordsStart(tail);
      assert Concat(words) == w + Concat(tail);
      SpacedAppend(w, Concat(tail));
      SpacedWord(w);
      assert Spaced(Concat(words)) == [' '] + w + rest;
      SplitAfterSpace(w, rest);
      assert words == [w] + tail;
    }
  }

  /** A name made of upper camel case words stands for the field named by all words but
      the last, lower-cased and joined by "_", and for the last word as the attribute. */
  lemma DecomposeCamel(words: seq<string>)
    requires words != [] && forall k :: 0 <= k < |words| ==> CamelWord(words[k])
    ensures Decompose(Concat(words)) == Ok((FieldName(words[..|words| - 1]), words[|words| - 1]))
  {
    CamelTokens(words);
  }

  lemma {:induction false} RemoveSpacesAppend(a: string, b: string)
    ensures RemoveSpaces(a + b) == RemoveSpaces(a) + RemoveSpaces(b)
    decreases |a|
  {
    if a != [] {
      assert (a + b)[0] == a[0] && (a + b)[1..] == a[1..] + b;
      RemoveSpacesAppend(a[1..], b);
      var head: string := if IsSpace(a[0]) then [] else [a[0]];
      assert RemoveSpaces(a) == head + RemoveSpaces(a[1..]);
      assert RemoveSpaces(a + b) == head + RemoveSpaces(a[1..] + b);
      assert RemoveSpaces(a + b) == head + (RemoveSpaces(a[1..]) + RemoveSpaces(b));
      assert head + (RemoveSpaces(a[1..]) + RemoveSpaces(b)) == (head + RemoveSpaces(a[1..])) + RemoveSpaces(b);
    } else {
      assert a + b == b;
    }
  }

  lemma {:induction false} RemoveSpacesSpaced(s: string)
    ensures RemoveSpaces(Spaced(s)) == RemoveSpaces(s)
    decreases |s|
  {
    if s != [] {
      var head := if IsAsciiUpper(s[0]) then [' ', s[0]] else [s[0]];
      RemoveSpacesAppend(head, Spaced(s[1..]));
      RemoveSpacesSpaced(s[1..]);
      assert RemoveSpaces(head) == RemoveSpaces([s[0]]) by {
        if IsAsciiUpper(s[0]) {
          assert head == [' '] + [s[0]];
          RemoveSpacesAppend([' '], [s[0]]);
        }
      }
      RemoveSpacesAppend([s[0]], s[1..]);
      assert s == [s[0]] + s[1..];
    }
  }

  lemma {:induction false} RemoveSpacesEmpty(s: string)
    ensures RemoveSpaces(s) == [] <==> forall i :: 0 <= i < |s| ==> IsSpace(s[i])
    decreases |s|
  {
    if s != [] {
      RemoveSpacesEmpty(s[1..]);
      assert forall i :: 1 <= i < |s| ==> s[i] == s[1..][i - 1];
    }
  }

  /** Unpacking fails exactly for a name made of whitespace only (the empty name
      included). */
  lemma DecomposeFails(key: string)
    ensures Decompose(key).Err? <==> forall i :: 0 <= i < |key| ==> IsSpace(key[i])
    ensures Decompose(key).Err? ==> Decompose(key).error == ValueError
  {
    var tokens := NameTokens(key);
    SplitWhitespaceConcat(Spaced(key));
    RemoveSpacesSpaced(key);
    RemoveSpacesEmpty(key);
    if tokens != [] {
      assert tokens[0] in tokens;
      assert Concat(tokens) == tokens[0] + Concat(tokens[1..]);
    }
  }

  // ----- field and attribute lookup -----------------------------------------------------

  /** `instance_config.__getattribute__(name)` for the configuration's three fields. */
  function FieldOf(config: Utils.InstanceConfig, name: string): Result<Record> {
    if name == "instance" then Ok(config.instance)
    else if name == "private_number" then Ok(config.privateNumber)
    else if name == "public_number" then Ok(config.publicNumber)
    else Err(AttributeError(name))
  }

  /** Key `i` is the first key of the record that ends with the attribute. */
  predicate FirstEnding(field: Record, attribute: string, i: int) {
    0 <= i < |field| && EndsWith(field[i].0, attribute)
    && forall j :: 0 <= j < i ==> !EndsWith(field[j].0, attribute)
  }

  /** The attribute after the `for … break` loop over the record's keys. */
  function MatchedKey(field: Record, attribute: string): (k: string)
    ensures (forall i :: 0 <= i < |field| ==> !EndsWith(field[i].0, attribute)) ==> k == attribute
    ensures (exists i :: 0 <= i < |field| && EndsWith(field[i].0, attribute)) ==>
      exists i :: FirstEnding(field, attribute, i) && k == field[i].0
    decreases |field|
  {
    if field == [] then attribute
    else if EndsWith(field[0].0, attribute) then (assert FirstEnding(field, attribute, 0); field[0].0)
    else
      var k := MatchedKey(field[1..], attribute);
      assert forall i :: 1 <= i < |field| ==> field[i] == field[1..][i - 1];
      assert (exists i :: 0 <= i < |field[1..]| && EndsWith(field[1..][i].0, attribute)) ==>
        exists i :: FirstEnding(field[1..], attribute, i) && FirstEnding(field, attribute, i + 1) && k == field[i + 1].0;
      k
  }

  /** The suffix loop: the first key, in the record's order, that ends with the attribute;
      the attribute itself when no key does. */
  method MatchAttribute(field: Record, attribute: string) returns (key: string)
    ensures key == MatchedKey(field, attribute)
  {
    key := attribute;
    assert field[0..] == field;
    for i := 0 to |field|
      invariant MatchedKey(field, attribute) == MatchedKey(field[i..], attribute)
    {
      assert field[i..][0] == field[i] && field[i..][1..] == field[i + 1..];
      if EndsWith(field[i].0, attribute) {
        return field[i].0;
      }
    }
    assert field[|field|..] == [];
  }

  /** `field[key]`: the value of the key, KeyError when the record lacks it. */
  function Get(field: Record, key: string): (r: Result<string>)
    ensures r.Ok? <==> exists i :: 0 <= i < |field| && field[i].0 == key
    ensures r.Ok? ==> exists i :: (0 <= i < |field| && field[i] == (key, r.value)
      && forall j :: 0 <= j < i ==> field[j].0 != key)
    ensures r.Err? ==> r.error == KeyError(key)
  {
    if Lookup.HasKey(field, key) then Ok(Lookup.Get(field, key)) else Err(KeyError(key))
  }

  /** The value a declared parameter is bound to. */
  function ValueOf(config: Utils.InstanceConfig, key: string): Result<string> {
    var d :- Decompose(key);
    var field :- FieldOf(config, d.0);
    Get(field, MatchedKey(field, d.1))
  }

  /** A name whose field exists is bound to the value of the first key of that field ending
      with the attribute; when no key ends with it the lookup raises KeyError of the
      attribute. */
  lemma ValueOfField(config: Utils.InstanceConfig, key: string)
    requires Decompose(key).Ok? && FieldOf(config, Decompose(key).value.0).Ok?
    ensures var field := FieldOf(config, Decompose(key).value.0).value;
      var attribute := Decompose(key).value.1;
      && (forall i :: FirstEnding(field, attribute, i) ==> ValueOf(config, key) == Ok(field[i].1))
      && ((forall i :: 0 <= i < |field| ==> !EndsWith(field[i].0, attribute)) ==>
            ValueOf(config, key) == Err(KeyError(attribute)))
  {
    var field := FieldOf(config, Decompose(key).value.0).value;
    var attribute := Decompose(key).value.1;
    forall i | FirstEnding(field, attribute, i)
      ensures ValueOf(config, key) == Ok(field[i].1)
    {
      var k := MatchedKey(field, attribute);
      var i' :| FirstEnding(field, attribute, i') && k == field[i'].0;
      assert i' == i;
      var r := Get(field, k);
      var j :| 0 <= j < |field| && field[j] == (k, r.value) && forall j' :: 0 <= j' < j ==> field[j'].0 != k;
      assert j == i;
    }
  }

  /** A name that does not name one of the three fields fails with AttributeError; a
      one-word name, whose field name is empty, always does. */
  lemma ValueOfUnknownField(config: Utils.InstanceConfig, key: string)
    requires Decompose(key).Ok?
    requires Decompose(key).value.0 !in {"instance", "private_number", "public_number"}
    ensures ValueOf(config, key) == Err(AttributeError(Decompose(key).value.0))
  {
  }

  lemma OneWordName(config: Utils.InstanceConfig, key: string)
    requires |NameTokens(key)| == 1
    ensures ValueOf(config, key) == Err(AttributeError(""))
  {
    var tokens := NameTokens(key);
    assert tokens[..0] == [];
    assert FieldName([]) == "";
  }

  // ----- create_stack_parameters ----------------------------------------------------------

  /** The parameters bound to the declared names, one per name in declaration order; the
      first name that cannot be bound raises its error. */
  function BindAll(config: Utils.InstanceConfig, keys: seq<string>): Result<seq<Parameter>>
    decreases |keys|
  {
    if keys == [] then Ok([])
    else
      var v :- ValueOf(config, keys[0]);
      var rest :- BindAll(config, keys[1..]);
      Ok([Parameter(keys[0], v)] + rest)
  }

  /** Binding succeeds exactly when every declared name can be bound, and it then yields
      one parameter per name, in order, keyed by the name and valued as bound. */
  lemma {:induction false} BindAllOk(config: Utils.InstanceConfig, keys: seq<string>)
    ensures BindAll(config, keys).Ok? <==> forall i :: 0 <= i < |keys| ==> ValueOf(config, keys[i]).Ok?
    ensures BindAll(config, keys).Ok? ==>
      var ps := BindAll(config, keys).value;
      |ps| == |keys| && forall i :: 0 <= i < |keys| ==> ps[i] == Parameter(keys[i], ValueOf(config, keys[i]).value)
    decreases |keys|
  {
    if keys != [] {
      var tail, v := keys[1..], ValueOf(config, keys[0]);
      assert BindAll(config, keys)
        == if v.Err? then Err(v.error) else Prepend([Parameter(keys[0], v.value)], BindAll(config, tail));
      BindAllOk(config, tail);
      assert forall i :: 1 <= i < |keys| ==> keys[i] == tail[i - 1];
    }
  }

  /** A binding that fails fails with the error of the first name that cannot be bound. */
  lemma {:induction false} BindAllFails(config: Utils.InstanceConfig, keys: seq<string>)
    requires BindAll(config, keys).Err?
    ensures exists i :: (0 <= i < |keys| && FirstUnbound(config, keys, i)
      && BindAll(config, keys) == Err(ValueOf(config, keys[i]).error))
    decreases |keys|
  {
    var tail := keys[1..];
    if ValueOf(config, keys[0]).Err? {
      assert FirstUnbound(config, keys, 0);
    } else {
      BindAllFails(config, tail);
      var i :| 0 <= i < |tail| && FirstUnbound(config, tail, i)
        && BindAll(config, tail) == Err(ValueOf(config, tail[i]).error);
      assert forall j :: 1 <= j < |keys| ==> keys[j] == tail[j - 1];
      assert FirstUnbound(config, keys, i + 1);
    }
  }

  /** Name `i` is the first that cannot be bound. */
  predicate FirstUnbound(config: Utils.InstanceConfig, keys: seq<string>, i: int) {
    0 <= i < |keys| && ValueOf(config, keys[i]).Err?
    && forall j :: 0 <= j < i ==> ValueOf(config, keys[j]).Ok?
  }

  /** `ps` put before the parameters of a binding that succeeds. */
  function Prepend(ps: seq<Parameter>, r: Result<seq<Parameter>>): Result<seq<Parameter>> {
    if r.Ok? then Ok(ps + r.value) else r
  }

  /** One step of the loop: binding from name `i` on is binding name `i`, then the rest. */
  lemma BindStep(config: Utils.InstanceConfig, keys: seq<string>, i: nat, ps: seq<Parameter>)
    requires i < |keys|
    ensures ValueOf(config, keys[i]).Err? ==>
      Prepend(ps, BindAll(config, keys[i..])) == Err(ValueOf(config, keys[i]).error)
    ensures ValueOf(config, keys[i]).Ok? ==>
      Prepend(ps, BindAll(config, keys[i..])) ==
        Prepend(ps + [Parameter(keys[i], ValueOf(config, keys[i]).value)], BindAll(config, keys[i + 1..]))
  {
    assert keys[i..][0] == keys[i] && keys[i..][1..] == keys[i + 1..];
    var r := BindAll(config, keys[i + 1..]);
    if ValueOf(config, keys[i]).Ok? && r.Ok? {
      var p := Parameter(keys[i], ValueOf(config, keys[i]).value);
      assert ps + ([p] + r.value) == ps + [p] + r.value;
    }
  }

  /** The body of the parameter loop: the declared name is split, its field looked up,
      the attribute matched against the field's keys, and the matched key looked up. */
  method BindParameter(config: Utils.InstanceConfig, key: string) returns (r: Result<string>)
    ensures r == ValueOf(config, key)
  {
    var tokens := NameTokens(key);
    if tokens == [] {
      return Err(ValueError);
    }
    var attribute := tokens[|tokens| - 1];
    var field := FieldOf(config, FieldName(tokens[..|tokens| - 1]));
    if field.Err? {
      return Err(field.error);
    }
    attribute := MatchAttribute(field.value, attribute);
    r := Get(field.value, attribute);
  }

  /** A step of `create_stack_parameters`: its outcome and the call log after it. */
  datatype BindRun = BindRun(outcome: Result<seq<Parameter>>, calls: seq<Call>)

  /** `create_stack_parameters`: the template is validated, and the names it declares are
      bound. */
  function ParametersRun(o: Oracle, h: seq<Call>, config: Utils.InstanceConfig, template: string): BindRun {
    var h1 := h + [ValidateTemplate(template)];
    var declared := o.validateTemplate(h1);
    BindRun(if declared.Err? then Err(declared.error) else BindAll(config, declared.value), h1)
  }

  method CreateStackParameters(client: Client, config: Utils.InstanceConfig, template: string)
    returns (r: Result<seq<Parameter>>)
    modifies client
    ensures BindRun(r, client.calls) == ParametersRun(client.oracle, old(client.calls), config, template)
  {
    var declared := client.Validate(template);
    if declared.Err? {
      return Err(declared.error);
    }
    var keys := declared.value;
    var parameters: seq<Parameter> := [];
    assert keys[0..] == keys;
    assert Prepend([], BindAll(config, keys)) == BindAll(config, keys) by {
      if BindAll(config, keys).Ok? {
        assert [] + BindAll(config, keys).value == BindAll(config, keys).value;
      }
    }
    for i := 0 to |keys|
      invariant client.calls == old(client.calls) + [ValidateTemplate(template)]
      invariant BindAll(config, keys) == Prepend(parameters, BindAll(config, keys[i..]))
    {
      var key := keys[i];
      var value := BindParameter(config, key);
      BindStep(config, keys, i, parameters);
      if value.Err? {
        return Err(value.error);
      }
      parameters := parameters + [Parameter(key, value.value)];
    }
    assert keys[|keys|..] == [];
    assert parameters + [] == parameters;
    r := Ok(parameters);
  }

  // ----- deploy_stack ---------------------------------------------------------------------

  /** `deploy_stack`: the parameters are bound, then the stack is deployed with them by the
      CloudFormation client. */
  function DeployStackRun(o: Oracle, h: seq<Call>, stackConfig: Utils.StackConfig,
                          config: Utils.InstanceConfig, template: string): Run
  {
    var p := ParametersRun(o, h, config, template);
    if p.outcome.Err? then Run(Err(p.outcome.error), p.calls)
    else CloudformationClient.DeployStackRun(o, p.calls, stackConfig, template, p.outcome.value)
  }

  method DeployStack(client: Client, stackConfig: Utils.StackConfig, config: Utils.InstanceConfig,
                     template: string) returns (r: Result<()>)
    modifies client
    ensures Run(r, client.calls) == DeployStackRun(client.oracle, old(client.calls), stackConfig, config, template)
  {
    var parameters := CreateStackParameters(client, config, template);
    if parameters.Err? {
      return Err(parameters.error);
    }
    r := CloudformationClient.DeployStack(client, stackConfig, template, parameters.value);
  }

  /** The template is validated first; a binding failure ends the deployment before
      anything is listed or deployed; otherwise, over a well-formed listing, the stack is
      created or updated with the bound parameters, one per declared name in order. */
  lemma DeployStackBinds(o: Oracle, h: seq<Call>, stackConfig: Utils.StackConfig,
                         config: Utils.InstanceConfig, template: string)
    requires o.validateTemplate(h + [ValidateTemplate(template)]).Ok?
    ensures var keys := o.validateTemplate(h + [ValidateTemplate(template)]).value;
      BindAll(config, keys).Err? ==>
        DeployStackRun(o, h, stackConfig, config, template) ==
          Run(Err(BindAll(config, keys).error), h + [ValidateTemplate(template)])
    ensures var keys := o.validateTemplate(h + [ValidateTemplate(template)]).value;
      var h1 := h + [ValidateTemplate(template)];
      var listing := o.listStacks(h1 + [ListStacks]);
      BindAll(config, keys).Ok? && listing.Ok? && CloudformationClient.StacksWellFormed(AwsClient.Flatten(listing.value)) ==>
        var ps := BindAll(config, keys).value;
        var calls := DeployStackRun(o, h, stackConfig, config, template).calls;
        && |ps| == |keys|
        && (forall i :: 0 <= i < |keys| ==> ps[i].key == keys[i] && ValueOf(config, keys[i]) == Ok(ps[i].value))
        && |calls| >= |h| + 3
        && calls[..|h| + 3] == h + [ValidateTemplate(template), ListStacks,
             DeployCall(exists s :: s in AwsClient.Flatten(listing.value) && CloudformationClient.Live(s, stackConfig.stackName),
                        stackConfig.stackName, template, ps)]
  {
    var keys := o.validateTemplate(h + [ValidateTemplate(template)]).value;
    var h1 := h + [ValidateTemplate(template)];
    BindAllOk(config, keys);
    var listing := o.listStacks(h1 + [ListStacks]);
    if BindAll(config, keys).Ok? && listing.Ok? && CloudformationClient.StacksWellFormed(AwsClient.Flatten(listing.value)) {
      var ps := BindAll(config, keys).value;
      CloudformationClient.DeployChoosesCall(o, h1, stackConfig, template, ps);
      var calls := DeployStackRun(o, h, stackConfig, config, template).calls;
      assert calls[..|h| + 3] == calls[..|h1| + 2];
    }
  }

  // ----- the module's test configuration --------------------------------------------------

  const TestInstance: Record := [("Id", "instance id"), ("Arn", "instance arn")]
  const TestPrivate: Record := [("PhoneNumber", "number 1"), ("PhoneNumberArn", "private arn")]
  const TestPublic: Record := [("PhoneNumber", "number 2"), ("PhoneNumberArn", "public arn")]
  const TestConfig := Utils.InstanceConfig(TestInstance, TestPrivate, TestPublic)

  /** A capitalised ASCII word is an upper camel case word. */
  lemma AsciiWord(w: string)
    requires w != [] && IsAsciiUpper(w[0]) && forall i :: 1 <= i < |w| ==> IsAsciiLower(w[i])
    ensures CamelWord(w)
  {
  }

  lemma TwoWordName(a: string, b: string)
    requires CamelWord(a) && CamelWord(b)
    ensures Decompose(a + b) == Ok((LowerStr(a), b))
  {
    assert Concat([a, b]) == a + b by {
      assert [a, b][1..] == [b] && [b][1..] == [];
      assert Concat([b]) == b + Concat([]);
    }
    DecomposeCamel([a, b]);
    assert [a, b][..1] == [a];
  }

  lemma ThreeWordName(a: string, b: string, c: string)
    requires CamelWord(a) && CamelWord(b) && CamelWord(c)
    ensures Decompose(a + b + c) == Ok((LowerStr(a) + "_" + LowerStr(b), c))
  {
    assert Concat([a, b, c]) == a + b + c by {
      assert [a, b, c][1..] == [b, c] && [b, c][1..] == [c] && [c][1..] == [];
      assert Concat([c]) == c + Concat([]);
      assert Concat([b, c]) == b + Concat([c]);
      assert Concat([a, b, c]) == a + Concat([b, c]);
    }
    DecomposeCamel([a, b, c]);
    assert [a, b, c][..2] == [a, b];
    var lowered := seq(2, i requires 0 <= i < 2 => LowerStr([a, b][i]));
    assert lowered == [LowerStr(a), LowerStr(b)];
    assert lowered[1..] == [LowerStr(b)];
    assert Join(lowered, "_") == LowerStr(a) + "_" + Join([LowerStr(b)], "_");
  }

  lemma InstanceArnName()
    ensures Decompose("InstanceArn") == Ok(("instance", "Arn"))
  {
    AsciiWord("Instance");
    AsciiWord("Arn");
    TwoWordName("Instance", "Arn");
    assert "Instance" + "Arn" == "InstanceArn";
    assert LowerStr("Instance") == "instance";
  }

  lemma PrivateNumberArnName()
    ensures Decompose("PrivateNumberArn") == Ok(("private_number", "Arn"))
  {
    AsciiWord("Private");
    AsciiWord("Number");
    AsciiWord("Arn");
    ThreeWordName("Private", "Number", "Arn");
    assert "Private" + "Number" + "Arn" == "PrivateNumberArn";
    assert LowerStr("Private") + "_" + LowerStr("Number") == "private_number";
  }

  lemma PublicNumberArnName()
    ensures Decompose("PublicNumberArn") == Ok(("public_number", "Arn"))
  {
    AsciiWord("Public");
    AsciiWord("Number");
    AsciiWord("Arn");
    ThreeWordName("Public", "Number", "Arn");
    assert "Public" + "Number" + "Arn" == "PublicNumberArn";
    assert LowerStr("Public") + "_" + LowerStr("Number") == "public_number";
  }

  /** `Arn` selects the key `Arn` of the instance summary and `PhoneNumberArn` (not
      `PhoneNumber`) of a phone-number summary. */
  lemma InstanceArnValue()
    ensures ValueOf(TestConfig, "InstanceArn") == Ok("instance arn")
  {
    InstanceArnName();
    assert FieldOf(TestConfig, "instance") == Ok(TestInstance);
    assert !EndsWith("Id", "Arn") && EndsWith("Arn", "Arn");
    assert FirstEnding(TestInstance, "Arn", 1);
    ValueOfField(TestConfig, "InstanceArn");
  }

  lemma PrivateNumberArnValue()
    ensures ValueOf(TestConfig, "PrivateNumberArn") == Ok("private arn")
  {
    PrivateNumberArnName();
    assert FieldOf(TestConfig, "private_number") == Ok(TestPrivate);
    PhoneNumberArnFirst();
    assert FirstEnding(TestPrivate, "Arn", 1);
    ValueOfField(TestConfig, "PrivateNumberArn");
  }

  lemma PublicNumberArnValue()
    ensures ValueOf(TestConfig, "PublicNumberArn") == Ok("public arn")
  {
    PublicNumberArnName();
    assert FieldOf(TestConfig, "public_number") == Ok(TestPublic);
    PhoneNumberArnFirst();
    assert FirstEnding(TestPublic, "Arn", 1);
    ValueOfField(TestConfig, "PublicNumberArn");
  }

  lemma PhoneNumberArnFirst()
    ensures !EndsWith("PhoneNumber", "Arn") && EndsWith("PhoneNumberArn", "Arn")
  {
    assert "PhoneNumberArn"[11..] == "Arn";
    assert "PhoneNumber"[8..] == "ber";
  }

  lemma BindThree(config: Utils.InstanceConfig, k1: string, v1: string, k2: string, v2: string,
                  k3: string, v3: string)
    requires ValueOf(config, k1) == Ok(v1) && ValueOf(config, k2) == Ok(v2) && ValueOf(config, k3) == Ok(v3)
    ensures BindAll(config, [k1, k2, k3]) == Ok([Parameter(k1, v1), Parameter(k2, v2), Parameter(k3, v3)])
  {
    var keys := [k1, k2, k3];
    var p1, p2, p3 := Parameter(k1, v1), Parameter(k2, v2), Parameter(k3, v3);
    assert keys[0] == k1 && keys[1] == k2 && keys[2] == k3 && keys[0..] == keys && keys[3..] == [];
    BindStep(config, keys, 0, []);
    BindStep(config, keys, 1, [p1]);
    BindStep(config, keys, 2, [p1, p2]);
    assert [] + [p1] == [p1] && [p1] + [p2] == [p1, p2] && [p1, p2] + [p3] == [p1, p2, p3];
    assert Prepend([p1, p2, p3], BindAll(config, keys[3..])) == Ok([p1, p2, p3] + []);
    assert [p1, p2, p3] + [] == [p1, p2, p3];
    if BindAll(config, keys).Ok? {
      assert [] + BindAll(config, keys).value == BindAll(config, keys).value;
    }
  }

  /** The parameters the tests expect for the three declared names. */
  lemma TestParameters()
    ensures BindAll(TestConfig, ["InstanceArn", "PrivateNumberArn", "PublicNumberArn"]) == Ok([
      Parameter("InstanceArn", "instance arn"),
      Parameter("PrivateNumberArn", "private arn"),
      Parameter("PublicNumberArn", "public arn")])
  {
    InstanceArnValue();
    PrivateNumberArnValue();
    PublicNumberArnValue();
    BindThree(TestConfig, "InstanceArn", "instance arn", "PrivateNumberArn", "private arn",
              "PublicNumberArn", "public arn");
  }
}
