/** The older walker of `export/templatise.py`: `build_arn_map` collects the `{id, text}`
    pairs, `replace_arns` rewrites each dict value that is a collected ARN into
    `{{resources['<type>']['<name>']}}`, the type being the ARN's second-to-last "/" part. */
module TemplatiseOld {
  import opened Wrappers
  import opened Text
  import opened Document
  import opened Lookup
  import opened Templatise

  /** `build_arn_map`, proved to build the same map as the newer first pass. */
  method BuildArnMap(node: Node, m: ArnMap) returns (r: Result<ArnMap>)
    ensures r == Collect(node, m)
    decreases node
  {
    if IsIdText(node) {
      var id := Get(node.entries, "id");
      if IsContainer(id) {
        return Err(TypeError);
      }
      return Ok(m[id := Get(node.entries, "text")]);
    }
    if !IsContainer(node) {
      return Ok(m);
    }
    var arns := m;
    for i := 0 to |Children(node)|
      invariant CollectKids(node, 0, m) == CollectKids(node, i, arns)
    {
      var child := Children(node)[i];
      assert child == if node.Dict? then node.entries[i].1 else node.items[i];
      var c := BuildArnMap(child, arns);
      if c.Err? {
        return Err(c.error);
      }
      arns := c.value;
    }
    return Ok(arns);
  }

  /** `value.split("/")[-2]`: the second-to-last "/" part; a value without "/" has only
      one part. */
  function ResourceType(arn: string): (r: Result<string>)
    ensures r.Err? <==> '/' !in arn
    ensures r.Err? ==> r.error == IndexError
    ensures r.Ok? ==> '/' !in r.value
  {
    var pieces := Split(arn, '/');
    SplitPieces(arn, '/');
    if |pieces| < 2 then Err(IndexError) else Ok(pieces[|pieces| - 2])
  }

  lemma SplitPieces(s: string, d: char)
    ensures |Split(s, d)| == 1 <==> d !in s
    ensures forall t :: t in Split(s, d) ==> d !in t
  {
    SplitOnPiecesFree(s, [d]);
    if d in s {
      var j :| 0 <= j < |s| && s[j] == d;
      assert s == s[..j] + [d] + s[j + 1..];
      SplitOnAround(s[..j], d, s[j + 1..], [d]);
    } else {
      SplitOnNoSeparator(s, [d]);
    }
  }

  /** An ARN `<prefix>/<type>/<id>` has type `<type>`. */
  lemma ResourceTypeOf(prefix: string, t: string, id: string)
    requires '/' !in t && '/' !in id
    ensures ResourceType(prefix + "/" + t + "/" + id) == Ok(t)
  {
    assert prefix + "/" + t + "/" + id == (prefix + ['/'] + t) + ['/'] + id;
    SplitOnAround(prefix + ['/'] + t, '/', id, ['/']);
    SplitOnAround(prefix, '/', t, ['/']);
    SplitOnNoSeparator(t, ['/']);
    SplitOnNoSeparator(id, ['/']);
  }

  /** `repr()` of a string: quoted with `'`, or with `"` when it holds a `'` and no `"`. */
  function QuoteRepr(s: string): (r: string)
    ensures |r| == |s| + 2 && r[1..|r| - 1] == s
    ensures r[0] == r[|r| - 1] && (r[0] == '"' <==> '\'' in s && '"' !in s)
  {
    var q := if '\'' in s && '"' !in s then '"' else '\'';
    [q] + s + [q]
  }

  /** `repr()` of a JSON value as Python prints it: strings quoted, other scalars by their
      text, lists as `[a, b]` and dicts as `{'k': v}`, elements by their `repr()`. */
  function Repr(v: Node): string
    decreases v, 1
  {
    match v
    case Str(s) => QuoteRepr(s)
    case Other(text) => text
    case List(items) => "[" + ReprFrom(v, 0) + "]"
    case Dict(entries) => "{" + ReprFrom(v, 0) + "}"
  }

  /** The elements of a container from position `i` on, as `repr()` joins them. */
  function ReprFrom(v: Node, i: nat): string
    requires IsContainer(v) && i <= |Children(v)|
    decreases v, 0, |Children(v)| - i
  {
    if i == |Children(v)| then ""
    else
      var item := if v.Dict? then QuoteRepr(v.entries[i].0) + ": " + Repr(v.entries[i].1) else Repr(v.items[i]);
      (if i == 0 then "" else ", ") + item + ReprFrom(v, i + 1)
  }

  /** The text an f-string gives a display name, Python's `str()`: a string as itself, any
      other scalar by its text, and a list or dict by its `repr()`. It never fails. */
  function Render(v: Node): (r: string)
    ensures v.Str? ==> r == v.s
    ensures v.Other? ==> r == v.text
    ensures v.List? ==> |r| >= 2 && r[0] == '[' && r[|r| - 1] == ']'
    ensures v.Dict? ==> |r| >= 2 && r[0] == '{' && r[|r| - 1] == '}'
  {
    match v
    case Str(s) => s
    case Other(text) => text
    case _ => Repr(v)
  }

  /** A list of one string renders as Python prints it. */
  lemma RenderList()
    ensures Render(List([Str("x")])) == "['x']"
  {
    var v := List([Str("x")]);
    assert QuoteRepr("x") == "'x'";
    assert ReprFrom(v, 1) == "";
    assert ReprFrom(v, 0) == "'x'";
  }

  /** A dict whose value holds a `'` renders with that value in `"` quotes. */
  lemma RenderDict()
    ensures Render(Dict([("k", Str("it's"))])) == "{'k': \"it's\"}"
  {
    var v := Dict([("k", Str("it's"))]);
    assert '\'' !in "k";
    assert QuoteRepr("k") == "'k'";
    assert '\'' in "it's" && '"' !in "it's";
    assert QuoteRepr("it's") == "\"it's\"";
    assert ReprFrom(v, 1) == "";
    assert ReprFrom(v, 0) == "'k': \"it's\"";
  }

  function OldPlaceholder(resourceType: string, name: string): string {
    "{{resources['" + resourceType + "']['" + name + "']}}"
  }

  /** The new value of a dict entry holding a collected ARN. */
  function Rewrite(v: Node, m: ArnMap): (r: Result<Node>)
    requires v.Str? && v in m
    ensures r.Ok? <==> '/' in v.s
    ensures r.Ok? ==> r.value == Str(OldPlaceholder(ResourceType(v.s).value, Render(m[v])))
  {
    var resourceType :- ResourceType(v.s);
    Ok(Str(OldPlaceholder(resourceType, Render(m[v]))))
  }

  /** What `replace_arns` leaves in place of child `k` of `orig`. */
  function NewChild(orig: Node, k: nat, m: ArnMap): Result<Node>
    requires k < |Children(orig)|
    decreases orig, 0
  {
    var child := if orig.Dict? then orig.entries[k].1 else orig.items[k];
    if orig.Dict? && child.Str? && child in m then Rewrite(child, m) else OldReplace(child, m)
  }

  /** `replace_arns`, as a function: scalars are left alone, a container's children are
      rewritten in order, stopping at the first failure. */
  function OldReplace(node: Node, m: ArnMap): Result<Node>
    decreases node, 2
  {
    if IsContainer(node) then OldReplaceFrom(node, node, 0, m) else Ok(node)
  }

  function OldReplaceFrom(orig: Node, self: Node, i: nat, m: ArnMap): Result<Node>
    requires IsContainer(orig) && i <= |Children(orig)|
    decreases orig, 1, |Children(orig)| - i
  {
    if i == |Children(orig)| then Ok(self)
    else
      var c :- NewChild(orig, i, m);
      OldReplaceFrom(orig, SetChild(self, i, c), i + 1, m)
  }

  /** `replace_arns`: the loop assigns each rewritten entry by its key (its position, as
      keys are distinct) and recurses into the others. */
  method ReplaceArns(node: Node, m: ArnMap) returns (r: Result<Node>)
    ensures r == OldReplace(node, m)
    decreases node
  {
    if !IsContainer(node) {
      return Ok(node);
    }
    var self := node;
    var n := |Children(node)|;
    for i := 0 to n
      invariant SameShape(node, self)
      invariant forall k :: i <= k < n ==> Children(self)[k] == Children(node)[k]
      invariant OldReplace(node, m) == OldReplaceFrom(node, self, i, m)
    {
      var child := Children(self)[i];
      var c: Result<Node>;
      if node.Dict? && child.Str? && child in m {
        c := Rewrite(child, m);
      } else {
        c := ReplaceArns(child, m);
      }
      OldLoopStep(node, self, i, m, c);
      if c.Err? {
        return Err(c.error);
      }
      self := SetChild(self, i, c.value);
    }
    return Ok(self);
  }

  /** One turn of the loop of `replace_arns`: child `i` of the container as it stands is
      still the original child, its rewrite is `NewChild`, and storing it moves the loop on. */
  lemma OldLoopStep(node: Node, self: Node, i: nat, m: ArnMap, c: Result<Node>)
    requires IsContainer(node) && i < |Children(node)| && SameShape(node, self)
    requires forall k :: i <= k < |Children(node)| ==> Children(self)[k] == Children(node)[k]
    requires var child := Children(self)[i];
      c == if node.Dict? && child.Str? && child in m then Rewrite(child, m) else OldReplace(child, m)
    ensures c == NewChild(node, i, m)
    ensures c.Err? ==> OldReplaceFrom(node, self, i, m) == Err(c.error)
    ensures c.Ok? ==>
      && SameShape(node, SetChild(self, i, c.value))
      && (forall k :: i + 1 <= k < |Children(node)| ==> Children(SetChild(self, i, c.value))[k] == Children(node)[k])
      && OldReplaceFrom(node, self, i, m) == OldReplaceFrom(node, SetChild(self, i, c.value), i + 1, m)
  {
    assert Children(self)[i] == if node.Dict? then node.entries[i].1 else node.items[i];
  }

  /** The loop of `replace_arns` at child `i`: the earlier children were rewritten, the
      later ones are untouched. */
  predicate OldProgress(orig: Node, self: Node, i: nat, m: ArnMap) {
    IsContainer(orig) && i <= |Children(orig)| && SameShape(orig, self)
    && (forall k :: 0 <= k < i ==> NewChild(orig, k, m).Ok? && Children(self)[k] == NewChild(orig, k, m).value)
    && (forall k :: i <= k < |Children(orig)| ==> Children(self)[k] == Children(orig)[k])
  }

  /** `replace_arns` on a list or dict succeeds exactly when every child's rewrite does,
      and then keeps the kind and the keys and holds each child's rewrite. */
  lemma {:induction false} OldReplaceChildren(node: Node, m: ArnMap)
    requires IsContainer(node)
    ensures OldReplace(node, m).Ok? <==> RewritesFrom(node, 0, m)
    ensures OldReplace(node, m).Ok? ==>
      (SameShape(node, OldReplace(node, m).value) &&
       forall k :: 0 <= k < |Children(node)| ==> Children(OldReplace(node, m).value)[k] == NewChild(node, k, m).value)
  {
    assert OldProgress(node, node, 0, m);
    OldReplaceFromChildren(node, node, 0, m);
  }

  lemma {:induction false} OldReplaceFromChildren(orig: Node, self: Node, i: nat, m: ArnMap)
    requires OldProgress(orig, self, i, m)
    ensures OldReplaceFrom(orig, self, i, m).Ok? <==> RewritesFrom(orig, i, m)
    ensures OldReplaceFrom(orig, self, i, m).Ok? ==> OldProgress(orig, OldReplaceFrom(orig, self, i, m).value, |Children(orig)|, m)
    decreases |Children(orig)| - i
  {
    if i < |Children(orig)| {
      var next := OldTurn(orig, self, i, m);
      if next.Some? {
        OldReplaceFromChildren(orig, next.value, i + 1, m);
      }
    }
  }

  /** Every child from `i` on has a rewrite. */
  predicate RewritesFrom(orig: Node, i: nat, m: ArnMap) {
    forall k :: i <= k < |Children(orig)| ==> NewChild(orig, k, m).Ok?
  }

  /** One turn of `OldReplaceFrom`: it fails at child `i` when that child has no rewrite,
      and otherwise continues from the container holding the rewrite. */
  lemma OldTurn(orig: Node, self: Node, i: nat, m: ArnMap) returns (next: Option<Node>)
    requires OldProgress(orig, self, i, m) && i < |Children(orig)|
    ensures next.None? ==> OldReplaceFrom(orig, self, i, m).Err? && !RewritesFrom(orig, i, m)
    ensures next.Some? ==>
      && OldProgress(orig, next.value, i + 1, m)
      && OldReplaceFrom(orig, self, i, m) == OldReplaceFrom(orig, next.value, i + 1, m)
      && (RewritesFrom(orig, i, m) <==> RewritesFrom(orig, i + 1, m))
  {
    var c := NewChild(orig, i, m);
    if c.Ok? {
      var n := SetChild(self, i, c.value);
      assert OldProgress(orig, n, i + 1, m) by {
        if orig.Dict? {
          assert Keys(n.entries) == Keys(self.entries);
        }
      }
      next := Some(n);
    } else {
      next := None;
    }
  }

  /** No dict value, at any depth, is a collected ARN. */
  predicate Cleared(n: Node, m: ArnMap)
    decreases n
  {
    forall k :: 0 <= k < |Children(n)| ==>
      var c := if n.Dict? then n.entries[k].1 else n.items[k];
      (n.Dict? ==> !(c.Str? && c in m)) && Cleared(c, m)
  }

  /** Under a fresh map, what `replace_arns` leaves holds no collected ARN as a dict
      value: every one was rewritten to a placeholder. */
  lemma {:induction false} OldReplaceClears(node: Node, m: ArnMap)
    requires Fresh(m) && OldReplace(node, m).Ok?
    ensures Cleared(OldReplace(node, m).value, m)
    decreases node
  {
    if IsContainer(node) {
      OldReplaceChildren(node, m);
      var r := OldReplace(node, m).value;
      forall k | 0 <= k < |Children(node)|
        ensures (r.Dict? ==> !(Children(r)[k].Str? && Children(r)[k] in m)) && Cleared(Children(r)[k], m)
      {
        var child := Children(node)[k];
        assert child < node by {
          assert child == if node.Dict? then node.entries[k].1 else node.items[k];
        }
        assert NewChild(node, k, m).Ok?;
        if node.Dict? && child.Str? && child in m {
          var q := Rewrite(child, m).value.s;
          assert q[..2] == "{{";
        } else {
          OldReplaceClears(child, m);
          if IsContainer(child) {
            OldReplaceChildren(child, m);
          }
        }
      }
    }
  }

  /** A tree with no collected ARN as a dict value is left exactly as it is. */
  lemma {:induction false} OldReplaceFixes(node: Node, m: ArnMap)
    requires Cleared(node, m)
    ensures OldReplace(node, m) == Ok(node)
    decreases node
  {
    if IsContainer(node) {
      forall k | 0 <= k < |Children(node)|
        ensures NewChild(node, k, m) == Ok(Children(node)[k])
      {
        var child := Children(node)[k];
        assert child < node by {
          assert child == if node.Dict? then node.entries[k].1 else node.items[k];
        }
        OldReplaceFixes(child, m);
      }
      OldReplaceChildren(node, m);
      ShapeDetermines(node, OldReplace(node, m).value);
    }
  }

  /** Under a fresh map, running `replace_arns` again changes nothing. */
  lemma OldReplaceIdempotent(node: Node, m: ArnMap)
    requires Fresh(m) && OldReplace(node, m).Ok?
    ensures OldReplace(OldReplace(node, m).value, m) == OldReplace(node, m)
  {
    OldReplaceClears(node, m);
    OldReplaceFixes(OldReplace(node, m).value, m);
  }

  /** A string that is a list element is left alone even when it is a collected ARN. */
  lemma OldReplaceKeepsListStrings(node: Node, k: nat, m: ArnMap)
    requires node.List? && k < |node.items| && node.items[k].Str? && OldReplace(node, m).Ok?
    ensures var r := OldReplace(node, m).value; r.List? && k < |r.items| && r.items[k] == node.items[k]
  {
    OldReplaceChildren(node, m);
    assert NewChild(node, k, m) == Ok(node.items[k]);
  }

  /** A collected ARN without "/" as a dict value makes `split("/")[-2]` fail. */
  lemma OldReplaceNeedsSlash(key: string, v: Node, m: ArnMap)
    requires v.Str? && v in m && '/' !in v.s
    ensures OldReplace(Dict([(key, v)]), m) == Err(IndexError)
  {
    var d := Dict([(key, v)]);
    assert Children(d)[0] == v;
    assert NewChild(d, 0, m) == Err(IndexError);
  }

  /** The revisions differ on a collected ARN that is a list element: the older one
      leaves it, the newer one finds no `keys` on the list. */
  lemma ListArnRevisions(v: Node, m: ArnMap)
    requires v.Str? && v in m
    ensures OldReplace(List([v]), m) == Ok(List([v]))
    ensures Walk(Op.ReplaceArns, None, List([v]), m, []) == Err(AttributeError("keys"))
  {
    var l := List([v]);
    assert Children(l)[0] == v;
    assert NewChild(l, 0, m) == Ok(v);
    assert SetChild(l, 0, v) == l;
    assert Apply(Op.ReplaceArns, Some(l), v, m) == Err(AttributeError("keys"));
    assert Walk(Op.ReplaceArns, Some(l), v, m, [0]) == Err(AttributeError("keys"));
    assert Apply(Op.ReplaceArns, None, l, m) == Ok(Step(true, None, m));
    assert OldReplaceFrom(l, l, 1, m) == Ok(l);
    assert OldReplaceFrom(l, l, 0, m) == Ok(l);
    assert WalkKids(Op.ReplaceArns, l, l, 0, m, []) == Err(AttributeError("keys"));
  }

  /** An ARN `<prefix>/<type>/<id>` with a string display name, as a dict value, becomes
      the placeholder naming its type and display name. */
  lemma OldReplaceEntry(key: string, prefix: string, t: string, id: string, name: string)
    requires '/' !in t && '/' !in id
    ensures var arn := Str(prefix + "/" + t + "/" + id);
      OldReplace(Dict([(key, arn)]), map[arn := Str(name)]) == Ok(Dict([(key, Str(OldPlaceholder(t, name)))]))
  {
    var arn := Str(prefix + "/" + t + "/" + id);
    var m := map[arn := Str(name)];
    var d := Dict([(key, arn)]);
    ResourceTypeOf(prefix, t, id);
    assert Children(d)[0] == arn;
    var x := Str(OldPlaceholder(t, name));
    assert NewChild(d, 0, m) == Ok(x);
    assert [(key, arn)][0 := (key, x)] == [(key, x)];
    assert SetChild(d, 0, x) == Dict([(key, x)]);
    assert OldReplaceFrom(d, Dict([(key, x)]), 1, m) == Ok(Dict([(key, x)]));
  }

  /** A display name that is a list is rendered by its `repr()` inside the placeholder,
      and the rewrite succeeds. */
  lemma OldReplaceListName()
    ensures var arn := Str("arn:x/type/id");
      OldReplace(Dict([("k", arn)]), map[arn := List([Str("x")])])
        == Ok(Dict([("k", Str("{{resources['type']['['x']']}}"))]))
  {
    ArnText();
    RenderList();
    ListNamePlaceholder();
    OldReplaceEntryNode("k", "arn:x", "type", "id", List([Str("x")]));
  }

  lemma ArnText()
    ensures "arn:x" + "/" + "type" + "/" + "id" == "arn:x/type/id"
  {
  }

  lemma ListNamePlaceholder()
    ensures OldPlaceholder("type", "['x']") == "{{resources['type']['['x']']}}"
  {
  }

  /** An ARN entry whose display name is any JSON value becomes the placeholder of its
      type and rendered name. */
  lemma OldReplaceEntryNode(key: string, prefix: string, t: string, id: string, name: Node)
    requires '/' !in t && '/' !in id
    ensures var arn := Str(prefix + "/" + t + "/" + id);
      OldReplace(Dict([(key, arn)]), map[arn := name]) == Ok(Dict([(key, Str(OldPlaceholder(t, Render(name))))]))
  {
    var arn := Str(prefix + "/" + t + "/" + id);
    var m := map[arn := name];
    var d := Dict([(key, arn)]);
    ResourceTypeOf(prefix, t, id);
    assert Children(d)[0] == arn;
    var x := Str(OldPlaceholder(t, Render(name)));
    assert NewChild(d, 0, m) == Ok(x);
    assert [(key, arn)][0 := (key, x)] == [(key, x)];
    assert SetChild(d, 0, x) == Dict([(key, x)]);
    assert OldReplaceFrom(d, Dict([(key, x)]), 1, m) == Ok(Dict([(key, x)]));
  }
}
