/** The walker of the exported contact-flow document and its two operations: the first
    pass collects each `{id, text}` pair into an ARN map, the second rewrites every dict
    value that is a collected ARN into a template placeholder naming the resource. */
module Templatise {
  import opened Wrappers
  import opened Document
  import opened Lookup
  import Utils

  /** `arn_map`: resource ARN to the resource's display name (any JSON scalar as key). */
  type ArnMap = map<Node, Node>

  /** A node's position: the child indices from the root. */
  type Path = seq<nat>

  /** The two operations the walker is called with. */
  datatype Op = UpdateArnMap | ReplaceArns

  /** What one operation call yields: whether to descend, the parent and the map after it. */
  datatype Step = Step(descend: bool, parent: Option<Node>, arns: ArnMap)

  /** A dict holding both an "id" and a "text" key. */
  predicate IsIdText(n: Node) {
    n.Dict? && HasKey(n.entries, "id") && HasKey(n.entries, "text")
  }

  /** The text that stands for a resource with the given logical ID. */
  function Placeholder(logicalId: string): string {
    "{{resources['" + logicalId + "']}}"
  }

  /** `update_arn_map`: an `{id, text}` dict records `id -> text` and stops the descent;
      a list or dict id is unhashable. Every other node leaves the map as it is. */
  function UpdateArnMapStep(parent: Option<Node>, node: Node, m: ArnMap): (r: Result<Step>)
    ensures r.Ok? ==> r.value.parent == parent
    ensures r.Ok? ==> (r.value.descend <==> !IsIdText(node))
    ensures r.Ok? && !IsIdText(node) ==> r.value.arns == m
    ensures r.Ok? && IsIdText(node) ==>
      r.value.arns == m[Get(node.entries, "id") := Get(node.entries, "text")]
    ensures r.Err? <==> IsIdText(node) && IsContainer(Get(node.entries, "id"))
    ensures r.Err? ==> r.error == TypeError
  {
    if IsIdText(node) then
      var id := Get(node.entries, "id");
      if IsContainer(id) then Err(TypeError)
      else Ok(Step(false, parent, m[id := Get(node.entries, "text")]))
    else Ok(Step(true, parent, m))
  }

  /** `replace_arns_with_templates`: a string that is a key of the map is looked up among
      its parent's values, and the first key holding it gets the placeholder for the
      normalised display name; the descent stops there. A parent that is not a dict has no
      `keys`, a display name that is not a string has no `split`. Every other node is left
      alone and the descent continues. */
  function ReplaceArnsStep(parent: Option<Node>, node: Node, m: ArnMap): (r: Result<Step>)
    ensures r.Ok? ==> r.value.arns == m
    ensures !(node.Str? && node in m) ==> r == Ok(Step(true, parent, m))
    ensures node.Str? && node in m ==>
      (r.Ok? <==> (parent.Some? && parent.value.Dict? && node in Children(parent.value)
        && m[node].Str? && Utils.LogicalIdOf(m[node].s).Ok?))
    ensures node.Str? && node in m && r.Ok? ==>
      !r.value.descend &&
      r.value.parent == Some(SetChild(parent.value, FirstIndex(Children(parent.value), node),
        Str(Placeholder(Utils.LogicalIdOf(m[node].s).value))))
    ensures node.Str? && node in m && (parent.None? || !parent.value.Dict?) ==>
      r == Err(AttributeError("keys"))
  {
    if node.Str? && node in m then
      if parent.None? || !parent.value.Dict? then Err(AttributeError("keys"))
      else
        var p := parent.value;
        var j := FirstIndex(Children(p), node);
        if j == |Children(p)| then Err(ValueError)
        else
          var text := m[node];
          if !text.Str? then Err(AttributeError("split"))
          else
            var logicalId :- Utils.LogicalIdOf(text.s);
            Ok(Step(false, Some(SetChild(p, j, Str(Placeholder(logicalId)))), m))
    else Ok(Step(true, parent, m))
  }

  /** `operation(parent, node, arn_map)`. Neither operation changes anything but the first
      child of the parent that equals the node, and neither changes the parent of a list
      or dict. */
  function Apply(op: Op, parent: Option<Node>, node: Node, m: ArnMap): (r: Result<Step>)
    ensures r.Ok? && IsContainer(node) ==> r.value.parent == parent
    ensures r.Ok? && parent.Some? ==>
      (r.value.parent.Some? &&
       SameExceptAt(parent.value, r.value.parent.value, FirstIndex(Children(parent.value), node)))
    ensures r.Ok? && parent.None? ==> r.value.parent.None?
  {
    match op
    case UpdateArnMap => UpdateArnMapStep(parent, node, m)
    case ReplaceArns => ReplaceArnsStep(parent, node, m)
  }

  /** The state a walk leaves: the parent, the node and the map. */
  datatype State = State(parent: Option<Node>, node: Node, arns: ArnMap)

  /** A finished walk: the state and the positions the operation was called on, in order. */
  datatype Walked = Walked(state: State, trace: seq<Path>)

  /** The children's part of a walk: the container as it became, the map, the positions. */
  datatype Kids = Kids(self: Node, arns: ArnMap, trace: seq<Path>)

  /** The container after walking one child: the parent that child's walk left, with the
      child stored back when it is a list or dict (a string child was replaced, if at all,
      by the operation itself). */
  function Reattach(after: Option<Node>, self: Node, i: nat, child: Node, walked: Node): Node {
    var p := if after.Some? then after.value else self;
    if IsContainer(child) then SetChild(p, i, walked) else p
  }

  /** `walk_content`: the operation is called on the node; a list or dict whose call says
      to descend has each child walked in order with the container as parent. A scalar's
      answer is ignored. */
  function Walk(op: Op, parent: Option<Node>, node: Node, m: ArnMap, path: Path): (r: Result<Walked>)
    ensures r.Ok? && IsContainer(node) ==> r.value.state.parent == parent
    ensures r.Ok? && parent.Some? ==>
      (r.value.state.parent.Some? &&
       SameExceptAt(parent.value, r.value.state.parent.value, FirstIndex(Children(parent.value), node)))
    decreases node, 1
  {
    var step :- Apply(op, parent, node, m);
    if IsContainer(node) && step.descend then
      var kids :- WalkKids(op, node, node, 0, step.arns, path);
      Ok(Walked(State(step.parent, kids.self, kids.arns), [path] + kids.trace))
    else
      Ok(Walked(State(step.parent, node, step.arns), [path]))
  }

  /** The loop over the children of `orig` from index `i` on; `self` is the container as
      the earlier children's walks left it. */
  function WalkKids(op: Op, orig: Node, self: Node, i: nat, m: ArnMap, path: Path): (r: Result<Kids>)
    requires IsContainer(orig) && i <= |Children(orig)|
    decreases orig, 0, |Children(orig)| - i
  {
    if i == |Children(orig)| then Ok(Kids(self, m, []))
    else
      var child := if orig.Dict? then orig.entries[i].1 else orig.items[i];
      var w :- Walk(op, Some(self), child, m, path + [i]);
      var next := Reattach(w.state.parent, self, i, child, w.state.node);
      var rest :- WalkKids(op, orig, next, i + 1, w.state.arns, path);
      Ok(Kids(rest.self, rest.arns, w.trace + rest.trace))
  }

  /** Carries the positions walked so far into the rest of a children's walk. */
  function Prepend(t: seq<Path>, r: Result<Kids>): Result<Kids> {
    if r.Ok? then Ok(Kids(r.value.self, r.value.arns, t + r.value.trace)) else r
  }

  lemma PrependPrepend(t1: seq<Path>, t2: seq<Path>, r: Result<Kids>)
    ensures Prepend(t1, Prepend(t2, r)) == Prepend(t1 + t2, r)
  {
    if r.Ok? {
      assert t1 + (t2 + r.value.trace) == (t1 + t2) + r.value.trace;
    }
  }

  lemma PrependNothing(r: Result<Kids>)
    ensures Prepend([], r) == r
  {
    if r.Ok? {
      assert [] + r.value.trace == r.value.trace;
    }
  }

  /** One turn of the children's loop: child `i` is walked, then the rest. */
  lemma KidsStep(op: Op, orig: Node, self: Node, i: nat, m: ArnMap, path: Path, w: Result<Walked>)
    requires IsContainer(orig) && i < |Children(orig)|
    requires w == Walk(op, Some(self), Children(orig)[i], m, path + [i])
    ensures w.Err? ==> WalkKids(op, orig, self, i, m, path) == Err(w.error)
    ensures w.Ok? ==>
      (WalkKids(op, orig, self, i, m, path) ==
       Prepend(w.value.trace, WalkKids(op, orig,
         Reattach(w.value.state.parent, self, i, Children(orig)[i], w.value.state.node),
         i + 1, w.value.state.arns, path)))
  {
    assert Children(orig)[i] == if orig.Dict? then orig.entries[i].1 else orig.items[i];
  }

  /** Storing child `i` back keeps the container's shape and leaves the later children
      as they were. */
  lemma ReattachShape(node: Node, self: Node, i: nat, after: Option<Node>, walked: Node)
    requires i < |Children(node)|
    requires SameShape(node, self)
    requires forall k :: i <= k < |Children(node)| ==> Children(self)[k] == Children(node)[k]
    requires after.Some? && SameExceptAt(self, after.value, FirstIndex(Children(self), Children(node)[i]))
    ensures SameShape(node, Reattach(after, self, i, Children(node)[i], walked))
    ensures forall k :: i + 1 <= k < |Children(node)| ==>
      Children(Reattach(after, self, i, Children(node)[i], walked))[k] == Children(node)[k]
  {
    var n := |Children(node)|;
    var q := after.value;
    var c := Children(node)[i];
    assert Children(self)[i] == c;
    var j := FirstIndex(Children(self), c);
    assert j <= i;
    var res := Reattach(after, self, i, c, walked);
    assert SameExceptAt(q, res, i) by {
      if IsContainer(c) {
        assert res == SetChild(q, i, walked);
      } else {
        assert res == q;
      }
    }
    forall k | i + 1 <= k < n
      ensures Children(res)[k] == Children(node)[k]
    {
      assert Children(res)[k] == Children(q)[k];
      assert Children(q)[k] == Children(self)[k];
    }
  }

  /** A walk's result together with the positions it visited. */
  ghost function Outcome(r: Result<State>, visited: seq<Path>): Result<Walked> {
    if r.Ok? then Ok(Walked(r.value, visited)) else Err(r.error)
  }

  /** The walk of a list or dict the operation descends into ends as the walk of its
      children does. */
  lemma WalkDescends(op: Op, parent: Option<Node>, node: Node, m: ArnMap, path: Path, kids: Result<Kids>)
    requires Apply(op, parent, node, m).Ok? && IsContainer(node) && Apply(op, parent, node, m).value.descend
    requires kids == WalkKids(op, node, node, 0, Apply(op, parent, node, m).value.arns, path)
    ensures kids.Err? ==> Walk(op, parent, node, m, path) == Err(kids.error)
    ensures kids.Ok? ==> (Walk(op, parent, node, m, path) ==
      Ok(Walked(State(Apply(op, parent, node, m).value.parent, kids.value.self, kids.value.arns), [path] + kids.value.trace)))
  {
  }

  /** The loop of `walk_content` at child `i` of `node`: `self` is the container as the
      earlier children's walks left it, with the later children untouched, and the walk of
      the children is the positions visited so far followed by the walk from `i` on. */
  predicate WalkLoop(op: Op, node: Node, start: ArnMap, path: Path, self: Node, i: nat, arns: ArnMap, trace: seq<Path>) {
    IsContainer(node) && i <= |Children(node)| && SameShape(node, self)
    && (forall k :: i <= k < |Children(node)| ==> Children(self)[k] == Children(node)[k])
    && WalkKids(op, node, node, 0, start, path) == Prepend(trace, WalkKids(op, node, self, i, arns, path))
  }

  /** One turn of the loop: child `i` of the container as it stands is the original child;
      a failed walk of it fails the children's walk, a finished one moves the loop on. */
  lemma WalkTurn(op: Op, node: Node, start: ArnMap, path: Path, self: Node, i: nat, arns: ArnMap, trace: seq<Path>,
                 w: Result<State>, vs: seq<Path>)
    requires WalkLoop(op, node, start, path, self, i, arns, trace) && i < |Children(node)|
    requires Outcome(w, vs) == Walk(op, Some(self), Children(self)[i], arns, path + [i])
    ensures w.Err? ==> WalkKids(op, node, node, 0, start, path) == Err(w.error)
    ensures w.Ok? ==> WalkLoop(op, node, start, path,
      Reattach(w.value.parent, self, i, Children(self)[i], w.value.node), i + 1, w.value.arns, trace + vs)
  {
    assert Children(self)[i] == Children(node)[i];
    var spec := Walk(op, Some(self), Children(node)[i], arns, path + [i]);
    KidsStep(op, node, self, i, arns, path, spec);
    if w.Ok? {
      assert spec == Ok(Walked(w.value, vs));
      ReattachShape(node, self, i, w.value.parent, w.value.node);
      PrependPrepend(trace, vs, WalkKids(op, node, Reattach(w.value.parent, self, i, Children(node)[i], w.value.node), i + 1, w.value.arns, path));
    }
  }

  /** `walk_content`, proved to do what `Walk` describes. The loop reads each child from the
      container as it stands, the way Python's live `values()` view does. */
  method WalkContent(op: Op, parent: Option<Node>, node: Node, m: ArnMap, ghost path: Path)
    returns (r: Result<State>, ghost visited: seq<Path>)
    ensures Outcome(r, visited) == Walk(op, parent, node, m, path)
    decreases node
  {
    var step := Apply(op, parent, node, m);
    if step.Err? {
      return Err(step.error), [];
    }
    var s := step.value;
    if !(IsContainer(node) && s.descend) {
      return Ok(State(s.parent, node, s.arns)), [path];
    }
    WalkDescends(op, parent, node, m, path, WalkKids(op, node, node, 0, s.arns, path));
    var self := node;
    var arns := s.arns;
    ghost var trace: seq<Path> := [];
    var n := |Children(node)|;
    var i := 0;
    PrependNothing(WalkKids(op, node, node, 0, s.arns, path));
    while i < n
      invariant WalkLoop(op, node, s.arns, path, self, i, arns, trace) && n == |Children(node)|
    {
      var child := Children(self)[i];
      var w, vs := WalkContent(op, Some(self), child, arns, path + [i]);
      WalkTurn(op, node, s.arns, path, self, i, arns, trace, w, vs);
      if w.Err? {
        return Err(w.error), [];
      }
      self := Reattach(w.value.parent, self, i, child, w.value.node);
      arns := w.value.arns;
      trace := trace + vs;
      i := i + 1;
    }
    assert trace + [] == trace;
    WalkDescends(op, parent, node, m, path, WalkKids(op, node, node, 0, s.arns, path));
    return Ok(State(s.parent, self, arns)), [path] + trace;
  }

  // ----- the positions a walk visits ---------------------------------------------------

  /** Every node of the tree, parents before children, children in order. */
  function Preorder(node: Node, path: Path): (t: seq<Path>)
    ensures |t| >= 1 && t[0] == path
    decreases node, 1
  {
    [path] + PreorderKids(node, 0, path)
  }

  function PreorderKids(node: Node, i: nat, path: Path): seq<Path>
    requires i <= |Children(node)|
    decreases node, 0, |Children(node)| - i
  {
    if i == |Children(node)| then []
    else
      var child := if node.Dict? then node.entries[i].1 else node.items[i];
      Preorder(child, path + [i]) + PreorderKids(node, i + 1, path)
  }

  /** As `Preorder`, without the children of `{id, text}` dicts. */
  function Pruned(node: Node, path: Path): (t: seq<Path>)
    ensures |t| >= 1 && t[0] == path
    decreases node, 1
  {
    if IsIdText(node) then [path] else [path] + PrunedKids(node, 0, path)
  }

  function PrunedKids(node: Node, i: nat, path: Path): seq<Path>
    requires i <= |Children(node)|
    decreases node, 0, |Children(node)| - i
  {
    if i == |Children(node)| then []
    else
      var child := if node.Dict? then node.entries[i].1 else node.items[i];
      Pruned(child, path + [i]) + PrunedKids(node, i + 1, path)
  }

  /** The positions of a tree, relative to its root. */
  predicate IsPosition(node: Node, p: Path)
    decreases |p|
  {
    p == [] || (p[0] < |Children(node)| && IsPosition(Children(node)[p[0]], p[1..]))
  }

  /** No position occurs twice in a sequence: none occurs again after itself. */
  predicate Distinct(t: seq<Path>) {
    forall a :: 0 <= a < |t| ==> t[a] !in t[a + 1..]
  }

  /** Every position `Preorder` lists lies below `path`. */
  lemma {:induction false} PreorderBelow(node: Node, path: Path)
    ensures forall q :: q in Preorder(node, path) ==> |q| >= |path| && q[..|path|] == path
    decreases node, 1
  {
    PreorderKidsBelow(node, 0, path);
  }

  lemma {:induction false} PreorderKidsBelow(node: Node, i: nat, path: Path)
    requires i <= |Children(node)|
    ensures forall q :: q in PreorderKids(node, i, path) ==>
      |q| > |path| && q[..|path|] == path && q[|path|] >= i
    decreases node, 0, |Children(node)| - i
  {
    if i < |Children(node)| {
      var child := Children(node)[i];
      assert child < node by {
        assert child == if node.Dict? then node.entries[i].1 else node.items[i];
      }
      PreorderBelow(child, path + [i]);
      PreorderKidsBelow(node, i + 1, path);
      forall q | q in Preorder(child, path + [i])
        ensures |q| > |path| && q[..|path|] == path && q[|path|] >= i
      {
        PrefixExtended(q, path, i);
      }
      assert PreorderKids(node, i, path) == Preorder(child, path + [i]) + PreorderKids(node, i + 1, path);
    }
  }

  /** Positions under child `i` of `path` are none of those under its later children, so
      the two lists together list no position twice. */
  lemma DisjointBelow(a: seq<Path>, b: seq<Path>, path: Path, i: nat)
    requires Distinct(a) && Distinct(b)
    requires forall q :: q in a ==> |q| >= |path + [i]| && q[..|path + [i]|] == path + [i]
    requires forall q :: q in b ==> |q| > |path| && q[..|path|] == path && q[|path|] >= i + 1
    ensures Distinct(a + b)
  {
    forall q | q in a
      ensures q !in b
    {
      PrefixExtended(q, path, i);
    }
    DistinctAppend(a, b);
  }

  /** A position below `path + [i]` lies below `path`, under child `i`. */
  lemma PrefixExtended(q: Path, path: Path, i: nat)
    requires |q| >= |path| + 1 && q[..|path| + 1] == path + [i]
    ensures q[..|path|] == path && q[|path|] == i
  {
    assert q[..|path|] == q[..|path| + 1][..|path|];
  }

  lemma DistinctAppend(a: seq<Path>, b: seq<Path>)
    requires Distinct(a) && Distinct(b)
    requires forall q :: q in a ==> q !in b
    ensures Distinct(a + b)
  {
    forall x | 0 <= x < |a + b|
      ensures (a + b)[x] !in (a + b)[x + 1..]
    {
      if x < |a| {
        assert (a + b)[x] == a[x] && (a + b)[x + 1..] == a[x + 1..] + b;
        assert a[x] in a;
      } else {
        assert (a + b)[x] == b[x - |a|] && (a + b)[x + 1..] == b[x - |a| + 1..];
      }
    }
  }

  /** The walk calls the operation on no position twice. */
  lemma {:induction false} PreorderDistinct(node: Node, path: Path)
    ensures Distinct(Preorder(node, path))
    decreases node, 1
  {
    PreorderKidsDistinct(node, 0, path);
    PreorderKidsBelow(node, 0, path);
    DistinctAppend([path], PreorderKids(node, 0, path));
  }

  lemma {:induction false} PreorderKidsDistinct(node: Node, i: nat, path: Path)
    requires i <= |Children(node)|
    ensures Distinct(PreorderKids(node, i, path))
    decreases node, 0, |Children(node)| - i
  {
    if i < |Children(node)| {
      var child := Children(node)[i];
      assert child < node by {
        assert child == if node.Dict? then node.entries[i].1 else node.items[i];
      }
      PreorderDistinct(child, path + [i]);
      PreorderKidsDistinct(node, i + 1, path);
      PreorderBelow(child, path + [i]);
      PreorderKidsBelow(node, i + 1, path);
      DisjointBelow(Preorder(child, path + [i]), PreorderKids(node, i + 1, path), path, i);
      assert PreorderKids(node, i, path) == Preorder(child, path + [i]) + PreorderKids(node, i + 1, path);
    }
  }

  /** ... and on every position of the tree. */
  lemma {:induction false} PreorderComplete(node: Node, path: Path, p: Path)
    requires IsPosition(node, p)
    ensures path + p in Preorder(node, path)
    decreases node, 1
  {
    if p == [] {
      assert path + p == path;
    } else {
      PreorderKidsComplete(node, 0, path, p);
    }
  }

  lemma {:induction false} PreorderKidsComplete(node: Node, i: nat, path: Path, p: Path)
    requires i <= |Children(node)|
    requires p != [] && i <= p[0] && IsPosition(node, p)
    ensures path + p in PreorderKids(node, i, path)
    decreases node, 0, |Children(node)| - i
  {
    var child := Children(node)[i];
    assert child < node by {
      assert child == if node.Dict? then node.entries[i].1 else node.items[i];
    }
    if p[0] == i {
      PreorderComplete(child, path + [i], p[1..]);
      assert path + [i] + p[1..] == path + p;
    } else {
      PreorderKidsComplete(node, i + 1, path, p);
    }
  }

  // ----- the first pass: collecting the ARN map ----------------------------------------

  /** The map the first pass builds: every `{id, text}` dict not inside another one, in
      pre-order, records `id -> text` (a later one overriding an earlier one); a list or
      dict id is unhashable. */
  function Collect(node: Node, m: ArnMap): (r: Result<ArnMap>)
    ensures r.Err? ==> r.error == TypeError
    decreases node, 1
  {
    if IsIdText(node) then
      var id := Get(node.entries, "id");
      if IsContainer(id) then Err(TypeError) else Ok(m[id := Get(node.entries, "text")])
    else if IsContainer(node) then CollectKids(node, 0, m)
    else Ok(m)
  }

  function CollectKids(node: Node, i: nat, m: ArnMap): (r: Result<ArnMap>)
    requires i <= |Children(node)|
    ensures r.Err? ==> r.error == TypeError
    decreases node, 0, |Children(node)| - i
  {
    if i == |Children(node)| then Ok(m)
    else
      var child := if node.Dict? then node.entries[i].1 else node.items[i];
      var m1 :- Collect(child, m);
      CollectKids(node, i + 1, m1)
  }

  /** The walk's answer when it ends at `node` with map `m`, or fails as `r` does. */
  function Collected(parent: Option<Node>, node: Node, r: Result<ArnMap>, t: seq<Path>): Result<Walked> {
    if r.Ok? then Ok(Walked(State(parent, node, r.value), t)) else Err(r.error)
  }

  lemma SetChildSame(n: Node, i: nat)
    requires i < |Children(n)|
    ensures SetChild(n, i, Children(n)[i]) == n
  {
    if n.Dict? {
      assert n.entries[i := (n.entries[i].0, n.entries[i].1)] == n.entries;
    }
  }

  /** With `update_arn_map` the walk changes neither the tree nor the parent, builds the
      map `Collect` describes, and visits the positions `Pruned` lists. */
  lemma {:induction false} UpdateWalkCollects(parent: Option<Node>, node: Node, m: ArnMap, path: Path)
    ensures Walk(UpdateArnMap, parent, node, m, path) == Collected(parent, node, Collect(node, m), Pruned(node, path))
    decreases node, 1
  {
    var step := UpdateArnMapStep(parent, node, m);
    assert Apply(UpdateArnMap, parent, node, m) == step;
    if !IsIdText(node) && IsContainer(node) {
      UpdateKidsCollect(node, 0, m, path);
    } else if IsIdText(node) {
      var id := Get(node.entries, "id");
      if IsContainer(id) {
        assert step == Err(TypeError);
      }
    } else {
      assert [path] + [] == [path];
    }
  }

  /** What the first pass's loop over the children of `node` from `i` on should give:
      the unchanged container, the map `CollectKids` builds and the pruned positions. */
  ghost function CollectedKids(node: Node, i: nat, m: ArnMap, path: Path): Result<Kids>
    requires i <= |Children(node)|
  {
    var c := CollectKids(node, i, m);
    if c.Ok? then Ok(Kids(node, c.value, PrunedKids(node, i, path))) else Err(c.error)
  }

  lemma {:induction false} UpdateKidsCollect(node: Node, i: nat, m: ArnMap, path: Path)
    requires IsContainer(node) && i <= |Children(node)|
    ensures WalkKids(UpdateArnMap, node, node, i, m, path) == CollectedKids(node, i, m, path)
    decreases node, 0, |Children(node)| - i
  {
    if i < |Children(node)| {
      var child := Children(node)[i];
      assert child < node by {
        assert child == if node.Dict? then node.entries[i].1 else node.items[i];
      }
      UpdateWalkCollects(Some(node), child, m, path + [i]);
      UpdateKidsStep(node, i, m, path);
      CollectedKidsStep(node, i, m, path);
      var c := Collect(child, m);
      if c.Ok? {
        UpdateKidsCollect(node, i + 1, c.value, path);
      }
    }
  }

  /** One child of the first pass's loop, given how the child's own walk ends. */
  lemma UpdateKidsStep(node: Node, i: nat, m: ArnMap, path: Path)
    requires IsContainer(node) && i < |Children(node)|
    requires var child := Children(node)[i];
      Walk(UpdateArnMap, Some(node), child, m, path + [i])
        == Collected(Some(node), child, Collect(child, m), Pruned(child, path + [i]))
    ensures var child := Children(node)[i];
      var c := Collect(child, m);
      WalkKids(UpdateArnMap, node, node, i, m, path) == (if c.Err? then Err(c.error) else
        Prepend(Pruned(child, path + [i]), WalkKids(UpdateArnMap, node, node, i + 1, c.value, path)))
  {
    var child := Children(node)[i];
    assert child == if node.Dict? then node.entries[i].1 else node.items[i];
    if Collect(child, m).Ok? {
      SetChildSame(node, i);
      assert Reattach(Some(node), node, i, child, child) == node;
    }
  }

  /** One child of the reference: collecting it, then the rest. */
  lemma CollectedKidsStep(node: Node, i: nat, m: ArnMap, path: Path)
    requires i < |Children(node)|
    ensures var child := Children(node)[i];
      var c := Collect(child, m);
      CollectedKids(node, i, m, path) == (if c.Err? then Err(c.error) else
        Prepend(Pruned(child, path + [i]), CollectedKids(node, i + 1, c.value, path)))
  {
    assert Children(node)[i] == if node.Dict? then node.entries[i].1 else node.items[i];
  }

  // ----- the second pass: substituting placeholders ------------------------------------

  /** A map none of whose string keys starts like a placeholder. */
  predicate Fresh(m: ArnMap) {
    forall a :: a in m && a.Str? ==> !(|a.s| >= 2 && a.s[..2] == "{{")
  }

  /** The placeholder for a collected ARN whose display name normalises. */
  predicate Replaceable(v: Node, m: ArnMap) {
    v.Str? && v in m && m[v].Str? && Utils.LogicalIdOf(m[v].s).Ok?
  }

  /** What the second pass makes of a value found in a container (`inDict` when the
      container is a dict): a collected ARN as a dict value becomes its placeholder, a list
      or dict is rewritten inside, anything else stays. */
  function SubstIn(inDict: bool, v: Node, m: ArnMap): Node
    decreases v, 1
  {
    if v.Str? && v in m then
      if inDict && Replaceable(v, m) then Str(Placeholder(Utils.LogicalIdOf(m[v].s).value)) else v
    else Substituted(v, m)
  }

  /** A tree with `SubstIn` applied to every child of every list and dict. */
  function Substituted(n: Node, m: ArnMap): Node
    decreases n, 0
  {
    match n
    case Dict(e) => Dict(seq(|e|, k requires 0 <= k < |e| => (e[k].0, SubstIn(true, e[k].1, m))))
    case List(xs) => List(seq(|xs|, k requires 0 <= k < |xs| => SubstIn(false, xs[k], m)))
    case _ => n
  }

  /** The second pass succeeds on a value in a container: a collected ARN must be a dict
      value with a string display name that normalises; a list or dict must succeed inside. */
  predicate Acceptable(inDict: bool, v: Node, m: ArnMap)
    decreases v, 1
  {
    if v.Str? && v in m then inDict && Replaceable(v, m) else Substitutable(v, m)
  }

  predicate Substitutable(n: Node, m: ArnMap)
    decreases n, 0
  {
    match n
    case Dict(e) => forall k :: 0 <= k < |e| ==> Acceptable(true, e[k].1, m)
    case List(xs) => forall k :: 0 <= k < |xs| ==> Acceptable(false, xs[k], m)
    case _ => true
  }

  lemma SubstitutedChildren(n: Node, m: ArnMap)
    ensures SameShape(n, Substituted(n, m))
    ensures forall k :: 0 <= k < |Children(n)| ==> Children(Substituted(n, m))[k] == SubstIn(n.Dict?, Children(n)[k], m)
    ensures !IsContainer(n) ==> Substituted(n, m) == n
  {
    if n.Dict? {
      assert Keys(Substituted(n, m).entries) == Keys(n.entries);
    }
  }

  /** A container is fixed by its shape and its children. */
  lemma ShapeDetermines(p: Node, q: Node)
    requires IsContainer(p) && SameShape(p, q)
    requires forall k :: 0 <= k < |Children(p)| ==> Children(q)[k] == Children(p)[k]
    ensures p == q
  {
    if p.Dict? {
      assert |q.entries| == |p.entries|;
      forall k | 0 <= k < |p.entries|
        ensures q.entries[k] == p.entries[k]
      {
        assert Keys(q.entries)[k] == Keys(p.entries)[k];
        assert Children(q)[k] == Children(p)[k];
      }
    }
  }

  /** Under a fresh map, nothing the second pass leaves behind is a collected ARN. */
  lemma SubstInFresh(inDict: bool, v: Node, m: ArnMap)
    requires Fresh(m) && Acceptable(inDict, v, m)
    ensures !(SubstIn(inDict, v, m).Str? && SubstIn(inDict, v, m) in m)
  {
    if v.Str? && v in m {
      var q := Placeholder(Utils.LogicalIdOf(m[v].s).value);
      assert q[..2] == "{{";
    } else {
      SubstitutedChildren(v, m);
    }
  }

  /** Under a fresh map, the second pass over a list or dict succeeds exactly when
      `Substitutable` holds; it then leaves the parent and the map alone, turns the node
      into `Substituted`, and visits the positions `Preorder` lists. */
  lemma {:induction false} ReplaceWalk(parent: Option<Node>, node: Node, m: ArnMap, path: Path)
    requires Fresh(m) && IsContainer(node)
    ensures Walk(ReplaceArns, parent, node, m, path).Ok? <==> Substitutable(node, m)
    ensures Walk(ReplaceArns, parent, node, m, path).Ok? ==>
      Walk(ReplaceArns, parent, node, m, path).value == Walked(State(parent, Substituted(node, m), m), Preorder(node, path))
    decreases node, 2
  {
    assert Apply(ReplaceArns, parent, node, m) == Ok(Step(true, parent, m));
    assert Progress(node, node, 0, m);
    ReplaceKids(node, node, 0, m, path);
  }

  /** The second pass's loop at child `i`: the earlier children succeeded and were
      substituted, the later ones are untouched. */
  predicate Progress(orig: Node, self: Node, i: nat, m: ArnMap) {
    IsContainer(orig) && i <= |Children(orig)| && SameShape(orig, self)
    && (forall k :: 0 <= k < i ==>
         Acceptable(orig.Dict?, Children(orig)[k], m) && Children(self)[k] == SubstIn(orig.Dict?, Children(orig)[k], m))
    && (forall k :: i <= k < |Children(orig)| ==> Children(self)[k] == Children(orig)[k])
  }

  lemma {:induction false} ReplaceKids(orig: Node, self: Node, i: nat, m: ArnMap, path: Path)
    requires Fresh(m) && Progress(orig, self, i, m)
    ensures WalkKids(ReplaceArns, orig, self, i, m, path).Ok? <==> AcceptableFrom(orig, i, m)
    ensures WalkKids(ReplaceArns, orig, self, i, m, path).Ok? ==>
      WalkKids(ReplaceArns, orig, self, i, m, path).value == Kids(Substituted(orig, m), m, PreorderKids(orig, i, path))
    decreases orig, 1, |Children(orig)| - i
  {
    if i == |Children(orig)| {
      ReplaceDone(orig, self, m);
    } else {
      var next := ReplaceTurn(orig, self, i, m, path);
      if next.Some? {
        ReplaceKids(orig, next.value, i + 1, m, path);
      }
    }
  }

  /** Every child from `i` on is acceptable to the second pass. */
  predicate AcceptableFrom(orig: Node, i: nat, m: ArnMap) {
    forall k :: i <= k < |Children(orig)| ==> Acceptable(orig.Dict?, Children(orig)[k], m)
  }

  /** One turn of the second pass's loop: the loop from `i` fails when child `i` is not
      acceptable, and otherwise continues as the rest of the loop from the container
      `next` (in `Progress` at `i + 1`) does. */
  lemma ReplaceTurn(orig: Node, self: Node, i: nat, m: ArnMap, path: Path) returns (next: Option<Node>)
    requires Fresh(m) && Progress(orig, self, i, m) && i < |Children(orig)|
    ensures next.None? <==> !Acceptable(orig.Dict?, Children(orig)[i], m)
    ensures next.None? ==> WalkKids(ReplaceArns, orig, self, i, m, path).Err? && !AcceptableFrom(orig, i, m)
    ensures next.Some? ==> Progress(orig, next.value, i + 1, m)
    ensures next.Some? ==>
      (AcceptableFrom(orig, i, m) <==> AcceptableFrom(orig, i + 1, m))
    ensures next.Some? ==>
      WalkKids(ReplaceArns, orig, self, i, m, path) ==
        Prepend(Preorder(Children(orig)[i], path + [i]), WalkKids(ReplaceArns, orig, next.value, i + 1, m, path))
    ensures next.Some? ==>
      PreorderKids(orig, i, path) == Preorder(Children(orig)[i], path + [i]) + PreorderKids(orig, i + 1, path)
    decreases orig, 0, 1
  {
    var c := Children(orig)[i];
    assert c == if orig.Dict? then orig.entries[i].1 else orig.items[i];
    var w := Walk(ReplaceArns, Some(self), c, m, path + [i]);
    KidsStep(ReplaceArns, orig, self, i, m, path, w);
    ReplaceChild(orig, self, i, m, path);
    if w.Ok? {
      next := Some(Reattach(w.value.state.parent, self, i, c, w.value.state.node));
    } else {
      next := None;
    }
  }

  /** At the end of the loop every child is substituted. */
  lemma ReplaceDone(orig: Node, self: Node, m: ArnMap)
    requires Progress(orig, self, |Children(orig)|, m)
    ensures self == Substituted(orig, m)
  {
    SubstitutedChildren(orig, m);
    ShapeDetermines(Substituted(orig, m), self);
  }

  /** One child of the second pass's loop. */
  lemma {:induction false} ReplaceChild(orig: Node, self: Node, i: nat, m: ArnMap, path: Path)
    requires Fresh(m) && Progress(orig, self, i, m) && i < |Children(orig)|
    ensures var w := Walk(ReplaceArns, Some(self), Children(orig)[i], m, path + [i]);
      (w.Ok? <==> Acceptable(orig.Dict?, Children(orig)[i], m)) &&
      (w.Ok? ==>
        (w.value.state.arns == m && w.value.trace == Preorder(Children(orig)[i], path + [i]) &&
         Progress(orig, Reattach(w.value.state.parent, self, i, Children(orig)[i], w.value.state.node), i + 1, m)))
    decreases orig, 0, 0
  {
    var c := if orig.Dict? then orig.entries[i].1 else orig.items[i];
    assert c == Children(orig)[i];
    var p := path + [i];
    var w := Walk(ReplaceArns, Some(self), c, m, p);
    if IsContainer(c) {
      ReplaceWalk(Some(self), c, m, p);
      if w.Ok? {
        ChildStored(orig, self, i, m, SetChild(self, i, Substituted(c, m)));
      }
    } else if c.Str? && c in m {
      ReplaceArnChild(orig, self, i, m, path);
      if w.Ok? {
        ChildStored(orig, self, i, m, SetChild(self, i, SubstIn(orig.Dict?, c, m)));
      }
    } else {
      ReplaceScalarChild(orig, self, i, m, path);
      SubstitutedChildren(c, m);
      ChildStored(orig, self, i, m, self);
    }
  }

  /** Storing the substituted child `i` moves the loop on by one. */
  lemma ChildStored(orig: Node, self: Node, i: nat, m: ArnMap, next: Node)
    requires Progress(orig, self, i, m) && i < |Children(orig)|
    requires Acceptable(orig.Dict?, Children(orig)[i], m)
    requires SameShape(self, next) && Children(next)[i] == SubstIn(orig.Dict?, Children(orig)[i], m)
    requires forall k :: 0 <= k < |Children(orig)| && k != i ==> Children(next)[k] == Children(self)[k]
    ensures Progress(orig, next, i + 1, m)
  {
    if orig.Dict? {
      assert Keys(next.entries) == Keys(self.entries) == Keys(orig.entries);
    }
  }

  /** A collected ARN child: it is replaced in place when it sits in a dict. */
  lemma ReplaceArnChild(orig: Node, self: Node, i: nat, m: ArnMap, path: Path)
    requires Fresh(m) && Progress(orig, self, i, m) && i < |Children(orig)|
    requires Children(orig)[i].Str? && Children(orig)[i] in m
    ensures var w := Walk(ReplaceArns, Some(self), Children(orig)[i], m, path + [i]);
      (w.Ok? <==> Acceptable(orig.Dict?, Children(orig)[i], m)) &&
      (w.Ok? ==> w.value == Walked(State(Some(SetChild(self, i, SubstIn(orig.Dict?, Children(orig)[i], m))),
                                         Children(orig)[i], m), Preorder(Children(orig)[i], path + [i])))
  {
    var c := Children(orig)[i];
    assert Children(self)[i] == c;
    forall k | 0 <= k < i
      ensures Children(self)[k] != c
    {
      SubstInFresh(orig.Dict?, Children(orig)[k], m);
    }
    assert self.Dict? ==> FirstIndex(Children(self), c) == i;
    assert Preorder(c, path + [i]) == [path + [i]];
  }

  /** A scalar child that is not a collected ARN is left as it is. */
  lemma ReplaceScalarChild(orig: Node, self: Node, i: nat, m: ArnMap, path: Path)
    requires Progress(orig, self, i, m) && i < |Children(orig)|
    requires !IsContainer(Children(orig)[i]) && !(Children(orig)[i].Str? && Children(orig)[i] in m)
    ensures Walk(ReplaceArns, Some(self), Children(orig)[i], m, path + [i]) ==
      Ok(Walked(State(Some(self), Children(orig)[i], m), Preorder(Children(orig)[i], path + [i])))
  {
    var c := Children(orig)[i];
    assert Apply(ReplaceArns, Some(self), c, m) == Ok(Step(true, Some(self), m));
    assert Preorder(c, path + [i]) == [path + [i]];
  }

  /** The second pass from the root succeeds unless the root itself is a collected ARN
      (which has no parent to be stored in) or something inside it fails. */
  predicate RootAcceptable(node: Node, m: ArnMap) {
    !(node.Str? && node in m) && Substitutable(node, m)
  }

  /** Under a fresh map, the second pass from the root (no parent) succeeds exactly when
      `RootAcceptable` holds, and then turns the document into `Substituted`. */
  lemma ReplaceFromRoot(node: Node, m: ArnMap)
    requires Fresh(m)
    ensures Walk(ReplaceArns, None, node, m, []).Ok? <==> RootAcceptable(node, m)
    ensures Walk(ReplaceArns, None, node, m, []).Ok? ==>
      Walk(ReplaceArns, None, node, m, []).value.state == State(None, Substituted(node, m), m)
  {
    if IsContainer(node) {
      ReplaceWalk(None, node, m, []);
    } else {
      SubstitutedChildren(node, m);
    }
  }

  // ----- templatise_flow ---------------------------------------------------------------

  /** The document `templatise_flow` writes back: both passes from the root, sharing the
      map, the second over the document the first left. */
  function TemplatiseFlowOf(content: Node): Result<Node> {
    var collected :- Walk(UpdateArnMap, None, content, map[], []);
    var replaced :- Walk(ReplaceArns, None, collected.state.node, collected.state.arns, []);
    Ok(replaced.state.node)
  }

  /** `templatise_flow` between `json.load` and `json.dump`. */
  method TemplatiseFlow(content: Node) returns (r: Result<Node>)
    ensures r == TemplatiseFlowOf(content)
  {
    var arnMap: ArnMap := map[];
    var collected, _ := WalkContent(UpdateArnMap, None, content, arnMap, []);
    if collected.Err? {
      return Err(collected.error);
    }
    var replaced, _ := WalkContent(ReplaceArns, None, collected.value.node, collected.value.arns, []);
    if replaced.Err? {
      return Err(replaced.error);
    }
    return Ok(replaced.value.node);
  }

  /** What `templatise_flow` does: it fails with TypeError when an id is a list or dict;
      otherwise, when no collected ARN looks like a placeholder, it succeeds exactly when
      `RootAcceptable` holds for the collected map, and then every collected ARN that is a
      dict value, at any depth, is replaced by the placeholder for its display name. */
  lemma TemplatiseFlowMeaning(content: Node)
    ensures Collect(content, map[]).Err? ==> TemplatiseFlowOf(content) == Err(TypeError)
    ensures Collect(content, map[]).Ok? && Fresh(Collect(content, map[]).value) ==>
      (TemplatiseFlowOf(content).Ok? <==> RootAcceptable(content, Collect(content, map[]).value))
    ensures Collect(content, map[]).Ok? && Fresh(Collect(content, map[]).value) && TemplatiseFlowOf(content).Ok? ==>
      TemplatiseFlowOf(content).value == Substituted(content, Collect(content, map[]).value)
  {
    UpdateWalkCollects(None, content, map[], []);
    var c := Collect(content, map[]);
    if c.Ok? && Fresh(c.value) {
      ReplaceFromRoot(content, c.value);
    }
  }

  // ----- the module's tests, as lemmas -------------------------------------------------

  const MockMap: ArnMap := map[Str("mock id") := Str("mock text")]

  /** The placeholder for "mock text". */
  lemma MockPlaceholder()
    ensures Replaceable(Str("mock id"), MockMap)
    ensures Str(Placeholder(Utils.LogicalIdOf(MockMap[Str("mock id")].s).value)) == Str("{{resources['MockText']}}")
  {
    MockLookup();
    Utils.MockTextId();
    MockPlaceholderText();
  }

  lemma MockLookup()
    ensures Str("mock id") in MockMap && MockMap[Str("mock id")].s == "mock text"
  {
  }

  lemma MockPlaceholderText()
    ensures Placeholder("MockText") == "{{resources['MockText']}}"
  {
  }

  /** An `{id, text}` dict is recorded and not descended into; an empty dict, a string and
      an empty list are descended into and leave the map alone. */
  lemma UpdateArnMapExamples()
    ensures UpdateArnMapStep(None, Dict([("id", Str("mock id")), ("text", Str("mock text"))]), map[]) ==
      Ok(Step(false, None, MockMap))
    ensures UpdateArnMapStep(None, Dict([]), map[]) == Ok(Step(true, None, map[]))
    ensures UpdateArnMapStep(None, Str("foo"), map[]) == Ok(Step(true, None, map[]))
    ensures UpdateArnMapStep(None, List([]), map[]) == Ok(Step(true, None, map[]))
  {
    var node := Dict([("id", Str("mock id")), ("text", Str("mock text"))]);
    assert node.entries[0].0 == "id" && node.entries[1].0 == "text";
    assert IsIdText(node);
  }

  /** A collected ARN in a dict is replaced by its placeholder. */
  lemma ReplaceArnsExample()
    ensures ReplaceArnsStep(Some(Dict([("foo", Str("mock id"))])), Str("mock id"), MockMap) ==
      Ok(Step(false, Some(Dict([("foo", Str("{{resources['MockText']}}"))])), MockMap))
  {
    MockPlaceholder();
    ReplaceSingleEntry("foo", Str("mock id"), MockMap);
  }

  lemma ReplaceSingleEntry(key: string, v: Node, m: ArnMap)
    requires Replaceable(v, m)
    ensures ReplaceArnsStep(Some(Dict([(key, v)])), v, m) ==
      Ok(Step(false, Some(Dict([(key, Str(Placeholder(Utils.LogicalIdOf(m[v].s).value)))])), m))
  {
    var p := Dict([(key, v)]);
    assert Children(p)[0] == v;
    assert FirstIndex(Children(p), v) == 0;
    var x := Str(Placeholder(Utils.LogicalIdOf(m[v].s).value));
    assert [(key, v)][0 := (key, x)] == [(key, x)];
    assert SetChild(p, 0, x) == Dict([(key, x)]);
  }

  /** Other strings, dicts and lists are left for the walk to descend into. */
  lemma ReplaceArnsPassExamples()
    ensures ReplaceArnsStep(Some(Dict([("foo", Str("mock id"))])), Str("bar"), MockMap) ==
      Ok(Step(true, Some(Dict([("foo", Str("mock id"))])), MockMap))
    ensures ReplaceArnsStep(Some(Dict([("foo", Str("mock id"))])), Dict([]), MockMap) ==
      Ok(Step(true, Some(Dict([("foo", Str("mock id"))])), MockMap))
    ensures ReplaceArnsStep(Some(Dict([("foo", Str("mock id"))])), List([]), MockMap) ==
      Ok(Step(true, Some(Dict([("foo", Str("mock id"))])), MockMap))
  {
    assert Str("bar") !in MockMap;
  }

  /** The second pass over a dict is the pass over its first entry followed by the pass
      over the others. */
  lemma SubstDictCons(k: string, v: Node, rest: seq<(string, Node)>, m: ArnMap)
    ensures Substituted(Dict([(k, v)] + rest), m).entries ==
      [(k, SubstIn(true, v, m))] + Substituted(Dict(rest), m).entries
    ensures Substitutable(Dict([(k, v)] + rest), m) <==> Acceptable(true, v, m) && Substitutable(Dict(rest), m)
  {
    var e := [(k, v)] + rest;
    var a, b := Substituted(Dict(e), m).entries, [(k, SubstIn(true, v, m))] + Substituted(Dict(rest), m).entries;
    assert |a| == |b|;
    forall i | 0 <= i < |a| ensures a[i] == b[i] {
      if i > 0 {
        assert e[i] == rest[i - 1];
      }
    }
    if Acceptable(true, v, m) && Substitutable(Dict(rest), m) {
      forall i | 0 <= i < |e| ensures Acceptable(true, e[i].1, m) {
        if i > 0 {
          assert e[i] == rest[i - 1];
        }
      }
    }
    if Substitutable(Dict(e), m) {
      assert e[0].1 == v;
      forall i | 0 <= i < |rest| ensures Acceptable(true, rest[i].1, m) {
        assert e[i + 1] == rest[i];
      }
    }
  }

  lemma SubstDict1(k1: string, v1: Node, m: ArnMap)
    ensures Substituted(Dict([(k1, v1)]), m) == Dict([(k1, SubstIn(true, v1, m))])
    ensures Substitutable(Dict([(k1, v1)]), m) <==> Acceptable(true, v1, m)
  {
    SubstDictCons(k1, v1, [], m);
    assert [(k1, v1)] + [] == [(k1, v1)];
  }

  lemma SubstDict2(k1: string, v1: Node, k2: string, v2: Node, m: ArnMap)
    ensures Substituted(Dict([(k1, v1), (k2, v2)]), m) ==
      Dict([(k1, SubstIn(true, v1, m)), (k2, SubstIn(true, v2, m))])
    ensures Substitutable(Dict([(k1, v1), (k2, v2)]), m) <==> Acceptable(true, v1, m) && Acceptable(true, v2, m)
  {
    var s1, s2 := SubstIn(true, v1, m), SubstIn(true, v2, m);
    SubstDict1(k2, v2, m);
    SubstDictCons(k1, v1, [(k2, v2)], m);
    assert [(k1, v1)] + [(k2, v2)] == [(k1, v1), (k2, v2)];
    assert [(k1, s1)] + [(k2, s2)] == [(k1, s1), (k2, s2)];
    assert Substituted(Dict([(k1, v1), (k2, v2)]), m).Dict?;
  }

  lemma SubstDict3(k1: string, v1: Node, k2: string, v2: Node, k3: string, v3: Node, m: ArnMap)
    ensures Substituted(Dict([(k1, v1), (k2, v2), (k3, v3)]), m) ==
      Dict([(k1, SubstIn(true, v1, m)), (k2, SubstIn(true, v2, m)), (k3, SubstIn(true, v3, m))])
    ensures Substitutable(Dict([(k1, v1), (k2, v2), (k3, v3)]), m) <==>
      Acceptable(true, v1, m) && Acceptable(true, v2, m) && Acceptable(true, v3, m)
  {
    var s1, s2, s3 := SubstIn(true, v1, m), SubstIn(true, v2, m), SubstIn(true, v3, m);
    SubstDict2(k2, v2, k3, v3, m);
    SubstDictCons(k1, v1, [(k2, v2), (k3, v3)], m);
    assert [(k1, v1)] + [(k2, v2), (k3, v3)] == [(k1, v1), (k2, v2), (k3, v3)];
    assert [(k1, s1)] + [(k2, s2), (k3, s3)] == [(k1, s1), (k2, s2), (k3, s3)];
    assert Substituted(Dict([(k1, v1), (k2, v2), (k3, v3)]), m).Dict?;
  }

  lemma SubstList2(a: Node, b: Node, m: ArnMap)
    ensures Substituted(List([a, b]), m) == List([SubstIn(false, a, m), SubstIn(false, b, m)])
    ensures Substitutable(List([a, b]), m) <==> Acceptable(false, a, m) && Acceptable(false, b, m)
  {
    var xs := [a, b];
    assert xs[0] == a && xs[1] == b;
  }

  lemma MockMapFresh()
    ensures Fresh(MockMap)
  {
    assert "mock id"[..2] == "mo";
  }

  /** The walk of the second pass over a list of two dicts rewrites the ARN in the first. */
  lemma WalkContentExample()
    ensures Walk(ReplaceArns, None, List([Dict([("foo", Str("mock id"))]), Dict([("bar", Str("baz"))])]), MockMap, []).Ok?
    ensures Walk(ReplaceArns, None, List([Dict([("foo", Str("mock id"))]), Dict([("bar", Str("baz"))])]), MockMap, []).value.state.node ==
      List([Dict([("foo", Str("{{resources['MockText']}}"))]), Dict([("bar", Str("baz"))])])
  {
    var d1 := Dict([("foo", Str("mock id"))]);
    var d2 := Dict([("bar", Str("baz"))]);
    MockMapFresh();
    MockPlaceholder();
    assert Str("baz") !in MockMap;
    SubstitutedChildren(Str("baz"), MockMap);
    SubstDict1("foo", Str("mock id"), MockMap);
    SubstDict1("bar", Str("baz"), MockMap);
    SubstList2(d1, d2, MockMap);
    ReplaceFromRoot(List([d1, d2]), MockMap);
  }

  lemma CollectIdText(id: Node, text: Node, m: ArnMap)
    requires !IsContainer(id)
    ensures Collect(Dict([("id", id), ("text", text)]), m) == Ok(m[id := text])
  {
    var e := [("id", id), ("text", text)];
    assert e[0].0 == "id" && e[1].0 == "text";
    assert HasKey(e, "id") && HasKey(e, "text");
  }

  lemma CollectDict1(k1: string, v1: Node, m: ArnMap)
    requires k1 != "id"
    ensures Collect(Dict([(k1, v1)]), m) == Collect(v1, m)
  {
    var d := Dict([(k1, v1)]);
    assert !HasKey(d.entries, "id");
    assert Children(d)[0] == v1;
    var c := Collect(v1, m);
    if c.Ok? {
      assert CollectKids(d, 1, c.value) == Ok(c.value);
    }
  }

  lemma CollectDict3(k1: string, v1: Node, k2: string, v2: Node, k3: string, v3: Node, m: ArnMap)
    requires k1 != "id" && k2 != "id" && k3 != "id" && !IsContainer(v2) && !IsContainer(v3)
    ensures Collect(Dict([(k1, v1), (k2, v2), (k3, v3)]), m) == Collect(v1, m)
  {
    var d := Dict([(k1, v1), (k2, v2), (k3, v3)]);
    assert !HasKey(d.entries, "id");
    assert Children(d)[0] == v1 && Children(d)[1] == v2 && Children(d)[2] == v3;
    var c := Collect(v1, m);
    if c.Ok? {
      assert CollectKids(d, 3, c.value) == Ok(c.value);
      assert CollectKids(d, 2, c.value) == Ok(c.value);
      assert CollectKids(d, 1, c.value) == Ok(c.value);
    }
  }

  const MockMeta: Node := Dict([("id", Str("mock id")), ("text", Str("mock text"))])

  /** The exported flow of the module's `templatise_flow` test. */
  const MockFlow: Node :=
    Dict([("content", Dict([("meta", MockMeta), ("foo", Str("mock id")), ("bar", Str("baz"))]))])

  /** The same flow templated: both the id field and the other reference are rewritten. */
  const MockTemplated: Node :=
    Dict([("content", Dict([
      ("meta", Dict([("id", Str("{{resources['MockText']}}")), ("text", Str("mock text"))])),
      ("foo", Str("{{resources['MockText']}}")),
      ("bar", Str("baz"))]))])

  lemma MockFlowCollects()
    ensures Collect(MockFlow, map[]) == Ok(MockMap)
  {
    CollectIdText(Str("mock id"), Str("mock text"), map[]);
    CollectDict3("meta", MockMeta, "foo", Str("mock id"), "bar", Str("baz"), map[]);
    CollectDict1("content", Dict([("meta", MockMeta), ("foo", Str("mock id")), ("bar", Str("baz"))]), map[]);
  }

  /** The meta dict's id becomes the placeholder; its text stays. */
  lemma MockMetaSubst()
    ensures Acceptable(true, MockMeta, MockMap)
    ensures SubstIn(true, MockMeta, MockMap)
      == Dict([("id", Str("{{resources['MockText']}}")), ("text", Str("mock text"))])
  {
    MockPlaceholder();
    assert Str("mock text") !in MockMap;
    SubstitutedChildren(Str("mock text"), MockMap);
    SubstDict2("id", Str("mock id"), "text", Str("mock text"), MockMap);
  }

  /** The flow is accepted and substituted into the templated flow. */
  lemma MockFlowSubst()
    ensures RootAcceptable(MockFlow, MockMap)
    ensures Substituted(MockFlow, MockMap) == MockTemplated
  {
    var inner := Dict([("meta", MockMeta), ("foo", Str("mock id")), ("bar", Str("baz"))]);
    MockMetaSubst();
    MockPlaceholder();
    assert Str("baz") !in MockMap;
    SubstitutedChildren(Str("baz"), MockMap);
    SubstDict3("meta", MockMeta, "foo", Str("mock id"), "bar", Str("baz"), MockMap);
    SubstDict1("content", inner, MockMap);
  }

  lemma TemplatiseFlowExample()
    ensures TemplatiseFlowOf(MockFlow) == Ok(MockTemplated)
  {
    MockFlowCollects();
    MockMapFresh();
    MockFlowSubst();
    TemplatiseFlowMeaning(MockFlow);
  }
}
