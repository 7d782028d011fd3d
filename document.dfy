/** A contact-flow document as `json.load` returns it: objects (key-ordered, keys
    distinct), arrays, strings, and the other scalars. */
module Document {
  import opened Wrappers
  import opened Lookup

  datatype Node =
    | Dict(entries: seq<(string, Node)>)
    | List(items: seq<Node>)
    | Str(s: string)
    | Other(text: string)   // a number, `true`/`false` or `null`, by the text Python's `str()` gives it

  predicate IsContainer(n: Node) {
    n.Dict? || n.List?
  }

  /** The children a walk visits: a dict's values in key order, a list's items. */
  function Children(n: Node): (cs: seq<Node>)
    ensures n.Dict? ==> |cs| == |n.entries| && forall k :: 0 <= k < |cs| ==> cs[k] == n.entries[k].1
    ensures n.List? ==> cs == n.items
    ensures !IsContainer(n) ==> cs == []
  {
    match n
    case Dict(entries) => seq(|entries|, k requires 0 <= k < |entries| => entries[k].1)
    case List(items) => items
    case _ => []
  }

  /** The keys of a dict, in order. */
  function Keys(entries: seq<(string, Node)>): (ks: seq<string>)
    ensures |ks| == |entries| && forall k :: 0 <= k < |ks| ==> ks[k] == entries[k].0
  {
    seq(|entries|, k requires 0 <= k < |entries| => entries[k].0)
  }

  /** `n` with child `i` replaced by `c`; keys stay as they are. */
  function SetChild(n: Node, i: nat, c: Node): (m: Node)
    ensures m.Dict? == n.Dict? && m.List? == n.List?
    ensures |Children(m)| == |Children(n)|
    ensures n.Dict? ==> Keys(m.entries) == Keys(n.entries)
    ensures forall k :: 0 <= k < |Children(n)| && k != i ==> Children(m)[k] == Children(n)[k]
    ensures i < |Children(n)| ==> Children(m)[i] == c
  {
    match n
    case Dict(entries) =>
      if i < |entries| then Dict(entries[i := (entries[i].0, c)]) else n
    case List(items) =>
      if i < |items| then List(items[i := c]) else n
    case _ => n
  }

  /** `q` has the kind, the number of children and (for a dict) the keys of `p`. */
  predicate SameShape(p: Node, q: Node) {
    q.Dict? == p.Dict? && q.List? == p.List? && |Children(q)| == |Children(p)|
    && (p.Dict? ==> Keys(q.entries) == Keys(p.entries))
  }

  /** `q` is `p` with at most child `j` changed. */
  predicate SameExceptAt(p: Node, q: Node, j: nat) {
    SameShape(p, q) && forall k :: 0 <= k < |Children(p)| && k != j ==> Children(q)[k] == Children(p)[k]
  }
}
