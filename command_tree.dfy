/**
  The command tree. Every entry of commands_map (and of a node's
  sub_commands) is a dictionary whose keys are all optional: `ref` (an alias
  target), `function` (a context name and a method name), `sub_commands`,
  `short`, `help` and `usage`. A node is the record of those optional fields;
  a field left out is a key the dictionary does not have.
 */
module CommandTree {
  import opened Wrappers
  import opened OrderedMaps

  /** The value of a node's `function` key: the context to bind and the name of the method to call on it. */
  datatype Handler = Handler(context: string, f: string)

  /**
    The `sub_commands` key: absent, or present with its (possibly empty)
    dictionary of child nodes. A datatype of its own, rather than an Option,
    so that Dafny sees a child node as smaller than its parent.
   */
  datatype SubCommands = Absent | Present(entries: OMap<Node>)

  datatype Node = Node(
    ref: Option<string> := None,
    handler: Option<Handler> := None,
    subCommands: SubCommands := Absent,
    short: Option<string> := None,
    help: Option<string> := None,
    usage: Option<string> := None)

  type Commands = OMap<Node>

  /**
    Strict walk along `path` from `n`: every token must be a key of the
    current node's non-empty sub_commands. None as soon as one is not.
   */
  function Walk(n: Node, path: seq<string>): (r: Option<Node>)
    decreases |path|
  {
    if |path| == 0 then Some(n)
    else if n.subCommands.Present? && |n.subCommands.entries| != 0 && Has(n.subCommands.entries, path[0]) then
      Walk(Get(n.subCommands.entries, path[0]).value, path[1..])
    else None
  }

  /** Walking along p then q is walking along p + q. */
  lemma {:induction false} WalkAppend(n: Node, p: seq<string>, q: seq<string>)
    ensures Walk(n, p + q) == if Walk(n, p).Some? then Walk(Walk(n, p).value, q) else None
    decreases |p|
  {
    if |p| > 0 {
      assert (p + q)[0] == p[0];
      assert (p + q)[1..] == p[1..] + q;
      if n.subCommands.Present? && |n.subCommands.entries| != 0 && Has(n.subCommands.entries, p[0]) {
        WalkAppend(Get(n.subCommands.entries, p[0]).value, p[1..], q);
      }
    } else {
      assert p + q == q;
    }
  }

  /** Every `function` entry in the tree below n (n included) names context ctx. */
  predicate HandlersIn(n: Node, ctx: string)
    decreases n
  {
    && (n.handler.Some? ==> n.handler.value.context == ctx)
    && match n.subCommands
       case Absent => true
       case Present(sub) => forall i :: 0 <= i < |sub| ==> HandlersIn(sub[i].1, ctx)
  }

  /** HandlersIn holds of every node a walk can reach. */
  lemma {:induction false} WalkKeepsHandlersIn(n: Node, path: seq<string>, ctx: string)
    requires HandlersIn(n, ctx)
    requires Walk(n, path).Some?
    ensures HandlersIn(Walk(n, path).value, ctx)
    decreases |path|
  {
    if |path| > 0 {
      var sub := n.subCommands.entries;
      var child := Get(sub, path[0]).value;
      var i :| 0 <= i < |sub| && sub[i] == (path[0], child);
      WalkKeepsHandlersIn(child, path[1..], ctx);
    }
  }
}
