/**
  What UnicornDbgFunctions.exec_command does with a command name and its
  argument list, as a function of commands_map and context_map. The
  imperative loop itself is Debugger.UnicornDbgFunctions.ExecCommand, proved
  equal to Dispatch.
 */
module Dispatch {
  import opened Wrappers
  import opened OrderedMaps
  import opened CommandTree

  /**
    The effect of one exec_command call. Invoke is the call
    `context_map[context].f(command, *args)`; the other three are the
    messages printed instead (Caught stands for the `except` branch, which
    prints the exception and then "'<command>' not found").
   */
  datatype Outcome =
    | Invoke(context: string, f: string, command: string, args: seq<string>)
    | NotFound(command: string)
    | NotImplemented(command: string)
    | Caught(command: string)

  /** Where the sub-command descent stops: the node, the active command name and the arguments left. */
  datatype Descent = Descent(node: Node, command: string, rest: seq<string>)

  /**
    The loop's test for descending one level: `'sub_commands' in com`, the
    token is truthy (not the empty string) and it is a key of sub_commands.
   */
  predicate Matches(n: Node, token: string) {
    token != "" && n.subCommands.Present? && Has(n.subCommands.entries, token)
  }

  function Child(n: Node, token: string): Node
    requires Matches(n, token)
  {
    Get(n.subCommands.entries, token).value
  }

  /** The number of arguments a descent consumed. */
  function Consumed(args: seq<string>, d: Descent): nat
    requires |d.rest| <= |args|
  {
    |args| - |d.rest|
  }

  /**
    Greedy sub-command descent from n: while the next argument matches,
    step into that sub-command, drop the argument and make it the active
    name. What is left is a suffix of the arguments; DescendStops and
    DescendSpec say why the descent stopped and what it consumed.
   */
  function Descend(n: Node, command: string, args: seq<string>): (d: Descent)
    ensures |d.rest| <= |args| && d.rest == args[|args| - |d.rest|..]
    decreases |args|
  {
    if |args| > 0 && Matches(n, args[0]) then
      var d := Descend(Child(n, args[0]), args[0], args[1..]);
      assert args[1..][|args| - 1 - |d.rest|..] == args[|args| - |d.rest|..];
      d
    else Descent(n, command, args)
  }

  /** The descent stops because no argument is left or the next one does not match. */
  lemma {:induction false} DescendStops(n: Node, command: string, args: seq<string>)
    ensures var d := Descend(n, command, args); |d.rest| == 0 || !Matches(d.node, d.rest[0])
    decreases |args|
  {
    if |args| > 0 && Matches(n, args[0]) {
      assert Descend(n, command, args) == Descend(Child(n, args[0]), args[0], args[1..]);
      DescendStops(Child(n, args[0]), args[0], args[1..]);
    } else {
      assert Descend(n, command, args) == Descent(n, command, args);
    }
  }

  /** The consumed arguments spell a successful strict walk from n to the final node. */
  lemma {:induction false} DescendWalks(n: Node, command: string, args: seq<string>)
    ensures var d := Descend(n, command, args); Walk(n, args[..Consumed(args, d)]) == Some(d.node)
    decreases |args|
  {
    if |args| > 0 && Matches(n, args[0]) {
      var tail := args[1..];
      var c := Child(n, args[0]);
      var d := Descend(c, args[0], tail);
      assert Descend(n, command, args) == d;
      DescendWalks(c, args[0], tail);
      var k := Consumed(tail, d);
      assert Consumed(args, d) == k + 1;
      WalkStep(n, args[..k + 1]);
      assert args[..k + 1][1..] == tail[..k];
    } else {
      assert Descend(n, command, args) == Descent(n, command, args);
      assert args[..0] == [];
    }
  }

  /** The consumed arguments are all non-empty. */
  lemma {:induction false} DescendTokens(n: Node, command: string, args: seq<string>)
    ensures var d := Descend(n, command, args); forall i :: 0 <= i < Consumed(args, d) ==> args[i] != ""
    decreases |args|
  {
    if |args| > 0 && Matches(n, args[0]) {
      var tail := args[1..];
      var d := Descend(Child(n, args[0]), args[0], tail);
      assert Descend(n, command, args) == d;
      DescendTokens(Child(n, args[0]), args[0], tail);
      var k := Consumed(tail, d);
      assert Consumed(args, d) == k + 1;
      forall i | 0 <= i < k + 1
        ensures args[i] != ""
      {
        if i > 0 {
          assert args[i] == tail[i - 1];
        }
      }
    } else {
      assert Descend(n, command, args) == Descent(n, command, args);
    }
  }

  /** The active name is the last consumed argument, or the name given when none was consumed. */
  lemma {:induction false} DescendName(n: Node, command: string, args: seq<string>)
    ensures var d := Descend(n, command, args);
            d.command == if Consumed(args, d) == 0 then command else args[Consumed(args, d) - 1]
    decreases |args|
  {
    if |args| > 0 && Matches(n, args[0]) {
      var tail := args[1..];
      var d := Descend(Child(n, args[0]), args[0], tail);
      assert Descend(n, command, args) == d;
      DescendName(Child(n, args[0]), args[0], tail);
      var k := Consumed(tail, d);
      assert Consumed(args, d) == k + 1;
      if k == 0 {
        assert d.command == args[0];
      } else {
        assert d.command == tail[k - 1] == args[k];
      }
    } else {
      assert Descend(n, command, args) == Descent(n, command, args);
    }
  }

  /** Everything the four lemmas above say, in one place. */
  lemma DescendSpec(n: Node, command: string, args: seq<string>)
    ensures var d := Descend(n, command, args); |d.rest| == 0 || !Matches(d.node, d.rest[0])
    ensures var d := Descend(n, command, args); Walk(n, args[..Consumed(args, d)]) == Some(d.node)
    ensures var d := Descend(n, command, args); forall i :: 0 <= i < Consumed(args, d) ==> args[i] != ""
    ensures var d := Descend(n, command, args);
            d.command == if Consumed(args, d) == 0 then command else args[Consumed(args, d) - 1]
  {
    DescendStops(n, command, args);
    DescendWalks(n, command, args);
    DescendTokens(n, command, args);
    DescendName(n, command, args);
  }

  /** One step of a strict walk along a non-empty path whose head matches. */
  lemma WalkStep(n: Node, path: seq<string>)
    requires |path| > 0 && Matches(n, path[0])
    ensures Walk(n, path) == Walk(Child(n, path[0]), path[1..])
  {
  }

  /** One level of the descent. */
  lemma DescendStep(n: Node, command: string, args: seq<string>)
    ensures Descend(n, command, args) ==
              if |args| > 0 && Matches(n, args[0]) then Descend(Child(n, args[0]), args[0], args[1..])
              else Descent(n, command, args)
  {
  }

  /**
    The descent is the only one of its kind: any k such that the first k
    arguments are non-empty, walk strictly from n to m, and are followed by
    no argument or a non-matching one, is the descent's.
   */
  lemma {:induction false} DescendUnique(n: Node, command: string, args: seq<string>, k: nat, m: Node)
    requires k <= |args|
    requires forall i :: 0 <= i < k ==> args[i] != ""
    requires Walk(n, args[..k]) == Some(m)
    requires k == |args| || !Matches(m, args[k])
    ensures Descend(n, command, args) == Descent(m, if k == 0 then command else args[k - 1], args[k..])
    decreases k
  {
    if k > 0 {
      assert args[..k][0] == args[0];
      assert args[..k][1..] == args[1..][..k - 1];
      assert Matches(n, args[0]);
      var tail := args[1..];
      assert forall i :: 0 <= i < k - 1 ==> tail[i] == args[i + 1];
      DescendUnique(Child(n, args[0]), args[0], tail, k - 1, m);
      assert tail[k - 1..] == args[k..];
    } else {
      assert args[..0] == [];
    }
  }

  /** The active name is the only thing the name given to the descent changes. */
  lemma DescendRename(n: Node, a: string, b: string, args: seq<string>)
    ensures Descend(n, a, args).node == Descend(n, b, args).node
    ensures Descend(n, a, args).rest == Descend(n, b, args).rest
    ensures |Descend(n, a, args).rest| < |args| ==> Descend(n, a, args).command == Descend(n, b, args).command
  {
    var d := Descend(n, a, args);
    DescendSpec(n, a, args);
    DescendUnique(n, b, args, Consumed(args, d), d.node);
  }

  /** `commands_map[command]`, replaced by `commands_map[ref]` when it has a ref: exactly one hop. */
  function Resolve(commands: Commands, command: string): Option<Node>
    requires Has(commands, command)
  {
    var n := Get(commands, command).value;
    if n.ref.Some? then Get(commands, n.ref.value) else Some(n)
  }

  /**
    exec_command(command, args), given commands_map and the context names
    of context_map. A name absent from commands_map, and only such a name,
    gives NotFound; the name reported or passed on is the typed command or
    one of the arguments; an invocation binds a registered context and
    passes on a suffix of the arguments.
   */
  function Dispatch<C>(commands: Commands, contexts: OMap<C>, command: string, args: seq<string>): (r: Outcome)
    ensures r.NotFound? <==> !Has(commands, command)
    ensures r.NotFound? ==> r.command == command
    ensures r.command == command || r.command in args
    ensures r.Invoke? ==> Has(contexts, r.context) && |r.args| <= |args| && r.args == args[|args| - |r.args|..]
  {
    if !Has(commands, command) then NotFound(command)
    else
      match Resolve(commands, command)
      case None => Caught(command)
      case Some(root) =>
        var d := Descend(root, command, args);
        DescendName(root, command, args);
        assert Consumed(args, d) > 0 ==> d.command == args[Consumed(args, d) - 1];
        Finish(contexts, d)
  }

  /**
    After the loop: call the final node's function in its context, or
    report the active name as not implemented, or as caught when the
    context is not registered.
   */
  function Finish<C>(contexts: OMap<C>, d: Descent): (r: Outcome)
    ensures !r.NotFound? && r.command == d.command
    ensures r.Invoke? <==> d.node.handler.Some? && Has(contexts, d.node.handler.value.context)
    ensures r.Invoke? ==> r.context == d.node.handler.value.context && r.f == d.node.handler.value.f && r.args == d.rest
    ensures r.NotImplemented? <==> d.node.handler.None?
  {
    match d.node.handler
    case None => NotImplemented(d.command)
    case Some(h) =>
      if Has(contexts, h.context) then Invoke(h.context, h.f, d.command, d.rest)
      else Caught(d.command)
  }

  /**
    Dispatch described without the descent: once the typed name resolves to
    a root, the outcome is decided by the longest strict walk over non-empty
    leading arguments, the handler of the node it reaches, and whether that
    handler's context is registered.
   */
  lemma DispatchByWalk<C>(commands: Commands, contexts: OMap<C>, command: string, args: seq<string>,
                          root: Node, k: nat, m: Node)
    requires Has(commands, command) && Resolve(commands, command) == Some(root)
    requires k <= |args|
    requires forall i :: 0 <= i < k ==> args[i] != ""
    requires Walk(root, args[..k]) == Some(m)
    requires k == |args| || !Matches(m, args[k])
    ensures var name := if k == 0 then command else args[k - 1];
            Dispatch(commands, contexts, command, args) ==
              if m.handler.None? then NotImplemented(name)
              else if Has(contexts, m.handler.value.context) then Invoke(m.handler.value.context, m.handler.value.f, name, args[k..])
              else Caught(name)
  {
    DescendUnique(root, command, args, k, m);
  }

  /** An alias whose target is missing is a caught error (the KeyError of the second lookup). */
  lemma DanglingRefCaught<C>(commands: Commands, contexts: OMap<C>, command: string, args: seq<string>)
    requires Has(commands, command)
    requires Get(commands, command).value.ref.Some?
    requires !Has(commands, Get(commands, command).value.ref.value)
    ensures Dispatch(commands, contexts, command, args) == Caught(command)
  {
  }

  /** Two outcomes that differ at most in the reported command name. */
  predicate SameButName(a: Outcome, b: Outcome) {
    match a
    case Invoke(ctx, f, _, rest) => b.Invoke? && b.context == ctx && b.f == f && b.args == rest
    case NotFound(_) => b.NotFound?
    case NotImplemented(_) => b.NotImplemented?
    case Caught(_) => b.Caught?
  }

  /**
    An alias for a plain command dispatches like the command itself, except
    that the name passed on is the alias as typed unless a sub-command was
    consumed.
   */
  lemma AliasDispatchesLikeTarget<C>(commands: Commands, contexts: OMap<C>, alias: string, target: string, args: seq<string>)
    requires Has(commands, alias) && Get(commands, alias).value.ref == Some(target)
    requires Has(commands, target) && Get(commands, target).value.ref.None?
    ensures SameButName(Dispatch(commands, contexts, alias, args), Dispatch(commands, contexts, target, args))
    ensures var n := Get(commands, target).value;
            Dispatch(commands, contexts, alias, args).command ==
              if |Descend(n, target, args).rest| == |args| then alias
              else Dispatch(commands, contexts, target, args).command
  {
    var n := Get(commands, target).value;
    assert Resolve(commands, alias) == Some(n) && Resolve(commands, target) == Some(n);
    var da := Descend(n, alias, args);
    var dt := Descend(n, target, args);
    DescendRename(n, alias, target, args);
    assert da.node == dt.node && da.rest == dt.rest;
    assert da.command == if |da.rest| == |args| then alias else dt.command;
  }

  /**
    Aliases are not chained: when the target is itself an alias node with no
    function and no sub_commands, the typed name is not implemented, whatever
    the target's own target would do.
   */
  lemma RefChainNotFollowed<C>(commands: Commands, contexts: OMap<C>, alias: string, args: seq<string>)
    requires Has(commands, alias) && Get(commands, alias).value.ref.Some?
    requires var t := Get(commands, alias).value.ref.value;
             Has(commands, t) && Get(commands, t).value.ref.Some? &&
             Get(commands, t).value.handler.None? && Get(commands, t).value.subCommands.Absent?
    ensures Dispatch(commands, contexts, alias, args) == NotImplemented(alias)
  {
  }

  /** Every alias names a command of the table. */
  predicate AliasesResolve(commands: Commands) {
    forall i :: 0 <= i < |commands| && commands[i].1.ref.Some? ==> Has(commands, commands[i].1.ref.value)
  }

  /** Every `function` entry of the table, at any depth, names context ctx. */
  predicate AllHandlersIn(commands: Commands, ctx: string) {
    forall i :: 0 <= i < |commands| ==> HandlersIn(commands[i].1, ctx)
  }

  /**
    In a table whose aliases all resolve and whose functions all name one
    registered context, no dispatch ends in the caught-error branch.
   */
  lemma NeverCaught<C>(commands: Commands, contexts: OMap<C>, ctx: string, command: string, args: seq<string>)
    requires AliasesResolve(commands) && AllHandlersIn(commands, ctx) && Has(contexts, ctx)
    ensures !Dispatch(commands, contexts, command, args).Caught?
  {
    if Has(commands, command) {
      var n := Get(commands, command).value;
      var i :| 0 <= i < |commands| && commands[i] == (command, n);
      var root := Resolve(commands, command).value;
      var j :| 0 <= j < |commands| && commands[j].1 == root;
      var d := Descend(root, command, args);
      DescendWalks(root, command, args);
      WalkKeepsHandlersIn(root, args[..Consumed(args, d)], ctx);
    }
  }

  /** In a table whose functions all name ctx, every invocation binds ctx. */
  lemma InvokesOnly<C>(commands: Commands, contexts: OMap<C>, ctx: string, command: string, args: seq<string>)
    requires AllHandlersIn(commands, ctx)
    ensures Dispatch(commands, contexts, command, args).Invoke? ==> Dispatch(commands, contexts, command, args).context == ctx
  {
    if Has(commands, command) && Resolve(commands, command).Some? {
      var root := Resolve(commands, command).value;
      var n := Get(commands, command).value;
      var j :| 0 <= j < |commands| && commands[j].1 == root;
      var d := Descend(root, command, args);
      DescendWalks(root, command, args);
      WalkKeepsHandlersIn(root, args[..Consumed(args, d)], ctx);
    }
  }

  /**
    Adding commands and contexts after the existing ones changes nothing
    for a command that was already registered with a resolving alias and
    did not end in the caught-error branch.
   */
  lemma DispatchExtend<C>(commands: Commands, more: Commands, contexts: OMap<C>, moreContexts: OMap<C>,
                          command: string, args: seq<string>)
    requires Has(commands, command)
    requires Get(commands, command).value.ref.Some? ==> Has(commands, Get(commands, command).value.ref.value)
    requires !Dispatch(commands, contexts, command, args).Caught?
    ensures Dispatch(commands + more, contexts + moreContexts, command, args) == Dispatch(commands, contexts, command, args)
  {
    GetConcat(commands, more, command);
    var n := Get(commands, command).value;
    if n.ref.Some? {
      GetConcat(commands, more, n.ref.value);
    }
    var root := Resolve(commands, command).value;
    var d := Descend(root, command, args);
    if d.node.handler.Some? {
      GetConcat(contexts, moreContexts, d.node.handler.value.context);
    }
  }
}
