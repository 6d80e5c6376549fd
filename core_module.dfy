/**
  CoreModule: the core command table and the handlers that read the
  dispatcher's registries (help, print_usage, modules, quit). The handlers
  take the registries they read as parameters; none of them changes them.
 */
module CoreModule {
  import opened Wrappers
  import opened OrderedMaps
  import opened CommandTree
  import opened Registry
  import Strings
  import Dispatch

  const ContextName: string := "core_module"

  /** The show command and its sub-command tree. */
  const Show: Node := Node(short := Some("s"), usage := Some("show [mappings|patches]"),
                           help := Some("Show list of mappings and patches"), handler := Some(Handler("core_module", "show")),
                           subCommands := Present([("mappings", Mappings), ("patches", Patches)]))
  const Mappings: Node := Node(help := Some("Show list of mappings"), subCommands := Present([("sub1", Sub1)]))
  const Sub1: Node := Node(help := Some("TEST SUB"))
  const Patches: Node := Node(help := Some("Show list of patches"))

  /** The command_map the core module exports, in its declaration order. */
  const CommandMap: Commands := [
    ("q", Node(ref := Some("quit"))),
    ("exit", Node(ref := Some("quit"))),
    ("s", Node(ref := Some("show"))),
    ("c", Node(ref := Some("start"))),
    ("quit", Node(short := Some("q"), handler := Some(Handler("core_module", "quit")), help := Some("Quit command"))),
    ("help", Node(handler := Some(Handler("core_module", "help")), help := Some("Show command"),
                  usage := Some("help [command]"))),
    ("test", Node(handler := Some(Handler("core_module", "test")))),
    ("show", Show),
    ("start", Node(short := Some("c"), usage := Some("start"), help := Some("Start emulation"),
                   handler := Some(Handler("core_module", "show")))),
    ("modules", Node(handler := Some(Handler("core_module", "modules")), help := Some("Loaded modules list")))
  ]

  /** The core module as add_module sees it. */
  const Instance: Module := Module(ContextName, CommandMap)

  // ---------------------------------------------------------------------
  // Well-formedness of the static table

  /** Every alias names a command of the table that is not itself an alias. */
  predicate AliasTargetsPlain(commands: Commands) {
    forall i :: 0 <= i < |commands| && commands[i].1.ref.Some? ==>
      Has(commands, commands[i].1.ref.value) && Get(commands, commands[i].1.ref.value).value.ref.None?
  }

  /** Every `short` value is a command of the table whose ref points back to its owner. */
  predicate ShortsPointBack(commands: Commands) {
    forall i :: 0 <= i < |commands| && commands[i].1.short.Some? ==>
      Has(commands, commands[i].1.short.value) && Get(commands, commands[i].1.short.value).value.ref == Some(commands[i].0)
  }

  /** The table is a dictionary: no command name twice. */
  lemma CommandMapKeysDistinct()
    ensures DistinctKeys(CommandMap)
  {
    // the first letter and the length tell the ten names apart
    var sig := [('q', 1), ('e', 4), ('s', 1), ('c', 1), ('q', 4), ('h', 4), ('t', 4), ('s', 4), ('s', 5), ('m', 7)];
    forall i, j | 0 <= i < j < |CommandMap| ensures CommandMap[i].0 != CommandMap[j].0 {
      assert (CommandMap[i].0[0], |CommandMap[i].0|) == sig[i];
      assert (CommandMap[j].0[0], |CommandMap[j].0|) == sig[j];
    }
  }

  /** Every ref (q, exit, s, c) names a command of the table that is not an alias. */
  lemma CommandMapAliasesPlain()
    ensures AliasTargetsPlain(CommandMap)
  {
    var m := CommandMap;
    CommandMapKeysDistinct();
    GetAt(m, 4);
    GetAt(m, 7);
    GetAt(m, 8);
    assert m[4].1.ref.None? && m[7].1.ref.None? && m[8].1.ref.None?;
    assert m[0].1.ref == Some("quit") && m[1].1.ref == Some("quit");
    assert m[2].1.ref == Some("show") && m[3].1.ref == Some("start");
    forall i | 0 <= i < |m| && m[i].1.ref.Some?
      ensures Has(m, m[i].1.ref.value) && Get(m, m[i].1.ref.value).value.ref.None?
    {
      assert i == 0 || i == 1 || i == 2 || i == 3 || i == 4 || i == 5 || i == 6 || i == 7 || i == 8 || i == 9;
    }
  }

  /** Every short name (q, s, c) is an alias of its owner. */
  lemma CommandMapShortsPointBack()
    ensures ShortsPointBack(CommandMap)
  {
    var m := CommandMap;
    CommandMapKeysDistinct();
    GetAt(m, 0);
    GetAt(m, 2);
    GetAt(m, 3);
    assert m[4].1.short == Some("q") && m[7].1.short == Some("s") && m[8].1.short == Some("c");
    assert m[0].1.ref == Some("quit") && m[2].1.ref == Some("show") && m[3].1.ref == Some("start");
    forall i | 0 <= i < |m| && m[i].1.short.Some?
      ensures Has(m, m[i].1.short.value) && Get(m, m[i].1.short.value).value.ref == Some(m[i].0)
    {
      assert i == 0 || i == 1 || i == 2 || i == 3 || i == 4 || i == 5 || i == 6 || i == 7 || i == 8 || i == 9;
    }
  }

  /** Every function entry, at any depth, binds the module's own context. */
  lemma CommandMapHandlersInContext()
    ensures Dispatch.AllHandlersIn(CommandMap, ContextName)
  {
    assert HandlersIn(Sub1, ContextName);
    assert HandlersIn(Mappings, ContextName);
    assert HandlersIn(Patches, ContextName);
  }

  // ---------------------------------------------------------------------
  // help with no arguments: the commands list

  /** A command appears in the list when it has a short name or is not an alias. */
  predicate Listed(n: Node) {
    n.short.Some? || n.ref.None?
  }

  /** Its line: the bare name, or "name (short)". */
  function Entry(name: string, n: Node): string {
    if n.short.Some? then name + " (" + n.short.value + ")" else name
  }

  /** What one commands_map entry adds to com_array. */
  function Line(e: (string, Node)): seq<string> {
    if Listed(e.1) then [Entry(e.0, e.1)] else []
  }

  /** com_array before sorting: the entries of the listed commands in commands_map order. */
  function ListingEntries(commands: Commands): (lines: seq<string>)
    ensures |lines| <= |commands|
  {
    if |commands| == 0 then [] else Line(commands[0]) + ListingEntries(commands[1..])
  }

  /** A line is in the list exactly when some listed command produces it. */
  lemma {:induction false} ListingContents(commands: Commands, line: string)
    ensures line in ListingEntries(commands) <==>
              exists i :: 0 <= i < |commands| && Listed(commands[i].1) && Entry(commands[i].0, commands[i].1) == line
    decreases |commands|
  {
    if |commands| > 0 {
      var tail := commands[1..];
      ListingContents(tail, line);
      assert forall i :: 0 <= i < |tail| ==> tail[i] == commands[i + 1];
      if exists i :: 0 <= i < |commands| && Listed(commands[i].1) && Entry(commands[i].0, commands[i].1) == line {
        var i :| 0 <= i < |commands| && Listed(commands[i].1) && Entry(commands[i].0, commands[i].1) == line;
        if i > 0 {
          assert Listed(tail[i - 1].1) && Entry(tail[i - 1].0, tail[i - 1].1) == line;
        }
      }
    }
  }

  /** An alias without a short name contributes no line. */
  lemma AliasNotListed(commands: Commands, name: string, target: string)
    requires DistinctKeys(commands)
    requires Get(commands, name) == Some(Node(ref := Some(target)))
    ensures multiset(ListingEntries(commands)) == multiset(ListingEntries(Without(commands, name)))
  {
    var i :| 0 <= i < |commands| && commands[i] == (name, Node(ref := Some(target)));
    ListingSkips(commands, i);
  }

  /** commands_map without the entry for name. */
  function Without(commands: Commands, name: string): Commands {
    if |commands| == 0 then []
    else if commands[0].0 == name then Without(commands[1..], name)
    else [commands[0]] + Without(commands[1..], name)
  }

  lemma {:induction false} ListingSkips(commands: Commands, i: nat)
    requires DistinctKeys(commands) && i < |commands| && !Listed(commands[i].1)
    ensures multiset(ListingEntries(commands)) == multiset(ListingEntries(Without(commands, commands[i].0)))
    decreases |commands|
  {
    var name := commands[i].0;
    var tail := commands[1..];
    assert ListingEntries(commands) == Line(commands[0]) + ListingEntries(tail);
    if i == 0 {
      assert Line(commands[0]) == [];
      assert forall j :: 0 <= j < |tail| ==> tail[j].0 == commands[j + 1].0;
      WithoutAbsent(tail, name);
      assert Without(commands, name) == tail;
    } else {
      assert DistinctKeys(tail) by {
        forall a, b | 0 <= a < b < |tail| ensures tail[a].0 != tail[b].0 {
          assert tail[a] == commands[a + 1] && tail[b] == commands[b + 1];
        }
      }
      assert tail[i - 1] == commands[i];
      ListingSkips(tail, i - 1);
      assert commands[0].0 != name;
      var rest := Without(tail, name);
      assert Without(commands, name) == [commands[0]] + rest;
      assert ([commands[0]] + rest)[0] == commands[0] && ([commands[0]] + rest)[1..] == rest;
      assert ListingEntries(Without(commands, name)) == Line(commands[0]) + ListingEntries(rest);
    }
  }

  lemma {:induction false} WithoutAbsent(commands: Commands, name: string)
    requires forall j :: 0 <= j < |commands| ==> commands[j].0 != name
    ensures Without(commands, name) == commands
    decreases |commands|
  {
    if |commands| > 0 {
      assert commands[0].0 != name;
      WithoutAbsent(commands[1..], name);
      assert commands == [commands[0]] + commands[1..];
    }
  }

  lemma {:induction false} ListingSplit(a: Commands, b: Commands)
    ensures ListingEntries(a + b) == ListingEntries(a) + ListingEntries(b)
    decreases |a|
  {
    if |a| == 0 {
      assert a + b == b;
    } else {
      assert (a + b)[0] == a[0];
      assert (a + b)[1..] == a[1..] + b;
      calc {
        ListingEntries(a + b);
        Line(a[0]) + ListingEntries(a[1..] + b);
        { ListingSplit(a[1..], b); }
        Line(a[0]) + (ListingEntries(a[1..]) + ListingEntries(b));
        (Line(a[0]) + ListingEntries(a[1..])) + ListingEntries(b);
      }
    }
  }

  /**
    The loop at the end of help: every command of commands_map is looked at
    once, in order, and its line (if any) appended to com_array; then
    com_array is sorted. The lines are the sorted permutation of the
    entries of the listed commands.
   */
  method CommandsList(commands: Commands) returns (lines: seq<string>)
    ensures lines == Strings.Sort(ListingEntries(commands))
    ensures Strings.Sorted(lines)
    ensures multiset(lines) == multiset(ListingEntries(commands))
  {
    var comArray: seq<string> := [];
    for i := 0 to |commands|
      invariant comArray == ListingEntries(commands[..i])
    {
      var (com, n) := commands[i];
      assert commands[..i + 1] == commands[..i] + [commands[i]];
      ListingSplit(commands[..i], [commands[i]]);
      var haveShorts := n.short.Some?;
      if !haveShorts && n.ref.None? {
        comArray := comArray + [com];
      } else if haveShorts {
        comArray := comArray + [com + " (" + n.short.value + ")"];
      }
    }
    assert commands[..|commands|] == commands;
    lines := Strings.Sort(comArray);
  }

  /** One step of ListingEntries. */
  lemma ListingStep(commands: Commands)
    requires |commands| > 0
    ensures ListingEntries(commands) ==
              (if Listed(commands[0].1) then [Entry(commands[0].0, commands[0].1)] else []) + ListingEntries(commands[1..])
  {
  }

  /** com_array for the last four commands of the core table. */
  lemma CoreListingTail()
    ensures ListingEntries(CommandMap[6..]) == ["test", "show (s)", "start (c)", "modules"]
  {
    var m := CommandMap;
    assert Entry(m[7].0, m[7].1) == "show (s)";
    assert Entry(m[8].0, m[8].1) == "start (c)";
    assert m[9..][1..] == [];
    assert m[8..][1..] == m[9..];
    assert m[7..][1..] == m[8..];
    assert m[6..][1..] == m[7..];
    ListingStep(m[9..]);
    ListingStep(m[8..]);
    ListingStep(m[7..]);
    ListingStep(m[6..]);
  }

  /** com_array for the core table alone, before sorting: the table order, aliases left out. */
  lemma CoreListingEntries()
    ensures ListingEntries(CommandMap) == ["quit (q)", "help", "test", "show (s)", "start (c)", "modules"]
  {
    var m := CommandMap;
    CoreListingTail();
    assert Entry(m[4].0, m[4].1) == "quit (q)";
    assert m[5..][1..] == m[6..];
    assert m[4..][1..] == m[5..];
    assert m[3..][1..] == m[4..];
    assert m[2..][1..] == m[3..];
    assert m[1..][1..] == m[2..];
    ListingStep(m[5..]);
    ListingStep(m[4..]);
    ListingStep(m[3..]);
    ListingStep(m[2..]);
    ListingStep(m[1..]);
    ListingStep(m);
  }

  /** The expected listing of the core table is in order. */
  lemma CoreListingSorted()
    ensures Strings.Sorted(["help", "modules", "quit (q)", "show (s)", "start (c)", "test"])
  {
    assert Strings.Less("help", "modules");
    assert Strings.Less("modules", "quit (q)");
    assert Strings.Less("quit (q)", "show (s)");
    assert Strings.Less("show (s)", "start (c)");
    assert Strings.Less("start (c)", "test");
    Strings.NeighboursSorted(["help", "modules", "quit (q)", "show (s)", "start (c)", "test"]);
  }

  /** Reordering five blocks keeps the same elements. A sequence identity for the solver; it models no part of the program. */
  lemma ReorderBlocks<T>(a: seq<T>, b: seq<T>, c: seq<T>, d: seq<T>, e: seq<T>)
    ensures multiset(a + b + c + d + e) == multiset(b + e + a + d + c)
  {
  }

  /** The two listings as concatenations of those blocks. A sequence identity for the solver; it models no part of the program. */
  lemma ListingBlocks<T>(q: T, h: T, t: T, sh: T, st: T, mo: T)
    ensures [q] + [h] + [t] + [sh, st] + [mo] == [q, h, t, sh, st, mo]
    ensures [h] + [mo] + [q] + [sh, st] + [t] == [h, mo, q, sh, st, t]
  {
  }

  /**
    The reordering that sorting the core listing performs keeps the same
    elements (stated for any six values).
   */
  lemma ListingPermutation<T>(q: T, h: T, t: T, sh: T, st: T, mo: T)
    ensures multiset([q, h, t, sh, st, mo]) == multiset([h, mo, q, sh, st, t])
  {
    ListingBlocks(q, h, t, sh, st, mo);
    ReorderBlocks([q], [h], [t], [sh, st], [mo]);
  }

  /** Sorting the core listing: the expected order is sorted and has the same elements. */
  lemma SortCoreListing()
    ensures Strings.Sort(["quit (q)", "help", "test", "show (s)", "start (c)", "modules"])
         == ["help", "modules", "quit (q)", "show (s)", "start (c)", "test"]
  {
    CoreListingSorted();
    ListingPermutation("quit (q)", "help", "test", "show (s)", "start (c)", "modules");
    Strings.SortIsUnique(["quit (q)", "help", "test", "show (s)", "start (c)", "modules"],
                         ["help", "modules", "quit (q)", "show (s)", "start (c)", "test"]);
  }

  /** The commands list for the core table alone: help, modules, quit (q), show (s), start (c), test. */
  lemma CoreCommandsList()
    ensures Strings.Sort(ListingEntries(CommandMap)) == ["help", "modules", "quit (q)", "show (s)", "start (c)", "test"]
  {
    CoreListingEntries();
    SortCoreListing();
  }

  // ---------------------------------------------------------------------
  // help with arguments: the path walk

  /**
    The node the help walk reaches: the first token is looked up in
    commands_map and replaced by its ref target (one hop); every later token
    must be a key of the current node's non-empty sub_commands. None is the
    walk's exception (a KeyError, or the explicit raise for a node without
    sub_commands).
   */
  function HelpTarget(commands: Commands, args: seq<string>): (r: Option<Node>)
    requires |args| > 0
    ensures r.Some? ==> Has(commands, args[0])
  {
    if !Has(commands, args[0]) then None
    else
      match Dispatch.Resolve(commands, args[0])
      case None => None
      case Some(root) => Walk(root, args[1..])
  }

  /** One more token of the path is one more step of the walk. */
  lemma HelpTargetStep(commands: Commands, path: seq<string>, token: string)
    requires |path| > 0
    ensures HelpTarget(commands, path + [token]) ==
              if HelpTarget(commands, path).Some? then Walk(HelpTarget(commands, path).value, [token]) else None
  {
    var p := path + [token];
    assert p[0] == path[0] && p[1..] == path[1..] + [token];
    if Has(commands, path[0]) && Dispatch.Resolve(commands, path[0]).Some? {
      WalkAppend(Dispatch.Resolve(commands, path[0]).value, path[1..], [token]);
    }
  }

  /** Once the walk has failed, no further tokens rescue it. */
  lemma HelpTargetFailed(commands: Commands, path: seq<string>, more: seq<string>)
    requires |path| > 0 && HelpTarget(commands, path).None?
    ensures HelpTarget(commands, path + more).None?
  {
    var p := path + more;
    assert p[0] == path[0] && p[1..] == path[1..] + more;
    if Has(commands, path[0]) && Dispatch.Resolve(commands, path[0]).Some? {
      WalkAppend(Dispatch.Resolve(commands, path[0]).value, path[1..], more);
    }
  }

  /** The loop `for arg in args` of help, with h and c as in the source. */
  method WalkHelpPath(commands: Commands, args: seq<string>) returns (target: Option<Node>)
    requires |args| > 0
    ensures target == HelpTarget(commands, args)
  {
    var h: Option<Node> := None;  // None: no command fetched yet
    var c := 0;
    for i := 0 to |args|
      invariant c == i
      invariant i == 0 <==> h.None?
      invariant i > 0 ==> HelpTarget(commands, args[..i]) == h
    {
      var arg := args[i];
      c := c + 1;
      assert args[..i + 1] == args[..i] + [arg];
      assert args == args[..i + 1] + args[i + 1..];
      if h.Some? {
        HelpTargetStep(commands, args[..i], arg);
        var node := h.value;
        if node.subCommands.Present? {
          var sub := node.subCommands.entries;
          if |sub| != 0 {
            var next := Get(sub, arg);
            if next.None? {
              HelpTargetFailed(commands, args[..i + 1], args[i + 1..]);
              return None;
            }
            h := next;
          } else {
            HelpTargetFailed(commands, args[..i + 1], args[i + 1..]);
            return None;
          }
        } else {
          HelpTargetFailed(commands, args[..i + 1], args[i + 1..]);
          return None;
        }
      } else {
        assert args[..i + 1] == [arg];
        var entry := Get(commands, arg);
        if entry.None? {
          HelpTargetFailed(commands, args[..i + 1], args[i + 1..]);
          return None;
        }
        if entry.value.ref.Some? {
          var t := Get(commands, entry.value.ref.value);
          if t.None? {
            HelpTargetFailed(commands, args[..i + 1], args[i + 1..]);
            return None;
          }
          h := t;
        } else {
          h := entry;
        }
      }
    }
    assert c > 0;
    assert args[..|args|] == args;
    return h;
  }

  /** The key print_usage is called with: a command name, or (on help's success path) the whole args tuple. */
  datatype UsageKey = Name(name: string) | ArgsTuple(items: seq<string>)

  /**
    print_usage(key): the "Usage: ..." line when key is a command name of
    commands_map that has a usage; otherwise nothing, and never an error.
   */
  function PrintUsage(commands: Commands, key: UsageKey): (r: Option<string>)
    ensures r.Some? <==> key.Name? && Has(commands, key.name) && Get(commands, key.name).value.usage.Some?
    ensures r.Some? ==> r.value == "Usage: " + Get(commands, key.name).value.usage.value
  {
    match key
    case ArgsTuple(_) => None  // a tuple never equals a str key: the KeyError is swallowed
    case Name(k) =>
      match Get(commands, k)
      case None => None
      case Some(n) => if n.usage.Some? then Some("Usage: " + n.usage.value) else None
  }

  /**
    What the help handler produces: the commands list, the final node's help
    text (and what print_usage printed after it), or an exception that leaves
    the handler.
   */
  datatype HelpOutcome = Listing(lines: seq<string>) | HelpText(text: string, usage: Option<string>) | HelpRaised

  /**
    help(func_name, *args). With no arguments, the sorted commands list.
    With arguments, the help text of the node the walk reaches; print_usage
    is then called with the args tuple and prints nothing. A failed walk, or
    a final node without help (its KeyError), reaches the except branch,
    whose message concatenates a str with the args tuple and so raises
    itself.
   */
  function HelpOutput(commands: Commands, args: seq<string>): (r: HelpOutcome)
    ensures r.Listing? <==> |args| == 0
    ensures r.HelpText? ==> r.usage.None?
    ensures r.HelpText? <==> |args| > 0 && HelpTarget(commands, args).Some? && HelpTarget(commands, args).value.help.Some?
    ensures r.Listing? ==> r.lines == Strings.Sort(ListingEntries(commands))
    ensures r.HelpText? ==> r.text == HelpTarget(commands, args).value.help.value
  {
    if |args| == 0 then Listing(Strings.Sort(ListingEntries(commands)))
    else
      match HelpTarget(commands, args)
      case None => HelpRaised
      case Some(h) =>
        if h.help.Some? then HelpText(h.help.value, PrintUsage(commands, ArgsTuple(args))) else HelpRaised
  }

  method Help(commands: Commands, funcName: string, args: seq<string>) returns (out: HelpOutcome)
    ensures out == HelpOutput(commands, args)
  {
    if |args| > 0 {
      var target := WalkHelpPath(commands, args);
      if target.Some? && target.value.help.Some? {
        out := HelpText(target.value.help.value, PrintUsage(commands, ArgsTuple(args)));
      } else {
        // print("No help for command '" + args + "'" + ' found') raises a TypeError
        out := HelpRaised;
      }
    } else {
      var lines := CommandsList(commands);
      out := Listing(lines);
    }
  }

  /**
    The help walk and the dispatcher's descent read the same tree: the
    arguments a dispatch consumed lead the help walk, from the same typed
    name, to the node the dispatch stopped at.
   */
  lemma HelpWalkFollowsDispatch(commands: Commands, command: string, args: seq<string>)
    requires Has(commands, command) && Dispatch.Resolve(commands, command).Some?
    ensures var d := Dispatch.Descend(Dispatch.Resolve(commands, command).value, command, args);
            HelpTarget(commands, [command] + args[..Dispatch.Consumed(args, d)]) == Some(d.node)
  {
    var root := Dispatch.Resolve(commands, command).value;
    var d := Dispatch.Descend(root, command, args);
    Dispatch.DescendWalks(root, command, args);
    var path := [command] + args[..Dispatch.Consumed(args, d)];
    assert path[0] == command && path[1..] == args[..Dispatch.Consumed(args, d)];
  }

  /**
    Unlike the descent, the walk fails at a token that does not match:
    asking help for a path whose last token is not a sub-command of the
    node before it raises, where the descent of dispatch would only stop.
   */
  lemma HelpFailsAtNonMatch(commands: Commands, path: seq<string>, extra: string)
    requires |path| > 0 && HelpTarget(commands, path).Some?
    requires var n := HelpTarget(commands, path).value;
             !(n.subCommands.Present? && Has(n.subCommands.entries, extra))
    ensures HelpOutput(commands, path + [extra]) == HelpRaised
  {
    var p := path + [extra];
    assert p[0] == path[0] && p[1..] == path[1..] + [extra];
    var root := Dispatch.Resolve(commands, path[0]).value;
    WalkAppend(root, path[1..], [extra]);
  }

  // ---------------------------------------------------------------------
  // modules and quit

  /** The context names of context_map other than "self", in context_map order. */
  function OtherContexts(contexts: Contexts): (names: seq<string>)
    ensures |names| <= |contexts|
  {
    if |contexts| == 0 then []
    else
      var rest := OtherContexts(contexts[..|contexts| - 1]);
      var name := contexts[|contexts| - 1].0;
      if name != SelfName then rest + [name] else rest
  }

  /** In a dictionary, every context but "self" is named exactly once, and "self" never. */
  lemma {:induction false} OtherContextsOnce(contexts: Contexts, name: string)
    requires DistinctKeys(contexts)
    ensures multiset(OtherContexts(contexts))[name] == if Has(contexts, name) && name != SelfName then 1 else 0
    decreases |contexts|
  {
    if |contexts| > 0 {
      var front := contexts[..|contexts| - 1];
      var last := contexts[|contexts| - 1];
      assert contexts == front + [last];
      assert DistinctKeys(front);
      OtherContextsOnce(front, name);
      GetConcat(front, [last], name);
      assert Has([last], name) <==> last.0 == name;
      var rest := OtherContexts(front);
      if last.0 == name {
        assert !Has(front, name);
      }
      if last.0 != SelfName {
        assert OtherContexts(contexts) == rest + [last.0];
        assert multiset(rest + [last.0]) == multiset(rest) + multiset{last.0};
      } else {
        assert OtherContexts(contexts) == rest;
      }
    }
  }

  /** A module attached later is torn down (and listed) later. */
  lemma OtherContextsAppend(contexts: Contexts, m: Module)
    requires m.name != SelfName
    ensures OtherContexts(contexts + [(m.name, Loaded(m))]) == OtherContexts(contexts) + [m.name]
  {
    var c := contexts + [(m.name, Loaded(m))];
    assert c[..|c| - 1] == contexts;
  }

  /** The loop of modules(): the names it prints. */
  method Modules(contexts: Contexts) returns (names: seq<string>)
    ensures names == OtherContexts(contexts)
  {
    names := [];
    for i := 0 to |contexts|
      invariant names == OtherContexts(contexts[..i])
    {
      assert contexts[..i + 1][..i] == contexts[..i];
      var ctx := contexts[i].0;
      if ctx != SelfName {
        names := names + [ctx];
      }
    }
    assert contexts[..|contexts|] == contexts;
  }

  /** The loop of quit(): the contexts whose delete() it calls, in call order (sys.exit follows). */
  method Quit(contexts: Contexts) returns (deleted: seq<string>)
    ensures deleted == OtherContexts(contexts)
  {
    deleted := [];
    for i := 0 to |contexts|
      invariant deleted == OtherContexts(contexts[..i])
    {
      assert contexts[..i + 1][..i] == contexts[..i];
      var ctx := contexts[i].0;
      if ctx != SelfName {
        deleted := deleted + [ctx];
      }
    }
    assert contexts[..|contexts|] == contexts;
  }
}
