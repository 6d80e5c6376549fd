/**
  UnicornDbg: the shell around the dispatcher. parse_command tokenises a
  prompt line and hands it to exec_command, whose chosen handler then runs;
  the core module's handlers are modelled by what they print.
 */
module Shell {
  import opened Wrappers
  import opened OrderedMaps
  import opened CommandTree
  import opened Registry
  import Tokenizer
  import Dispatch
  import CoreModule
  import Debugger

  /** What one prompt line leads to. */
  datatype Response =
    | Unknown(command: string)                // "'<command>' not found"
    | Unimplemented(command: string)          // "'<command>' not implemented"
    | Failed(command: string)                 // "exec Err: ..." and "'<command>' not found"
    | Helped(help: CoreModule.HelpOutcome)    // the commands list or a help text
    | ModulesListed(names: seq<string>)       // "Loaded modules:" and one line per name
    | Exited(deleted: seq<string>)            // delete() on each, in order, then sys.exit(0)
    | Tested(items: seq<string>)              // print("TEST", args)
    | Shown                                   // show: prints nothing
    | Called(context: string, f: string, command: string, args: seq<string>)  // a handler outside the core module

  /**
    A core module handler called as `f(command, *args)`, reading the
    dispatcher's own maps. The exception raised by help's failure path
    propagates to exec_command and is reported there.
   */
  function RunCore(commands: Commands, contexts: Contexts, f: string, command: string, args: seq<string>): (r: Response)
    ensures r.Failed? ==> f == "help" && r.command == command
    ensures r.Helped? ==> f == "help" && !r.help.HelpRaised?
    ensures f == "help" ==> (r.Failed? || r.Helped?) && (r.Failed? <==> CoreModule.HelpOutput(commands, args).HelpRaised?)
  {
    if f == "help" then
      var out := CoreModule.HelpOutput(commands, args);
      if out.HelpRaised? then Failed(command) else Helped(out)
    else if f == "modules" then ModulesListed(CoreModule.OtherContexts(contexts))
    else if f == "quit" then Exited(CoreModule.OtherContexts(contexts))
    else if f == "test" then Tested([command] + args)
    else if f == "show" then Shown
    else Called(CoreModule.ContextName, f, command, args)
  }

  /** What exec_command's outcome leads to once the chosen handler has run. */
  function Interpret(commands: Commands, contexts: Contexts, out: Dispatch.Outcome): (r: Response)
    ensures r.Unknown? <==> out.NotFound?
    ensures r.Unknown? ==> r.command == out.command
    ensures r.Helped? ==> !r.help.HelpRaised?
  {
    match out
    case NotFound(c) => Unknown(c)
    case NotImplemented(c) => Unimplemented(c)
    case Caught(c) => Failed(c)
    case Invoke(ctx, f, c, rest) =>
      if ctx == CoreModule.ContextName then RunCore(commands, contexts, f, c, rest)
      else Called(ctx, f, c, rest)
  }

  /** parse_command(text) against the given registries. */
  function Respond(commands: Commands, contexts: Contexts, text: string): (r: Response)
    ensures r.Unknown? <==> !Has(commands, Tokenizer.ParseCommand(text).command)
    ensures r.Unknown? ==> r.command == Tokenizer.ParseCommand(text).command
    ensures r.Helped? ==> !r.help.HelpRaised?
  {
    var line := Tokenizer.ParseCommand(text);
    Interpret(commands, contexts, Dispatch.Dispatch(commands, contexts, line.command, line.args))
  }

  /** Concatenation regroups freely. A sequence identity for the solver; it models no part of the program. */
  lemma Concat3<T>(a: seq<T>, b: seq<T>, c: seq<T>)
    ensures (a + b) + c == a + (b + c)
  {
  }

  /**
    The loop of `__init__`: add_module for each module of the list, in
    order, on a dispatcher in any well-formed state.
   */
  method AddModules(instance: Debugger.UnicornDbgFunctions, ms: seq<Module>)
    requires instance.Valid()
    modifies instance
    ensures instance.Valid()
    ensures var r := AttachAll(old(instance.contextMap), old(instance.commandsMap), ms);
            instance.contextMap == r.contexts && instance.commandsMap == r.commands
    ensures instance.initLog
            == old(instance.initLog) + AttachAllLog(old(instance.contextMap), old(instance.commandsMap), ms)
  {
    ghost var contexts, commands, log := instance.contextMap, instance.commandsMap, instance.initLog;
    for i := 0 to |ms|
      invariant instance.Valid()
      invariant var r := AttachAll(contexts, commands, ms[..i]);
                instance.contextMap == r.contexts && instance.commandsMap == r.commands
      invariant instance.initLog == log + AttachAllLog(contexts, commands, ms[..i])
    {
      ghost var earlier := AttachAllLog(contexts, commands, ms[..i]);
      ghost var step := Attach(instance.contextMap, instance.commandsMap, ms[i]);
      ghost var added := if step.ok then [ms[i].name] else [];
      AttachAllSnoc(contexts, commands, ms, i);
      assert AttachAllLog(contexts, commands, ms[..i + 1]) == earlier + added;
      ghost var prior := instance.initLog;
      var ok := instance.AddModule(ms[i]);
      assert ok == step.ok;
      assert instance.initLog == prior + added;
      Concat3(log, earlier, added);
    }
    assert ms[..|ms|] == ms;
  }

  class UnicornDbg {
    var functionsInstance: Debugger.UnicornDbgFunctions

    /**
      `__init__(module_arr)`: a fresh dispatcher holding "self" and the core
      module, then add_module for each module of the list, in order.
     */
    constructor (moduleArr: seq<Module>)
      ensures fresh(functionsInstance) && functionsInstance.Valid()
      ensures var r := AttachAll(CoreContexts, CoreModule.CommandMap, moduleArr);
              functionsInstance.contextMap == r.contexts && functionsInstance.commandsMap == r.commands
      ensures functionsInstance.initLog
              == [CoreModule.ContextName] + AttachAllLog(CoreContexts, CoreModule.CommandMap, moduleArr)
    {
      var instance := new Debugger.UnicornDbgFunctions();
      AddModules(instance, moduleArr);
      functionsInstance := instance;
    }

    /** add_module: forwarded to the dispatcher. */
    method AddModule(m: Module)
      requires functionsInstance.Valid()
      modifies functionsInstance
      ensures functionsInstance.Valid()
      ensures var r := Attach(old(functionsInstance.contextMap), old(functionsInstance.commandsMap), m);
              functionsInstance.contextMap == r.contexts && functionsInstance.commandsMap == r.commands
      ensures var r := Attach(old(functionsInstance.contextMap), old(functionsInstance.commandsMap), m);
              functionsInstance.initLog == old(functionsInstance.initLog) + (if r.ok then [m.name] else [])
    {
      var _ := functionsInstance.AddModule(m);
    }

    /** parse_command(text): split on single spaces, exec_command, and the chosen handler. */
    method ParseCommand(text: string) returns (r: Response)
      ensures r == Respond(functionsInstance.commandsMap, functionsInstance.contextMap, text)
    {
      var line := Tokenizer.ParseCommand(text);
      var out := functionsInstance.ExecCommand(line.command, line.args);
      match out
      case NotFound(c) => r := Unknown(c);
      case NotImplemented(c) => r := Unimplemented(c);
      case Caught(c) => r := Failed(c);
      case Invoke(ctx, f, c, rest) =>
        var contexts := functionsInstance.contextMap;
        var commands := functionsInstance.commandsMap;
        if ctx != CoreModule.ContextName {
          r := Called(ctx, f, c, rest);
        } else if f == "help" {
          var h := CoreModule.Help(commands, c, rest);
          r := if h.HelpRaised? then Failed(c) else Helped(h);
        } else if f == "modules" {
          var names := CoreModule.Modules(contexts);
          r := ModulesListed(names);
        } else if f == "quit" {
          var deleted := CoreModule.Quit(contexts);
          r := Exited(deleted);
        } else if f == "test" {
          r := Tested([c] + rest);
        } else if f == "show" {
          r := Shown;
        } else {
          r := Called(ctx, f, c, rest);
        }
    }
  }

  // ---------------------------------------------------------------------
  // The registries right after start-up

  /** context_map after `__init__`: "self", then the core module. */
  const CoreContexts: Contexts := [(SelfName, SelfContext), (CoreModule.ContextName, Loaded(CoreModule.Instance))]

  lemma CoreContextsLookup()
    ensures DistinctKeys(CoreContexts)
    ensures Get(CoreContexts, CoreModule.ContextName) == Some(Loaded(CoreModule.Instance))
  {
    GetAt(CoreContexts, 1);
  }

  /**
    When every function of the table binds the core module and every alias
    resolves, a line fails exactly when it reaches help and help raises.
   */
  lemma FailsOnlyInHelp(commands: Commands, contexts: Contexts, text: string)
    requires Dispatch.AliasesResolve(commands) && Dispatch.AllHandlersIn(commands, CoreModule.ContextName)
    requires Has(contexts, CoreModule.ContextName)
    ensures Respond(commands, contexts, text).Failed? <==>
              var line := Tokenizer.ParseCommand(text);
              var out := Dispatch.Dispatch(commands, contexts, line.command, line.args);
              out.Invoke? && out.f == "help" && CoreModule.HelpOutput(commands, out.args).HelpRaised?
  {
    var line := Tokenizer.ParseCommand(text);
    Dispatch.NeverCaught(commands, contexts, CoreModule.ContextName, line.command, line.args);
    Dispatch.InvokesOnly(commands, contexts, CoreModule.ContextName, line.command, line.args);
  }

  /** A line of three space-free words parses into the first and the other two. */
  lemma ParseThreeWords(a: string, b: string, c: string)
    requires ' ' !in a && ' ' !in b && ' ' !in c
    ensures Tokenizer.ParseCommand(a + " " + b + " " + c) == Tokenizer.CommandLine(a, [b, c])
  {
    var line := Tokenizer.CommandLine(a, [b, c]);
    assert [line.command] + line.args == [a, b, c];
    assert Tokenizer.Join([a, b, c]) == a + " " + b + " " + c by {
      assert [a, b, c][1..] == [b, c];
      assert [b, c][1..] == [c];
      assert Tokenizer.Join([b, c]) == b + " " + c;
      assert a + " " + (b + " " + c) == a + " " + b + " " + c;
    }
    Tokenizer.ParseUnparse(line);
  }

  /** Respond, given how the line parses and what it dispatches to. */
  lemma RespondVia(commands: Commands, contexts: Contexts, text: string, line: Tokenizer.CommandLine, out: Dispatch.Outcome)
    requires Tokenizer.ParseCommand(text) == line
    requires Dispatch.Dispatch(commands, contexts, line.command, line.args) == out
    ensures Respond(commands, contexts, text) == Interpret(commands, contexts, out)
  {
  }

  lemma ParseQ()
    ensures Tokenizer.ParseCommand("q") == Tokenizer.CommandLine("q", [])
  {
    Tokenizer.ParseUnparse(Tokenizer.CommandLine("q", []));
  }

  lemma DispatchQ()
    ensures Dispatch.Dispatch(CoreModule.CommandMap, CoreContexts, "q", []) == Dispatch.Invoke(CoreModule.ContextName, "quit", "q", [])
  {
    var m := CoreModule.CommandMap;
    CoreModule.CommandMapKeysDistinct();
    GetAt(m, 0);
    GetAt(m, 4);
    CoreContextsLookup();
  }

  lemma OthersCore()
    ensures CoreModule.OtherContexts(CoreContexts) == [CoreModule.ContextName]
  {
    assert CoreContexts[..1] == [(SelfName, SelfContext)];
  }

  /** "q" is the alias of quit: quit runs and tears the core module down. */
  lemma QuitByAlias()
    ensures Respond(CoreModule.CommandMap, CoreContexts, "q") == Exited([CoreModule.ContextName])
  {
    ParseQ();
    DispatchQ();
    OthersCore();
  }

  /** The core registries satisfy the conditions of FailsOnlyInHelp. */
  lemma CoreFailsOnlyInHelp(text: string)
    ensures Respond(CoreModule.CommandMap, CoreContexts, text).Failed? <==>
              var line := Tokenizer.ParseCommand(text);
              var out := Dispatch.Dispatch(CoreModule.CommandMap, CoreContexts, line.command, line.args);
              out.Invoke? && out.f == "help" && CoreModule.HelpOutput(CoreModule.CommandMap, out.args).HelpRaised?
  {
    CoreModule.CommandMapAliasesPlain();
    CoreModule.CommandMapHandlersInContext();
    CoreContextsLookup();
    FailsOnlyInHelp(CoreModule.CommandMap, CoreContexts, text);
  }

  /**
    A commands_map that begins with the core module's table. Every registry
    the shell builds is one (UnicornDbg's constructor and Registry.AttachAll).
   */
  predicate StartsWithCore(commands: Commands) {
    |CoreModule.CommandMap| <= |commands| && commands[..|CoreModule.CommandMap|] == CoreModule.CommandMap
  }

  /** In such a registry, every core command is found as the core table declares it. */
  lemma CoreLookup(commands: Commands, i: nat)
    requires StartsWithCore(commands) && i < |CoreModule.CommandMap|
    ensures Get(commands, CoreModule.CommandMap[i].0) == Some(CoreModule.CommandMap[i].1)
  {
    var m := CoreModule.CommandMap;
    CoreModule.CommandMapKeysDistinct();
    GetAt(m, i);
    assert commands == m + commands[|m|..];
    GetConcat(m, commands[|m|..], m[i].0);
  }

  lemma ShowLookup(commands: Commands)
    requires StartsWithCore(commands)
    ensures Has(commands, "show") && Dispatch.Resolve(commands, "show") == Some(CoreModule.Show)
    ensures Has(commands, "s") && Dispatch.Resolve(commands, "s") == Some(CoreModule.Show)
  {
    CoreLookup(commands, 2);
    CoreLookup(commands, 7);
  }

  /** The walks of the show tree. */
  lemma ShowTree()
    ensures Walk(CoreModule.Show, ["mappings"]) == Some(CoreModule.Mappings)
    ensures Walk(CoreModule.Show, ["mappings", "sub1"]) == Some(CoreModule.Sub1)
    ensures !Dispatch.Matches(CoreModule.Sub1, "extra")
  {
    var entries := CoreModule.Show.subCommands.entries;
    assert entries[0].0 == "mappings";
    assert Get(entries, "mappings") == Some(CoreModule.Mappings);
    var sub := CoreModule.Mappings.subCommands.entries;
    assert sub[0].0 == "sub1";
    assert Get(sub, "sub1") == Some(CoreModule.Sub1);
    assert Walk(CoreModule.Mappings, ["sub1"]) == Some(CoreModule.Sub1);
    WalkAppend(CoreModule.Show, ["mappings"], ["sub1"]);
    assert ["mappings"] + ["sub1"] == ["mappings", "sub1"];
  }

  /** A path that runs past the tree stops at the deepest node: sub1, which has no function. */
  lemma PastTheTree(commands: Commands, contexts: Contexts)
    requires StartsWithCore(commands)
    ensures Dispatch.Dispatch(commands, contexts, "show", ["mappings", "sub1", "extra"]) == Dispatch.NotImplemented("sub1")
  {
    ShowLookup(commands);
    ShowTree();
    var args := ["mappings", "sub1", "extra"];
    assert args[..2] == ["mappings", "sub1"];
    Dispatch.DispatchByWalk(commands, contexts, "show", args, CoreModule.Show, 2, CoreModule.Sub1);
  }

  /** An argument that is not a sub-command is passed on to show, with the name as typed. */
  lemma UnknownSubcommand(commands: Commands, contexts: Contexts)
    requires StartsWithCore(commands) && Has(contexts, CoreModule.ContextName)
    ensures Dispatch.Dispatch(commands, contexts, "show", ["bogus"])
         == Dispatch.Invoke(CoreModule.ContextName, "show", "show", ["bogus"])
  {
    ShowLookup(commands);
    assert !Dispatch.Matches(CoreModule.Show, "bogus");
    Dispatch.DispatchByWalk(commands, contexts, "show", ["bogus"], CoreModule.Show, 0, CoreModule.Show);
  }

  lemma ParseDoubleSpace()
    ensures Tokenizer.ParseCommand("show  mappings") == Tokenizer.CommandLine("show", ["", "mappings"])
  {
    ParseThreeWords("show", "", "mappings");
    assert "show" + " " + "" + " " + "mappings" == "show  mappings";
  }

  /** Two spaces make an empty token, which stops the descent before a valid sub-command. */
  lemma EmptyTokenStops(commands: Commands, contexts: Contexts)
    requires StartsWithCore(commands) && Has(contexts, CoreModule.ContextName)
    ensures Tokenizer.ParseCommand("show  mappings") == Tokenizer.CommandLine("show", ["", "mappings"])
    ensures Dispatch.Dispatch(commands, contexts, "show", ["", "mappings"])
         == Dispatch.Invoke(CoreModule.ContextName, "show", "show", ["", "mappings"])
  {
    ParseDoubleSpace();
    ShowLookup(commands);
    assert !Dispatch.Matches(CoreModule.Show, "");
    Dispatch.DispatchByWalk(commands, contexts, "show", ["", "mappings"], CoreModule.Show, 0, CoreModule.Show);
  }

  /** Through the alias, the sub-command is found and becomes the name; mappings has no function. */
  lemma AliasThenSubcommand(commands: Commands, contexts: Contexts)
    requires StartsWithCore(commands)
    ensures Dispatch.Dispatch(commands, contexts, "s", ["mappings"]) == Dispatch.NotImplemented("mappings")
  {
    ShowLookup(commands);
    ShowTree();
    assert ["mappings"][..1] == ["mappings"];
    Dispatch.DispatchByWalk(commands, contexts, "s", ["mappings"], CoreModule.Show, 1, CoreModule.Mappings);
  }

  /** help with a command path prints the help of the node the path reaches, and no usage. */
  lemma HelpForSubcommand(commands: Commands)
    requires StartsWithCore(commands)
    ensures CoreModule.HelpOutput(commands, ["show", "mappings"]) == CoreModule.HelpText("Show list of mappings", None)
  {
    ShowLookup(commands);
    ShowTree();
    assert ["show", "mappings"][1..] == ["mappings"];
  }

  /** test has no help text: asking for it raises. */
  lemma HelpWithoutText(commands: Commands)
    requires StartsWithCore(commands)
    ensures CoreModule.HelpOutput(commands, ["test"]) == CoreModule.HelpRaised
  {
    CoreLookup(commands, 6);
    assert ["test"][1..] == [];
  }

  /** help without arguments, on the core table alone, prints the sorted commands list. */
  lemma HelpListing()
    ensures CoreModule.HelpOutput(CoreModule.CommandMap, [])
         == CoreModule.Listing(["help", "modules", "quit (q)", "show (s)", "start (c)", "test"])
  {
    CoreModule.CoreCommandsList();
  }

  lemma ParseHelpLine()
    ensures Tokenizer.ParseCommand("help show mappings") == Tokenizer.CommandLine("help", ["show", "mappings"])
  {
    ParseThreeWords("help", "show", "mappings");
    assert "help" + " " + "show" + " " + "mappings" == "help show mappings";
  }

  /** help takes its arguments as they are: the help node has no sub-commands to descend into. */
  lemma DispatchHelpLine(commands: Commands, contexts: Contexts)
    requires StartsWithCore(commands) && Has(contexts, CoreModule.ContextName)
    ensures Dispatch.Dispatch(commands, contexts, "help", ["show", "mappings"])
         == Dispatch.Invoke(CoreModule.ContextName, "help", "help", ["show", "mappings"])
  {
    CoreLookup(commands, 5);
    var n := CoreModule.CommandMap[5].1;
    Dispatch.DispatchByWalk(commands, contexts, "help", ["show", "mappings"], n, 0, n);
  }

  /** The prompt line "help show mappings", end to end. */
  lemma HelpLine(commands: Commands, contexts: Contexts)
    requires StartsWithCore(commands) && Has(contexts, CoreModule.ContextName)
    ensures Respond(commands, contexts, "help show mappings") == Helped(CoreModule.HelpText("Show list of mappings", None))
  {
    ParseHelpLine();
    DispatchHelpLine(commands, contexts);
    HelpForSubcommand(commands);
    RespondVia(commands, contexts, "help show mappings", Tokenizer.CommandLine("help", ["show", "mappings"]),
               Dispatch.Invoke(CoreModule.ContextName, "help", "help", ["show", "mappings"]));
  }

  /** "c" is the alias of start, whose function is show: show runs and receives "c". */
  lemma StartRunsShow(commands: Commands, contexts: Contexts)
    requires StartsWithCore(commands) && Has(contexts, CoreModule.ContextName)
    ensures Dispatch.Dispatch(commands, contexts, "c", []) == Dispatch.Invoke(CoreModule.ContextName, "show", "c", [])
  {
    CoreLookup(commands, 3);
    CoreLookup(commands, 8);
    var n := CoreModule.CommandMap[8].1;
    Dispatch.DispatchByWalk(commands, contexts, "c", [], n, 0, n);
  }

  lemma ParseTestLine()
    ensures Tokenizer.ParseCommand("test a b") == Tokenizer.CommandLine("test", ["a", "b"])
  {
    ParseThreeWords("test", "a", "b");
    assert "test" + " " + "a" + " " + "b" == "test a b";
  }

  /** test has no sub-commands, so it is invoked with all the arguments, whatever they are. */
  lemma DispatchTest(commands: Commands, contexts: Contexts, args: seq<string>)
    requires StartsWithCore(commands) && Has(contexts, CoreModule.ContextName)
    ensures Dispatch.Dispatch(commands, contexts, "test", args)
         == Dispatch.Invoke(CoreModule.ContextName, "test", "test", args)
  {
    CoreLookup(commands, 6);
    var n := CoreModule.CommandMap[6].1;
    assert args[..0] == [];
    Dispatch.DispatchByWalk(commands, contexts, "test", args, n, 0, n);
  }

  /** test prints its whole argument tuple, the command name first. */
  lemma TestLine(commands: Commands, contexts: Contexts)
    requires StartsWithCore(commands) && Has(contexts, CoreModule.ContextName)
    ensures Respond(commands, contexts, "test a b") == Tested(["test", "a", "b"])
  {
    ParseTestLine();
    DispatchTest(commands, contexts, ["a", "b"]);
    RespondVia(commands, contexts, "test a b", Tokenizer.CommandLine("test", ["a", "b"]),
               Dispatch.Invoke(CoreModule.ContextName, "test", "test", ["a", "b"]));
    InterpretTest(commands, contexts, "test", ["a", "b"]);
    ConsPair("test", "a", "b");
  }

  /** List concatenation for three elements, stated for any values. A sequence identity for the solver; it models no part of the program. */
  lemma ConsPair<T>(a: T, b: T, c: T)
    ensures [a] + [b, c] == [a, b, c]
  {
  }

  /**
    Any prompt line "test" followed by space-separated words prints the
    argument tuple: the command name and then every word, empty ones
    included.
   */
  lemma TestEchoes(commands: Commands, contexts: Contexts, args: seq<string>)
    requires StartsWithCore(commands) && Has(contexts, CoreModule.ContextName)
    requires forall i :: 0 <= i < |args| ==> ' ' !in args[i]
    ensures Respond(commands, contexts, Tokenizer.Join(["test"] + args)) == Tested(["test"] + args)
  {
    var line := Tokenizer.CommandLine("test", args);
    var out := Dispatch.Invoke(CoreModule.ContextName, "test", "test", args);
    ParseTest(args);
    DispatchTest(commands, contexts, args);
    RespondVia(commands, contexts, Tokenizer.Join(["test"] + args), line, out);
    InterpretTest(commands, contexts, "test", args);
  }

  /** "test" followed by space-free words parses back into that command and those words. */
  lemma ParseTest(args: seq<string>)
    requires forall i :: 0 <= i < |args| ==> ' ' !in args[i]
    ensures Tokenizer.ParseCommand(Tokenizer.Join(["test"] + args)) == Tokenizer.CommandLine("test", args)
  {
    var test := "test";
    assert test == ['t', 'e', 's', 't'];
    assert ' ' !in test;
    Tokenizer.ParseUnparse(Tokenizer.CommandLine(test, args));
  }

  /** An invocation of the core module's test function is the test handler's echo. */
  lemma InterpretTest(commands: Commands, contexts: Contexts, command: string, args: seq<string>)
    ensures Interpret(commands, contexts, Dispatch.Invoke(CoreModule.ContextName, "test", command, args))
         == Tested([command] + args)
  {
  }
}
