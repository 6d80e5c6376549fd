/**
  UnicornDbgFunctions: the object that owns context_map and commands_map,
  attaches modules and dispatches commands.
 */
module Debugger {
  import opened Wrappers
  import opened OrderedMaps
  import opened CommandTree
  import opened Registry
  import opened Dispatch
  import CoreModule

  /**
    Loading a module, whether it is accepted, rejected up front or rejected
    half-way through its merge, never changes the dispatch outcome of an
    already registered command: the same handler is invoked with the same
    name and arguments, or the same report is made (unless that command
    used to end in the caught-error branch, which a new context can
    repair). What help, modules and quit print does change, since they
    read the registries.
   */
  lemma AttachKeepsDispatch(contexts: Contexts, commands: Commands, m: Module, command: string, args: seq<string>)
    requires Has(commands, command)
    requires Get(commands, command).value.ref.Some? ==> Has(commands, Get(commands, command).value.ref.value)
    requires !Dispatch.Dispatch(commands, contexts, command, args).Caught?
    ensures var r := Attach(contexts, commands, m);
            Dispatch.Dispatch(r.commands, r.contexts, command, args) == Dispatch.Dispatch(commands, contexts, command, args)
  {
    var r := Attach(contexts, commands, m);
    var more: Commands := [];
    var moreContexts: Contexts := [];
    if Admissible(contexts, commands, m) {
      var merged := Merge(commands, m.commands);
      if merged.duplicate.Some? {
        more := m.commands[..merged.duplicate.value];
        assert r.commands == merged.commands == commands + more;
      } else {
        more, moreContexts := m.commands, [(m.name, Loaded(m))];
        assert r.commands == merged.commands == commands + more;
      }
    } else {
      assert commands + more == commands && contexts + moreContexts == contexts;
    }
    assert r.commands == commands + more && r.contexts == contexts + moreContexts;
    DispatchExtend(commands, more, contexts, moreContexts, command, args);
  }

  class UnicornDbgFunctions {
    /** Loaded contexts, in load order; "self" is the dispatcher itself. */
    var contextMap: Contexts
    /** Every command of every loaded module, in load order. */
    var commandsMap: Commands
    /** The context names whose init() has been called, in call order. */
    var initLog: seq<string>

    ghost predicate Valid()
      reads this
    {
      && DistinctKeys(contextMap)
      && DistinctKeys(commandsMap)
      && Get(contextMap, SelfName) == Some(SelfContext)
    }

    /**
      `__init__`: context_map seeded with "self", commands_map empty, then
      the core module attached (which succeeds).
     */
    constructor ()
      ensures Valid()
      ensures contextMap == [(SelfName, SelfContext), (CoreModule.ContextName, Loaded(CoreModule.Instance))]
      ensures commandsMap == CoreModule.CommandMap
      ensures initLog == [CoreModule.ContextName]
    {
      contextMap := [(SelfName, SelfContext)];
      commandsMap := [];
      initLog := [];
      new;
      CoreModule.CommandMapKeysDistinct();
      FreshIff([], CoreModule.CommandMap);
      assert [] + CoreModule.CommandMap == CoreModule.CommandMap;
      var ok := AddModule(CoreModule.Instance);
    }

    /**
      add_module(m): the registries become what Attach says, and init() is
      called (once) exactly when the module was accepted.
     */
    method AddModule(m: Module) returns (ok: bool)
      requires Valid()
      modifies this
      ensures Valid()
      ensures var r := Attach(old(contextMap), old(commandsMap), m);
              contextMap == r.contexts && commandsMap == r.commands && ok == r.ok
      ensures initLog == old(initLog) + (if ok then [m.name] else [])
      ensures m.name == SelfName ==>
                !ok && contextMap == old(contextMap) && commandsMap == old(commandsMap) && initLog == old(initLog)
    {
      AttachKeepsKeysDistinct(contextMap, commandsMap, m);
      assert Has(contextMap, SelfName);
      var contextName := m.name;
      var commandMap := m.commands;
      if !Has(commandsMap, contextName) && !Has(contextMap, contextName) && |commandMap| != 0 && |contextName| != 0 {
        assert contextName != SelfName;
        for i := 0 to |commandMap|
          invariant commandsMap == old(commandsMap) + commandMap[..i]
          invariant FreshEntries(old(commandsMap), commandMap[..i])
          invariant contextMap == old(contextMap) && initLog == old(initLog)
        {
          var (com, node) := commandMap[i];
          if Has(commandsMap, com) {
            // raise Exception('Command "' + com + '" already exist'), caught below
            PartialMerge(contextMap, old(commandsMap), m, i);
            return false;
          }
          FreshSnoc(old(commandsMap), commandMap, i);
          commandsMap := commandsMap + [(com, node)];
          assert commandMap[..i + 1] == commandMap[..i] + [commandMap[i]];
        }
        assert commandMap[..|commandMap|] == commandMap;
        GetAppend(contextMap, contextName, Loaded(m), SelfName);
        contextMap := contextMap + [(contextName, Loaded(m))];
        initLog := initLog + [contextName];  // module.init()
        return true;
      }
      // raise Exception("module already loaded"), caught below
      return false;
    }

    /**
      exec_command(command, args): look the name up, follow one ref, run the
      sub-command loop (DescendLoop) and bind the handler's context; proved
      to compute Dispatch.
     */
    method ExecCommand(command: string, args: seq<string>) returns (out: Outcome)
      ensures out == Dispatch.Dispatch(commandsMap, contextMap, command, args)
    {
      var entry := Get(commandsMap, command);
      if entry.None? {
        return NotFound(command);
      }
      var com: Node;
      if entry.value.ref.Some? {
        var target := Get(commandsMap, entry.value.ref.value);
        if target.None? {
          return Caught(command);  // KeyError
        }
        com := target.value;
      } else {
        com := entry.value;
      }
      var name, rest;
      com, name, rest := DescendLoop(com, command, args);
      if com.handler.Some? {
        var context := Get(contextMap, com.handler.value.context);
        if context.None? {
          return Caught(name);  // KeyError
        }
        // getattr(context, funct)(command, *args)
        return Invoke(com.handler.value.context, com.handler.value.f, name, rest);
      } else {
        return NotImplemented(name);
      }
    }
  }

  /**
    The `while last_function is False` loop of exec_command: descends into
    sub_commands while the next argument is a non-empty key of them,
    popping it from the front of args and making it the active name.
   */
  method DescendLoop(root: Node, command: string, args: seq<string>) returns (com: Node, name: string, rest: seq<string>)
    ensures Descent(com, name, rest) == Descend(root, command, args)
  {
    com, name, rest := root, command, args;
    var lastFunction := false;
    var possibleSubcommand: Option<string> := if |rest| > 0 then Some(rest[0]) else None;
    while !lastFunction
      invariant Descend(com, name, rest) == Descend(root, command, args)
      invariant !lastFunction ==> possibleSubcommand == if |rest| > 0 then Some(rest[0]) else None
      invariant lastFunction ==> Descend(com, name, rest) == Descent(com, name, rest)
      decreases |rest|, !lastFunction
    {
      DescendStep(com, name, rest);
      if com.subCommands.Present? && possibleSubcommand.Some? && possibleSubcommand.value != "" {
        var token := possibleSubcommand.value;
        var next := Get(com.subCommands.entries, token);
        if next.Some? {
          com := next.value;
          rest := rest[1..];  // args.pop(0)
          name := token;
          if |rest| > 0 {
            possibleSubcommand := Some(rest[0]);
          } else {
            lastFunction := true;
            DescendStep(com, name, rest);
          }
        } else {
          lastFunction := true;
        }
      } else {
        lastFunction := true;
      }
    }
  }
}
