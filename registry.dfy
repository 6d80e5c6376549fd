/**
  The two registries of UnicornDbgFunctions and what add_module does to
  them, as functions of the old state. The class that holds the state and
  runs the loop is Debugger.UnicornDbgFunctions.
 */
module Registry {
  import opened Wrappers
  import opened OrderedMaps
  import opened CommandTree

  /**
    A feature module as add_module sees it: the context name it reports
    and its command map, in the map's iteration order.
   */
  datatype Module = Module(name: string, commands: Commands)

  /** A value of context_map: the dispatcher itself under "self", or an attached module. */
  datatype Context = SelfContext | Loaded(instance: Module)

  const SelfName: string := "self"

  type Contexts = OMap<Context>

  /** The guard of add_module: a fresh, non-empty context name and a non-empty command map. */
  predicate Admissible(contexts: Contexts, commands: Commands, m: Module) {
    !Has(commands, m.name) && !Has(contexts, m.name) && |m.commands| != 0 && |m.name| != 0
  }

  /** None of the entries clashes with the table or with an earlier entry. */
  predicate FreshEntries(commands: Commands, entries: Commands) {
    forall j :: 0 <= j < |entries| ==> !Has(commands + entries[..j], entries[j].0)
  }

  /** The outcome of the merge loop: the map it leaves and the index of the duplicate it raised at, if any. */
  datatype MergeResult = MergeResult(commands: Commands, duplicate: Option<nat>)

  /**
    `for com in command_map: if com in commands_map: raise ... else
    commands_map[com] = command_map[com]`. Without a duplicate every entry
    is appended; at the first duplicate the entries before it stay
    installed and the rest are not looked at.
   */
  function Merge(commands: Commands, entries: Commands): (r: MergeResult)
    ensures r.duplicate.None? <==> FreshEntries(commands, entries)
    ensures r.duplicate.None? ==> r.commands == commands + entries
    ensures r.duplicate.Some? ==>
              var i := r.duplicate.value;
              && i < |entries|
              && r.commands == commands + entries[..i]
              && Has(r.commands, entries[i].0)
              && FreshEntries(commands, entries[..i])
    decreases |entries|
  {
    if |entries| == 0 then MergeResult(commands, None)
    else if Has(commands, entries[0].0) then
      FreshCons(commands, entries);
      assert commands + entries[..0] == commands;
      MergeResult(commands, Some(0))
    else
      var step := commands + [entries[0]];
      var r := Merge(step, entries[1..]);
      FreshCons(commands, entries);
      if r.duplicate.None? then
        SnocRest(commands, entries, |entries| - 1);
        assert entries[1..][..|entries| - 1] == entries[1..] && entries[..|entries|] == entries;
        r
      else
        var i := r.duplicate.value;
        var front := entries[..i + 1];
        assert front[0] == entries[0] && front[1..] == entries[1..][..i];
        FreshCons(commands, front);
        SnocRest(commands, entries, i);
        MergeResult(r.commands, Some(i + 1))
  }

  /** Appending the first element and then the next i elements appends i + 1 of them. A sequence identity for the solver; it models no part of the program. */
  lemma SnocRest<T>(a: seq<T>, b: seq<T>, i: nat)
    requires i < |b|
    ensures (a + [b[0]]) + b[1..][..i] == a + b[..i + 1]
  {
    assert b[..i + 1] == [b[0]] + b[1..][..i];
  }

  /** Freshness of a list of entries, one entry at a time. */
  lemma FreshCons(commands: Commands, entries: Commands)
    requires |entries| > 0
    ensures FreshEntries(commands, entries) <==>
              !Has(commands, entries[0].0) && FreshEntries(commands + [entries[0]], entries[1..])
  {
    var step := commands + [entries[0]];
    assert commands + entries[..0] == commands;
    forall j | 0 <= j < |entries| - 1
      ensures step + entries[1..][..j] == commands + entries[..j + 1]
      ensures entries[1..][j] == entries[j + 1]
    {
      assert entries[..j + 1] == [entries[0]] + entries[1..][..j];
    }
  }

  /** The registries after an add_module call, and its return value. */
  datatype AttachResult = AttachResult(contexts: Contexts, commands: Commands, ok: bool)

  /**
    add_module(m). Rejected by the guard: nothing changes. A duplicate
    command: the commands merged before it stay, the context is not
    recorded. Otherwise every command is merged and the context recorded
    under the module's name.
   */
  function Attach(contexts: Contexts, commands: Commands, m: Module): (r: AttachResult)
    ensures r.ok <==> Admissible(contexts, commands, m) && FreshEntries(commands, m.commands)
    ensures !Admissible(contexts, commands, m) ==> r.contexts == contexts && r.commands == commands
    ensures r.ok ==> r.commands == commands + m.commands && r.contexts == contexts + [(m.name, Loaded(m))]
    ensures !r.ok ==> r.contexts == contexts
  {
    if !Admissible(contexts, commands, m) then AttachResult(contexts, commands, false)
    else
      var merged := Merge(commands, m.commands);
      if merged.duplicate.Some? then AttachResult(contexts, merged.commands, false)
      else AttachResult(contexts + [(m.name, Loaded(m))], merged.commands, true)
  }

  /**
    A module rejected at a duplicate command leaves behind exactly the
    commands its map lists before the first clashing one.
   */
  lemma PartialMerge(contexts: Contexts, commands: Commands, m: Module, i: nat)
    requires Admissible(contexts, commands, m)
    requires i < |m.commands| && Has(commands + m.commands[..i], m.commands[i].0)
    requires FreshEntries(commands, m.commands[..i])
    ensures Attach(contexts, commands, m) == AttachResult(contexts, commands + m.commands[..i], false)
  {
    var r := Merge(commands, m.commands);
    assert !FreshEntries(commands, m.commands) by {
      assert m.commands[..i] == m.commands[..|m.commands|][..i];
    }
    // the duplicate Merge stops at is the first one, i
    var k := r.duplicate.value;
    if k < i {
      FreshPrefix(commands, m.commands, i, k);
    } else if k > i {
      FreshPrefix(commands, m.commands, k, i);
    }
  }

  /** An entry before a fresh prefix's end is fresh. */
  lemma FreshPrefix(commands: Commands, entries: Commands, n: nat, j: nat)
    requires j < n <= |entries| && FreshEntries(commands, entries[..n])
    ensures !Has(commands + entries[..j], entries[j].0)
  {
    assert entries[..n][..j] == entries[..j];
    assert entries[..n][j] == entries[j];
  }

  /** The reserved "self" context is never attached over. */
  lemma SelfNeverAttached(contexts: Contexts, commands: Commands, m: Module)
    requires Has(contexts, SelfName) && m.name == SelfName
    ensures Attach(contexts, commands, m) == AttachResult(contexts, commands, false)
  {
  }

  /** Both registries stay dictionaries: add_module never stores a key twice. */
  lemma AttachKeepsKeysDistinct(contexts: Contexts, commands: Commands, m: Module)
    requires DistinctKeys(contexts) && DistinctKeys(commands)
    ensures DistinctKeys(Attach(contexts, commands, m).contexts)
    ensures DistinctKeys(Attach(contexts, commands, m).commands)
  {
    var r := Attach(contexts, commands, m);
    if Admissible(contexts, commands, m) {
      var merged := Merge(commands, m.commands);
      var n := if merged.duplicate.Some? then merged.duplicate.value else |m.commands|;
      assert merged.commands == commands + m.commands[..n] by {
        if merged.duplicate.None? { assert m.commands[..n] == m.commands; }
      }
      FreshAppendDistinct(commands, m.commands[..n]);
      if r.ok {
        assert !Has(contexts, m.name);
        forall i | 0 <= i < |contexts| ensures contexts[i].0 != m.name {
        }
      }
    }
  }

  lemma {:induction false} FreshAppendDistinct(commands: Commands, entries: Commands)
    requires DistinctKeys(commands) && FreshEntries(commands, entries)
    ensures DistinctKeys(commands + entries)
    decreases |entries|
  {
    if |entries| > 0 {
      var front := entries[..|entries| - 1];
      assert FreshEntries(commands, front) by {
        forall j | 0 <= j < |front| ensures !Has(commands + front[..j], front[j].0) {
          assert front[..j] == entries[..j];
        }
      }
      FreshAppendDistinct(commands, front);
      var last := entries[|entries| - 1];
      assert commands + entries == (commands + front) + [last];
      assert !Has(commands + front, last.0) by { assert entries[..|entries| - 1] == front; }
      forall i | 0 <= i < |commands + front| ensures (commands + front)[i].0 != last.0 {
      }
    }
  }

  /**
    The merge raises nowhere exactly when the module's command names are
    pairwise distinct and none of them is already a command.
   */
  lemma {:induction false} FreshIff(commands: Commands, entries: Commands)
    ensures FreshEntries(commands, entries) <==>
              DistinctKeys(entries) && forall j :: 0 <= j < |entries| ==> !Has(commands, entries[j].0)
    decreases |entries|
  {
    if |entries| > 0 {
      var step := commands + [entries[0]];
      FreshCons(commands, entries);
      FreshIff(step, entries[1..]);
      var tail := entries[1..];
      forall j | 0 <= j < |tail|
        ensures Has(step, tail[j].0) <==> Has(commands, tail[j].0) || tail[j].0 == entries[0].0
      {
        if Has(step, tail[j].0) {
          var i :| 0 <= i < |step| && step[i].0 == tail[j].0;
          if i < |commands| { assert commands[i].0 == tail[j].0; }
        }
        if Has(commands, tail[j].0) {
          var i :| 0 <= i < |commands| && commands[i].0 == tail[j].0;
          assert step[i].0 == tail[j].0;
        }
        if tail[j].0 == entries[0].0 {
          assert step[|commands|].0 == tail[j].0;
        }
      }
      assert forall j :: 0 < j < |entries| ==> entries[j] == tail[j - 1];
    }
  }

  /** One more entry of the loop that did not clash keeps the merged prefix fresh. */
  lemma FreshSnoc(commands: Commands, entries: Commands, i: nat)
    requires i < |entries| && FreshEntries(commands, entries[..i])
    requires !Has(commands + entries[..i], entries[i].0)
    ensures FreshEntries(commands, entries[..i + 1])
  {
    var e := entries[..i + 1];
    forall j | 0 <= j < |e| ensures !Has(commands + e[..j], e[j].0) {
      assert e[..j] == entries[..j];
      if j < i {
        assert entries[..i][..j] == entries[..j];
        assert entries[..i][j] == entries[j];
      }
    }
  }

  /**
    add_module called for each module of a list in turn. Whatever is
    accepted or rejected, what was registered before stays in place, at
    the front of both registries.
   */
  function AttachAll(contexts: Contexts, commands: Commands, ms: seq<Module>): (r: AttachResult)
    ensures |contexts| <= |r.contexts| && r.contexts[..|contexts|] == contexts
    ensures |commands| <= |r.commands| && r.commands[..|commands|] == commands
    decreases |ms|
  {
    if |ms| == 0 then AttachResult(contexts, commands, true)
    else
      var before := AttachAll(contexts, commands, ms[..|ms| - 1]);
      var r := Attach(before.contexts, before.commands, ms[|ms| - 1]);
      assert r.contexts[..|contexts|] == before.contexts[..|contexts|];
      assert r.commands[..|commands|] == before.commands[..|commands|];
      AttachResult(r.contexts, r.commands, before.ok && r.ok)
  }

  /**
    The names whose init() add_module calls while the modules of ms are
    added in turn: the accepted ones, in order. Every one of them ends up
    registered as a context, and all of ms is accepted exactly when every
    module's init() was called.
   */
  function AttachAllLog(contexts: Contexts, commands: Commands, ms: seq<Module>): (log: seq<string>)
    ensures |log| <= |ms|
    ensures AttachAll(contexts, commands, ms).ok <==> |log| == |ms|
    decreases |ms|
  {
    if |ms| == 0 then []
    else
      var front := ms[..|ms| - 1];
      var before := AttachAll(contexts, commands, front);
      var r := Attach(before.contexts, before.commands, ms[|ms| - 1]);
      AttachAllLog(contexts, commands, front) + if r.ok then [ms[|ms| - 1].name] else []
  }

  /** Every module whose init() was called ends up registered as a context. */
  lemma {:induction false} AttachAllLogRegistered(contexts: Contexts, commands: Commands, ms: seq<Module>, i: nat)
    requires i < |AttachAllLog(contexts, commands, ms)|
    ensures Has(AttachAll(contexts, commands, ms).contexts, AttachAllLog(contexts, commands, ms)[i])
    decreases |ms|
  {
    var front := ms[..|ms| - 1];
    var m := ms[|ms| - 1];
    var before := AttachAll(contexts, commands, front);
    var earlier := AttachAllLog(contexts, commands, front);
    var r := Attach(before.contexts, before.commands, m);
    var log := AttachAllLog(contexts, commands, ms);
    assert log == earlier + if r.ok then [m.name] else [];
    assert AttachAll(contexts, commands, ms).contexts == r.contexts;
    if i < |earlier| {
      AttachAllLogRegistered(contexts, commands, front, i);
      assert log[i] == earlier[i];
      if r.ok {
        GetConcat(before.contexts, [(m.name, Loaded(m))], log[i]);
      }
    } else {
      assert r.ok && log[i] == m.name;
      GetConcat(before.contexts, [(m.name, Loaded(m))], m.name);
      assert Has([(m.name, Loaded(m))], m.name) by { assert [(m.name, Loaded(m))][0].0 == m.name; }
    }
  }

  /** One more module added: AttachAll and its log both take one step of Attach. */
  lemma AttachAllSnoc(contexts: Contexts, commands: Commands, ms: seq<Module>, i: nat)
    requires i < |ms|
    ensures var before := AttachAll(contexts, commands, ms[..i]);
            var r := Attach(before.contexts, before.commands, ms[i]);
            && AttachAll(contexts, commands, ms[..i + 1]).contexts == r.contexts
            && AttachAll(contexts, commands, ms[..i + 1]).commands == r.commands
            && AttachAllLog(contexts, commands, ms[..i + 1])
               == AttachAllLog(contexts, commands, ms[..i]) + (if r.ok then [ms[i].name] else [])
  {
    assert ms[..i + 1][..i] == ms[..i];
  }
}
