# uDdbg command dispatch, modelled in Dafny

uDdbg is an interactive debugger front end. Its command dispatch engine works in three steps:

- It reads a prompt line and splits it on single spaces.
- It looks the first token up in `commands_map`, following one alias (`ref`) hop.
- It descends into `sub_commands` while the next argument names one, then calls the bound handler `context_map[context].f(command, *args)`.

Feature modules register their command maps with `add_module`. The core module supplies ten commands: `help`, `modules`, `quit`, `test`, `show` and `start`, and the aliases `q` and `exit` (of `quit`), `s` (of `show`) and `c` (of `start`). Their handler functions are `help`, `modules`, `quit`, `test` and `show`; `start` is bound to `show`.

Layout of the model:

- `ordered_maps.dfy`: insertion-ordered string-keyed dictionaries.
- `command_tree.dfy`: command nodes and the strict walk along a path of sub-commands.
- `tokenizer.dfy`: `text.split(' ')` and the command/argument split of `parse_command`.
- `dispatch.dfy`: `exec_command` as a function (`Dispatch`), with the greedy sub-command descent (`Descend`).
- `registry.dfy`: `add_module` as a function of the old registries (`Attach`), including its partial merge.
- `strings.dfy`: Python's string ordering and the sort used by `help`.
- `core_module.dfy`: the core command table. It also holds `help` and its path walk, `print_usage`, `modules` and `quit`.
- `debugger.dfy`: class `UnicornDbgFunctions`. It holds `context_map`, `commands_map` and the `init()` calls. Its methods `AddModule` and `ExecCommand` are loops proved equal to `Attach` and `Dispatch`.
- `shell.dfy`: class `UnicornDbg` with `parse_command`, the core handlers' responses, and worked scenarios on the start-up registries.

Where the description of the system and the code disagree, the model follows the code:

- `add_module` is not all-or-nothing. Its merge loop writes each command as it goes. A duplicate name raises half-way through, so the commands before it stay installed, while the module is not recorded in `context_map` (`Registry.PartialMerge`).
- An alias passes the alias as typed (`q`) to the handler as the command name, not the target's name. The invocation is otherwise identical (`Dispatch.AliasDispatchesLikeTarget`).
- When a help walk fails, the `except` branch concatenates a `str` with the argument tuple. That raises a `TypeError`, which `exec_command` catches and reports. No usage fallback is printed. On success, `print_usage` is called with the argument tuple, which is never a key, so no usage is printed either (`CoreModule.HelpOutput`).
- On screen, an unknown command and a caught error look alike. After every caught exception, such as a dangling ref, an unknown context or help's `TypeError`, `exec_command` prints "exec Err: ..." and then "'<command>' not found" (main.py:104-106). The model keeps the two apart as the outcomes `NotFound` and `Caught` (the responses `Unknown` and `Failed`).
- Teardown visits the modules in `context_map` order, which is attachment order (`CoreModule.Quit`, `CoreModule.OtherContextsAppend`).

## Model

| member | source | states |
|---|---|---|
| OrderedMaps.Get | main.py:52-59 | `d[k]` finds a value exactly when `k in d`, and the value found is stored under `k` |
| OrderedMaps.GetConcat | main.py:137-139 | adding entries after the existing ones adds keys and leaves the lookup of every existing key unchanged |
| CommandTree.WalkAppend | modules/core_module.py:135-147 | walking along p and then q is walking along p + q; a walk that failed stays failed |
| CommandTree.WalkKeepsHandlersIn | main.py:62-93 | if every handler in a tree binds context ctx, so does every handler of every node a walk reaches |
| Tokenizer.Split | main.py:205 | `text.split(' ')` yields at least one token, no token contains a space, and joining the tokens with single spaces gives back the text |
| Tokenizer.SplitJoin | main.py:205 | splitting undoes joining for every non-empty list of space-free tokens |
| Tokenizer.ParseCommand | main.py:205-208 | the command and its arguments contain no space, and together they rejoin to the typed line, empty tokens included |
| Tokenizer.ParseUnparse | main.py:205-208 | parsing a command line written with single spaces gives back that command and those arguments |
| Dispatch.Descend | main.py:62-87 | the sub-command loop only pops from the front: what it leaves is a suffix of the arguments |
| Dispatch.DescendStops | main.py:70-87 | the loop ends because no argument is left or the next one does not name a sub-command |
| Dispatch.DescendWalks | main.py:71-73 | the consumed arguments spell a strict walk from the root to the final node |
| Dispatch.DescendTokens | main.py:71 | every consumed argument is non-empty (the truthiness test) |
| Dispatch.DescendName | main.py:77 | the active name is the last consumed argument, or the typed name when none was consumed |
| Dispatch.DescendUnique | main.py:69-87 | any stopping point that meets those conditions is the loop's, so the loop is fully described by them |
| Dispatch.DescendRename | main.py:76 | the typed name affects only the reported name, and only when no sub-command was consumed |
| Dispatch.Finish | main.py:91-100 | after the loop: an invocation exactly when the node has a function whose context is registered, with that function and the remaining arguments; "not implemented" exactly when the node has no function; always under the active name |
| Dispatch.Dispatch | main.py:40-106 | the `NotFound` outcome exactly for names absent from commands_map. The reported name is the typed one or one of the arguments. An invocation binds a registered context and passes on a suffix of the arguments |
| Dispatch.DispatchByWalk | main.py:52-100 | the outcome follows from the resolved root, the longest walk over leading non-empty arguments, the reached node's handler and whether its context is registered |
| Dispatch.DanglingRefCaught | main.py:56-57 | an alias whose target is missing ends in the caught KeyError, reported under the typed name |
| Dispatch.AliasDispatchesLikeTarget | main.py:56-98 | an alias of a plain command invokes the same handler with the same arguments as the command itself. Only the reported name differs: it is the alias unless a sub-command was consumed |
| Dispatch.RefChainNotFollowed | main.py:56-57 | aliases are followed for one hop only: an alias of a pure alias (a node with a ref, no function and no sub_commands) is "not implemented" |
| Dispatch.NeverCaught | main.py:91-106 | when every alias resolves and every handler binds one registered context, no dispatch reaches the except branch |
| Dispatch.InvokesOnly | main.py:91-98 | when every handler of the table binds ctx, every invocation binds ctx |
| Dispatch.DispatchExtend | main.py:52-98 | registering more commands and contexts later never changes the outcome for an already registered command that did not end in the caught-error branch |
| Registry.Merge | main.py:133-137 | the merge loop raises exactly when some command is already present (counting those merged before it). Without a duplicate, all commands are appended in order. At a duplicate, exactly the fresh prefix before it is appended |
| Registry.FreshIff | main.py:133-135 | the merge raises nowhere exactly when the module's command names are pairwise distinct and none is already registered |
| Registry.Attach | main.py:114-150 | success exactly when the guard holds and the merge does not raise. A guard rejection changes nothing. Success appends all commands and records the context. Any failure leaves context_map unchanged |
| Registry.PartialMerge | main.py:133-137 | a module rejected at its i-th command leaves exactly its first i commands installed and no context |
| Registry.SelfNeverAttached | main.py:128-129 | a module named "self" is always rejected and changes nothing |
| Registry.AttachKeepsKeysDistinct | main.py:128-139 | after add_module, both registries still hold each key at most once |
| Registry.FreshAppendDistinct | main.py:133-137 | appending a fresh run of commands to a dictionary keeps it a dictionary |
| Registry.AttachAll | main.py:171-173 | adding a list of modules in turn keeps everything registered earlier, in place, at the front of both registries |
| Registry.AttachAllLog | main.py:171-173 | the modules whose init() is called while a list is added: never more than the list, and the whole list exactly when every module was accepted |
| Registry.AttachAllSnoc | main.py:171-173 | adding one more module extends the registries by one Attach and the init() calls by that module exactly when it is accepted |
| Registry.AttachAllLogRegistered | main.py:139-143 | every module whose init() was called is registered as a context |
| Strings.LessIrreflexive | modules/core_module.py:176 | no string sorts before itself |
| Strings.LessTransitive | modules/core_module.py:176 | string order is transitive |
| Strings.LessTotal | modules/core_module.py:176 | of two distinct strings, one sorts before the other |
| Strings.LessAsymmetric | modules/core_module.py:176 | two strings never sort before each other |
| Strings.NeighboursSorted | modules/core_module.py:176 | a list whose neighbours are in order is sorted |
| Strings.Insert | modules/core_module.py:176 | inserting into a sorted list keeps it sorted and adds exactly that element |
| Strings.Sort | modules/core_module.py:176 | `list.sort()` yields a sorted permutation of its input |
| Strings.SortedUnique | modules/core_module.py:176 | two sorted lists with the same elements are equal |
| Strings.SortIsUnique | modules/core_module.py:176 | any sorted permutation of the input is the sort's result |
| CoreModule.CommandMapKeysDistinct | modules/core_module.py:20-93 | the core table names each command once |
| CoreModule.CommandMapAliasesPlain | modules/core_module.py:21-32 | q, exit, s and c point at commands of the table that are not aliases themselves |
| CoreModule.CommandMapShortsPointBack | modules/core_module.py:33-85 | every short name (q, s, c) is registered as an alias of its owner |
| CoreModule.CommandMapHandlersInContext | modules/core_module.py:35-90 | every function entry, at any depth, binds the context "core_module" |
| CoreModule.ListingContents | modules/core_module.py:168-174 | a line is in the commands list exactly when some command with a short name contributes "name (short)" or some non-alias command contributes its bare name |
| CoreModule.AliasNotListed | modules/core_module.py:170-174 | a pure alias never appears in the commands list |
| CoreModule.ListingSkips | modules/core_module.py:170-174 | an alias without a short name contributes nothing |
| CoreModule.ListingSplit | modules/core_module.py:169-174 | the list for two registries one after the other is the concatenation of their lists |
| CoreModule.CommandsList | modules/core_module.py:166-178 | the printed commands list is the sorted listing: it is sorted and a permutation of the listed entries |
| CoreModule.CoreCommandsList | modules/core_module.py:166-178 | for the core table the list is help, modules, quit (q), show (s), start (c), test |
| CoreModule.HelpTarget | modules/core_module.py:135-155 | a help walk that reaches a node started from a key of commands_map |
| CoreModule.HelpTargetStep | modules/core_module.py:139-147 | each further token of the path is one more strict walk step from the node reached so far |
| CoreModule.HelpTargetFailed | modules/core_module.py:139-147 | once the help walk has raised, no further tokens rescue it |
| CoreModule.WalkHelpPath | modules/core_module.py:131-155 | the `for arg in args` loop with h and c computes HelpTarget |
| CoreModule.PrintUsage | modules/core_module.py:194-205 | prints "Usage: " + usage exactly when the key is a command name whose node has a usage; a tuple key prints nothing and raises nothing |
| CoreModule.HelpOutput | modules/core_module.py:115-178 | with no arguments, the lines printed are the sorted listing entries of the registry. With arguments, the text printed is the help of the node the walk reaches, when the walk succeeds and that node has help, and then no usage line. Otherwise it raises |
| CoreModule.Help | modules/core_module.py:115-178 | the help handler produces what HelpOutput describes |
| CoreModule.HelpWalkFollowsDispatch | modules/core_module.py:135-155 | the arguments a dispatch consumed lead the help walk, from the same name, to the node the dispatch stopped at |
| CoreModule.HelpFailsAtNonMatch | modules/core_module.py:139-147 | help raises for a path whose last token is not a sub-command of the node before it |
| CoreModule.OtherContexts | modules/core_module.py:111-112 | at most one name per context_map entry |
| CoreModule.OtherContextsOnce | modules/core_module.py:189-191 | every attached module is named (torn down) exactly once, and "self" never |
| CoreModule.OtherContextsAppend | modules/core_module.py:189-191 | a module attached later is listed and torn down later |
| CoreModule.Modules | modules/core_module.py:101-113 | modules() prints the names of all contexts except "self", in context_map order |
| CoreModule.Quit | modules/core_module.py:180-192 | quit() calls delete() on every context except "self", in context_map order |
| Debugger.AttachKeepsDispatch | main.py:114-150 | an add_module call, whether it succeeds, is rejected or fails half-way, never changes the dispatch outcome of an already registered command: the handler invoked, with the same name and arguments, or the same report (unless it used to end in a caught error). help, modules and quit do see the new entries |
| Debugger.UnicornDbgFunctions.constructor | main.py:20-35 | the registries start as "self" plus the core module with its whole table, and the core module's init() has been called |
| Debugger.UnicornDbgFunctions.AddModule | main.py:114-150 | the registries and the return value become what Attach says. init() is called once exactly on success. Both registries stay dictionaries holding "self". A module named "self" is rejected and changes nothing |
| Debugger.UnicornDbgFunctions.ExecCommand | main.py:40-106 | the lookup, the one ref hop, the sub-command loop and the context binding compute Dispatch |
| Debugger.DescendLoop | main.py:62-87 | the `while last_function is False` loop, popping arguments from the front, computes Descend |
| Shell.RunCore | modules/core_module.py:95-192 | among the core handlers only help can fail, and it fails exactly when its output would be the raised exception |
| Shell.Interpret | main.py:91-106 | the `Unknown` response exactly for the `NotFound` outcome, under its name; a help response never carries the exception |
| Shell.Respond | main.py:199-209 | a line gets the `Unknown` response exactly when its first token is not a command, reported under that token; help responses never carry the exception |
| Shell.UnicornDbg.constructor | main.py:158-173 | a new dispatcher with "self" and the core module, then each module of module_arr added in turn: the registries are what AttachAll says, and init() has been called for the core module and then for each accepted module, in order |
| Shell.AddModules | main.py:171-173 | adding the modules of a list in turn, from any well-formed state, gives the registries AttachAll computes and appends the accepted modules' names to the init() calls |
| Shell.UnicornDbg.AddModule | main.py:175-181 | forwards to the dispatcher: the registries become what Attach says, and init() is called for the module exactly when Attach accepts it |
| Shell.UnicornDbg.ParseCommand | main.py:199-209 | split the line, exec_command and the chosen core handler compute Respond |
| Shell.CoreContextsLookup | main.py:23-35 | after start-up, context_map is a dictionary and "core_module" names the core module |
| Shell.FailsOnlyInHelp | main.py:91-106 | if every alias resolves and every handler binds the core module, a line fails exactly when it invokes help and help raises |
| Shell.CoreFailsOnlyInHelp | main.py:91-106 | the core table meets those conditions, so at start-up only a help request can fail |
| Shell.CoreLookup | modules/core_module.py:20-93 | in any registry that begins with the core table, each core command is found with its core definition |
| Shell.QuitByAlias | modules/core_module.py:21-23 | the line "q" runs quit, which tears down the core module and exits |
| Shell.PastTheTree | main.py:69-100 | in any registry beginning with the core table, "show mappings sub1 extra" stops at sub1, which has no function: "'sub1' not implemented" |
| Shell.UnknownSubcommand | main.py:70-98 | in any registry beginning with the core table, "show bogus" runs show with the name "show" and the argument "bogus" |
| Shell.EmptyTokenStops | main.py:70-71 | in any registry beginning with the core table, "show  mappings" (two spaces) parses to the arguments "" and "mappings", and the empty token stops the descent, so show receives both |
| Shell.AliasThenSubcommand | main.py:56-100 | in any registry beginning with the core table, "s mappings" descends through the alias into mappings, which has no function: "'mappings' not implemented" |
| Shell.HelpForSubcommand | modules/core_module.py:135-159 | in any registry beginning with the core table, help for show mappings prints "Show list of mappings" and no usage |
| Shell.HelpWithoutText | modules/core_module.py:157-162 | in any registry beginning with the core table, help for test, which has no help text, raises |
| Shell.HelpListing | modules/core_module.py:166-178 | help with no arguments prints the six listed core commands in sorted order |
| Shell.HelpLine | main.py:199-209 | in any registry beginning with the core table, the prompt line "help show mappings" ends in the help text of mappings |
| Shell.StartRunsShow | modules/core_module.py:77-85 | in any registry beginning with the core table, "c" resolves to start, whose function is show, and show receives the name "c" |
| Shell.TestLine | modules/core_module.py:95-96 | in any registry beginning with the core table, "test a b" prints the argument tuple ("test", "a", "b") |
| Shell.TestEchoes | modules/core_module.py:95-96 | in any registry beginning with the core table, the line "test" followed by any space-free words gets the Tested response with "test" and exactly those words |

## Left out

- The emulator, architecture and mode prompts and the prompt loop of `start` are left out. They are I/O over external libraries; a line reaches the model as a parameter of `ParseCommand`.
- Colored and plain console output is left out. Printing is modelled as the `Outcome`, `HelpOutcome` and `Response` values. The `print("sub_commands")` inside the loop and the `print(args)` at the end of `exec_command` and the registry dump on a failed `add_module` are not modelled.
- `sys.exit(0)` after teardown is modelled as the `Exited` response. What each module's `delete()` does is outside this model; the model records which modules it is called on, in order.
- Handler bodies of modules other than the core module are not modelled, and neither are exceptions raised inside any handler other than help. An invocation of such a handler is the `Called` response.
- A module's `init()` and `delete()` are assumed not to raise. If `init()` raised (main.py:143), `add_module` would return False (main.py:147-150) although both registries were already updated (main.py:137, main.py:139); the model then says the module was accepted. If `delete()` raised during teardown (modules/core_module.py:191), `exec_command` would catch it (main.py:104); the model then says `Exited`.
- `getattr(context, f)` is assumed to resolve. Shell.RunCore treats an unknown function name of the core module as an ordinary call rather than the caught `AttributeError`.
- Shell.Respond: recognises the core module by its context name "core_module" rather than by object identity. The core module is attached first, and names are never reused.
- The `AttributeError` handler of `parse_command` cannot trigger in the model: splitting a string always succeeds.
- `binary_loader` and `AbstractUnicornDbgModule` are not part of this model. The dispatcher's constructor attaches only the core module and does not attach the binary loader.
- A module is reduced to its context name and its command map, and `init()` is recorded by name in `initLog`. `get_emu_instance` is left out.
- Python's `is not "self"` is read as string inequality (the literal is interned).
- CoreModule.HelpTarget: the help loop tests the current node with `if h:`, and an empty node dictionary is falsy there. The source would then look the next token up in `commands_map` again, whereas the model always walks `sub_commands`. No node of the core table is empty.
- Integers play no role here; there is no overflow to model.
