# A verified model of the core of SECONDO

SECONDO is an extensible database system. This project models the parts of it whose correctness
is least visible in the code, in Dafny, and proves what they promise. `dafny verify
dfyconfig.toml` checks everything.

**The query processor.** `Annotate` numbers abstractions, resolves names and overloaded
operators and checks types; `Subtree` turns the annotation into an operator tree; `Eval` runs the
tree. The parameters of all functions of a query live in one shared, mutable set of argument
vectors. The central theorem (`Query`, resting on `TypesAgree`, `TreesFit`, `Meaning`,
`Soundness` and `Frame`) says that this machinery computes what a direct reading of the query with
lexical environments says, and delivers values of the lexical type; `QueryAcceptance` reads off
the query alone which queries are accepted, and when objects they name make them undefined, and
`QueryValues` which constants and objects the table of values holds. It assumes what the program's
own comment assumes about variables, stated as `Scoped`; `QueryLimits` shows what happens without
it.
`QueryTerms`, `Annotation`, `OperatorTree` and `Semantics` define the vocabulary, the
specification of annotation, the trees and the direct semantics; `TypedTrees`, `CompilerTypes`,
`CompilerCorrectness` and `CompilerMeaning` hold the proof, `QueryProcessing` the object with its
fields. Algebras are a record of functions; what a sound algebra and catalog are is `ContextOk`,
what is asked of the operators in a query `Sound`. A value mapping is a tree of requests and
answers, of any well-founded shape. `StreamEvaluation` adds messages, saved arguments and counters
of stream operators, and shows that trees without streams are evaluated to their recursive value
(`PlainAnswer`). `MemoryDistribution` holds the two passes that give operators their memory.

**The catalog.** In-memory maps of pending inserts, updates and deletes lie over persistent files;
`CleanUp` folds them into the files in two passes. Every run refines a run on two plain maps
(`RunRefines`), keeps value records apart, and keeps references between objects and types;
`SaveRestoreExact` says when saving and restoring undo each other. The storage manager is modelled
as maps with a snapshot that abort brings back. `CatalogState`, `CatalogOperations`,
`CatalogCommit` and `CatalogRuns` are the specification and its theorems, `CatalogRecords` says
what happens to value records, and `SecondoCatalogs` and `SecondoSystems` are the objects.

**The local socket.** Two ring buffers in shared memory with wait flags and auto-reset events,
as a state machine of atomic steps under sequential consistency (`LocalSocket`,
`LocalSocketPair`), what a call to read or write has done when it returns (`LocalSocketCalls`),
and the exact damage done by the wrong flag (`LocalSocketWake`).

**Byte streams.** Stream buffers over sockets whose system calls move any number of bytes
(`UnixSockets`, `SocketBuffers`).

**File splitters and table files.** `ShapefileSplit` (record layout as in section "Organization of
the Main File" of the ESRI Shapefile Technical Description, July 1998), `CsvSplit`, and
`TableFile` with the reader of `TableReading`.

## Where the code does not do what its documentation or name says

The model follows the code in all of these.

- Names are never removed from the table of variables, although they are described as valid in
  their function (`NamesStay`, `SymbolAgreesExactly`). An object hides a parameter of the same name
  (`ObjectsHideParameters`).
- Counter definitions accept the number 16, for which the counter array has no cell
  (`CounterAccepted`; `CountRequest` keeps such increments apart).
- `RenameObject` moves a pending update to a name the file does not have
  (`RenameObjectExact`, `RenameLosesUpdate`). If a delete is pending under the new name, a stored
  object is lost: its record is deleted before the new one is refused (`RenameAnswers`).
- `DeleteType` counts users that are already deleted (`DeleteTypeExact`).
- `CleanUp` overwrites its success flag; it is right all the same, because every single step
  succeeds (`CleanUp`, `CommitRefines`).
- A woken socket writer clears the send flag of the wrong ring (`WakeAsWrittenExact`,
  `CarefulRunsKeepPromise`, `LostWakeup`).
- A byte put into a full stream buffer that cannot be flushed is written behind the buffer
  (`SocketBuffer.Overflow`, `ByteBehindTheBuffer`).
- The explicit memory sizes are added in `size_t`; when the sum runs over, the budget is lost
  (`Budget`, `BudgetLost`).
- The share of a part of a shapefile is cut to 32 bits. Well-formed files are too short for that
  to matter; longer ones lose records (`AllDealtExactly`, `LongFileLosesRecords`). The file length
  in the header of a part stays that of the whole file, because the correction opens another file
  name.
- With an open quote at the end of a CSV file the multiline loop does not end, or writes the last
  line twice (`FinishRecord`, `EndlessExactly`, `UnclosedQuote`).
- A scanner table with the smallest 32-bit integer can be narrowed (`NarrowingKeepsExactly`,
  `NarrowingLoses`), and a narrow table with its smallest value makes the program give up
  (`RefusedExactly`, `NarrowTableRefused`).
- Objects that are saved while still pending get a wrapped type (`PendingAreLostExactly`).

## Model

| member | source | states |
|---|---|---|
| QueryProcessing.QueryProcessor.Query | secondo/QueryProcessor/QueryProcessor.cpp:3714-3880 | For every well-scoped query with small first-order functions, read off the query alone: an error is reported exactly if some part has no clean lexical type or a parameter is not proper; otherwise the result is an undefined object exactly if an object named anywhere in the query is not defined, a value exactly if the lexical type is a value type, and a function exactly if the query denotes one whose body computes; a value is the one of the direct environment semantics and has the lexical type |
| QueryAcceptance.AcceptedExactly | secondo/QueryProcessor/QueryProcessor.cpp:1394-2670 | A well-scoped query is accepted exactly if all its parts have clean lexical types and its parameters are proper; then its type is the lexical one, and it is defined exactly if every object it names, in definitions of stored functions too, is defined |
| QueryAcceptance.WellTypedIsAccepted | secondo/QueryProcessor/QueryProcessor.cpp:1394-2670 | Well-typed expressions are accepted at every point of annotation, with their type, and the flag for undefined objects falls exactly for an undefined object among those they name |
| QueryAcceptance.AcceptedIsWellTyped | secondo/QueryProcessor/QueryProcessor.cpp:1394-2670 | What is accepted without a type error is well-typed in all its parts |
| QueryAcceptance.ParamsEnteredExactly | secondo/QueryProcessor/QueryProcessor.cpp:2931-3059 | Parameters are entered exactly if their names are new, differ, and are not those of operators, and their types are accepted |
| QueryAcceptance.CleanExactly | secondo/QueryProcessor/QueryProcessor.cpp:3818-3840 | A type is taken for free of errors exactly if the symbol typeerror occurs nowhere in it |
| CompilerMeaning.Meaning | secondo/QueryProcessor/QueryProcessor.cpp:3159-3610 | Compiler correctness by induction over expressions: the tree built from the annotation denotes, in every valuation of the argument vectors that agrees with the environment, the value of the direct semantics; for functions, its calls do |
| CompilerMeaning.CallMeaning | secondo/QueryProcessor/QueryProcessor.cpp:3317-3351 | A requested parameter function, named or stored, yields what the direct semantics gives for its body under the arguments |
| CompilerMeaning.ListMeaning | secondo/QueryProcessor/QueryProcessor.cpp:2361-2670 | Lists of all kinds, operator applications, abstraction applications and argument lists, keep their meaning through annotation and tree building |
| CompilerMeaning.ApplicationMeaning | secondo/QueryProcessor/QueryProcessor.cpp:3280-3316 | An application node computes what the resolved operator computes from the argument values, appended constants included |
| CompilerMeaning.ProgramMeaning | secondo/QueryProcessor/QueryProcessor.cpp:4440-4502 | A value mapping that requests sons, repeatedly and depending on earlier answers, gets the answers of the direct semantics |
| CompilerMeaning.AbstractionCallMeaning | secondo/QueryProcessor/QueryProcessor.cpp:4409-4434 | Applying an abstraction by loading its argument vector is application in the environment the function was written in |
| CompilerTypes.TypesAgree | secondo/QueryProcessor/QueryProcessor.cpp:1394-2670 | If annotation accepts an expression, the type it finds is the type the lexical reading gives, for every scope in force |
| CompilerTypes.ElemTypesAgree | secondo/QueryProcessor/QueryProcessor.cpp:2257-2360 | The same for the elements of a list, each seen with what precedes it |
| CompilerTypes.ResolveAccepted | secondo/QueryProcessor/QueryProcessor.cpp:2736-2838 | A resolved operator is a candidate, its result is that of its own type mapping, and algebra and function index are packed into opFunId |
| CompilerTypes.Unpack | secondo/QueryProcessor/QueryProcessor.cpp:3280-3286 | The packed number decodes to the same operator and the same evaluation function |
| CompilerCorrectness.TreesFit | secondo/QueryProcessor/QueryProcessor.cpp:3159-3610 | Trees built from accepted annotations are well typed in the scope of their surrounding functions, with function numbers of their own |
| CompilerCorrectness.ApplicationResolved | secondo/QueryProcessor/QueryProcessor.cpp:2361-2441 | An accepted application was resolved to a candidate that obeys the soundness assumption on type mappings, and its operator yields words of its type |
| TypedTrees.Soundness | secondo/QueryProcessor/QueryProcessor.cpp:4200-4505 | Type soundness: a typed tree denotes a value of its type whenever the vectors in scope hold values of the parameter types |
| TypedTrees.Frame | secondo/QueryProcessor/QueryProcessor.cpp:4283-4330 | A tree depends on nothing but the plain slots of the functions it lies in, so other contents of the vectors do not matter |
| TypedTrees.CallFrame | secondo/QueryProcessor/QueryProcessor.cpp:4648-4652 | Loading the vector of an inner function leaves all values of the functions around it as they are |
| AnnotationState.Numbering | secondo/QueryProcessor/QueryProcessor.cpp:2899-2928 | The abstractions of an annotated query carry, in prefix order, exactly the numbers that functionno went through, each once |
| AnnotationState.AnnotateGrows | secondo/QueryProcessor/QueryProcessor.cpp:405-452 | Annotation only adds: names, table entries and values entered before keep their meaning |
| QueryLimits.FirstAcceptingIsTaken | secondo/QueryProcessor/QueryProcessor.cpp:2736-2838 | The first accepting candidate is taken, and rejected only for a negative function index; exactly if none accepts the last one stands for failure |
| QueryLimits.TriedExactly | secondo/QueryProcessor/QueryProcessor.cpp:2736-2838 | Trying a candidate accepts exactly what its own type mapping answers, the one for types or the one for types and arguments, unless that is an error or the operator is excluded |
| QueryLimits.AppendedArgumentsArrive | secondo/QueryProcessor/QueryProcessor.cpp:2395-2441 | An application gets the arguments in order and behind them the constants its type mapping asks for, and the type it announces |
| QueryLimits.ParameterTypeExactly | secondo/QueryProcessor/QueryProcessor.cpp:2940-2983 | The type of a parameter is a named type, what the first accepting candidate of a type operator makes of the arguments before it, or what is written |
| QueryLimits.ParameterTypeAccepted | secondo/QueryProcessor/QueryProcessor.cpp:2996-3004 | A parameter is of a type, or a stream of one |
| QueryLimits.NamesStay | secondo/QueryProcessor/QueryProcessor.cpp:2940-3059 | Names outlive their function: an application of the identity to its own parameter is accepted although it has no lexical type |
| QueryLimits.SymbolAgreesExactly | secondo/QueryProcessor/QueryProcessor.cpp:1994-2100 | At any point of annotation a symbol gets its lexical type exactly if it is in scope and not hidden by an object or operator, or is an object or operator itself, or no name of that spelling has stayed with another type |
| QueryLimits.ObjectsHideParameters | secondo/QueryProcessor/QueryProcessor.cpp:1994-2100 | At any point of annotation a parameter in scope is seen exactly if no object has its name, or one of the same type |
| QueryLimits.HiddenInIdentity | secondo/QueryProcessor/QueryProcessor.cpp:1994-2100 | So the identity has its type exactly if no object hides its parameter, or one of the same type |
| QueryLimits.SlotsStayApart | secondo/QueryProcessor/QueryProcessor.cpp:4661-4674 | Plain slots and stream slots of one vector stay apart exactly for functions of at most MAXARG/2 parameters |
| QueryLimits.CounterAccepted | secondo/QueryProcessor/QueryProcessor.cpp:2593-2621 | A counter definition is accepted exactly for numbers 1 to NO_COUNTERS |
| QueryProcessing.QueryProcessor.TestOverloadedOperators | secondo/QueryProcessor/QueryProcessor.cpp:2707-2838 | The loop over candidates computes the resolution |
| QueryProcessing.QueryProcessor.Annotate | secondo/QueryProcessor/QueryProcessor.cpp:1394-2670 | Annotation as it updates values and functionno: equal to the specification in result and new state |
| QueryProcessing.QueryProcessor.AnnotateList | secondo/QueryProcessor/QueryProcessor.cpp:2257-2360 | Elements of a list from left to right, with the state threaded through and errors passed on |
| QueryProcessing.QueryProcessor.AnnotateConstant | secondo/QueryProcessor/QueryProcessor.cpp:1876-1990 | A constant enters the table of values; a rejected one becomes a type error |
| QueryProcessing.QueryProcessor.AnnotateConstants | secondo/QueryProcessor/QueryProcessor.cpp:2395-2441 | Constants asked for by APPEND are annotated one by one |
| QueryProcessing.QueryProcessor.CombineList | secondo/QueryProcessor/QueryProcessor.cpp:2361-2670 | What becomes of a list, decided by its annotated head |
| QueryProcessing.QueryProcessor.EnterParameters | secondo/QueryProcessor/QueryProcessor.cpp:2931-3059 | Parameters are entered until one is refused; the tables are left as they then are |
| QueryProcessing.QueryProcessor.SubtreeX | secondo/QueryProcessor/QueryProcessor.cpp:3106-3156 | One vector of null slots for each function of the query, and the tree of the annotation |
| QueryProcessing.QueryProcessor.LoadArguments | secondo/QueryProcessor/QueryProcessor.cpp:4410-4421 | Writing arguments into a vector changes that vector only |
| QueryProcessing.QueryProcessor.Eval | secondo/QueryProcessor/QueryProcessor.cpp:4200-4505 | Evaluation over shared mutable vectors yields the lexical value of the tree and its type; it writes only vectors of functions inside the tree and leaves every argument in scope as it was |
| QueryProcessing.QueryProcessor.EvalApplication | secondo/QueryProcessor/QueryProcessor.cpp:4393-4435 | Arguments are evaluated, loaded and the body evaluated |
| QueryProcessing.QueryProcessor.Call | secondo/QueryProcessor/QueryProcessor.cpp:4648-4684 | A call of a parameter function through Argument and Request |
| QueryProcessing.QueryProcessor.EvalOperator | secondo/QueryProcessor/QueryProcessor.cpp:4349-4390 | Evaluable sons first, then the value mapping |
| QueryProcessing.QueryProcessor.EvalSons | secondo/QueryProcessor/QueryProcessor.cpp:4349-4390 | The evaluable sons from left to right; no argument is lost to a later evaluation |
| QueryAcceptance.NodeOfQuery | secondo/QueryProcessor/QueryProcessor.cpp:3440-3610 | The root of the tree of a query, read off the query: what kind of node it is, whether it is a function, the counter of the outermost counter definition that reaches an operator, and the memory of the outermost memory definition of one that uses memory |
| QueryValues.ValuesOfQuery | secondo/QueryProcessor/QueryProcessor.cpp:3078-3098 | The table of values at the end of annotation: the entries marked as constants, which are deleted with the query, are exactly the constants of the query in order, those its operators append included; the entries of objects, which are closed, are exactly the objects it names |
| QueryValues.MemoryOfQuery | secondo/QueryProcessor/QueryProcessor.cpp:3280-3316 | The node of a query is marked for memory exactly if what it computes is an application whose resolved operator uses memory |
| QueryValues.OperatorKey | secondo/QueryProcessor/QueryProcessor.cpp:3280-3286 | The packed number of an accepted application gives back the resolved operator |
| QueryProcessing.QueryProcessor.RunProgram | secondo/QueryProcessor/QueryProcessor.cpp:4498-4502 | A value mapping at work, its requests answered by sons that share the vectors |
| MemoryDistribution.MemoryIsShared | secondo/QueryProcessor/QueryProcessor.cpp:3850-3864 | For every tree: each memory-using operator has memory, explicit sizes stay, the others share one amount of at least 16, nothing else changes, the total stays within the larger of the global memory and the explicit sizes plus floors, and wastes less than one unit per operator when the floor does not apply |
| MemoryDistribution.Budget | secondo/QueryProcessor/QueryProcessor.cpp:3856-3864 | The budget is kept exactly if the sum of the explicit sizes does not run over, or leaves so little that the floor applies |
| MemoryDistribution.BudgetLost | secondo/QueryProcessor/QueryProcessor.cpp:3574-3582 | A tree with sizes -1, taken as size_t, 2 and none: nearly all the memory is given out a second time |
| MemoryDistribution.DistributeFills | secondo/QueryProcessor/QueryProcessor.cpp:3690-3705 | Distribution replaces the sizes that are zero by the share and keeps the rest, node by node |
| MemoryDistribution.DistributeStrips | secondo/QueryProcessor/QueryProcessor.cpp:3690-3705 | Distribution changes nothing but sizes |
| MemoryDistribution.TreeNode.CountMemoryOperators | secondo/QueryProcessor/QueryProcessor.cpp:3665-3683 | The pass over the tree in place counts the operators without memory and adds up the assigned sizes, in size_t |
| MemoryDistribution.TreeNode.CountInSons | secondo/QueryProcessor/QueryProcessor.cpp:3677-3680 | The loop over the sons |
| MemoryDistribution.TreeNode.DistributeMemory | secondo/QueryProcessor/QueryProcessor.cpp:3690-3705 | The second pass updates every node in place to what the specification says |
| MemoryDistribution.TreeNode.DistributeToSons | secondo/QueryProcessor/QueryProcessor.cpp:3698-3702 | The loop over the sons; each update leaves the other sons alone |
| MemoryDistribution.TreeNode.AssignMemory | secondo/QueryProcessor/QueryProcessor.cpp:3850-3864 | The tree after Construct is the specified one |
| StreamEvaluation.ArgumentsStay | secondo/QueryProcessor/QueryProcessor.cpp:4336-4375 | From one opening to the next a stream operator is called with the same value arguments, in every trace evaluation can produce |
| StreamEvaluation.ArgumentAt | secondo/QueryProcessor/QueryProcessor.cpp:4362-4373 | Each call of a stream operator has the last saved results as arguments, each evaluated exactly once per opening, at that opening |
| StreamEvaluation.NotEvaluated | secondo/QueryProcessor/QueryProcessor.cpp:4364-4368 | Without an evaluation in between a saved result stays |
| StreamEvaluation.PlainAnswer | secondo/QueryProcessor/QueryProcessor.cpp:4349-4390 | In a tree of simple operators the answer of every evaluation in every trace is the value computed recursively from the sons |
| StreamEvaluation.StreamEvaluator.Eval | secondo/QueryProcessor/QueryProcessor.cpp:4200-4505 | Any message to any node keeps the trace in order and the counters exact, ends that node once with this message and touches nothing outside its subtree; every son a call takes a value from was evaluated once for it, with the message passed on; in a tree without streams the answer is the recursive value |
| StreamEvaluation.StreamEvaluator.LoadArguments | secondo/QueryProcessor/QueryProcessor.cpp:4349-4390 | The arguments of a node are loaded son by son: suppliers, new answers, or saved ones |
| StreamEvaluation.StreamEvaluator.LoadArgument | secondo/QueryProcessor/QueryProcessor.cpp:4351-4388 | Simple operators evaluate the son on every ordinary message, since the call before exactly once; stream operators on OPEN only, and otherwise take the saved result |
| StreamEvaluation.StreamEvaluator.LoadSimple | secondo/QueryProcessor/QueryProcessor.cpp:4351-4358 | The son of a simple operator is evaluated now, with the message of the operator |
| StreamEvaluation.StreamEvaluator.LoadSaved | secondo/QueryProcessor/QueryProcessor.cpp:4359-4375 | The son of a stream operator is evaluated with OPEN when that is the message; otherwise what was saved then is taken |
| StreamEvaluation.StreamEvaluator.RunTask | secondo/QueryProcessor/QueryProcessor.cpp:4498-4502 | A value mapping follows its program from the state it left: every step it asks for happens, with the answer of the supplier, and it ends as the program ends |
| StreamEvaluation.StreamEvaluator.AskSon | secondo/QueryProcessor/QueryProcessor.cpp:4498-4502 | One request of a value mapping is the one its program makes, and is answered by the supplier |
| StreamEvaluation.StreamEvaluator.SendTo | secondo/QueryProcessor/QueryProcessor.cpp:4682-4707 | Open, Request and Close of a supplier end with its answer to that message; only requests count |
| StreamEvaluation.StreamEvaluator.CountRequest | secondo/QueryProcessor/QueryProcessor.cpp:4694-4703 | A counter goes up exactly when its node answered a request with an element; increments for numbers without a cell are kept apart |
| StreamEvaluation.StreamEvaluator.ResetCounters | secondo/QueryProcessor/QueryProcessor.cpp:5408-5413 | All counters start again at zero |
| StreamEvaluation.StreamEvaluator.Request | secondo/QueryProcessor/QueryProcessor.cpp:4682-4707 | A request from outside ends with the answer of the root, null where a stream has ended; in a tree without streams it is the recursive value |
| CatalogRuns.RunRefines | secondo/QueryProcessor/SecondoCatalog.cpp:197-3588 | Every run of catalog operations, commits and aborts refines a run of insert-if-absent, remove and overwrite on two plain maps, and keeps overlay and record invariants |
| CatalogRuns.StepRefines | secondo/QueryProcessor/SecondoCatalog.cpp:308-491 | One step of the catalog is one step on the plain maps |
| CatalogRuns.ReferentialIntegrity | secondo/QueryProcessor/SecondoCatalog.cpp:359-491 | If objects are inserted with an empty or a visible type name only, each visible object names a visible type in every reachable state, across commits and aborts |
| CatalogRuns.StartsWell | secondo/QueryProcessor/SecondoCatalog.cpp:3125-3188 | The empty database is a state these theorems start from |
| CatalogRuns.AbortRestores | secondo/QueryProcessor/SecondoSystem.cpp:931-955 | Whatever a transaction did, aborting it gives back the catalog it started from |
| CatalogRuns.DeleteTypeRefusesTooMuch | secondo/QueryProcessor/SecondoCatalog.cpp:451-491 | A type can be refused although no visible object uses it |
| CatalogRuns.DeleteTypeExact | secondo/QueryProcessor/SecondoCatalog.cpp:359-491 | A visible type is refused exactly if a visible object uses it or the file still has a record of it |
| CatalogOperations.InsertTypeRefines | secondo/QueryProcessor/SecondoCatalog.cpp:308-354 | Insert-if-absent on the visible types; nothing else changes |
| CatalogOperations.DeleteTypeRefines | secondo/QueryProcessor/SecondoCatalog.cpp:359-449 | Removal of an unused visible type; the result code tells why not |
| CatalogOperations.InsertObjectRefines | secondo/QueryProcessor/SecondoCatalog.cpp:1165-1250 | Insert-if-absent on the visible objects |
| CatalogOperations.DeleteObjectRefines | secondo/QueryProcessor/SecondoCatalog.cpp:1255-1316 | Removal of a visible object |
| CatalogOperations.KillObjectRefines | secondo/QueryProcessor/SecondoCatalog.cpp:1401-1457 | Removal at once: an object that is not pending goes from both files with its value record, and the values of all other objects stay |
| CatalogOperations.KillStored | secondo/QueryProcessor/SecondoCatalog.cpp:1428-1452 | Deleting the value record of one object never removes that of another |
| CatalogOperations.UpdateObjectRefines | secondo/QueryProcessor/SecondoCatalog.cpp:2189-2283 | Overwriting the value of a visible object |
| CatalogOperations.ModifyObjectRefines | secondo/QueryProcessor/SecondoCatalog.cpp:2287-2358 | The same, where it may be called at all |
| CatalogOperations.RenameObjectExact | secondo/QueryProcessor/SecondoCatalog.cpp:1322-1395 | Renaming renames and keeps the catalog consistent exactly if no delete is pending under the new name and no update under the old |
| CatalogOperations.RenameLosesUpdate | secondo/QueryProcessor/SecondoCatalog.cpp:1359-1395 | A pending update that is renamed brings the old name back and has no record to be written to |
| CatalogRecords.RenameAnswers | secondo/QueryProcessor/SecondoCatalog.cpp:1322-1395 | All results of renaming exactly; the catalog error comes exactly if a stored object is to get a name under which a delete is pending, and the object is lost |
| CatalogRecords.KillTakesFromFiles | secondo/QueryProcessor/SecondoCatalog.cpp:1401-1457 | What killing does to catalog and value files, record by record |
| CatalogRecords.KillFreesType | secondo/QueryProcessor/SecondoCatalog.cpp:359-449 | Once the only user of a type is killed the type can be deleted; if the user is deleted instead, not before the commit |
| CatalogRecords.CommitRecords | secondo/QueryProcessor/SecondoCatalog.cpp:3345-3588 | A commit frees the value records that pending deletes name, and leaves those of pending updates to their objects, in any order of entries |
| CatalogRecords.UpdateOverwrites | secondo/QueryProcessor/SecondoCatalog.cpp:2189-2283 | A stored object that is updated keeps its value record, which holds the new value after the commit |
| CatalogRecords.DeleteFrees | secondo/QueryProcessor/SecondoCatalog.cpp:1255-1316 | An object that is updated and then deleted loses its value record with the commit |
| CatalogCommit.CommitRefines | secondo/QueryProcessor/SecondoCatalog.cpp:3262-3588 | Whatever order the entries come in, commit succeeds and leaves the files equal to the map visible before it |
| CatalogCommit.CommitPrefix | secondo/QueryProcessor/SecondoCatalog.cpp:3465-3588 | Stopped anywhere in the second pass, all names and types are final and each value is final or undefined |
| CatalogCommit.PrefixDone | secondo/QueryProcessor/SecondoCatalog.cpp:3262-3588 | The invariant of both passes: pending entries visited are written, all others untouched |
| CatalogCommit.SecondStepSaves | secondo/QueryProcessor/SecondoCatalog.cpp:3465-3555 | Saving one value gives that object its view and no other object a different one |
| SecondoCatalogs.SecondoCatalog.InsertType | secondo/QueryProcessor/SecondoCatalog.cpp:308-354 | The method on the map of pending types |
| SecondoCatalogs.SecondoCatalog.TypeUsedByObject | secondo/QueryProcessor/SecondoCatalog.cpp:451-491 | The search over pending objects and file records |
| SecondoCatalogs.SecondoCatalog.DeleteType | secondo/QueryProcessor/SecondoCatalog.cpp:359-449 | The method and its result code |
| SecondoCatalogs.SecondoCatalog.ListTypes | secondo/QueryProcessor/SecondoCatalog.cpp:197-303 | Each visible type exactly once |
| SecondoCatalogs.SecondoCatalog.InsertObject | secondo/QueryProcessor/SecondoCatalog.cpp:1165-1250 | The method on the map of pending objects |
| SecondoCatalogs.SecondoCatalog.GetObjectExpr | secondo/QueryProcessor/SecondoCatalog.cpp:1920-2050 | What a reader finds is the visible object |
| SecondoCatalogs.SecondoCatalog.DeleteObject | secondo/QueryProcessor/SecondoCatalog.cpp:1255-1316 | The method on the map of pending objects |
| SecondoCatalogs.SecondoCatalog.KillObject | secondo/QueryProcessor/SecondoCatalog.cpp:1401-1457 | The method, with its immediate changes of the files |
| SecondoCatalogs.SecondoCatalog.UpdateObject | secondo/QueryProcessor/SecondoCatalog.cpp:2189-2283 | The method on the map of pending objects |
| SecondoCatalogs.SecondoCatalog.ModifyObject | secondo/QueryProcessor/SecondoCatalog.cpp:2287-2358 | The method on the map of pending objects |
| SecondoCatalogs.SecondoCatalog.RenameObject | secondo/QueryProcessor/SecondoCatalog.cpp:1322-1395 | The method and its result |
| SecondoCatalogs.SecondoCatalog.ListObjects | secondo/QueryProcessor/SecondoCatalog.cpp:820-960 | Each visible object exactly once |
| SecondoCatalogs.SecondoCatalog.CleanUp | secondo/QueryProcessor/SecondoCatalog.cpp:3262-3588 | Both passes over the maps, in any order of entries: the flag handed from step to step is right, and says success; empty maps, and files that show what was visible; or, reverting, empty maps and untouched files |
| SecondoCatalogs.SecondoCatalog.WriteTypes | secondo/QueryProcessor/SecondoCatalog.cpp:3272-3333 | The pass over pending types; its flag is right although a delete overwrites it |
| SecondoCatalogs.SecondoCatalog.WriteObjects | secondo/QueryProcessor/SecondoCatalog.cpp:3345-3440 | The first pass over pending objects, with its flag |
| SecondoCatalogs.SecondoCatalog.WriteValues | secondo/QueryProcessor/SecondoCatalog.cpp:3456-3570 | The second pass over pending objects, with its flag |
| SecondoCatalogs.SecondoCatalog.WriteValue | secondo/QueryProcessor/SecondoCatalog.cpp:3479-3555 | The value of one object goes into its own record or a new one |
| SecondoCatalogs.SecondoCatalog.AppendValue | secondo/QueryProcessor/SecondoCatalog.cpp:3500-3530 | A new value record has a number that no record has and no object names |
| SecondoSystems.SaveRestoreExact | secondo/QueryProcessor/SecondoSystem.cpp:368-408 | Restoring a saved database rebuilds the same types always, and the same objects exactly if every object is defined and none is derived |
| SecondoSystems.RestoredTypesExactly | secondo/QueryProcessor/SecondoSystem.cpp:628-692 | Each name gets the type of its first entry that is kind-correct, and no other name gets one |
| SecondoSystems.TypesAcceptedExactly | secondo/QueryProcessor/SecondoSystem.cpp:628-692 | No error is reported among the types exactly if all are kind-correct and no name comes twice |
| SecondoSystems.RestoredObjectsExactly | secondo/QueryProcessor/SecondoSystem.cpp:694-787 | Each name gets the object of its first entry that is kind-correct and whose value is taken, and no other name gets one |
| SecondoSystems.SavedEntries | secondo/QueryProcessor/SecondoCatalog.cpp:965-1112 | A saved file has one entry for each object that is not derived, with its value as Out writes it and the empty list for an undefined one |
| SecondoSystems.SecondoSystem.BeginTransaction | secondo/QueryProcessor/SecondoSystem.cpp:931-938 | The storage manager remembers the files |
| SecondoSystems.SecondoSystem.CommitTransaction | secondo/QueryProcessor/SecondoSystem.cpp:939-947 | A commit step; what was visible stays visible |
| SecondoSystems.SecondoSystem.AbortTransaction | secondo/QueryProcessor/SecondoSystem.cpp:948-956 | An abort step |
| SecondoSystems.SecondoSystem.SaveDatabase | secondo/QueryProcessor/SecondoSystem.cpp:368-408 | The file lists all types and all objects that are not derived, each once, pending ones with a wrapped type |
| SecondoSystems.PendingAreLostExactly | secondo/QueryProcessor/SecondoCatalog.cpp:1072-1080 | If wrapped types are not types, restoring gives back what was visible exactly if nothing is undefined, derived or pending |
| SecondoSystems.SecondoSystem.ListObjectsFull | secondo/QueryProcessor/SecondoCatalog.cpp:965-1112 | Every visible object that is not derived exactly once, with its value as Out writes it; the type of a pending one stays wrapped in a list |
| SecondoSystems.SecondoSystem.RestoreTypes | secondo/QueryProcessor/SecondoSystem.cpp:628-692 | Each type of a correct kind is entered if its name is new and committed, and all are exactly if nothing is reported |
| SecondoSystems.SecondoSystem.RestoreObjects | secondo/QueryProcessor/SecondoSystem.cpp:694-787 | What is visible afterwards, and committed, and when all are accepted |
| SecondoSystems.SecondoSystem.RestoreObject | secondo/QueryProcessor/SecondoSystem.cpp:706-775 | One object, accepted exactly if its type is kind-correct and its value is taken |
| SecondoSystems.SecondoSystem.RestoreDatabase | secondo/QueryProcessor/SecondoSystem.cpp:482-625 | From any file: success is reported exactly if all types and all objects are accepted, no object is restored if the types are refused, and what is restored is committed; a file saved from a complete catalog gives that catalog back |
| LocalSocket.RingIsFifo | secondo/ClientServer/Win32Socket.cpp:686-884 | In every interleaving, and around the end of the buffer, bytes consumed are a prefix of bytes published and the ring holds exactly the rest; positions are equal exactly if it is empty |
| LocalSocket.NoLostWakeup | secondo/ClientServer/Win32Socket.cpp:686-884 | A reader waiting on a non-empty ring, or a writer on one with room, has its event set or about to be set, and both never wait unsignalled |
| LocalSocketCalls.WritesDeliver | secondo/ClientServer/Win32Socket.cpp:823-884 | In every run what is published is a prefix of what all writes were given, and all of it when no write is under way: a write returns only when its last byte is published |
| LocalSocketCalls.ReadsDeliver | secondo/ClientServer/Win32Socket.cpp:686-797 | In every run a read that has returned has got at least the least and at most the most it asked for, and what is got is a prefix of what was given |
| LocalSocketCalls.WritesDeliverEitherWay | secondo/ClientServer/Win32Socket.cpp:823-884 | The same for the writes of both directions, whichever flag is cleared on waking |
| LocalSocketCalls.RunCalls | secondo/ClientServer/Win32Socket.cpp:686-884 | The invariants of calls hold in every run, and every round moves all there is or all that fits up to the end of the buffer |
| LocalSocketCalls.WritesStep | secondo/ClientServer/Win32Socket.cpp:831-859 | Every step keeps what is published and what is left of a write equal to what was given |
| LocalSocketCalls.ReadsStep | secondo/ClientServer/Win32Socket.cpp:698-797 | Every step keeps what a read still wants equal to what it asked for less what has come |
| LocalSocket.SignalComes | secondo/ClientServer/Win32Socket.h:121-141 | About to be set means: after at most two steps of the peer |
| LocalSocket.RunKeeps | secondo/ClientServer/Win32Socket.cpp:686-884 | Every atomic step of either side keeps ring, beliefs, flags and wake-ups consistent |
| LocalSocket.WriterKeepsFifo | secondo/ClientServer/Win32Socket.cpp:831-859 | No step of the writer overwrites an unread byte |
| LocalSocket.ReaderKeepsFifo | secondo/ClientServer/Win32Socket.cpp:698-797 | No step of the reader takes a byte that is not published or gives free one that is not taken |
| LocalSocket.FullExactly | secondo/ClientServer/Win32Socket.cpp:775-845 | The sizes computed from positions that may be stale leave no room exactly at one byte short of a lap, and never too much |
| LocalSocketPair.IntendedIsSafe | secondo/ClientServer/Win32Socket.cpp:867 | With the own flag cleared on waking, both directions keep all these promises |
| LocalSocketWake.WakeAsWrittenExact | secondo/ClientServer/Win32Socket.cpp:867 | After a wake-up as written some run, with no further harmful wake-up, loses a wake-up for good if and only if the peer's writer was exposed: it has seen the ring full, its event is not set, and no reader is at setting it |
| LocalSocketWake.CarefulRunsKeepPromise | secondo/ClientServer/Win32Socket.cpp:831-884 | As written, both directions keep the promise of wake-ups in every state of every run in which no writer wakes up while the writer of its peer is exposed |
| LocalSocketWake.DoomedIsLost | secondo/ClientServer/Win32Socket.cpp:867 | An exposed writer without its flag is lost by steps of its own direction alone, from every state of its reader |
| LocalSocketWake.SafeStep | secondo/ClientServer/Win32Socket.cpp:831-884 | The weaker invariant that does without the flag of writers that are not exposed is kept by every step |
| LocalSocketPair.FifoEitherWay | secondo/ClientServer/Win32Socket.cpp:831-884 | Bytes are neither lost nor reordered whichever flag is cleared |
| LocalSocketPair.LostWakeup | secondo/ClientServer/Win32Socket.cpp:867 | A run of two ends, neither writing and reading at once, after which a writer waits on a ring with room, unsignalled and without its flag |
| LocalSocketPair.LostForever | secondo/ClientServer/Win32Socket.cpp:867 | Nothing that either end does ever gets such a writer going again |
| UnixSockets.UnixSocket.Write | secondo/ClientServer/UnixSocket.cpp:717-794 | All bytes are accepted in order over any chunking and interruption; it fails exactly at the first call that fails, and then a prefix was accepted |
| UnixSockets.UnixSocket.Read | secondo/ClientServer/UnixSocket.cpp:606-674 | At least minSize and at most maxSize of the next bytes, or failure exactly if they cannot come; with a time limit, what is there when time is up |
| UnixSockets.UnixSocket.ReadExactly | secondo/ClientServer/UnixSocket.cpp:676-715 | Exactly the next bytes, or failure exactly if there are fewer or none is asked for |
| UnixSockets.UnixSocket.Send | secondo/ClientServer/UnixSocket.cpp:746-755 | A system call repeated while interrupted |
| UnixSockets.UnixSocket.Receive | secondo/ClientServer/UnixSocket.cpp:645-646 | A system call repeated while interrupted |
| SocketBuffers.Transmit | secondo/ClientServer/SocketIO.cpp:80-185 | Transparency: for any puts, gets and chunkings, what is got is a prefix of what was put, and all of it after a flush and enough reads |
| SocketBuffers.SocketBuffer.Sync | secondo/ClientServer/SocketIO.cpp:80-92 | Flushing moves the put area to the socket, or fails exactly if not all of it was accepted, leaving it |
| SocketBuffers.SocketBuffer.Overflow | secondo/ClientServer/SocketIO.cpp:94-112 | One byte more in order; it is written behind the buffer exactly if the buffer was full and could not be flushed completely |
| SocketBuffers.ByteBehindTheBuffer | secondo/ClientServer/SocketIO.cpp:94-112 | A full buffer on a closed socket: the next byte goes behind it |
| SocketBuffers.SocketBuffer.Xsputn | secondo/ClientServer/SocketIO.cpp:114-131 | The recursion ends, puts all bytes in order unless a write fails, and even then only a prefix was sent |
| SocketBuffers.SocketBuffer.Underflow | secondo/ClientServer/SocketIO.cpp:134-154 | Refilling keeps the order; the end is reported exactly when nothing is left |
| SocketBuffers.SocketBuffer.Uflow | secondo/ClientServer/SocketIO.cpp:156-166 | Taking one byte |
| SocketBuffers.SocketBuffer.Xsgetn | secondo/ClientServer/SocketIO.cpp:169-185 | The recursion ends and takes the next bytes in order, as many as there are |
| SocketBuffers.Converse | secondo/ClientServer/SocketIO.cpp:80-185 | Puts and gets in any order over one wire: at every moment what is got is a prefix of what was put, and the rest is ahead, on its way, or in the put area |
| SocketBuffers.SocketBuffer.PutAll | secondo/ClientServer/SocketIO.cpp:80-131 | Any sequence of put operations |
| SocketBuffers.SocketBuffer.GetAll | secondo/ClientServer/SocketIO.cpp:134-185 | Any sequence of bulk reads |
| ShapefileSplit.SplitShp | secondo/ClientServer/SecondoInterfaceREPLAY.cpp:1957-2161 | Splitting succeeds exactly if the main file has its header and that of the dBASE file is accepted; for every well-formed shapefile part i of one holds the shapes, part i of the other the rows, of one stretch, and together all of them in order |
| ShapefileSplit.SplitShapes | secondo/ClientServer/SecondoInterfaceREPLAY.cpp:1964-2052 | The parts of every well-formed main file hold every record once and in order; for files longer than the format allows, with records that do not make the count run over, exactly if the share of a part fits into 32 bits |
| ShapefileSplit.AllDealt | secondo/ClientServer/SecondoInterfaceREPLAY.cpp:2000-2050 | n parts that each exceed their share hold more bytes than there are, so nothing is left |
| ShapefileSplit.AllDealtExactly | secondo/ClientServer/SecondoInterfaceREPLAY.cpp:2000-2050 | With small records all are dealt out if and only if the share of a part fits into 32 bits |
| ShapefileSplit.LongFileLosesRecords | secondo/ClientServer/SecondoInterfaceREPLAY.cpp:2000-2050 | A file of 4 gigabytes in one part: only the first record is kept |
| ShapefileSplit.WriteGroup | secondo/ClientServer/SecondoInterfaceREPLAY.cpp:2005-2049 | A part takes the next records until the bytes counted exceed its share, and no longer |
| ShapefileSplit.CopyRecord | secondo/ClientServer/SecondoInterfaceREPLAY.cpp:2016-2045 | A record is copied with its length and content; a little-endian host numbers it anew |
| ShapefileSplit.ConvertsOrder | secondo/ClientServer/SecondoInterfaceREPLAY.cpp:2023-2028 | Converting on a little-endian host writes and reads the byte order of the main file |
| ShapefileSplit.HeaderRead | secondo/ClientServer/SecondoInterfaceREPLAY.cpp:2018-2033 | The length computed from a record header is that of its content, and is written back unchanged |
| ShapefileSplit.SplitRows | secondo/ClientServer/SecondoInterfaceREPLAY.cpp:2077-2161 | The dBASE file is refused if it is empty or for a wrong code or header length, which a file without a whole fixed header leaves as it was before; otherwise each part gets as many rows as the shapes say, and that number in its header |
| ShapefileSplit.DealRows | secondo/ClientServer/SecondoInterfaceREPLAY.cpp:2120-2142 | The rows are dealt out in order by the counts |
| ShapefileSplit.AddHeaders | secondo/ClientServer/SecondoInterfaceREPLAY.cpp:2146-2160 | The number of records of each part |
| ShapefileSplit.PatchedReads | secondo/ClientServer/SecondoInterfaceREPLAY.cpp:2146-2160 | The record count is read back from four bytes at 4, and nothing else of the header changes |
| ShapefileSplit.U16AtReads | secondo/ClientServer/SecondoInterfaceREPLAY.cpp:2085-2112 | The lengths in the dBASE header are little-endian numbers of 16 bits |
| ShapefileSplit.HeaderLengthExactly | secondo/ClientServer/SecondoInterfaceREPLAY.cpp:2100-2112 | The accepted header lengths are those of at least one field |
| ShapefileSplit.ByteOrders | secondo/ClientServer/SecondoInterfaceREPLAY.cpp:2023-2028 | Which byte comes first in either order |
| CsvSplit.Split | secondo/ClientServer/SecondoInterfaceREPLAY.cpp:1733-1817 | If quotes are closed, the n + 1 parts hold a prefix of the data lines in order, all of it whenever it is not longer than n + 1 quotas, no part ends inside a quoted field, and each stops as soon as its quota is reached. If not, the parts are exactly specified too: the loop runs forever exactly as EndlessExactly says, and otherwise the part that runs to the end has the last line twice |
| CsvSplit.EndlessExactly | secondo/ClientServer/SecondoInterfaceREPLAY.cpp:1765-1809 | Splitting runs forever exactly if quotes are not closed in the end, the parts reach the record that is open then, and the last line has its newline or balanced quotes |
| CsvSplit.PartsOfClosed | secondo/ClientServer/SecondoInterfaceREPLAY.cpp:1765-1809 | What the specified parts hold if quotes are closed |
| CsvSplit.DealLines | secondo/ClientServer/SecondoInterfaceREPLAY.cpp:1765-1809 | The loop over the parts writes the specified ones, each behind the header |
| CsvSplit.NothingLostExactly | secondo/ClientServer/SecondoInterfaceREPLAY.cpp:1750-1753 | With newline-terminated lines nothing is lost exactly if the remainder of the division is at most the quotient |
| CsvSplit.WritePart | secondo/ClientServer/SecondoInterfaceREPLAY.cpp:1772-1809 | One part: whole records until the quota is reached, or a record that never ends and what comes of it |
| CsvSplit.FinishRecord | secondo/ClientServer/SecondoInterfaceREPLAY.cpp:1786-1803 | Lines are read on up to the first at which quotes balance; if the file ends before, the loop runs forever exactly if the last line has its newline or balanced quotes, and otherwise writes the last line twice |
| CsvSplit.UnclosedQuote | secondo/ClientServer/SecondoInterfaceREPLAY.cpp:1786-1803 | A file of a single quote: endless with its newline, the quote twice without |
| CsvSplit.ClosedCloses | secondo/ClientServer/SecondoInterfaceREPLAY.cpp:1786-1803 | If quotes are closed in the end, every record that is started ends |
| CsvSplit.ScanQuotes | secondo/ClientServer/SecondoInterfaceREPLAY.cpp:1788-1796 | The mode changes with every quote |
| CsvSplit.LineFile.GetLine | secondo/ClientServer/SecondoInterfaceREPLAY.cpp:1781 | Reading lines at and behind the end of the file |
| TableFile.SizeIsLeast | secondo/CM-Scripts/tables.c:464-492 | The size is the least of one, two and four bytes for the largest absolute value |
| TableFile.NarrowingKeepsExactly | secondo/CM-Scripts/tables.c:497-535 | Compression keeps every element exactly if it does not narrow or the smallest 32-bit integer does not occur |
| TableFile.RefusedExactly | secondo/CM-Scripts/tables.c:517-521 | A table already narrow is refused exactly if it holds the smallest integer of its width |
| TableFile.NarrowingLoses | secondo/CM-Scripts/tables.c:464-492 | The table of the smallest 32-bit integer and 0 is narrowed to two zeros |
| TableFile.NarrowTableRefused | secondo/CM-Scripts/tables.c:517-521 | A table of one byte that holds -128 is refused |
| TableFile.MaxAbsIs | secondo/CM-Scripts/tables.c:468-484 | The maximum is reached and bounds all absolute values |
| TableFile.Table.MinIntSize | secondo/CM-Scripts/tables.c:464-492 | The loop computes that size |
| TableFile.Table.Compress | secondo/CM-Scripts/tables.c:497-535 | The table is replaced by its narrowed elements, or the program gives up |
| TableFile.TableWriter.WriteHeader | secondo/CM-Scripts/tables.c:85-184 | The new file is the one without tables; its header takes exactly the announced size, a multiple of eight |
| TableFile.TableWriter.WriteData | secondo/CM-Scripts/tables.c:192-262 | The file of a header and any tables becomes the one with this table too, with its length in the size field; the bytes written are all accounted for |
| TableReading.FileReadsBack | secondo/CM-Scripts/tables.c:146-262 | Round trip: from the file of any number of tables a reader that undoes the byte order of single numbers gets back every field of the header and every table |
| TableReading.HeaderReadsBack | secondo/CM-Scripts/tables.c:146-184 | Every field of the header is read as it was written, the strings up to their zeros |
| TableReading.EntryReadsBack | secondo/CM-Scripts/tables.c:192-241 | A table is read from its bytes, whatever follows, with the sign of its elements |
| TableFile.TableAdded | secondo/CM-Scripts/tables.c:192-262 | A further table, padding and the corrected size field make the file with that table |
| TableFile.TableWriter.WriteElements | secondo/CM-Scripts/tables.c:219-241 | The elements in order, each in its width |
| TableFile.TableWriter.PatchSize | secondo/CM-Scripts/tables.c:255-262 | Going back changes four bytes and not the account |
| TableFile.TableWriter.WritePad64 | secondo/CM-Scripts/tables.c:128-139 | Zeros up to the next multiple of eight |

## Left out

- QueryProcessing.QueryProcessor.Query: asks that names are used in the scope of their parameter and do not collide with objects (`Scoped`), that literals and stored functions are proper (`WellFormed`) that functions are first-order with at most MAXARG/2 parameters, and that the operators it applies to get words yield ones of the announced type without asking streams (`Sound`); a variable of function type ends the program when the tree is built.
- CompilerMeaning.Meaning: streams are outside of this theorem; stream operators are covered by `StreamEvaluation`, without parameter functions and without stream arguments of functions.
- CompilerMeaning.ApplicationMeaning: arguments appended by a type mapping are constants, and operators do not reach functions that lie inside argument lists.
- Annotation: the forms `predinfo`, `typeOf` and pointer constants, which are handled like constants; numeric type expressions; tracing. The argument vector a node keeps between calls (`tmpArg`) is a local variable except in `StreamEvaluation`.
- StreamEvaluation.StreamEvaluator.Eval: a value mapping that reports failure ends the process; cancellation, progress estimation and heartbeats are not modelled.
- MemoryDistribution.TreeNode.CountMemoryOperators: the number of operators is not bounded by the width of `int`.
- Catalog: main-memory objects, system tables, reserved names, derived objects other than by a test on their name; algebra and type ids, which follow from the type expression; the Open, Save and Delete functions of algebras, which store and fetch a value as it is; text of nested lists.
- SecondoCatalogs.SecondoCatalog.CleanUp: the order of the maps is left open, and value record numbers are not bounded by their width in the file.
- LocalSocket.NoLostWakeup: timeouts, the mutex that reports a broken pipe, closing, and weaker memory orders than sequential consistency.
- UnixSockets.UnixSocket.Read: the clock; what waiting with a time limit comes to is a parameter. A stale error number after a call that moved nothing.
- SocketBuffers.Transmit: the receiver starts when the sender is done; `Converse` lets them take turns, a get happening as a whole when there is enough for it. That the kernel delivers bytes in order is the model of the wire.
- ShapefileSplit.SplitRows: what is written when the rows of the dBASE file run out; a fixed header cut off in the middle counts as none.
- ShapefileSplit.SplitShapes: promises hold for well-formed files; of others only that splitting ends.
- CsvSplit.Split: files that cannot be opened.
- TableFile.TableWriter.WriteData: the byte order of 16 and 32-bit numbers is a parameter, because the local conversion functions return addresses; `tables.h` is not part of this model, so padding is taken to be to the next multiple of eight, and the number of elements to be that of the data.
- Creating, connecting and accepting sockets, process control, the Berkeley DB wrappers, command dispatch, the registrar, the main-memory catalog, progress values, the optimizer bridge and the algebras themselves: plumbing, or members that would only be easy.
