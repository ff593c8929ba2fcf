# httpin directive registry, modelled in Dafny

httpin decodes HTTP requests into Go structs and encodes structs back into
requests. It does this through *directives*: a struct tag such as
`in:"query=page"` names an executor. An executor has a `Decode` half and an
`Encode` half. `core/directive.go` holds the process-wide registry of these
executors. The registry has two owl namespaces, one for decoding and one
for encoding. `RegisterDirective` puts the `Decode` method value of an
executor into the decoder table and its `Encode` method value into the
encoder table. The names `"decoder"` and `"encoder"` are reserved. A nil
executor is refused. A taken name is refused unless `force` is set.
Package initialisation registers six built-in directives. It then puts a
no-op executor under each reserved name, each in its own table, as an
indicator that a field overrides its decoder or encoder.

The project has five files.

- `wrappers.dfy` (module `Wrappers`): `Option` and `Result`.
- `directive.dfy` (module `Directive`): the model as values.
  - Executors are `Executor(kind)`.
  - A table entry is a `Handler`, the method value `exe.Decode` or `exe.Encode`.
  - `Tables` holds the two namespaces.
  - Every registration step is a function from the old tables to a `Registered`: the new tables, plus the panic if there was one.
  - Go's `panic` is an `Option<RegisterError>`. Nothing is rolled back after a panic, just as in Go.
  - It also defines `CheckReservedExecutorName`, a loop over `reservedExecutorNames`.
  - Start-up is `Startup()`: the two `init` blocks in file order.
- `laws.dfy` (module `RegisterLaws`): properties of one call and of any sequence of calls, plus the no-op executor.
- `startup.dfy` (module `StartupLaws`): what package initialisation leaves in the tables.
- `registry.dfy` (module `DirectiveRegistry`): class `Registry`.
  - Its fields `decoderNs` and `encoderNs` are the two global namespaces.
  - Its methods update them in place, one method per Go function.
  - Each method's contract ties the new fields to the matching function of `Directive` applied to the old fields.
  - `RegisterDirective` and `InitBuiltins` also ensure that `Valid()` is kept. The constructor ensures `Valid()`. The two single-table methods keep no invariant of their own, since each writes only one table.

Two predicates of `Directive` carry the design:

- `Paired(t)`: a non-reserved name is in the decoder table exactly when it is in the encoder table, and both entries are the two halves of one executor.
- `Valid(t)`: `Paired(t)` holds, and each reserved name is bound to the no-op half in its own table only.

Start-up establishes `Valid`, and every registration keeps it.

## Model

| member | source | states |
|---|---|---|
| Directive.CheckReservedExecutorName | core/directive.go:95-101 | the check panics exactly when the name is one of the reserved names, with a reserved-name error carrying that name |
| Directive.ReservedNamesAreListed | core/directive.go:45 | a name is reserved exactly when it occurs in `reservedExecutorNames` |
| Directive.Insert | core/directive.go:83-85 | the owl insert succeeds exactly when `force` is set or the name is free; otherwise it fails with a duplicate-name error; on success the name is bound to the given handler |
| RegisterLaws.InsertKeepsOtherNames | core/directive.go:83-85 | a successful owl insert leaves every other name's entry unchanged |
| RegisterLaws.RegisterFreshName | core/directive.go:72-87 | a free, non-reserved name with a non-nil executor gets the Decode half in the decoder table and the Encode half in the encoder table, with no panic |
| RegisterLaws.RegisterReservedFails | core/directive.go:77-78 | `"decoder"` and `"encoder"` are refused whatever `force` and the executor are, and both tables are unchanged |
| RegisterLaws.RegisterNilFails | core/directive.go:79-81 | a nil executor under a non-reserved name is refused with the nil-executor error, and both tables are unchanged |
| RegisterLaws.DecoderWriteFailsIffEncoderWriteFails | core/directive.go:82-86 | on paired tables, the decoder write fails exactly when the encoder write would, and with the same error |
| RegisterLaws.RegisterOutcome | core/directive.go:70-75 | on paired tables, a call succeeds exactly when the name is not reserved, the executor is not nil, and the name is free or forced; a taken name without force is a duplicate; a failed call leaves both tables unchanged |
| RegisterLaws.RegisterSuccessEffect | core/directive.go:64-75 | a successful call binds the name to the Decode half in the decoder table and to the Encode half in the encoder table, replacing any old entry, and no other name changes |
| RegisterLaws.RegisterKeepsReservedEntries | core/directive.go:77-78 | no call, forced or not, changes a reserved name's entry in either table |
| RegisterLaws.RegisterPreservesValid | core/directive.go:72-75 | every call keeps paired tables paired and valid tables valid |
| RegisterLaws.UnpairedTablesBreakAtomicity | core/directive.go:72-75 | the two writes are all-or-nothing only because of the pairing invariant: on tables that break it, the decoder write lands and then the encoder write panics |
| RegisterLaws.RegisterAllPreservesValid | core/directive.go:72-75 | any sequence of calls from valid tables, ending in a panic or not, leaves valid tables and the reserved entries unchanged |
| RegisterLaws.NoopDoesNothing | core/directive.go:103-107 | both halves of the no-op executor return nil and leave the runtime unchanged |
| RegisterLaws.IndicatorsDoNothing | core/directive.go:57-62 | in valid tables each indicator is present in its own table and runs as a no-op |
| StartupLaws.RegisterAllFresh | core/directive.go:72-75 | a sequence of calls with distinct, new, non-reserved names and non-nil executors succeeds; it binds each name to its two halves and changes nothing else |
| StartupLaws.InitBuiltinsRegistersAll | core/directive.go:11-18 | the first init block is the batch registration of the six built-in calls, from any tables |
| StartupLaws.BuiltinsState | core/directive.go:11-18 | on empty tables the first init block does not panic; its tables are paired and hold exactly the six built-ins, none of them reserved |
| StartupLaws.IndicatorsAdded | core/directive.go:57-62 | on tables the built-ins filled, the second init block does not panic; it adds the decoder indicator to the decoder table and the encoder indicator to the encoder table, and keeps every built-in |
| StartupLaws.StartupState | core/directive.go:57-62 | start-up does not panic; its tables are valid, hold all six built-ins in both tables and hold each indicator in its own table, and nothing else |
| StartupLaws.BuiltinReplacedOnlyByForce | core/directive.go:70-71 | after start-up, re-registering a built-in without force is a duplicate and changes nothing; with force it replaces both halves |
| StartupLaws.TakenNameReplacedOnlyByForce | core/directive.go:70-71 | on paired tables, re-registering a taken non-reserved name without force is a duplicate and changes nothing; with force it succeeds and binds both new halves |
| DirectiveRegistry.Registry.constructor | core/directive.go:36-47 | the registry after package initialisation: the tables are those of start-up, and they are valid |
| DirectiveRegistry.Registry.InitBuiltins | core/directive.go:11-18 | the six RegisterDirective calls of the first init block, in order, stopping at a panic; a valid registry stays valid |
| DirectiveRegistry.Registry.InitIndicators | core/directive.go:57-62 | the two direct owl inserts of the indicators, decoder first, stopping at a panic |
| DirectiveRegistry.Registry.RegisterDirectiveExecutor | core/directive.go:83-85 | the owl insert into the table of one direction, leaving the other table unchanged |
| DirectiveRegistry.Registry.RegisterDirectiveExecutorToNamespace | core/directive.go:77-87 | reserved-name check, then nil check, then the insert of the half that belongs to the table's direction |
| DirectiveRegistry.Registry.RegisterDirective | core/directive.go:72-75 | decoder write, then encoder write; on a valid registry the call keeps it valid and is all-or-nothing; reserved entries never change |

## Left out

- `RegisterFileType` and the file-type registry are not part of this model.
- `asOwlDirectiveExecutor` is not modelled. A table entry is the method value itself (`Handler(exe, dir)`), not the owl wrapper around it.
- owl's `Namespace` is not part of this model. Its `RegisterDirectiveExecutor` is modelled from how `core/directive.go` uses it: insert, or fail with a duplicate-name panic unless forced.
- The resolver, the directive runtime and the built-in executors' own Decode/Encode behaviour are not modelled. `Run` takes every executor other than the no-op as a parameter.
- Go's variadic `force ...bool` is a single `bool`.
- A typed nil pointer inside a non-nil interface is not modelled. "Nil executor" is `None`.
- A panic is returned as a value. Process termination and `recover` are not modelled. As in Go, writes made before a panic stay in place.
- Concurrency and the process-wide globals are not modelled. The registry is one object built by its constructor. Registration is single-threaded at start-up.
- RegisterLaws.RegisterOutcome: the all-or-nothing outcome of `RegisterDirective` is stated on paired tables only. The code does two sequential writes, and `UnpairedTablesBreakAtomicity` shows that they are not atomic without the pairing invariant. The model follows the code here. The pairing invariant holds from start-up onward, by `StartupState` and `RegisterAllPreservesValid`.
- The error messages' text (`reserved executor name: %q`, `nil directive executor`) is modelled as error constructors, not strings.
