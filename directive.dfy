/** The directive registry of core/directive.go, as values: the two
    name-to-executor tables, the reserved names, and registration as pure
    functions from the old tables to the new ones. The class in
    registry.dfy keeps the same tables as mutable fields and is specified
    by these functions. */
module Directive {
  import opened Wrappers

  type Name = string

  /** The executor types this file registers; any other executor a caller
      supplies is known only by an opaque id. */
  datatype ExecutorKind =
    | Noop            // directiveNoop
    | Form            // DirectvieForm (so spelled in the source)
    | Query           // DirectiveQuery
    | Header          // DirectiveHeader
    | Body            // DirectiveBody
    | Required        // DirectiveRequired
    | Default         // DirectiveDefault
    | Custom(id: nat) // a DirectiveExecutor defined outside this file

  /** The direction a namespace serves: decoding a request into a struct,
      or encoding a struct into a request. */
  datatype Direction = Decoding | Encoding

  /** A non-nil DirectiveExecutor value. */
  datatype Executor = Executor(kind: ExecutorKind) {
    /** The method value `exe.Decode` or `exe.Encode`, which is what a
        namespace stores once it is wrapped for the owl library. */
    function Half(dir: Direction): Handler { Handler(this, dir) }
  }

  /** One table entry: the given half of the given executor. */
  datatype Handler = Handler(exe: Executor, dir: Direction)

  /** The shared no-op executor `noopDirective`. */
  const NoopExecutor: Executor := Executor(Noop)

  /** What running one half of an executor yields: the error it returns
      (None for Go's nil) and the directive runtime afterwards. */
  datatype Effect<R> = Effect(err: Option<string>, runtime: R)

  /** Running a table entry on a directive runtime. directiveNoop's Encode
      and Decode return nil and touch nothing; what any other executor does
      is defined outside this file and comes in as `external`. */
  function Run<R>(h: Handler, rt: R, external: (Handler, R) -> Effect<R>): Effect<R> {
    if h.exe.kind.Noop? then Effect(None, rt) else external(h, rt)
  }

  /** The panics of registration, as values. */
  datatype RegisterError =
    | ReservedName(name: Name)   // "reserved executor name: %q"
    | NilExecutor                // "nil directive executor"
    | DuplicateName(name: Name)  // owl's error for a name already taken

  const ReservedExecutorNames: seq<Name> := ["decoder", "encoder"]

  predicate IsReserved(name: Name) {
    name == "decoder" || name == "encoder"
  }

  /** The reserved names are exactly the entries of reservedExecutorNames. */
  lemma ReservedNamesAreListed(name: Name)
    ensures IsReserved(name) <==> name in ReservedExecutorNames
  {
  }

  /** panicOnReservedExecutorName: scan the reserved names and fail on the
      first that equals `name`. */
  method CheckReservedExecutorName(name: Name) returns (err: Option<RegisterError>)
    ensures err.Some? <==> IsReserved(name)
    ensures err.Some? ==> err.value == ReservedName(name)
  {
    for i := 0 to |ReservedExecutorNames|
      invariant forall j :: 0 <= j < i ==> ReservedExecutorNames[j] != name
    {
      if name == ReservedExecutorNames[i] {
        return Some(ReservedName(name));
      }
    }
    assert ReservedExecutorNames[0] != name && ReservedExecutorNames[1] != name;
    return None;
  }

  // ---------------------------------------------------------------------
  // Namespaces and the pair of tables

  type Namespace = map<Name, Handler>

  function Lookup(ns: Namespace, name: Name): Option<Handler> {
    if name in ns then Some(ns[name]) else None
  }

  /** decoderNamespace and encoderNamespace together. */
  datatype Tables = Tables(decoder: Namespace, encoder: Namespace) {
    function Get(dir: Direction): Namespace {
      match dir
      case Decoding => decoder
      case Encoding => encoder
    }

    function With(dir: Direction, ns: Namespace): Tables {
      match dir
      case Decoding => this.(decoder := ns)
      case Encoding => this.(encoder := ns)
    }
  }

  /** Both tables as `owl.NewNamespace()` creates them. */
  const EmptyTables: Tables := Tables(map[], map[])

  /** The tables after a call, together with the panic that ended the call
      (None when it returned normally). A panic does not roll back what was
      written before it. */
  datatype Registered = Registered(tables: Tables, err: Option<RegisterError>)

  /** owl's Namespace.RegisterDirectiveExecutor: insert `h` under `name`,
      or fail when the name is already taken and `force` is not set. */
  function Insert(ns: Namespace, name: Name, h: Handler, force: bool): (r: Result<Namespace, RegisterError>)
    ensures r.Success? <==> (force || name !in ns)
    ensures r.Failure? ==> r.error == DuplicateName(name)
    ensures r.Success? ==> Lookup(r.value, name) == Some(h)
  {
    if name in ns && !force then Failure(DuplicateName(name)) else Success(ns[name := h])
  }

  /** The same owl call on the table of direction `dir`. */
  function InsertInto(t: Tables, dir: Direction, name: Name, h: Handler, force: bool): Registered {
    match Insert(t.Get(dir), name, h, force)
    case Success(ns) => Registered(t.With(dir, ns), None)
    case Failure(e) => Registered(t, Some(e))
  }

  /** registerDirectiveExecutorToNamespace: the reserved-name check, then the
      nil check, then the owl insert of the executor's half for `dir`. */
  function RegisterToNamespace(t: Tables, dir: Direction, name: Name, exe: Option<Executor>, force: bool): Registered {
    if IsReserved(name) then Registered(t, Some(ReservedName(name)))
    else if exe.None? then Registered(t, Some(NilExecutor))
    else InsertInto(t, dir, name, exe.value.Half(dir), force)
  }

  /** RegisterDirective: the decoder table is written first; a panic there
      ends the call before the encoder table is touched. */
  function Register(t: Tables, name: Name, exe: Option<Executor>, force: bool): Registered {
    var d := RegisterToNamespace(t, Decoding, name, exe, force);
    if d.err.Some? then d else RegisterToNamespace(d.tables, Encoding, name, exe, force)
  }

  // ---------------------------------------------------------------------
  // Invariants

  /** Outside the reserved names the two tables hold the same names, and
      under each name the two halves of one executor. */
  ghost predicate Paired(t: Tables) {
    && (forall n :: !IsReserved(n) ==> (n in t.decoder <==> n in t.encoder))
    && (forall n :: !IsReserved(n) && n in t.decoder ==>
          n in t.encoder && t.decoder[n] == t.decoder[n].exe.Half(Decoding)
          && t.encoder[n] == t.decoder[n].exe.Half(Encoding))
  }

  /** Each table holds its own no-op indicator and not the other's. */
  ghost predicate IndicatorsInPlace(t: Tables) {
    && Lookup(t.decoder, "decoder") == Some(NoopExecutor.Half(Decoding))
    && Lookup(t.encoder, "encoder") == Some(NoopExecutor.Half(Encoding))
    && "encoder" !in t.decoder
    && "decoder" !in t.encoder
  }

  ghost predicate Valid(t: Tables) {
    Paired(t) && IndicatorsInPlace(t)
  }

  // ---------------------------------------------------------------------
  // Start-up

  /** One RegisterDirective call. */
  datatype Call = Call(name: Name, exe: Option<Executor>, force: bool)

  /** Calls made one after another; the first panic ends the sequence. */
  function RegisterAll(t: Tables, calls: seq<Call>): Registered
    decreases |calls|
  {
    if calls == [] then Registered(t, None)
    else
      var r := Register(t, calls[0].name, calls[0].exe, calls[0].force);
      if r.err.Some? then r else RegisterAll(r.tables, calls[1..])
  }

  /** The names a sequence of calls registers. */
  function CallNames(calls: seq<Call>): set<Name> {
    set c | c in calls :: c.name
  }

  /** The init block at core/directive.go:11-18, in its order. */
  function BuiltinCalls(): seq<Call> {[
    Call("form", Some(Executor(Form)), false),
    Call("query", Some(Executor(Query)), false),
    Call("header", Some(Executor(Header)), false),
    Call("body", Some(Executor(Body)), false),
    Call("required", Some(Executor(Required)), false),
    Call("default", Some(Executor(Default)), false)
  ]}

  /** The init block at core/directive.go:11-18: the six built-in
      directives, registered one after the other without force; a panic
      in one of them ends the block. It is written out statement by
      statement to line up with the method Registry.InitBuiltins; that it
      is the batch registration of BuiltinCalls is the lemma
      StartupLaws.InitBuiltinsRegistersAll. */
  function InitBuiltins(t: Tables): Registered {
    var r1 := Register(t, "form", Some(Executor(Form)), false);
    if r1.err.Some? then r1 else
    var r2 := Register(r1.tables, "query", Some(Executor(Query)), false);
    if r2.err.Some? then r2 else
    var r3 := Register(r2.tables, "header", Some(Executor(Header)), false);
    if r3.err.Some? then r3 else
    var r4 := Register(r3.tables, "body", Some(Executor(Body)), false);
    if r4.err.Some? then r4 else
    var r5 := Register(r4.tables, "required", Some(Executor(Required)), false);
    if r5.err.Some? then r5 else
    Register(r5.tables, "default", Some(Executor(Default)), false)
  }

  /** The init block at core/directive.go:57-62: each no-op indicator goes
      straight into its own table through owl, without the reserved-name
      check of RegisterDirective. */
  function InitIndicators(t: Tables): Registered {
    var d := InsertInto(t, Decoding, "decoder", NoopExecutor.Half(Decoding), false);
    if d.err.Some? then d
    else InsertInto(d.tables, Encoding, "encoder", NoopExecutor.Half(Encoding), false)
  }

  /** Package initialisation: both tables start empty, then the two init
      blocks run in file order; a panic in the first ends start-up. */
  function Startup(): Registered {
    var b := InitBuiltins(EmptyTables);
    if b.err.Some? then b else InitIndicators(b.tables)
  }
}
