/** What one RegisterDirective call, or a sequence of them, promises,
    proved about the functions of directive.dfy. */
module RegisterLaws {
  import opened Wrappers
  import opened Directive

  /** owl's insert changes no name other than the one it writes. */
  lemma InsertKeepsOtherNames(ns: Namespace, name: Name, h: Handler, force: bool, n: Name)
    requires Insert(ns, name, h, force).Success? && n != name
    ensures Lookup(Insert(ns, name, h, force).value, n) == Lookup(ns, n)
  {
  }

  /** Registering a name neither table holds writes both halves and
      nothing else. */
  lemma RegisterFreshName(t: Tables, name: Name, e: Executor, force: bool)
    requires !IsReserved(name) && name !in t.decoder && name !in t.encoder
    ensures Register(t, name, Some(e), force)
         == Registered(Tables(t.decoder[name := e.Half(Decoding)], t.encoder[name := e.Half(Encoding)]), None)
  {
  }

  // ---------------------------------------------------------------------
  // One RegisterDirective call

  /** A reserved name is refused whatever `force` is, before either table
      is touched. */
  lemma RegisterReservedFails(t: Tables, name: Name, exe: Option<Executor>, force: bool)
    requires name == "decoder" || name == "encoder"
    ensures Register(t, name, exe, force) == Registered(t, Some(ReservedName(name)))
  {
  }

  /** A nil executor is refused before either table is touched. */
  lemma RegisterNilFails(t: Tables, name: Name, force: bool)
    requires !IsReserved(name)
    ensures Register(t, name, None, force) == Registered(t, Some(NilExecutor))
  {
  }

  /** On paired tables the decoder write fails exactly when the encoder
      write would fail, and with the same error. */
  lemma DecoderWriteFailsIffEncoderWriteFails(t: Tables, name: Name, exe: Option<Executor>, force: bool)
    requires Paired(t)
    ensures RegisterToNamespace(t, Decoding, name, exe, force).err
         == RegisterToNamespace(t, Encoding, name, exe, force).err
  {
  }

  /** On paired tables a call succeeds exactly when the name is not
      reserved, the executor is not nil and the name is free or `force`
      is set; a taken name without `force` is a duplicate; and a call
      that fails leaves both tables as they were. */
  lemma RegisterOutcome(t: Tables, name: Name, exe: Option<Executor>, force: bool)
    requires Paired(t)
    ensures Register(t, name, exe, force).err.None?
            <==> !IsReserved(name) && exe.Some? && (force || name !in t.decoder)
    ensures !IsReserved(name) && exe.Some? && !force && name in t.decoder ==>
              Register(t, name, exe, force).err == Some(DuplicateName(name))
    ensures Register(t, name, exe, force).err.Some? ==> Register(t, name, exe, force).tables == t
  {
    DecoderWriteFailsIffEncoderWriteFails(t, name, exe, force);
  }

  /** A call that succeeds binds `name` to the executor's decode half in
      the decoder table and to its encode half in the encoder table,
      replacing whatever was there, and changes no other name. */
  lemma RegisterSuccessEffect(t: Tables, name: Name, e: Executor, force: bool)
    requires Register(t, name, Some(e), force).err.None?
    ensures Lookup(Register(t, name, Some(e), force).tables.decoder, name) == Some(e.Half(Decoding))
    ensures Lookup(Register(t, name, Some(e), force).tables.encoder, name) == Some(e.Half(Encoding))
    ensures forall n :: n != name ==>
              Lookup(Register(t, name, Some(e), force).tables.decoder, n) == Lookup(t.decoder, n)
              && Lookup(Register(t, name, Some(e), force).tables.encoder, n) == Lookup(t.encoder, n)
  {
  }

  /** No call, forced or not, changes what a reserved name is bound to in
      either table. */
  lemma RegisterKeepsReservedEntries(t: Tables, name: Name, exe: Option<Executor>, force: bool)
    ensures forall n :: IsReserved(n) ==>
              Lookup(Register(t, name, exe, force).tables.decoder, n) == Lookup(t.decoder, n)
              && Lookup(Register(t, name, exe, force).tables.encoder, n) == Lookup(t.encoder, n)
  {
  }

  /** Every call keeps paired tables paired and valid tables valid. */
  lemma RegisterPreservesValid(t: Tables, name: Name, exe: Option<Executor>, force: bool)
    ensures Paired(t) ==> Paired(Register(t, name, exe, force).tables)
    ensures Valid(t) ==> Valid(Register(t, name, exe, force).tables)
  {
    var r := Register(t, name, exe, force);
    RegisterKeepsReservedEntries(t, name, exe, force);
    if Paired(t) && r.err.None? {
      RegisterSuccessEffect(t, name, exe.value, force);
      forall n | !IsReserved(n) && n != name
        ensures (n in r.tables.decoder <==> n in r.tables.encoder)
      {
        assert Lookup(r.tables.decoder, n) == Lookup(t.decoder, n);
        assert Lookup(r.tables.encoder, n) == Lookup(t.encoder, n);
      }
    }
  }

  /** Without the pairing invariant the two writes are not all-or-nothing:
      a name present only in the encoder table is written into the decoder
      table before the encoder write panics. */
  lemma UnpairedTablesBreakAtomicity(e: Executor, prior: Executor)
    ensures !Paired(Tables(map[], map["x" := prior.Half(Encoding)]))
    ensures Register(Tables(map[], map["x" := prior.Half(Encoding)]), "x", Some(e), false)
         == Registered(Tables(map["x" := e.Half(Decoding)], map["x" := prior.Half(Encoding)]),
                       Some(DuplicateName("x")))
  {
    var t := Tables(map[], map["x" := prior.Half(Encoding)]);
    assert !IsReserved("x") && "x" !in t.decoder && "x" in t.encoder;
  }

  // ---------------------------------------------------------------------
  // Sequences of calls

  /** Any sequence of RegisterDirective calls from valid tables, each one
      forced or not and whether or not one panics, leaves valid tables, and
      the reserved entries are those it started with. */
  lemma {:induction false} RegisterAllPreservesValid(t: Tables, calls: seq<Call>)
    requires Valid(t)
    decreases |calls|
    ensures Valid(RegisterAll(t, calls).tables)
    ensures forall n :: IsReserved(n) ==>
              Lookup(RegisterAll(t, calls).tables.decoder, n) == Lookup(t.decoder, n)
              && Lookup(RegisterAll(t, calls).tables.encoder, n) == Lookup(t.encoder, n)
  {
    if calls != [] {
      var c := calls[0];
      var r := Register(t, c.name, c.exe, c.force);
      RegisterPreservesValid(t, c.name, c.exe, c.force);
      RegisterKeepsReservedEntries(t, c.name, c.exe, c.force);
      if r.err.None? {
        RegisterAllPreservesValid(r.tables, calls[1..]);
      }
    }
  }

  // ---------------------------------------------------------------------
  // The no-op indicators

  /** Both halves of the no-op executor return nil and leave the runtime
      as it was, whatever the other executors do. */
  lemma NoopDoesNothing<R>(dir: Direction, rt: R, external: (Handler, R) -> Effect<R>)
    ensures Run(NoopExecutor.Half(dir), rt, external) == Effect(None, rt)
  {
  }

  /** In valid tables the reserved entries run as no-ops. */
  lemma IndicatorsDoNothing<R>(t: Tables, rt: R, external: (Handler, R) -> Effect<R>)
    requires Valid(t)
    ensures "decoder" in t.decoder && Run(t.decoder["decoder"], rt, external) == Effect(None, rt)
    ensures "encoder" in t.encoder && Run(t.encoder["encoder"], rt, external) == Effect(None, rt)
  {
  }
}
