/** The process-wide registry of core/directive.go as an object whose two
    tables the registration methods update in place. */
module DirectiveRegistry {
  import opened Wrappers
  import opened Directive
  import RegisterLaws
  import StartupLaws

  class Registry {
    /** decoderNamespace: executors used to decode a request into a struct. */
    var decoderNs: Namespace
    /** encoderNamespace: executors used to encode a struct into a request. */
    var encoderNs: Namespace

    function Snapshot(): Tables
      reads this
    {
      Tables(decoderNs, encoderNs)
    }

    ghost predicate Valid()
      reads this
    {
      Directive.Valid(Snapshot())
    }

    /** Package initialisation: the two init blocks in file order. */
    constructor ()
      ensures Snapshot() == Startup().tables
      ensures Valid()
    {
      decoderNs, encoderNs := map[], map[];
      new;
      StartupLaws.StartupState();
      var err := InitBuiltins();
      assert err.None?;
      err := InitIndicators();
      assert err.None?;
    }

    /** The init block at core/directive.go:11-18. */
    method InitBuiltins() returns (err: Option<RegisterError>)
      modifies this
      ensures Registered(Snapshot(), err) == Directive.InitBuiltins(old(Snapshot()))
      ensures old(Valid()) ==> Valid()
    {
      err := RegisterDirective("form", Some(Executor(Form)), false);
      if err.Some? { return; }
      err := RegisterDirective("query", Some(Executor(Query)), false);
      if err.Some? { return; }
      err := RegisterDirective("header", Some(Executor(Header)), false);
      if err.Some? { return; }
      err := RegisterDirective("body", Some(Executor(Body)), false);
      if err.Some? { return; }
      err := RegisterDirective("required", Some(Executor(Required)), false);
      if err.Some? { return; }
      err := RegisterDirective("default", Some(Executor(Default)), false);
    }

    /** The init block at core/directive.go:57-62. */
    method InitIndicators() returns (err: Option<RegisterError>)
      modifies this
      ensures Registered(Snapshot(), err) == Directive.InitIndicators(old(Snapshot()))
    {
      err := RegisterDirectiveExecutor(Decoding, "decoder", NoopExecutor.Half(Decoding), false);
      if err.Some? { return; }
      err := RegisterDirectiveExecutor(Encoding, "encoder", NoopExecutor.Half(Encoding), false);
    }

    /** owl's Namespace.RegisterDirectiveExecutor on the table for `dir`. */
    method RegisterDirectiveExecutor(dir: Direction, name: Name, h: Handler, force: bool)
      returns (err: Option<RegisterError>)
      modifies this
      ensures Registered(Snapshot(), err) == InsertInto(old(Snapshot()), dir, name, h, force)
    {
      var ns := if dir == Decoding then decoderNs else encoderNs;
      if name in ns && !force {
        return Some(DuplicateName(name));
      }
      if dir == Decoding {
        decoderNs := decoderNs[name := h];
      } else {
        encoderNs := encoderNs[name := h];
      }
      return None;
    }

    /** registerDirectiveExecutorToNamespace. */
    method RegisterDirectiveExecutorToNamespace(dir: Direction, name: Name, exe: Option<Executor>, force: bool)
      returns (err: Option<RegisterError>)
      modifies this
      ensures Registered(Snapshot(), err) == RegisterToNamespace(old(Snapshot()), dir, name, exe, force)
    {
      err := CheckReservedExecutorName(name);
      if err.Some? {
        return;
      }
      if exe.None? {
        return Some(NilExecutor);
      }
      err := RegisterDirectiveExecutor(dir, name, exe.value.Half(dir), force);
    }

    /** RegisterDirective: the decoder half first, then the encoder half.
        On a valid registry the call keeps it valid, and it either updates
        both tables or neither. */
    method RegisterDirective(name: Name, exe: Option<Executor>, force: bool)
      returns (err: Option<RegisterError>)
      modifies this
      ensures Registered(Snapshot(), err) == Register(old(Snapshot()), name, exe, force)
      ensures old(Valid()) ==> Valid()
      ensures old(Valid()) && err.Some? ==> Snapshot() == old(Snapshot())
      ensures forall n :: IsReserved(n) ==>
                Lookup(decoderNs, n) == Lookup(old(decoderNs), n) && Lookup(encoderNs, n) == Lookup(old(encoderNs), n)
    {
      RegisterLaws.RegisterPreservesValid(Snapshot(), name, exe, force);
      RegisterLaws.RegisterKeepsReservedEntries(Snapshot(), name, exe, force);
      if Valid() {
        RegisterLaws.RegisterOutcome(Snapshot(), name, exe, force);
      }
      err := RegisterDirectiveExecutorToNamespace(Decoding, name, exe, force);
      if err.Some? {
        return;
      }
      err := RegisterDirectiveExecutorToNamespace(Encoding, name, exe, force);
    }
  }
}
