/** What package initialisation leaves in the two tables. */
module StartupLaws {
  import opened Wrappers
  import opened Directive
  import opened RegisterLaws

  /** Calls that each name a non-nil executor under a non-reserved name
      that no other call and neither table uses. */
  ghost predicate FreshCalls(t: Tables, calls: seq<Call>) {
    NewNames(t, calls) && DistinctNames(calls)
  }

  ghost predicate NewNames(t: Tables, calls: seq<Call>) {
    forall i :: 0 <= i < |calls| ==>
      calls[i].exe.Some? && !IsReserved(calls[i].name)
      && calls[i].name !in t.decoder && calls[i].name !in t.encoder
  }

  ghost predicate DistinctNames(calls: seq<Call>) {
    forall i, j :: 0 <= i < j < |calls| ==> calls[i].name != calls[j].name
  }

  /** `r` is `ns` with the `dir` half of every call's executor bound to the
      call's name, and every other name left as it was. */
  ghost predicate AddsTo(ns: Namespace, calls: seq<Call>, dir: Direction, r: Namespace) {
    && (forall i :: 0 <= i < |calls| ==>
          calls[i].exe.Some? && Lookup(r, calls[i].name) == Some(calls[i].exe.value.Half(dir)))
    && (forall n :: n !in CallNames(calls) ==> Lookup(r, n) == Lookup(ns, n))
  }

  ghost predicate AddsCalls(t: Tables, calls: seq<Call>, r: Tables) {
    AddsTo(t.decoder, calls, Decoding, r.decoder) && AddsTo(t.encoder, calls, Encoding, r.encoder)
  }

  /** The tables after a call `c` that returns normally on a fresh name. */
  ghost function AddCall(t: Tables, c: Call): Tables
    requires c.exe.Some?
  {
    Tables(t.decoder[c.name := c.exe.value.Half(Decoding)], t.encoder[c.name := c.exe.value.Half(Encoding)])
  }

  lemma CallNamesCons(calls: seq<Call>)
    requires calls != []
    ensures CallNames(calls) == {calls[0].name} + CallNames(calls[1..])
  {
    assert calls == [calls[0]] + calls[1..];
  }

  /** The first of a sequence of fresh calls returns normally and leaves the
      rest fresh. */
  lemma FreshCallsTail(t: Tables, calls: seq<Call>)
    requires FreshCalls(t, calls) && calls != []
    ensures FreshCalls(AddCall(t, calls[0]), calls[1..])
    ensures calls[0].name !in CallNames(calls[1..])
    ensures RegisterAll(t, calls) == RegisterAll(AddCall(t, calls[0]), calls[1..])
  {
    var c := calls[0];
    var t' := AddCall(t, c);
    RegisterFreshName(t, c.name, c.exe.value, c.force);
    forall i | 0 <= i < |calls[1..]|
      ensures calls[1..][i].name !in t'.decoder && calls[1..][i].name !in t'.encoder
    {
      assert calls[1..][i] == calls[i + 1];
    }
  }

  lemma AddsToCons(ns: Namespace, calls: seq<Call>, dir: Direction, r: Namespace)
    requires calls != [] && calls[0].exe.Some? && calls[0].name !in CallNames(calls[1..])
    requires AddsTo(ns[calls[0].name := calls[0].exe.value.Half(dir)], calls[1..], dir, r)
    ensures AddsTo(ns, calls, dir, r)
  {
    CallNamesCons(calls);
    forall i | 0 < i < |calls|
      ensures calls[i].exe.Some? && Lookup(r, calls[i].name) == Some(calls[i].exe.value.Half(dir))
    {
      assert calls[i] == calls[1..][i - 1];
    }
  }

  /** Fresh calls all return normally, and each adds its two halves and
      nothing else. */
  lemma {:induction false} RegisterAllFresh(t: Tables, calls: seq<Call>)
    requires FreshCalls(t, calls)
    decreases |calls|
    ensures RegisterAll(t, calls).err == None
    ensures AddsCalls(t, calls, RegisterAll(t, calls).tables)
  {
    if calls != [] {
      FreshCallsTail(t, calls);
      RegisterAllFresh(AddCall(t, calls[0]), calls[1..]);
      var r := RegisterAll(t, calls).tables;
      AddsToCons(t.decoder, calls, Decoding, r.decoder);
      AddsToCons(t.encoder, calls, Encoding, r.encoder);
    }
  }

  /** The init block at core/directive.go:11-18 registers six non-reserved
      names, each with a non-nil executor, ... */
  lemma BuiltinNamesNew()
    ensures NewNames(EmptyTables, BuiltinCalls())
  {
  }

  /** ... and no name twice. */
  lemma BuiltinNamesDistinct()
    ensures DistinctNames(BuiltinCalls())
  {
  }

  lemma BuiltinNames()
    ensures CallNames(BuiltinCalls()) == {"form", "query", "header", "body", "required", "default"}
  {
  }

  /** Putting a name no call uses into a namespace keeps the description
      of what the calls added. */
  lemma AddsToPut(ns: Namespace, calls: seq<Call>, dir: Direction, r: Namespace, name: Name, h: Handler)
    requires AddsTo(ns, calls, dir, r) && name !in CallNames(calls)
    ensures AddsTo(ns[name := h], calls, dir, r[name := h])
  {
    forall i | 0 <= i < |calls|
      ensures Lookup(r[name := h], calls[i].name) == Some(calls[i].exe.value.Half(dir))
    {
      assert calls[i] in calls;
    }
  }

  /** Adding fresh calls to paired tables keeps them paired. */
  lemma AddsCallsPaired(t: Tables, calls: seq<Call>, r: Tables)
    requires Paired(t) && AddsCalls(t, calls, r)
    ensures Paired(r)
  {
    forall n | !IsReserved(n) && n in r.decoder
      ensures n in r.encoder && r.decoder[n] == r.decoder[n].exe.Half(Decoding)
              && r.encoder[n] == r.decoder[n].exe.Half(Encoding)
    {
      if n in CallNames(calls) {
        var c :| c in calls && c.name == n;
        var i :| 0 <= i < |calls| && calls[i] == c;
        assert Lookup(r.decoder, calls[i].name) == Some(calls[i].exe.value.Half(Decoding));
      } else {
        assert Lookup(r.decoder, n) == Lookup(t.decoder, n);
        assert Lookup(r.encoder, n) == Lookup(t.encoder, n);
      }
    }
    forall n | !IsReserved(n)
      ensures n in r.decoder <==> n in r.encoder
    {
      if n in CallNames(calls) {
        var c :| c in calls && c.name == n;
        var i :| 0 <= i < |calls| && calls[i] == c;
        assert Lookup(r.decoder, calls[i].name) == Some(calls[i].exe.value.Half(Decoding));
      } else {
        assert Lookup(r.decoder, n) == Lookup(t.decoder, n) && Lookup(r.encoder, n) == Lookup(t.encoder, n);
      }
    }
  }

  /** The init block at core/directive.go:11-18 runs without a panic and
      leaves paired tables that hold the built-ins and no reserved name. */
  lemma BuiltinsState()
    ensures RegisterAll(EmptyTables, BuiltinCalls()).err == None
    ensures AddsCalls(EmptyTables, BuiltinCalls(), RegisterAll(EmptyTables, BuiltinCalls()).tables)
    ensures Paired(RegisterAll(EmptyTables, BuiltinCalls()).tables)
    ensures forall n :: IsReserved(n) ==> n !in CallNames(BuiltinCalls())
  {
    BuiltinNamesNew();
    BuiltinNamesDistinct();
    BuiltinNames();
    RegisterAllFresh(EmptyTables, BuiltinCalls());
    AddsCallsPaired(EmptyTables, BuiltinCalls(), RegisterAll(EmptyTables, BuiltinCalls()).tables);
  }

  /** The init block at core/directive.go:11-18 is the batch registration
      of BuiltinCalls, whatever tables it starts from. */
  lemma InitBuiltinsRegistersAll(t: Tables)
    ensures InitBuiltins(t) == RegisterAll(t, BuiltinCalls())
  {
    var b := BuiltinCalls();
    assert b[1..][1..][1..] == b[3..];
    var r1 := Register(t, "form", Some(Executor(Form)), false);
    if r1.err.None? {
      var r2 := Register(r1.tables, "query", Some(Executor(Query)), false);
      if r2.err.None? {
        var r3 := Register(r2.tables, "header", Some(Executor(Header)), false);
        if r3.err.None? {
          LastBuiltinsRegistered(r3.tables);
        }
      }
    }
  }

  /** The last three steps of the same block. */
  lemma LastBuiltinsRegistered(t: Tables)
    ensures RegisterAll(t, BuiltinCalls()[3..]) ==
      var r4 := Register(t, "body", Some(Executor(Body)), false);
      if r4.err.Some? then r4 else
      var r5 := Register(r4.tables, "required", Some(Executor(Required)), false);
      if r5.err.Some? then r5 else
      Register(r5.tables, "default", Some(Executor(Default)), false)
  {
    var b := BuiltinCalls()[3..];
    assert b[1..][1..][1..] == [];
  }

  /** The tables holding only the two no-op indicators. */
  ghost function IndicatorTables(): Tables {
    Tables(map["decoder" := NoopExecutor.Half(Decoding)], map["encoder" := NoopExecutor.Half(Encoding)])
  }

  /** The init block at core/directive.go:57-62, run on paired tables that
      the built-ins filled, returns normally and makes them valid. */
  lemma IndicatorsAdded(b: Tables, calls: seq<Call>)
    requires Paired(b) && AddsCalls(EmptyTables, calls, b)
    requires forall n :: IsReserved(n) ==> n !in CallNames(calls)
    ensures InitIndicators(b).err == None
    ensures Valid(InitIndicators(b).tables)
    ensures AddsCalls(IndicatorTables(), calls, InitIndicators(b).tables)
  {
    var dh, eh := NoopExecutor.Half(Decoding), NoopExecutor.Half(Encoding);
    assert IsReserved("decoder") && IsReserved("encoder");
    assert Lookup(b.decoder, "decoder") == None && Lookup(b.encoder, "encoder") == None;
    assert Lookup(b.decoder, "encoder") == None && Lookup(b.encoder, "decoder") == None;
    var t := Tables(b.decoder["decoder" := dh], b.encoder["encoder" := eh]);
    assert InitIndicators(b) == Registered(t, None);
    AddsToPut(map[], calls, Decoding, b.decoder, "decoder", dh);
    AddsToPut(map[], calls, Encoding, b.encoder, "encoder", eh);
  }

  /** Start-up runs without a panic and leaves valid tables: the no-op
      indicators, each in its own table, plus every built-in name bound to
      its executor's two halves, and nothing else. */
  lemma StartupState()
    ensures Startup().err == None
    ensures Valid(Startup().tables)
    ensures AddsCalls(IndicatorTables(), BuiltinCalls(), Startup().tables)
  {
    BuiltinsState();
    InitBuiltinsRegistersAll(EmptyTables);
    IndicatorsAdded(RegisterAll(EmptyTables, BuiltinCalls()).tables, BuiltinCalls());
  }

  /** A name that calls with new names added is not reserved and is bound
      in the decoder table. */
  lemma CalledNameBound(t0: Tables, t: Tables, calls: seq<Call>, r: Tables, name: Name)
    requires NewNames(t0, calls) && AddsCalls(t, calls, r) && name in CallNames(calls)
    ensures !IsReserved(name) && name in r.decoder
  {
    var c :| c in calls && c.name == name;
    var i :| 0 <= i < |calls| && calls[i] == c;
    assert Lookup(r.decoder, calls[i].name).Some?;
  }

  /** After start-up a built-in can be replaced only by a forced call. */
  lemma BuiltinReplacedOnlyByForce(name: Name, e: Executor)
    requires name in CallNames(BuiltinCalls())
    ensures Register(Startup().tables, name, Some(e), false).err == Some(DuplicateName(name))
    ensures Register(Startup().tables, name, Some(e), false).tables == Startup().tables
    ensures Register(Startup().tables, name, Some(e), true).err == None
    ensures Lookup(Register(Startup().tables, name, Some(e), true).tables.decoder, name) == Some(e.Half(Decoding))
    ensures Lookup(Register(Startup().tables, name, Some(e), true).tables.encoder, name) == Some(e.Half(Encoding))
  {
    StartupState();
    BuiltinNamesNew();
    CalledNameBound(EmptyTables, IndicatorTables(), BuiltinCalls(), Startup().tables, name);
    TakenNameReplacedOnlyByForce(Startup().tables, name, e);
  }

  /** On paired tables a name that is taken can be replaced only by a
      forced call. */
  lemma TakenNameReplacedOnlyByForce(t: Tables, name: Name, e: Executor)
    requires Paired(t) && !IsReserved(name) && name in t.decoder
    ensures Register(t, name, Some(e), false).err == Some(DuplicateName(name))
    ensures Register(t, name, Some(e), false).tables == t
    ensures Register(t, name, Some(e), true).err == None
    ensures Lookup(Register(t, name, Some(e), true).tables.decoder, name) == Some(e.Half(Decoding))
    ensures Lookup(Register(t, name, Some(e), true).tables.encoder, name) == Some(e.Half(Encoding))
  {
    RegisterOutcome(t, name, Some(e), false);
    RegisterOutcome(t, name, Some(e), true);
    RegisterSuccessEffect(t, name, e, true);
  }
}
