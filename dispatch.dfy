/**
 * The Manager: a registry from module names to module handles, and the three
 * entry points that route a parsed JSON envelope to the modules it names.
 * Module behaviour is given by Handlers, indexed by the handle's identity;
 * the serde_json::from_str step is given by its outcome, `parsed`.
 */
module Dispatch {
  import opened Wrappers
  import opened Json
  import opened Errors
  import opened Responses
  import Cw = Cosmwasm
  import Bridge

  /** The identity of a shared module handle (an Rc<RefCell<dyn GenericModule>>). */
  type ModuleId = nat

  /**
   * What each handle does when the dispatcher calls it (the GenericModule
   * capability set): instantiate and execute produce a crate Response, query
   * produces encoded bytes; failures are the module's error text.
   */
  datatype Handlers = Handlers(
    instantiate: (ModuleId, Value) -> Result<Response, string>,
    execute: (ModuleId, Value) -> Result<Response, string>,
    query: (ModuleId, Value) -> Result<Cw.Binary, Cw.StdError>)

  /** The (name, payload) pair an execute or query envelope must consist of. */
  function SinglePayload(v: Value): (r: Result<(string, Value), Error>)
    ensures r.Ok? <==> v.Object? && |v.entries| == 1
    ensures r.Ok? ==> r.value == v.entries[0]
    ensures !v.Object? ==> r == Err(ParseError(None))
    ensures v.Object? && |v.entries| != 1 ==> r == Err(ParseError(Some(TooManyPayloads)))
  {
    match v
    case Object(entries) =>
      if |entries| == 1 then Ok(entries[0]) else Err(ParseError(Some(TooManyPayloads)))
    case _ => Err(ParseError(None))
  }

  class Manager {
    var modules: map<string, ModuleId>

    /** Manager::new(): no module registered. */
    constructor ()
      ensures modules == map[]
    {
      modules := map[];
    }

    /**
     * Registers `handle` under `name`. The map insertion happens first, so a
     * name that was already registered is reported as ModuleAlreadyRegistered
     * and yet resolves to the new handle afterwards.
     */
    method Register(name: string, handle: ModuleId) returns (r: Result<(), Error>)
      modifies this
      ensures modules == old(modules)[name := handle]
      ensures r == if name in old(modules) then Err(ModuleAlreadyRegistered(name)) else Ok(())
    {
      var previous := if name in modules then Some(modules[name]) else None;
      modules := modules[name := handle];
      match previous
      case Some(_) => r := Err(ModuleAlreadyRegistered(name));
      case None => r := Ok(());
    }

    /**
     * Routes an execute envelope to the one module it names. Dispatcher errors
     * are rendered with Debug; the module's own error passes through as it is.
     */
    function Execute(h: Handlers, serde: Serde, parsed: Result<Value, string>): (r: Result<Cw.Response, string>)
      reads this
      ensures parsed.Err? ==> r == Err(parsed.error)
      ensures parsed.Ok? && !parsed.value.Object? ==> r == Err(Debug(ParseError(None)))
      ensures parsed.Ok? && parsed.value.Object? && |parsed.value.entries| != 1
              ==> r == Err(Debug(ParseError(Some(TooManyPayloads))))
      ensures parsed.Ok? && parsed.value.Object? && |parsed.value.entries| == 1 ==>
                var (name, payload) := parsed.value.entries[0];
                && (name !in modules ==> r == Err(Debug(NotFoundError(name))))
                && (name in modules && h.execute(modules[name], payload).Err?
                    ==> r == Err(h.execute(modules[name], payload).error))
                && (name in modules && h.execute(modules[name], payload).Ok?
                    ==> r == Ok(IntoCw(h.execute(modules[name], payload).value, serde)))
      ensures r.Ok? <==> parsed.Ok? && parsed.value.Object? && |parsed.value.entries| == 1
                         && parsed.value.entries[0].0 in modules
                         && h.execute(modules[parsed.value.entries[0].0], parsed.value.entries[0].1).Ok?
    {
      match parsed
      case Err(e) => Err(e)
      case Ok(val) =>
        match SinglePayload(val)
        case Err(err) => Err(Debug(err))
        case Ok(entry) =>
          if entry.0 in modules then
            match h.execute(modules[entry.0], entry.1)
            case Ok(resp) => Ok(IntoCw(resp, serde))
            case Err(e) => Err(e)
          else
            Err(Debug(NotFoundError(entry.0)))
    }

    /**
     * Routes a query envelope to the one module it names. Dispatcher errors
     * are rendered with Display inside a generic StdError; the module's own
     * error passes through as it is.
     */
    function Query(h: Handlers, parsed: Result<Value, string>): (r: Result<Cw.Binary, Cw.StdError>)
      reads this
      ensures parsed.Err? ==> r == Err(Cw.GenericErr(parsed.error))
      ensures parsed.Ok? && !parsed.value.Object? ==> r == Err(Cw.GenericErr(Display(ParseError(None))))
      ensures parsed.Ok? && parsed.value.Object? && |parsed.value.entries| != 1
              ==> r == Err(Cw.GenericErr(Display(ParseError(Some(TooManyPayloads)))))
      ensures parsed.Ok? && parsed.value.Object? && |parsed.value.entries| == 1 ==>
                var (name, payload) := parsed.value.entries[0];
                && (name !in modules ==> r == Err(Cw.GenericErr(Display(NotFoundError(name)))))
                && (name in modules ==> r == h.query(modules[name], payload))
    {
      match parsed
      case Err(e) => Err(Cw.GenericErr(e))
      case Ok(val) =>
        match SinglePayload(val)
        case Err(err) => Err(Cw.GenericErr(Display(err)))
        case Ok(entry) =>
          if entry.0 in modules then h.query(modules[entry.0], entry.1)
          else Err(Cw.GenericErr(Display(NotFoundError(entry.0))))
    }

    /**
     * Instantiates every module the envelope names, in entry order, folding
     * each response into a fresh Aggregator; the first unknown name or
     * module error ends the call and the partial aggregate is discarded.
     */
    method Instantiate(h: Handlers, serde: Serde, parsed: Result<Value, string>) returns (r: Result<Cw.Response, string>)
      ensures r == InstantiateOutcome(modules, h, serde, parsed)
    {
      var aggregator := new Aggregator();
      if parsed.Err? {
        return Err(parsed.error);
      }
      if !parsed.value.Object? {
        return Err(Debug(ParseError(None)));
      }
      var registry := modules;
      var vals := parsed.value.entries;
      ghost var done: seq<(string, Response)> := [];
      var i := 0;
      while i < |vals|
        invariant 0 <= i <= |vals|
        invariant RunInstantiate(registry, h, vals[..i]) == Ok(done)
        invariant aggregator.State() == FoldAll(done)
      {
        var (name, payload) := vals[i];
        RunStep(registry, h, vals, i, done);
        if name !in registry {
          return Err(Debug(NotFoundError(name)));
        }
        var res := h.instantiate(registry[name], payload);
        if res.Err? {
          return Err(res.error);
        }
        aggregator.FoldResponse(name, res.value);
        FoldAllSnoc(done, (name, res.value));
        done := done + [(name, res.value)];
        i := i + 1;
      }
      assert vals[..i] == vals;
      var out := aggregator.Aggregate(serde);
      assert out == Aggregated(FoldAll(done), serde).resp;
      r := Ok(out);
    }
  }

  /**
   * Calls the modules named by `es` in order; the successful (name, response)
   * pairs, or the first failure: Debug(NotFoundError) for an unknown name,
   * the module's own text for a module error.
   */
  function RunInstantiate(modules: map<string, ModuleId>, h: Handlers, es: seq<(string, Value)>)
    : (r: Result<seq<(string, Response)>, string>)
    ensures r.Ok? ==> |r.value| == |es|
    ensures r.Ok? ==> forall i :: 0 <= i < |es| ==>
              && r.value[i].0 == es[i].0
              && es[i].0 in modules
              && h.instantiate(modules[es[i].0], es[i].1) == Ok(r.value[i].1)
    decreases |es|
  {
    if es == [] then Ok([])
    else
      match RunInstantiate(modules, h, es[..|es| - 1])
      case Err(e) => Err(e)
      case Ok(done) =>
        var (name, payload) := es[|es| - 1];
        if name !in modules then Err(Debug(NotFoundError(name)))
        else
          match h.instantiate(modules[name], payload)
          case Err(e) => Err(e)
          case Ok(resp) => Ok(done + [(name, resp)])
  }

  /**
   * The outcome of Manager::instantiate for a given registry: a parse error
   * passes through, and a successful call answers an object envelope whose
   * every module succeeded, with data exactly when it named a module.
   */
  function InstantiateOutcome(modules: map<string, ModuleId>, h: Handlers, serde: Serde,
                              parsed: Result<Value, string>): (r: Result<Cw.Response, string>)
    ensures parsed.Err? ==> r == Err(parsed.error)
    ensures r.Ok? ==> parsed.Ok? && parsed.value.Object? && RunInstantiate(modules, h, parsed.value.entries).Ok?
    ensures r.Ok? ==> (r.value.data.Some? <==> parsed.value.entries != [])
  {
    match parsed
    case Err(e) => Err(e)
    case Ok(v) =>
      if !v.Object? then Err(Debug(ParseError(None)))
      else
        match RunInstantiate(modules, h, v.entries)
        case Err(e) => Err(e)
        case Ok(done) =>
          AggregatedAfterFolds(done, serde);
          Ok(Aggregated(FoldAll(done), serde).resp)
  }

  /** The run one entry further on, after a successful prefix: the entry decides how it goes on. */
  lemma RunStep(modules: map<string, ModuleId>, h: Handlers, es: seq<(string, Value)>, i: nat,
                done: seq<(string, Response)>)
    requires i < |es|
    requires RunInstantiate(modules, h, es[..i]) == Ok(done)
    ensures es[i].0 !in modules ==> RunInstantiate(modules, h, es) == Err(Debug(NotFoundError(es[i].0)))
    ensures es[i].0 in modules && h.instantiate(modules[es[i].0], es[i].1).Err?
            ==> RunInstantiate(modules, h, es) == Err(h.instantiate(modules[es[i].0], es[i].1).error)
    ensures es[i].0 in modules && h.instantiate(modules[es[i].0], es[i].1).Ok?
            ==> RunInstantiate(modules, h, es[..i + 1]) == Ok(done + [(es[i].0, h.instantiate(modules[es[i].0], es[i].1).value)])
  {
    assert es[..i + 1][..i] == es[..i];
    if es[i].0 !in modules || h.instantiate(modules[es[i].0], es[i].1).Err? {
      RunStopsAtFailure(modules, h, es, i + 1);
    }
  }

  /** Once a prefix of the entries has failed, the entries after it change nothing. */
  lemma {:induction false} RunStopsAtFailure(modules: map<string, ModuleId>, h: Handlers,
                                             es: seq<(string, Value)>, k: nat)
    requires k <= |es|
    requires RunInstantiate(modules, h, es[..k]).Err?
    ensures RunInstantiate(modules, h, es) == RunInstantiate(modules, h, es[..k])
    decreases |es| - k
  {
    if k < |es| {
      var init := es[..|es| - 1];
      assert init[..k] == es[..k];
      RunStopsAtFailure(modules, h, init, k);
    } else {
      assert es[..k] == es;
    }
  }

  /** When every entry names a registered module that succeeds, the run succeeds. */
  lemma {:induction false} RunSucceeds(modules: map<string, ModuleId>, h: Handlers, es: seq<(string, Value)>)
    requires forall i :: 0 <= i < |es| ==> es[i].0 in modules && h.instantiate(modules[es[i].0], es[i].1).Ok?
    ensures RunInstantiate(modules, h, es).Ok?
    decreases |es|
  {
    if es != [] {
      var init := es[..|es| - 1];
      assert forall i :: 0 <= i < |init| ==> init[i] == es[i];
      RunSucceeds(modules, h, init);
    }
  }

  /** A non-object envelope is rejected before any module is called. */
  lemma InstantiateRejectsNonObject(modules: map<string, ModuleId>, h: Handlers, serde: Serde, v: Value)
    requires !v.Object?
    ensures InstantiateOutcome(modules, h, serde, Ok(v)) == Err(Debug(ParseError(None)))
  {
  }

  /** instantiate succeeds exactly when every entry names a registered module whose instantiate succeeds. */
  lemma InstantiateSucceedsIff(modules: map<string, ModuleId>, h: Handlers, serde: Serde, es: seq<(string, Value)>)
    ensures InstantiateOutcome(modules, h, serde, Ok(Object(es))).Ok?
            <==> forall i :: 0 <= i < |es| ==> es[i].0 in modules && h.instantiate(modules[es[i].0], es[i].1).Ok?
  {
    if forall i :: 0 <= i < |es| ==> es[i].0 in modules && h.instantiate(modules[es[i].0], es[i].1).Ok? {
      RunSucceeds(modules, h, es);
    }
  }

  /**
   * The first failing entry decides the outcome: with every earlier entry
   * registered and succeeding, an unknown name at `k` gives NotFoundError for
   * that name and a module error at `k` gives that error, whatever follows.
   */
  lemma InstantiateStopsAtFirstFailure(modules: map<string, ModuleId>, h: Handlers, serde: Serde,
                                       es: seq<(string, Value)>, k: nat)
    requires k < |es|
    requires forall i :: 0 <= i < k ==> es[i].0 in modules && h.instantiate(modules[es[i].0], es[i].1).Ok?
    ensures es[k].0 !in modules
            ==> InstantiateOutcome(modules, h, serde, Ok(Object(es))) == Err(Debug(NotFoundError(es[k].0)))
    ensures es[k].0 in modules && h.instantiate(modules[es[k].0], es[k].1).Err?
            ==> InstantiateOutcome(modules, h, serde, Ok(Object(es)))
                == Err(h.instantiate(modules[es[k].0], es[k].1).error)
  {
    var prefix := es[..k];
    assert forall i :: 0 <= i < |prefix| ==> prefix[i] == es[i];
    RunSucceeds(modules, h, prefix);
    assert es[..k + 1][..k] == prefix;
    if es[k].0 !in modules || h.instantiate(modules[es[k].0], es[k].1).Err? {
      RunStopsAtFailure(modules, h, es, k + 1);
    }
  }

  /**
   * A successful instantiate returns the concatenation, in entry order, of
   * every module's events, attributes and messages; its data is absent for
   * an empty envelope and otherwise the serialised map of every module's
   * data, keyed by exactly the names in the envelope.
   */
  lemma InstantiateCombines(modules: map<string, ModuleId>, h: Handlers, serde: Serde, es: seq<(string, Value)>)
    requires InstantiateOutcome(modules, h, serde, Ok(Object(es))).Ok?
    ensures var done := RunInstantiate(modules, h, es).value;
            var out := InstantiateOutcome(modules, h, serde, Ok(Object(es))).value;
      && out.events == Collect(done, EventsOf)
      && out.attributes == Collect(done, AttributesOf)
      && out.messages == Collect(done, MessagesOf)
      && (es == [] ==> out == Cw.NewResponse())
      && (es != [] ==> out.data == Some(serde.mapToVec(FoldAll(done).data)))
      && Names(FoldAll(done).data) == Names(es)
  {
    var done := RunInstantiate(modules, h, es).value;
    assert InstantiateOutcome(modules, h, serde, Ok(Object(es))).value == Aggregated(FoldAll(done), serde).resp;
    FoldAllConcatenates(done);
    FoldAllKeys(done);
    AggregatedAfterFolds(done, serde);
    RunKeepsNames(modules, h, es);
  }

  /** The successful run records one response per entry, under the entry's name. */
  lemma RunKeepsNames(modules: map<string, ModuleId>, h: Handlers, es: seq<(string, Value)>)
    requires RunInstantiate(modules, h, es).Ok?
    ensures Names(RunInstantiate(modules, h, es).value) == Names(es)
  {
    var done := RunInstantiate(modules, h, es).value;
    forall n | n in Names(done) ensures n in Names(es) {
      var i :| 0 <= i < |done| && done[i].0 == n;
      assert es[i].0 == n;
    }
    forall n | n in Names(es) ensures n in Names(done) {
      var i :| 0 <= i < |es| && es[i].0 == n;
      assert done[i].0 == n;
    }
  }

  /**
   * With the distinct keys of a JSON object, the aggregated data map lists
   * every module's name and its own data (Null included) in envelope order:
   * the map that is serialised into the response.
   */
  lemma InstantiateDataPerModule(modules: map<string, ModuleId>, h: Handlers, serde: Serde, es: seq<(string, Value)>)
    requires UniqueKeys(es)
    requires InstantiateOutcome(modules, h, serde, Ok(Object(es))).Ok?
    ensures var data := FoldAll(RunInstantiate(modules, h, es).value).data;
      && |data| == |es|
      && forall i :: 0 <= i < |es| ==>
           && es[i].0 in modules && h.instantiate(modules[es[i].0], es[i].1).Ok?
           && data[i] == (es[i].0, h.instantiate(modules[es[i].0], es[i].1).value.data)
  {
    var done := RunInstantiate(modules, h, es).value;
    FoldAllData(done);
  }

  /**
   * The errors the dispatcher itself produces are told apart by their text,
   * on both the Debug (execute, instantiate) and the Display (query) path,
   * and a NotFoundError text names exactly one module.
   */
  lemma DispatchErrorsIdentifyCause(n1: string, n2: string)
    ensures Debug(ParseError(None)) != Debug(ParseError(Some(TooManyPayloads)))
    ensures Debug(ParseError(None)) != Debug(NotFoundError(n1))
    ensures Debug(ParseError(Some(TooManyPayloads))) != Debug(NotFoundError(n1))
    ensures Debug(NotFoundError(n1)) == Debug(NotFoundError(n2)) ==> n1 == n2
    ensures Display(ParseError(None)) != Display(ParseError(Some(TooManyPayloads)))
    ensures Display(ParseError(None)) != Display(NotFoundError(n1))
    ensures Display(ParseError(Some(TooManyPayloads))) != Display(NotFoundError(n1))
    ensures Display(NotFoundError(n1)) == Display(NotFoundError(n2)) ==> n1 == n2
  {
    var none, many, nf1, nf2 := ParseError(None), ParseError(Some(TooManyPayloads)), NotFoundError(n1), NotFoundError(n2);
    if Debug(none) == Debug(many) { DebugInjective(none, many); }
    if Debug(none) == Debug(nf1) { DebugInjective(none, nf1); }
    if Debug(many) == Debug(nf1) { DebugInjective(many, nf1); }
    if Debug(nf1) == Debug(nf2) { DebugInjective(nf1, nf2); }
    if Display(none) == Display(many) { DisplayInjective(none, many); }
    if Display(none) == Display(nf1) { DisplayInjective(none, nf1); }
    if Display(many) == Display(nf1) { DisplayInjective(many, nf1); }
    if Display(nf1) == Display(nf2) { DisplayInjective(nf1, nf2); }
  }

  /**
   * A query addressed to a registered handle that is the bridge around a
   * typed module gets that module's answer; a payload that does not decode
   * into its query type fails with the decoder's message as a generic error.
   */
  lemma QueryThroughBridge<IM, IR, EM, QM, QR, E>(m: Manager, h: Handlers, name: string, payload: Value,
                                                  typed: Bridge.Module<IM, IR, EM, QM, QR, E>,
                                                  c: Bridge.Codec<IM, IR, EM, QM, QR, E>)
    requires name in m.modules
    requires forall v :: h.query(m.modules[name], v) == Bridge.QueryValue(typed, c, v)
    ensures m.Query(h, Ok(Object([(name, payload)]))) == Bridge.QueryValue(typed, c, payload)
    ensures c.decodeQuery(payload).Err?
            ==> m.Query(h, Ok(Object([(name, payload)]))) == Err(Cw.GenericErr(c.decodeQuery(payload).error))
  {
  }
}
