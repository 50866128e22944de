/**
 * The type-erasure bridge: the blanket GenericModule implementation that turns
 * any typed Module into handlers over JSON values. Each operation decodes the
 * payload, calls the typed handler once, and encodes the result, stopping at
 * the first failure and turning every error into text.
 */
module Bridge {
  import opened Wrappers
  import opened Json
  import Cw = Cosmwasm

  /**
   * A typed module: its three handlers over its own message (IM, EM, QM),
   * response (IR, QR) and error (E) types. The handlers take the module by
   * shared reference in the source, so none of them returns a new module state.
   */
  datatype Module<!IM, IR, !EM, !QM, QR, E> = Module(
    instantiate: IM -> Result<IR, E>,
    execute: EM -> Result<Cw.Response, E>,
    query: QM -> Result<QR, E>)

  /**
   * The serde functions the bridge uses for one module's types:
   * serde_json::from_value for each message type (failing with the error's
   * text), serde_json::to_value for the instantiate response, to_binary for
   * the query response, and the Display text of the module's error type.
   */
  datatype Codec<IM, !IR, EM, QM, !QR, !E> = Codec(
    decodeInstantiate: Value -> Result<IM, string>,
    decodeExecute: Value -> Result<EM, string>,
    decodeQuery: Value -> Result<QM, string>,
    encodeInstantiateResp: IR -> Result<Value, string>,
    encodeQueryResp: QR -> Result<Cw.Binary, Cw.StdError>,
    display: E -> string)

  /** instantiate_value: decode, instantiate, encode. */
  function InstantiateValue<IM, IR, EM, QM, QR, E>(m: Module<IM, IR, EM, QM, QR, E>,
                                                   c: Codec<IM, IR, EM, QM, QR, E>,
                                                   msg: Value): (r: Result<Value, string>)
    ensures r.Ok? <==> c.decodeInstantiate(msg).Ok?
                       && m.instantiate(c.decodeInstantiate(msg).value).Ok?
                       && c.encodeInstantiateResp(m.instantiate(c.decodeInstantiate(msg).value).value).Ok?
    ensures c.decodeInstantiate(msg).Err? ==> r == Err(c.decodeInstantiate(msg).error)
    ensures c.decodeInstantiate(msg).Ok? ==>
              var res := m.instantiate(c.decodeInstantiate(msg).value);
              && (res.Err? ==> r == Err(c.display(res.error)))
              && (res.Ok? ==> r == c.encodeInstantiateResp(res.value))
  {
    match c.decodeInstantiate(msg)
    case Err(e) => Err(e)
    case Ok(parsed) =>
      match m.instantiate(parsed)
      case Err(e) => Err(c.display(e))
      case Ok(res) => c.encodeInstantiateResp(res)
  }

  /** execute_value: decode, execute; the typed response is returned as it is. */
  function ExecuteValue<IM, IR, EM, QM, QR, E>(m: Module<IM, IR, EM, QM, QR, E>,
                                               c: Codec<IM, IR, EM, QM, QR, E>,
                                               msg: Value): (r: Result<Cw.Response, string>)
    ensures r.Ok? <==> c.decodeExecute(msg).Ok? && m.execute(c.decodeExecute(msg).value).Ok?
    ensures c.decodeExecute(msg).Err? ==> r == Err(c.decodeExecute(msg).error)
    ensures c.decodeExecute(msg).Ok? ==>
              var res := m.execute(c.decodeExecute(msg).value);
              && (res.Err? ==> r == Err(c.display(res.error)))
              && (res.Ok? ==> r == Ok(res.value))
  {
    match c.decodeExecute(msg)
    case Err(e) => Err(e)
    case Ok(parsed) =>
      match m.execute(parsed)
      case Err(e) => Err(c.display(e))
      case Ok(res) => Ok(res)
  }

  /** query_value: decode, query, to_binary; decoding and module errors become generic errors. */
  function QueryValue<IM, IR, EM, QM, QR, E>(m: Module<IM, IR, EM, QM, QR, E>,
                                             c: Codec<IM, IR, EM, QM, QR, E>,
                                             msg: Value): (r: Result<Cw.Binary, Cw.StdError>)
    ensures r.Ok? <==> c.decodeQuery(msg).Ok?
                       && m.query(c.decodeQuery(msg).value).Ok?
                       && c.encodeQueryResp(m.query(c.decodeQuery(msg).value).value).Ok?
    ensures c.decodeQuery(msg).Err? ==> r == Err(Cw.GenericErr(c.decodeQuery(msg).error))
    ensures c.decodeQuery(msg).Ok? ==>
              var res := m.query(c.decodeQuery(msg).value);
              && (res.Err? ==> r == Err(Cw.GenericErr(c.display(res.error))))
              && (res.Ok? ==> r == c.encodeQueryResp(res.value))
  {
    match c.decodeQuery(msg)
    case Err(e) => Err(Cw.GenericErr(e))
    case Ok(parsed) =>
      match m.query(parsed)
      case Err(e) => Err(Cw.GenericErr(c.display(e)))
      case Ok(res) => c.encodeQueryResp(res)
  }

  /**
   * A payload that does not decode never reaches the typed handler: two
   * modules that share their codec but differ in every handler give the same
   * result on it.
   */
  lemma HandlersNotReachedOnUndecodablePayload<IM, IR, EM, QM, QR, E>(
    m1: Module<IM, IR, EM, QM, QR, E>, m2: Module<IM, IR, EM, QM, QR, E>,
    c: Codec<IM, IR, EM, QM, QR, E>, msg: Value)
    ensures c.decodeInstantiate(msg).Err? ==> InstantiateValue(m1, c, msg) == InstantiateValue(m2, c, msg)
    ensures c.decodeExecute(msg).Err? ==> ExecuteValue(m1, c, msg) == ExecuteValue(m2, c, msg)
    ensures c.decodeQuery(msg).Err? ==> QueryValue(m1, c, msg) == QueryValue(m2, c, msg)
  {
  }

  /**
   * Each handler is consulted only on the decoded payload: two modules whose
   * handler agrees on that one message give the same result.
   */
  lemma HandlerConsultedOnlyOnDecodedMessage<IM, IR, EM, QM, QR, E>(
    m1: Module<IM, IR, EM, QM, QR, E>, m2: Module<IM, IR, EM, QM, QR, E>,
    c: Codec<IM, IR, EM, QM, QR, E>, msg: Value)
    ensures c.decodeInstantiate(msg).Ok?
            && m1.instantiate(c.decodeInstantiate(msg).value) == m2.instantiate(c.decodeInstantiate(msg).value)
            ==> InstantiateValue(m1, c, msg) == InstantiateValue(m2, c, msg)
    ensures c.decodeExecute(msg).Ok?
            && m1.execute(c.decodeExecute(msg).value) == m2.execute(c.decodeExecute(msg).value)
            ==> ExecuteValue(m1, c, msg) == ExecuteValue(m2, c, msg)
    ensures c.decodeQuery(msg).Ok?
            && m1.query(c.decodeQuery(msg).value) == m2.query(c.decodeQuery(msg).value)
            ==> QueryValue(m1, c, msg) == QueryValue(m2, c, msg)
  {
  }
}
