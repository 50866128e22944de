/**
 * The cosmwasm_std types the core handles. Their internals are not used by
 * the core; they are given concrete but minimal shapes.
 */
module Cosmwasm {
  import opened Wrappers

  type Binary = seq<bv8>

  datatype Attribute = Attribute(key: string, value: string)

  datatype Event = Event(ty: string, attributes: seq<Attribute>)

  /** An outbound message; its contents are opaque to the core. */
  datatype CosmosMsg = CosmosMsg(body: Binary)

  datatype ReplyOn = Always | OnError | OnSuccess | Never

  datatype SubMsg = SubMsg(id: nat, msg: CosmosMsg, gasLimit: Option<nat>, replyOn: ReplyOn)

  /** SubMsg::new: a "fire and forget" wrapper around a message. */
  function NewSubMsg(msg: CosmosMsg): SubMsg
  {
    SubMsg(0, msg, None, Never)
  }

  /** cosmwasm_std::Response<Binary>. */
  datatype Response = Response(
    messages: seq<SubMsg>,
    attributes: seq<Attribute>,
    events: seq<Event>,
    data: Option<Binary>)

  /** Response::new(): no messages, attributes, events or data. */
  function NewResponse(): Response
  {
    Response([], [], [], None)
  }

  datatype StdError = GenericErr(msg: string) | SerializeErr(sourceType: string, msg: string)
}
