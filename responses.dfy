/**
 * The crate's own Response (a cosmwasm response plus a JSON data value),
 * its builders and its conversion into a cosmwasm response, and the
 * Aggregator that folds several modules' responses into one.
 */
module Responses {
  import opened Wrappers
  import opened Json
  import Cw = Cosmwasm

  /** The crate's Response: side effects in `response`, the module's data as JSON. */
  datatype Response = Response(response: Cw.Response, data: Value)

  /** Response::new(). */
  function New(): (r: Response)
    ensures r.response.messages == [] && r.response.attributes == [] && r.response.events == []
    ensures r.data == Null
  {
    Response(Cw.NewResponse(), Null)
  }

  // ---------------------------------------------------------------------------
  // Builders: each consumes the response and appends to exactly one sequence.

  function AddAttribute(r: Response, key: string, value: string): (r': Response)
    ensures r'.response.attributes == r.response.attributes + [Cw.Attribute(key, value)]
    ensures r'.response.(attributes := r.response.attributes) == r.response && r'.data == r.data
  {
    r.(response := r.response.(attributes := r.response.attributes + [Cw.Attribute(key, value)]))
  }

  function AddMessage(r: Response, msg: Cw.CosmosMsg): (r': Response)
    ensures r'.response.messages == r.response.messages + [Cw.NewSubMsg(msg)]
    ensures r'.response.(messages := r.response.messages) == r.response && r'.data == r.data
  {
    r.(response := r.response.(messages := r.response.messages + [Cw.NewSubMsg(msg)]))
  }

  function AddSubmessage(r: Response, msg: Cw.SubMsg): (r': Response)
    ensures r'.response.messages == r.response.messages + [msg]
    ensures r'.response.(messages := r.response.messages) == r.response && r'.data == r.data
  {
    r.(response := r.response.(messages := r.response.messages + [msg]))
  }

  function AddEvent(r: Response, event: Cw.Event): (r': Response)
    ensures r'.response.events == r.response.events + [event]
    ensures r'.response.(events := r.response.events) == r.response && r'.data == r.data
  {
    r.(response := r.response.(events := r.response.events + [event]))
  }

  function AddAttributes(r: Response, attrs: seq<Cw.Attribute>): (r': Response)
    ensures r'.response.attributes == r.response.attributes + attrs
    ensures r'.response.(attributes := r.response.attributes) == r.response && r'.data == r.data
  {
    r.(response := r.response.(attributes := r.response.attributes + attrs))
  }

  /** Every message wrapped by SubMsg::new, in order. */
  function WrapAll(msgs: seq<Cw.CosmosMsg>): (subs: seq<Cw.SubMsg>)
    ensures |subs| == |msgs|
    ensures forall i :: 0 <= i < |msgs| ==> subs[i] == Cw.NewSubMsg(msgs[i])
  {
    if msgs == [] then [] else [Cw.NewSubMsg(msgs[0])] + WrapAll(msgs[1..])
  }

  function AddMessages(r: Response, msgs: seq<Cw.CosmosMsg>): (r': Response)
    ensures r'.response.messages == r.response.messages + WrapAll(msgs)
    ensures r'.response.(messages := r.response.messages) == r.response && r'.data == r.data
  {
    r.(response := r.response.(messages := r.response.messages + WrapAll(msgs)))
  }

  function AddSubmessages(r: Response, msgs: seq<Cw.SubMsg>): (r': Response)
    ensures r'.response.messages == r.response.messages + msgs
    ensures r'.response.(messages := r.response.messages) == r.response && r'.data == r.data
  {
    r.(response := r.response.(messages := r.response.messages + msgs))
  }

  function AddEvents(r: Response, events: seq<Cw.Event>): (r': Response)
    ensures r'.response.events == r.response.events + events
    ensures r'.response.(events := r.response.events) == r.response && r'.data == r.data
  {
    r.(response := r.response.(events := r.response.events + events))
  }

  /** set_data: the serialised value replaces the data and nothing else. */
  function SetData<T>(r: Response, data: T, toValue: T -> Value): (r': Response)
    ensures r'.data == toValue(data) && r'.response == r.response
  {
    r.(data := toValue(data))
  }

  /** An optional attribute as the 0- or 1-element iterator add_attributes receives. */
  function OptionalItems<T>(o: Option<T>): (items: seq<T>)
    ensures o.None? ==> items == []
    ensures o.Some? ==> items == [o.value]
  {
    match o
    case None => []
    case Some(x) => [x]
  }

  // Reference definitions: the bulk builders as repeated single additions.

  function AddEachAttribute(r: Response, attrs: seq<Cw.Attribute>): Response
    decreases |attrs|
  {
    if attrs == [] then r else AddEachAttribute(AddAttribute(r, attrs[0].key, attrs[0].value), attrs[1..])
  }

  function AddEachMessage(r: Response, msgs: seq<Cw.CosmosMsg>): Response
    decreases |msgs|
  {
    if msgs == [] then r else AddEachMessage(AddMessage(r, msgs[0]), msgs[1..])
  }

  function AddEachSubmessage(r: Response, msgs: seq<Cw.SubMsg>): Response
    decreases |msgs|
  {
    if msgs == [] then r else AddEachSubmessage(AddSubmessage(r, msgs[0]), msgs[1..])
  }

  function AddEachEvent(r: Response, events: seq<Cw.Event>): Response
    decreases |events|
  {
    if events == [] then r else AddEachEvent(AddEvent(r, events[0]), events[1..])
  }

  /** Adding attributes in bulk is adding them one at a time, in order. */
  lemma {:induction false} AddAttributesIsRepeatedAddAttribute(r: Response, attrs: seq<Cw.Attribute>)
    ensures AddAttributes(r, attrs) == AddEachAttribute(r, attrs)
    decreases |attrs|
  {
    if attrs != [] {
      var r1 := AddAttribute(r, attrs[0].key, attrs[0].value);
      AddAttributesIsRepeatedAddAttribute(r1, attrs[1..]);
      assert r1.response.attributes + attrs[1..] == r.response.attributes + attrs;
    }
  }

  /** Adding messages in bulk is adding them one at a time, in order. */
  lemma {:induction false} AddMessagesIsRepeatedAddMessage(r: Response, msgs: seq<Cw.CosmosMsg>)
    ensures AddMessages(r, msgs) == AddEachMessage(r, msgs)
    decreases |msgs|
  {
    if msgs != [] {
      var r1 := AddMessage(r, msgs[0]);
      AddMessagesIsRepeatedAddMessage(r1, msgs[1..]);
      assert WrapAll(msgs) == [Cw.NewSubMsg(msgs[0])] + WrapAll(msgs[1..]);
      assert r1.response.messages + WrapAll(msgs[1..]) == r.response.messages + WrapAll(msgs);
    }
  }

  /** Adding submessages in bulk is adding them one at a time, in order. */
  lemma {:induction false} AddSubmessagesIsRepeatedAddSubmessage(r: Response, msgs: seq<Cw.SubMsg>)
    ensures AddSubmessages(r, msgs) == AddEachSubmessage(r, msgs)
    decreases |msgs|
  {
    if msgs != [] {
      var r1 := AddSubmessage(r, msgs[0]);
      AddSubmessagesIsRepeatedAddSubmessage(r1, msgs[1..]);
      assert r1.response.messages + msgs[1..] == r.response.messages + msgs;
    }
  }

  /** Adding events in bulk is adding them one at a time, in order. */
  lemma {:induction false} AddEventsIsRepeatedAddEvent(r: Response, events: seq<Cw.Event>)
    ensures AddEvents(r, events) == AddEachEvent(r, events)
    decreases |events|
  {
    if events != [] {
      var r1 := AddEvent(r, events[0]);
      AddEventsIsRepeatedAddEvent(r1, events[1..]);
      assert r1.response.events + events[1..] == r.response.events + events;
    }
  }

  /** add_attributes on an absent optional attribute adds nothing; on a present one it adds it. */
  lemma AddOptionalAttribute(r: Response, o: Option<Cw.Attribute>)
    ensures o.None? ==> AddAttributes(r, OptionalItems(o)) == r
    ensures o.Some? ==> AddAttributes(r, OptionalItems(o)) == AddAttribute(r, o.value.key, o.value.value)
  {
    if o.None? {
      assert r.response.attributes + [] == r.response.attributes;
    }
  }

  // ---------------------------------------------------------------------------
  // From<Response> for cosmwasm_std::Response<Binary>.

  /**
   * The conversion: Null data becomes no data, any other data its
   * serialisation; the three side-effect sequences carry over; whatever data
   * the inner cosmwasm response held is dropped.
   */
  function IntoCw(r: Response, serde: Serde): (c: Cw.Response)
    ensures c.data.None? <==> r.data.Null?
    ensures !r.data.Null? ==> c.data == Some(serde.toVec(r.data))
    ensures c.messages == r.response.messages
    ensures c.attributes == r.response.attributes
    ensures c.events == r.response.events
  {
    var data := match r.data
      case Null => None
      case _ => Some(serde.toVec(r.data));
    Cw.NewResponse().(data := data, messages := r.response.messages,
                      attributes := r.response.attributes, events := r.response.events)
  }

  /** Building then converting is converting then appending: every builder commutes with IntoCw. */
  lemma IntoCwCommutesWithBuilders(r: Response, serde: Serde, key: string, value: string,
                                   msg: Cw.CosmosMsg, sub: Cw.SubMsg, event: Cw.Event,
                                   attrs: seq<Cw.Attribute>, msgs: seq<Cw.CosmosMsg>,
                                   subs: seq<Cw.SubMsg>, events: seq<Cw.Event>)
    ensures var c := IntoCw(r, serde);
      && IntoCw(AddAttribute(r, key, value), serde) == c.(attributes := c.attributes + [Cw.Attribute(key, value)])
      && IntoCw(AddMessage(r, msg), serde) == c.(messages := c.messages + [Cw.NewSubMsg(msg)])
      && IntoCw(AddSubmessage(r, sub), serde) == c.(messages := c.messages + [sub])
      && IntoCw(AddEvent(r, event), serde) == c.(events := c.events + [event])
      && IntoCw(AddAttributes(r, attrs), serde) == c.(attributes := c.attributes + attrs)
      && IntoCw(AddMessages(r, msgs), serde) == c.(messages := c.messages + WrapAll(msgs))
      && IntoCw(AddSubmessages(r, subs), serde) == c.(messages := c.messages + subs)
      && IntoCw(AddEvents(r, events), serde) == c.(events := c.events + events)
  {
  }

  /** The converted data depends only on the crate-level data value. */
  lemma IntoCwIgnoresInnerData(r: Response, serde: Serde, inner: Option<Cw.Binary>)
    ensures IntoCw(r.(response := r.response.(data := inner)), serde) == IntoCw(r, serde)
  {
  }

  // ---------------------------------------------------------------------------
  // Aggregation, as values: the specification of the Aggregator class below.

  /**
   * The state of an Aggregator: the combined response and the per-module
   * data map, held as its entries in insertion order.
   */
  datatype Accumulated = Accumulated(resp: Cw.Response, data: seq<(string, Value)>)

  /** Aggregator::new(). */
  function Initial(): (acc: Accumulated)
    ensures acc.resp.events == [] && acc.resp.attributes == [] && acc.resp.messages == []
    ensures acc.resp.data == None && Names(acc.data) == {}
  {
    Accumulated(Cw.NewResponse(), [])
  }

  /**
   * fold_response on values: the old sequences stay a prefix and the
   * module's own follow them; the module's data is stored under its name by
   * Map::insert (Insert); the serialised data is left alone.
   */
  function Folded(acc: Accumulated, name: string, r: Response): (acc': Accumulated)
    ensures |acc'.resp.events| == |acc.resp.events| + |r.response.events|
    ensures |acc'.resp.attributes| == |acc.resp.attributes| + |r.response.attributes|
    ensures |acc'.resp.messages| == |acc.resp.messages| + |r.response.messages|
    ensures acc'.resp.events[..|acc.resp.events|] == acc.resp.events
    ensures acc'.resp.events[|acc.resp.events|..] == r.response.events
    ensures acc'.resp.attributes[..|acc.resp.attributes|] == acc.resp.attributes
    ensures acc'.resp.attributes[|acc.resp.attributes|..] == r.response.attributes
    ensures acc'.resp.messages[..|acc.resp.messages|] == acc.resp.messages
    ensures acc'.resp.messages[|acc.resp.messages|..] == r.response.messages
    ensures acc'.resp.data == acc.resp.data
    ensures acc'.data == Insert(acc.data, name, r.data)
  {
    Accumulated(
      acc.resp.(events := acc.resp.events + r.response.events,
                attributes := acc.resp.attributes + r.response.attributes,
                messages := acc.resp.messages + r.response.messages),
      Insert(acc.data, name, r.data))
  }

  /**
   * The state after folding every (name, response) pair, in order, into a
   * new Aggregator: nothing is serialised yet and the map never holds a key twice.
   */
  function FoldAll(rs: seq<(string, Response)>): (acc: Accumulated)
    ensures acc.resp.data == None
    ensures UniqueKeys(acc.data)
    ensures |acc.data| <= |rs|
  {
    if rs == [] then Initial()
    else
      var prev, last := FoldAll(rs[..|rs| - 1]), rs[|rs| - 1];
      InsertUnique(prev.data, last.0, last.1.data);
      Folded(prev, last.0, last.1)
  }

  lemma FoldAllSnoc(rs: seq<(string, Response)>, x: (string, Response))
    ensures FoldAll(rs + [x]) == Folded(FoldAll(rs), x.0, x.1)
  {
    assert (rs + [x])[..|rs|] == rs;
  }

  /**
   * aggregate on values: the data map is serialised into the response only
   * when non-empty; the map and the side-effect sequences stay as they were.
   */
  function Aggregated(acc: Accumulated, serde: Serde): (out: Accumulated)
    ensures out.data == acc.data
    ensures out.resp.(data := acc.resp.data) == acc.resp
    ensures acc.data != [] ==> out.resp.data == Some(serde.mapToVec(acc.data))
    ensures acc.data == [] ==> out.resp.data == acc.resp.data
  {
    if acc.data != [] then acc.(resp := acc.resp.(data := Some(serde.mapToVec(acc.data)))) else acc
  }

  /** The concatenation, front to back, of one field of every response. */
  function Collect<T>(rs: seq<(string, Response)>, field: Response -> seq<T>): seq<T>
  {
    if rs == [] then [] else field(rs[0].1) + Collect(rs[1..], field)
  }

  function EventsOf(r: Response): seq<Cw.Event> { r.response.events }

  function AttributesOf(r: Response): seq<Cw.Attribute> { r.response.attributes }

  function MessagesOf(r: Response): seq<Cw.SubMsg> { r.response.messages }

  lemma {:induction false} CollectSnoc<T>(rs: seq<(string, Response)>, x: (string, Response), field: Response -> seq<T>)
    ensures Collect(rs + [x], field) == Collect(rs, field) + field(x.1)
    decreases |rs|
  {
    if rs == [] {
      assert rs + [x] == [x];
    } else {
      assert (rs + [x])[1..] == rs[1..] + [x];
      CollectSnoc(rs[1..], x, field);
    }
  }

  /**
   * Folding a sequence of responses into a new Aggregator concatenates their
   * events, attributes and messages in order, with no serialised data yet.
   */
  lemma {:induction false} FoldAllConcatenates(rs: seq<(string, Response)>)
    ensures FoldAll(rs).resp.events == Collect(rs, EventsOf)
    ensures FoldAll(rs).resp.attributes == Collect(rs, AttributesOf)
    ensures FoldAll(rs).resp.messages == Collect(rs, MessagesOf)
    decreases |rs|
  {
    if rs != [] {
      var init, last := rs[..|rs| - 1], rs[|rs| - 1];
      assert rs == init + [last];
      FoldAllConcatenates(init);
      CollectSnoc(init, last, EventsOf);
      CollectSnoc(init, last, AttributesOf);
      CollectSnoc(init, last, MessagesOf);
    }
  }

  /** The data map of the fold has an entry for exactly the names folded. */
  lemma {:induction false} FoldAllKeys(rs: seq<(string, Response)>)
    ensures Names(FoldAll(rs).data) == Names(rs)
    decreases |rs|
  {
    if rs != [] {
      var init, last := rs[..|rs| - 1], rs[|rs| - 1];
      var prev := FoldAll(init);
      FoldAllKeys(init);
      assert FoldAll(rs) == Folded(prev, last.0, last.1);
      InsertNames(prev.data, last.0, last.1.data);
      assert rs == init + [last];
      NamesSnoc(init, last);
    }
  }

  /**
   * With distinct names, the data map lists each module's name and own data
   * (Null included) in fold order, which is the order `preserve_order`
   * serialises it in.
   */
  lemma {:induction false} FoldAllData(rs: seq<(string, Response)>)
    requires forall i, j :: 0 <= i < j < |rs| ==> rs[i].0 != rs[j].0
    ensures |FoldAll(rs).data| == |rs|
    ensures forall i :: 0 <= i < |rs| ==> FoldAll(rs).data[i] == (rs[i].0, rs[i].1.data)
    decreases |rs|
  {
    if rs != [] {
      var init, last := rs[..|rs| - 1], rs[|rs| - 1];
      assert forall i :: 0 <= i < |init| ==> init[i] == rs[i];
      FoldAllData(init);
      assert forall i :: 0 <= i < |init| ==> init[i].0 != last.0;
      InsertNewName(FoldAll(init).data, init, last);
      assert rs == init + [last];
    }
  }

  /** One more fold under a new name appends its entry to a map that lists the earlier folds. */
  lemma InsertNewName(data: seq<(string, Value)>, init: seq<(string, Response)>, last: (string, Response))
    requires |data| == |init|
    requires forall i :: 0 <= i < |init| ==> data[i] == (init[i].0, init[i].1.data)
    requires forall i :: 0 <= i < |init| ==> init[i].0 != last.0
    ensures var d, rs := Insert(data, last.0, last.1.data), init + [last];
      |d| == |rs| && forall i :: 0 <= i < |rs| ==> d[i] == (rs[i].0, rs[i].1.data)
  {
    var d, rs := Insert(data, last.0, last.1.data), init + [last];
    assert d == data + [(last.0, last.1.data)];
    forall i | 0 <= i < |rs| ensures d[i] == (rs[i].0, rs[i].1.data) {
      if i < |init| { assert d[i] == data[i] && rs[i] == init[i]; }
    }
  }

  /**
   * After folding, aggregate attaches serialised data exactly when something
   * was folded (even if every module's data was Null), and otherwise leaves
   * the data absent; the side-effect sequences and the map are untouched.
   */
  lemma AggregatedAfterFolds(rs: seq<(string, Response)>, serde: Serde)
    ensures var acc := FoldAll(rs); var out := Aggregated(acc, serde);
      && (out.resp.data.Some? <==> rs != [])
      && (rs != [] ==> out.resp.data == Some(serde.mapToVec(acc.data)))
      && out.resp.(data := None) == acc.resp
      && out.data == acc.data
  {
    FoldAllConcatenates(rs);
    FoldAllKeys(rs);
    if rs != [] {
      assert rs[0].0 in Names(rs);
    }
  }

  /** Calling aggregate a second time changes nothing and returns the same response. */
  lemma AggregatedIdempotent(acc: Accumulated, serde: Serde)
    ensures Aggregated(Aggregated(acc, serde), serde) == Aggregated(acc, serde)
  {
  }

  // ---------------------------------------------------------------------------
  // The Aggregator object, whose methods update its fields in place.

  class Aggregator {
    var resp: Cw.Response
    var data: seq<(string, Value)>

    function State(): Accumulated
      reads this
    {
      Accumulated(resp, data)
    }

    /** Aggregator::new(). */
    constructor ()
      ensures State() == Initial()
    {
      resp := Cw.NewResponse();
      data := [];
    }

    /** Records the module's data under its name and appends its side effects. */
    method FoldResponse(name: string, r: Response)
      modifies this
      ensures State() == Folded(old(State()), name, r)
      ensures resp.events == old(resp.events) + r.response.events
      ensures resp.attributes == old(resp.attributes) + r.response.attributes
      ensures resp.messages == old(resp.messages) + r.response.messages
      ensures resp.data == old(resp.data)
      ensures data == Insert(old(data), name, r.data)
    {
      data := Insert(data, name, r.data);
      resp := resp.(events := resp.events + r.response.events);
      resp := resp.(attributes := resp.attributes + r.response.attributes);
      resp := resp.(messages := resp.messages + r.response.messages);
    }

    /** Serialises the data map into the response when it is non-empty and returns a copy. */
    method Aggregate(serde: Serde) returns (out: Cw.Response)
      modifies this
      ensures State() == Aggregated(old(State()), serde)
      ensures data == old(data)
      ensures resp == (if old(data) != [] then old(resp).(data := Some(serde.mapToVec(old(data)))) else old(resp))
      ensures out == resp
    {
      if data != [] {
        var bytes := serde.mapToVec(data);
        resp := resp.(data := Some(bytes));
      }
      out := resp;
    }
  }
}
