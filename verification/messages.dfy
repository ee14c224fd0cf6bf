/** Messages (include/common.h): what `createMsg` builds and what `valid` accepts. */
module Messages {
  import opened Bits
  import opened Options

  datatype Type = NoType | OrderBookType | OrderType | TradeType | AccountType | PositionType

  datatype Source = NoSource | RestApi | WebSocket

  /** `u` is the number that the `U` field of the parsed text converts to, and `None` when
      the text has no such field or it is not a number, so that the conversion throws. */
  datatype OrderBook = OrderBook(symbol: string, text: string, u: Option<uint64>)

  datatype Msg = Msg(typ: Type, source: Source, data: Option<OrderBook>)

  /** The `U` field of a text; JSON parsing itself is not modelled. */
  type Parser = string -> Option<uint64>

  function CreateMsg(parse: Parser, source: Source, typ: Type, symbol: string, text: string): Msg {
    Msg(typ, source, if typ == OrderBookType then Some(OrderBook(symbol, text, parse(text))) else None)
  }

  predicate Valid(m: Msg) {
    m.typ != NoType && m.source != NoSource && m.data.Some?
  }

  /** What the rest of the pipeline relies on: every cast succeeds and every branch is known. */
  predicate WellFormed(m: Msg) {
    m.typ == OrderBookType && (m.source == RestApi || m.source == WebSocket) && m.data.Some?
  }

  /** A created message keeps its type and source, has data exactly when it is an order book,
      and is then valid exactly when it has a source. A valid created message is well formed. */
  lemma CreatedMessages(parse: Parser, source: Source, typ: Type, symbol: string, text: string)
    ensures var m := CreateMsg(parse, source, typ, symbol, text);
      && m.typ == typ && m.source == source
      && (m.data.Some? <==> typ == OrderBookType)
      && (Valid(m) <==> typ == OrderBookType && source != NoSource)
      && (Valid(m) <==> WellFormed(m))
      && (Valid(m) ==> m.data.value == OrderBook(symbol, text, parse(text)))
  {
  }
}
