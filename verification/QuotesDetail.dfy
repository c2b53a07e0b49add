/** Five-level quotes: a base price, and every other price relative to it. Raw integers,
    before any scaling; the amount is a raw 32-bit word. */
module QuotesDetail {
  import opened Bytes
  import opened Codec
  import opened RecordStream

  const HEAD_BYTES := 9
  const CODE_BYTES := 6
  const TAIL_BYTES := 10
  const LEVELS := 5

  datatype Level = Level(bid: int, ask: int, bidVolume: int, askVolume: int)

  datatype Quote = Quote(code: seq<Byte>, serverTime: int, price: int, preClose: int, open: int,
                         high: int, low: int, volume: int, amount: nat, levels: seq<Level>)

  // ---------- what the parser computes ----------

  /** The cursor's stations in a record at `pos`: the nine leading fields, the amount word,
      four more fields, the twenty level fields. */
  function Head(data: seq<Byte>, pos: nat): Fields { DecodeAll(data, pos + HEAD_BYTES, 9) }

  function Middle(data: seq<Byte>, pos: nat): Fields { DecodeAll(data, Head(data, pos).next + 4, 4) }

  function Depth(data: seq<Byte>, pos: nat): Fields { DecodeAll(data, Middle(data, pos).next, 4 * LEVELS) }

  predicate Stops(data: seq<Byte>, pos: nat) {
    || pos + HEAD_BYTES > |data|
    || Head(data, pos).next + 4 > |data|
    || Depth(data, pos).next + TAIL_BYTES > |data|
  }

  function LevelAt(base: int, vs: seq<int>, j: nat): Level
    requires 4 * j + 4 <= |vs|
  {
    Level(base + vs[4 * j], base + vs[4 * j + 1], vs[4 * j + 2], vs[4 * j + 3])
  }

  function LevelsOf(base: int, vs: seq<int>, n: nat): (r: seq<Level>)
    requires 4 * n <= |vs|
    ensures |r| == n && forall j :: 0 <= j < n ==> r[j] == LevelAt(base, vs, j)
  {
    seq(n, j requires 0 <= j < n => LevelAt(base, vs, j))
  }

  function Assemble(code: seq<Byte>, head: seq<int>, amount: nat, depth: seq<int>): Quote
    requires |head| == 9 && |depth| == 4 * LEVELS
  {
    var base := head[0];
    Quote(code, head[5], base, base + head[1], base + head[2], base + head[3], base + head[4],
          head[7], amount, LevelsOf(base, depth, LEVELS))
  }

  function QuoteAt(data: seq<Byte>, pos: nat): Quote
    requires !Stops(data, pos)
  {
    Assemble(data[pos + 1..pos + 1 + CODE_BYTES], Head(data, pos).values,
             Read32(data, Head(data, pos).next), Depth(data, pos).values)
  }

  function QuotesFrom(data: seq<Byte>, pos: nat, n: nat): seq<Quote>
    decreases n
  {
    if n == 0 || Stops(data, pos) then []
    else [QuoteAt(data, pos)] + QuotesFrom(data, Depth(data, pos).next + TAIL_BYTES, n - 1)
  }

  function ParsedQuotes(data: seq<Byte>): seq<Quote> {
    if |data| < 4 then [] else QuotesFrom(data, 4, Read16(data, 2))
  }

  // ---------- the parser ----------

  /** Consecutive `GetPrice` calls. */
  method ReadFields(data: seq<Byte>, start: nat, n: nat) returns (vs: seq<int>, next: nat)
    ensures Fields(vs, next) == DecodeAll(data, start, n)
  {
    hide Decode;
    vs, next := [], start;
    for i := 0 to n
      invariant Fields(vs, next) == DecodeAll(data, start, i)
    {
      var v;
      v, next := GetPrice(data, next);
      vs := vs + [v];
    }
  }

  lemma {:induction false} DecodeAllPrefix(data: seq<Byte>, at: nat, m: nat, n: nat)
    requires m <= n
    ensures DecodeAll(data, at, m).values == DecodeAll(data, at, n).values[..m]
    decreases n
  {
    hide Decode;
    if m < n {
      DecodeAllPrefix(data, at, m, n - 1);
    }
  }

  method ReadLevels(data: seq<Byte>, start: nat, base: int) returns (levels: seq<Level>, next: nat)
    ensures DecodeAll(data, start, 4 * LEVELS).next == next
    ensures levels == LevelsOf(base, DecodeAll(data, start, 4 * LEVELS).values, LEVELS)
  {
    hide Decode, DecodeAll, LevelsOf;
    levels, next := [], start;
    assert DecodeAll(data, start, 0).next == start by { FieldsUnfold(data, start, 0); }
    for j := 0 to LEVELS
      invariant DecodeAll(data, start, 4 * j).next == next
      invariant levels == LevelsOf(base, DecodeAll(data, start, 4 * j).values, j)
    {
      ghost var k := 4 * j;
      var bid, ask, bidVol, askVol;
      FieldsUnfold(data, start, k);
      bid, next := GetPrice(data, next);
      FieldsUnfold(data, start, k + 1);
      ask, next := GetPrice(data, next);
      FieldsUnfold(data, start, k + 2);
      bidVol, next := GetPrice(data, next);
      FieldsUnfold(data, start, k + 3);
      askVol, next := GetPrice(data, next);
      LevelsGrow(data, start, base, j);
      levels := levels + [Level(base + bid, base + ask, bidVol, askVol)];
    }
  }

  lemma FieldsUnfold(data: seq<Byte>, at: nat, n: nat)
    ensures n == 0 ==> DecodeAll(data, at, n) == Fields([], at)
    ensures var f := DecodeAll(data, at, n);
            var p := Decode(data, f.next);
            DecodeAll(data, at, n + 1) == Fields(f.values + [p.value], p.next)
  {
  }

  lemma LevelsGrow(data: seq<Byte>, at: nat, base: int, j: nat)
    ensures LevelsOf(base, DecodeAll(data, at, 4 * (j + 1)).values, j + 1)
              == LevelsOf(base, DecodeAll(data, at, 4 * j).values, j)
                 + [LevelAt(base, DecodeAll(data, at, 4 * (j + 1)).values, j)]
  {
    hide Decode, DecodeAll;
    DecodeAllPrefix(data, at, 4 * j, 4 * (j + 1));
    forall i: nat | i < j
      ensures LevelAt(base, DecodeAll(data, at, 4 * (j + 1)).values, i)
                == LevelAt(base, DecodeAll(data, at, 4 * j).values, i)
    {
      assert 4 * i + 3 < 4 * j;
    }
  }

  method ReadQuote(data: seq<Byte>, start: nat) returns (ok: bool, q: Quote, next: nat)
    ensures ok <==> !Stops(data, start)
    ensures ok ==> q == QuoteAt(data, start) && next == Depth(data, start).next + TAIL_BYTES
  {
    hide DecodeAll, LevelsOf, Read32;
    ok, q, next := false, Quote([], 0, 0, 0, 0, 0, 0, 0, 0, []), start;
    if next + HEAD_BYTES > |data| {
      return;
    }
    var code := data[next + 1..next + 1 + CODE_BYTES];
    next := next + HEAD_BYTES;
    var head;
    head, next := ReadFields(data, next, 9);
    if next + 4 > |data| {
      return;
    }
    var amount := Read32(data, next);
    next := next + 4;
    var unused;
    unused, next := ReadFields(data, next, 4);
    var base := head[0];
    var levels;
    levels, next := ReadLevels(data, next, base);
    if next + TAIL_BYTES > |data| {
      return;
    }
    next := next + TAIL_BYTES;
    ok := true;
    q := Quote(code, head[5], base, base + head[1], base + head[2], base + head[3], base + head[4],
               head[7], amount, levels);
  }

  method DeserializeQuotesDetail(data: seq<Byte>) returns (result: seq<Quote>)
    ensures result == ParsedQuotes(data)
  {
    hide Stops, QuoteAt, Depth, Read16;
    result := [];
    if |data| < 4 {
      return;
    }
    var count := Read16(data, 2);
    var pos: nat := 4;
    for i := 0 to count
      invariant result + QuotesFrom(data, pos, count - i) == ParsedQuotes(data)
    {
      var ok, q, next := ReadQuote(data, pos);
      if !ok {
        break;
      }
      pos := next;
      result := result + [q];
    }
  }

  // ---------- round trip ----------

  /** Everything a server sends for one quote, the ignored parts included. */
  datatype Wire = Wire(market: seq<Byte>, active: seq<Byte>, negPrice: int, curVolume: int,
                       middle: seq<int>, tail: seq<Byte>, quote: Quote)

  predicate LevelOk(l: Level) {
    SmallPrice(l.bid) && SmallPrice(l.ask) && Encodable(l.bidVolume) && Encodable(l.askVolume)
  }

  predicate QuoteOk(q: Quote) {
    && |q.code| == CODE_BYTES && Encodable(q.serverTime) && Encodable(q.volume) && q.amount < TWO_32
    && SmallPrice(q.price) && SmallPrice(q.preClose) && SmallPrice(q.open) && SmallPrice(q.high) && SmallPrice(q.low)
    && |q.levels| == LEVELS && forall j :: 0 <= j < LEVELS ==> LevelOk(q.levels[j])
  }

  predicate WireOk(w: Wire) {
    && QuoteOk(w.quote) && |w.market| == 1 && |w.active| == 2 && |w.tail| == TAIL_BYTES
    && Encodable(w.negPrice) && Encodable(w.curVolume)
    && |w.middle| == 4 && forall i :: 0 <= i < 4 ==> Encodable(w.middle[i])
  }

  function HeadFields(w: Wire): (r: seq<int>)
    requires WireOk(w)
    ensures |r| == 9 && forall i :: 0 <= i < 9 ==> Encodable(r[i])
  {
    var q := w.quote;
    [q.price, q.preClose - q.price, q.open - q.price, q.high - q.price, q.low - q.price,
     q.serverTime, w.negPrice, q.volume, w.curVolume]
  }

  function LevelField(q: Quote, i: nat): (r: int)
    requires QuoteOk(q) && i < 4 * LEVELS
    ensures Encodable(r)
  {
    var l := q.levels[i / 4];
    assert LevelOk(l);
    match i % 4
    case 0 => l.bid - q.price
    case 1 => l.ask - q.price
    case 2 => l.bidVolume
    case _ => l.askVolume
  }

  function DepthFields(q: Quote): (r: seq<int>)
    requires QuoteOk(q)
    ensures |r| == 4 * LEVELS && forall i :: 0 <= i < |r| ==> Encodable(r[i])
  {
    seq(4 * LEVELS, i requires 0 <= i < 4 * LEVELS => LevelField(q, i))
  }

  function PrintQuote(w: Wire): seq<Byte>
    requires WireOk(w)
  {
    (w.market + w.quote.code + w.active)
    + (EncodeAll(HeadFields(w))
       + (Print32(w.quote.amount)
          + (EncodeAll(w.middle)
             + (EncodeAll(DepthFields(w.quote)) + w.tail))))
  }

  function PrintQuotes(ws: seq<Wire>): seq<Byte>
    requires forall i :: 0 <= i < |ws| ==> WireOk(ws[i])
  {
    if ws == [] then [] else PrintQuote(ws[0]) + PrintQuotes(ws[1..])
  }

  lemma LevelsRestored(q: Quote)
    requires QuoteOk(q)
    ensures LevelsOf(q.price, DepthFields(q), LEVELS) == q.levels
  {
    forall j: nat | j < LEVELS ensures LevelAt(q.price, DepthFields(q), j) == q.levels[j] {
      FourFields(q, j);
    }
  }

  lemma FourFields(q: Quote, j: nat)
    requires QuoteOk(q) && j < LEVELS
    ensures LevelAt(q.price, DepthFields(q), j) == q.levels[j]
  {
    assert (4 * j) / 4 == (4 * j + 1) / 4 == (4 * j + 2) / 4 == (4 * j + 3) / 4 == j;
    assert (4 * j) % 4 == 0 && (4 * j + 1) % 4 == 1 && (4 * j + 2) % 4 == 2 && (4 * j + 3) % 4 == 3;
  }

  lemma CodeRestored(data: seq<Byte>, pos: nat, w: Wire)
    requires WireOk(w) && At(data, pos, w.market + w.quote.code + w.active)
    ensures pos + HEAD_BYTES <= |data| && data[pos + 1..pos + 1 + CODE_BYTES] == w.quote.code
  {
    AtSplit(data, pos, w.market + w.quote.code, w.active);
    AtSplit(data, pos, w.market, w.quote.code);
  }

  lemma OneQuote(data: seq<Byte>, pos: nat, w: Wire)
    requires WireOk(w) && At(data, pos, PrintQuote(w))
    ensures !Stops(data, pos) && QuoteAt(data, pos) == w.quote
    ensures Depth(data, pos).next + TAIL_BYTES == pos + |PrintQuote(w)|
  {
    hide Decode, DecodeAll, EncodeAll, HeadFields, DepthFields, LevelsOf, Read32, Print32, At;
    var head := EncodeAll(HeadFields(w));
    var amount := Print32(w.quote.amount);
    var middle := EncodeAll(w.middle);
    var depth := EncodeAll(DepthFields(w.quote));
    var start := w.market + w.quote.code + w.active;
    StationsOf(data, pos, w, start, head, amount, middle, depth);
    AssembleRestores(w);
  }

  lemma StationsOf(data: seq<Byte>, pos: nat, w: Wire, start: seq<Byte>, head: seq<Byte>, amount: seq<Byte>,
                   middle: seq<Byte>, depth: seq<Byte>)
    requires WireOk(w) && start == w.market + w.quote.code + w.active
    requires head == EncodeAll(HeadFields(w)) && amount == Print32(w.quote.amount)
    requires middle == EncodeAll(w.middle) && depth == EncodeAll(DepthFields(w.quote))
    requires At(data, pos, start + (head + (amount + (middle + (depth + w.tail)))))
    ensures pos + HEAD_BYTES <= |data| && data[pos + 1..pos + 1 + CODE_BYTES] == w.quote.code
    ensures Head(data, pos) == Fields(HeadFields(w), pos + 9 + |head|)
    ensures pos + 9 + |head| + 4 <= |data| && Read32(data, pos + 9 + |head|) == w.quote.amount
    ensures Depth(data, pos) == Fields(DepthFields(w.quote), pos + 9 + |head| + 4 + |middle| + |depth|)
    ensures pos + 9 + |head| + 4 + |middle| + |depth| + TAIL_BYTES <= |data|
  {
    hide Decode, DecodeAll, EncodeAll, HeadFields, DepthFields, Read32, Print32, Encodable;
    AtSplit(data, pos, start, head + (amount + (middle + (depth + w.tail))));
    AtSplit(data, pos + 9, head, amount + (middle + (depth + w.tail)));
    var p := pos + 9 + |head|;
    AtSplit(data, p, amount, middle + (depth + w.tail));
    AtSplit(data, p + 4, middle, depth + w.tail);
    AtSplit(data, p + 4 + |middle|, depth, w.tail);
    CodeRestored(data, pos, w);
    DecodeAllEncodeAll(data, pos + 9, HeadFields(w));
    Read32Print32(data, p, w.quote.amount);
    DecodeAllEncodeAll(data, p + 4, w.middle);
    DecodeAllEncodeAll(data, p + 4 + |middle|, DepthFields(w.quote));
  }

  lemma AssembleRestores(w: Wire)
    requires WireOk(w)
    ensures Assemble(w.quote.code, HeadFields(w), w.quote.amount, DepthFields(w.quote)) == w.quote
  {
    LevelsRestored(w.quote);
  }

  lemma {:induction false} ManyQuotes(data: seq<Byte>, pos: nat, ws: seq<Wire>)
    requires (forall i :: 0 <= i < |ws| ==> WireOk(ws[i])) && At(data, pos, PrintQuotes(ws))
    ensures |QuotesFrom(data, pos, |ws|)| == |ws|
    ensures forall i :: 0 <= i < |ws| ==> QuotesFrom(data, pos, |ws|)[i] == ws[i].quote
    decreases ws
  {
    hide Stops, QuoteAt, Depth, PrintQuote, WireOk;
    if ws != [] {
      AtSplit(data, pos, PrintQuote(ws[0]), PrintQuotes(ws[1..]));
      OneQuote(data, pos, ws[0]);
      ManyQuotes(data, pos + |PrintQuote(ws[0])|, ws[1..]);
    }
  }

  /** A message of any number of quotes is parsed back, each price restored from the base,
      whatever follows the message. */
  lemma QuotesRoundTrip(header: seq<Byte>, ws: seq<Wire>, rest: seq<Byte>)
    requires |header| == 2 && |ws| < TWO_16 && forall i :: 0 <= i < |ws| ==> WireOk(ws[i])
    ensures var parsed := ParsedQuotes(header + Print16(|ws|) + PrintQuotes(ws) + rest);
            |parsed| == |ws| && forall i :: 0 <= i < |ws| ==> parsed[i] == ws[i].quote && |parsed[i].levels| == 5
  {
    hide QuotesFrom, PrintQuotes, Print16, Read16, WireOk;
    var m := header + Print16(|ws|) + PrintQuotes(ws) + rest;
    assert m[0..|m|] == m == header + (Print16(|ws|) + (PrintQuotes(ws) + rest));
    AtSplit(m, 0, header, Print16(|ws|) + (PrintQuotes(ws) + rest));
    AtSplit(m, 2, Print16(|ws|), PrintQuotes(ws) + rest);
    AtSplit(m, 4, PrintQuotes(ws), rest);
    Read16Print16(m, 2, |ws|);
    ManyQuotes(m, 4, ws);
    forall i | 0 <= i < |ws| ensures |ws[i].quote.levels| == 5 {
      FiveLevels(ws[i]);
    }
  }

  lemma FiveLevels(w: Wire)
    requires WireOk(w)
    ensures |w.quote.levels| == 5
  {
  }
}
