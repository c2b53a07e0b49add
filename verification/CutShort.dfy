/** Messages that end too early: what is left of a printed value or record is never taken for a
    whole one. */
module CutShort {
  import opened Bytes
  import opened Codec
  import opened RecordStream

  /** From `pos` on, `data` holds a beginning of `part`, perhaps all of it, and nothing else. */
  ghost predicate Begins(data: seq<Byte>, pos: nat, part: seq<Byte>) {
    pos <= |data| && |data| - pos <= |part| && data[pos..] == part[..|data| - pos]
  }

  /** What is left fits `a` and goes on with `b`, or ends within `a`. */
  lemma BeginsSplit(data: seq<Byte>, pos: nat, a: seq<Byte>, b: seq<Byte>)
    requires Begins(data, pos, a + b)
    ensures if |data| - pos < |a| then Begins(data, pos, a) else At(data, pos, a) && Begins(data, pos + |a|, b)
  {
    var n := |data| - pos;
    if n < |a| {
      assert (a + b)[..n] == a[..n];
    } else {
      assert (a + b)[..n] == a + b[..n - |a|];
      assert data[pos..pos + |a|] == data[pos..][..|a|] == a;
      assert data[pos + |a|..] == data[pos..][|a|..] == b[..n - |a|];
    }
  }

  // ---------- values ----------

  /** Groups without their last one: every byte asks for another. */
  lemma {:induction false} GroupsAsk(n: nat, i: nat)
    requires i < |Groups(n)| - 1
    ensures Groups(n)[i] >= 128
  {
    if i > 0 {
      GroupsAsk(n / 128, i - 1);
    }
  }

  function Cap(k: nat): nat { if k == 0 then 1 else 128 * Cap(k - 1) }

  lemma {:induction false} FewGroupsFit(n: nat, k: nat)
    requires n < Cap(k) && 0 < k
    ensures |Groups(n)| <= k
  {
    if n >= 128 {
      assert k > 1 by {
        assert Cap(0) == 1 && Cap(1) == 128;
      }
      FewGroupsFit(n / 128, k - 1);
    }
  }

  lemma EightGroups(m: nat)
    requires m < TWO_62
    ensures |Groups(m / 64)| <= 8
  {
    assert Cap(4) == 128 * Cap(3) == 128 * 128 * Cap(2) == 128 * 128 * 128 * Cap(1) && Cap(1) == 128 * Cap(0);
    assert Cap(8) == 128 * Cap(7) == 128 * 128 * Cap(6) == 128 * 128 * 128 * Cap(5) && Cap(5) == 128 * Cap(4);
    assert Cap(8) == 0x100_0000_0000_0000;
    FewGroupsFit(m / 64, 8);
  }

  lemma {:induction false} AskingIsTruncated(data: seq<Byte>, pos: nat, nb: nat)
    requires pos <= |data| && nb + (|data| - pos) < MAX_CONTINUATIONS
    requires forall j :: pos <= j < |data| ==> data[j] >= 128
    ensures Truncated(data, pos, nb)
    decreases |data| - pos
  {
    if pos < |data| {
      AskingIsTruncated(data, pos + 1, nb + 1);
    }
  }

  /** A value cut short takes the cursor past the end. */
  lemma CutValue(data: seq<Byte>, pos: nat, v: int)
    requires Encodable(v) && Begins(data, pos, Encode(v)) && |data| - pos < |Encode(v)|
    ensures Decode(data, pos).next > |data|
  {
    hide Decode, Groups, Truncated;
    CursorAdvances(data, pos);
    if pos < |data| {
      var m := Magnitude(v);
      var groups := Groups(m / 64);
      var sign := if v < 0 then 64 else 0;
      EightGroups(m);
      assert Encode(v) == [128 + sign + m % 64] + groups;
      assert data[pos] == data[pos..][0] == 128 + sign + m % 64;
      forall j | pos + 1 <= j < |data| ensures data[j] >= 128 {
        assert data[j] == data[pos..][j - pos] == groups[j - pos - 1];
        GroupsAsk(m / 64, j - pos - 1);
      }
      AskingIsTruncated(data, pos + 1, 0);
    }
  }

  /** And so do fields cut short. */
  lemma {:induction false} CutFields(data: seq<Byte>, pos: nat, vs: seq<int>)
    requires forall i :: 0 <= i < |vs| ==> Encodable(vs[i])
    requires Begins(data, pos, EncodeAll(vs)) && |data| - pos < |EncodeAll(vs)|
    ensures DecodeAll(data, pos, |vs|).next > |data|
  {
    hide Decode, Encode, DecodeAll, EncodeAll;
    NoFields(data, pos);
    var front, last := vs[..|vs| - 1], vs[|vs| - 1];
    assert vs == front + [last];
    NextField(data, pos, front, last);
    BeginsSplit(data, pos, EncodeAll(front), Encode(last));
    if |data| - pos < |EncodeAll(front)| {
      CutFields(data, pos, front);
      DecodeAllAdvances(data, pos, |front|, |vs|);
    } else {
      DecodeAllEncodeAll(data, pos, front);
      CutValue(data, pos + |EncodeAll(front)|, last);
    }
  }
}

/** Five-level quotes and bitmap rows of a message cut short: exactly the whole ones are returned. */
module CutQuotes {
  import opened Bytes
  import opened Codec
  import opened CutShort
  import opened QuotesDetail
  import opened RecordStream

  /** A record cut anywhere is not read. */
  lemma CutQuoteStops(data: seq<Byte>, pos: nat, w: Wire)
    requires WireOk(w) && Begins(data, pos, PrintQuote(w)) && |data| - pos < |PrintQuote(w)|
    ensures Stops(data, pos)
  {
    hide Decode, DecodeAll, EncodeAll, HeadFields, DepthFields, Print32, Encodable, LevelOk;
    var start, head := w.market + w.quote.code + w.active, EncodeAll(HeadFields(w));
    var amount, middle, depth := Print32(w.quote.amount), EncodeAll(w.middle), EncodeAll(DepthFields(w.quote));
    StartLength(w);
    BeginsSplit(data, pos, start, head + (amount + (middle + (depth + w.tail))));
    if |data| - pos >= 9 {
      CutAfterStart(data, pos, w, head, amount, middle, depth);
    }
  }

  lemma StartLength(w: Wire)
    requires WireOk(w)
    ensures |w.market + w.quote.code + w.active| == 9
  {
  }

  lemma CutAfterStart(data: seq<Byte>, pos: nat, w: Wire, head: seq<Byte>, amount: seq<Byte>, middle: seq<Byte>,
                      depth: seq<Byte>)
    requires WireOk(w) && head == EncodeAll(HeadFields(w)) && amount == Print32(w.quote.amount)
    requires middle == EncodeAll(w.middle) && depth == EncodeAll(DepthFields(w.quote))
    requires Begins(data, pos + 9, head + (amount + (middle + (depth + w.tail))))
    requires |data| - (pos + 9) < |head + (amount + (middle + (depth + w.tail)))|
    ensures Stops(data, pos)
  {
    hide Decode, DecodeAll, EncodeAll, HeadFields, DepthFields, Print32, Encodable, QuoteOk, Begins;
    var p := pos + 9;
    FieldsAreEncodable(w);
    Later(data, pos);
    BeginsSplit(data, p, head, amount + (middle + (depth + w.tail)));
    if |data| - p < |head| {
      CutFields(data, p, HeadFields(w));
    } else {
      DecodeAllEncodeAll(data, p, HeadFields(w));
      var q := p + |head|;
      BeginsSplit(data, q, amount, middle + (depth + w.tail));
      if |data| - q >= 4 {
        BeginsSplit(data, q + 4, middle, depth + w.tail);
        if |data| - (q + 4) < |middle| {
          CutFields(data, q + 4, w.middle);
        } else {
          DecodeAllEncodeAll(data, q + 4, w.middle);
          var r := q + 4 + |middle|;
          BeginsSplit(data, r, depth, w.tail);
          if |data| - r < |depth| {
            CutFields(data, r, DepthFields(w.quote));
          } else {
            DecodeAllEncodeAll(data, r, DepthFields(w.quote));
          }
        }
      }
    }
  }

  lemma FieldsAreEncodable(w: Wire)
    requires WireOk(w)
    ensures |w.middle| == 4 && |w.tail| == TAIL_BYTES
    ensures forall i :: 0 <= i < 9 ==> Encodable(HeadFields(w)[i])
    ensures forall i :: 0 <= i < 4 ==> Encodable(w.middle[i])
    ensures forall i :: 0 <= i < 20 ==> Encodable(DepthFields(w.quote)[i])
  {
    hide HeadFields, DepthFields, Encodable;
  }

  lemma Later(data: seq<Byte>, pos: nat)
    ensures Head(data, pos).next + 4 <= Middle(data, pos).next <= Depth(data, pos).next
  {
    hide Decode;
    DecodeAllAdvances(data, Head(data, pos).next + 4, 0, 4);
    DecodeAllAdvances(data, Middle(data, pos).next, 0, 4 * LEVELS);
  }

  /** How many of the printed quotes fit into `room` bytes. */
  function Whole(ws: seq<Wire>, room: int): nat
    requires forall i :: 0 <= i < |ws| ==> WireOk(ws[i])
  {
    if ws == [] || |PrintQuote(ws[0])| > room then 0 else 1 + Whole(ws[1..], room - |PrintQuote(ws[0])|)
  }

  lemma {:induction false} ManyQuotesCut(data: seq<Byte>, pos: nat, ws: seq<Wire>)
    requires (forall i :: 0 <= i < |ws| ==> WireOk(ws[i])) && Begins(data, pos, PrintQuotes(ws))
    ensures |QuotesFrom(data, pos, |ws|)| == Whole(ws, |data| - pos) <= |ws|
    ensures forall i :: 0 <= i < Whole(ws, |data| - pos) ==> QuotesFrom(data, pos, |ws|)[i] == ws[i].quote
    decreases ws
  {
    hide Stops, QuoteAt, Depth, PrintQuote, WireOk, Begins;
    if ws != [] {
      BeginsSplit(data, pos, PrintQuote(ws[0]), PrintQuotes(ws[1..]));
      if |data| - pos < |PrintQuote(ws[0])| {
        CutQuoteStops(data, pos, ws[0]);
      } else {
        OneQuote(data, pos, ws[0]);
        ManyQuotesCut(data, pos + |PrintQuote(ws[0])|, ws[1..]);
      }
    }
  }

  /** A message of quotes that ends anywhere after its header gives exactly the quotes that have
      arrived whole, in order. */
  lemma QuotesCutShort(header: seq<Byte>, ws: seq<Wire>, data: seq<Byte>)
    requires |header| == 2 && |ws| < TWO_16 && forall i :: 0 <= i < |ws| ==> WireOk(ws[i])
    requires 4 <= |data| && Begins(data, 0, header + Print16(|ws|) + PrintQuotes(ws))
    ensures var k := Whole(ws, |data| - 4);
            && k <= |ws| && |ParsedQuotes(data)| == k
            && forall i :: 0 <= i < k ==> ParsedQuotes(data)[i] == ws[i].quote
  {
    hide QuotesFrom, PrintQuotes, Print16, Read16, WireOk, Begins;
    assert header + Print16(|ws|) + PrintQuotes(ws) == header + (Print16(|ws|) + PrintQuotes(ws));
    BeginsSplit(data, 0, header, Print16(|ws|) + PrintQuotes(ws));
    BeginsSplit(data, 2, Print16(|ws|), PrintQuotes(ws));
    Read16Print16(data, 2, |ws|);
    ManyQuotesCut(data, 4, ws);
  }
}

/** Bitmap-driven rows cut short. */
module CutRows {
  import opened Bitmap
  import opened Bytes
  import opened CutShort

  /** How many rows of a size fit into `room` bytes. */
  function Fit(room: nat, size: nat): (k: nat)
    requires 0 < size
    ensures k * size <= room < (k + 1) * size
  {
    if room < size then 0
    else
      var k := Fit(room - size, size);
      assert (k + 1) * size == k * size + size && (k + 2) * size == (k + 1) * size + size;
      k + 1
  }

  lemma FitStep(room: nat, size: nat)
    requires 0 < size
    ensures Fit(room, size) == if room < size then 0 else Fit(room - size, size) + 1
  {
  }

  lemma RoomEnds(data: seq<Byte>, pos: nat, part: seq<Byte>)
    requires Begins(data, pos, part)
    ensures 0 <= |data| - pos <= |part|
  {
  }

  lemma {:induction false} ManyRowsCut(data: seq<Byte>, pos: nat, bits: seq<nat>, ws: seq<WireRow>)
    requires (forall i :: 0 <= i < |ws| ==> RowOk(ws[i], |bits|)) && Begins(data, pos, PrintRows(ws, |bits|))
    ensures var k := Fit(|data| - pos, 68 + 4 * |bits|);
            && k <= |ws| && |RowsFrom(data, pos, bits, |ws|)| == k
            && forall i :: 0 <= i < k ==> RowsFrom(data, pos, bits, |ws|)[i] == Attached(ws[i], bits)
    decreases ws
  {
    hide RowAt, Attached, PrintRow, Fit, Begins;
    var size := 68 + 4 * |bits|;
    RoomEnds(data, pos, PrintRows(ws, |bits|));
    FitStep(|data| - pos, size);
    if ws != [] {
      BeginsSplit(data, pos, PrintRow(ws[0], |bits|), PrintRows(ws[1..], |bits|));
      if |data| - pos >= size {
        OneRow(data, pos, bits, ws[0]);
        ManyRowsCut(data, pos + size, bits, ws[1..]);
      }
    }
  }

  /** Rows under a bitmap, ended anywhere after the header, give exactly the whole ones. */
  lemma RowsCutShort(fields: seq<int>, total: seq<Byte>, ws: seq<WireRow>, data: seq<Byte>, bits: seq<nat>)
    requires |total| == 4 && |ws| < TWO_16 && 26 <= |data| && bits == ActiveBits(BitmapOf(fields))
    requires forall i :: 0 <= i < |ws| ==> RowOk(ws[i], |bits|)
    requires Begins(data, 0, BitmapOf(fields) + total + Print16(|ws|) + PrintRows(ws, |bits|))
    ensures var k := Fit(|data| - 26, 68 + 4 * |bits|);
            && k <= |ws| && |ParsedRows(data)| == k
            && forall i :: 0 <= i < k ==> ParsedRows(data)[i] == Attached(ws[i], bits)
  {
    hide RowsFrom, PrintRows, ActiveFrom, BitmapOf, Print16, Read16, Attached, RowOk, Begins, Fit;
    HeaderRead(data, BitmapOf(fields), total, |ws|, PrintRows(ws, |bits|));
    ActiveBitsDependOnBitmap(data, BitmapOf(fields), 0);
    ManyRowsCut(data, HEADER, bits, ws);
  }

  lemma HeaderRead(data: seq<Byte>, bm: seq<Byte>, total: seq<Byte>, count: nat, body: seq<Byte>)
    requires |bm| == BITMAP_BYTES && |total| == 4 && count < TWO_16 && 26 <= |data|
    requires Begins(data, 0, bm + total + Print16(count) + body)
    ensures data[..BITMAP_BYTES] == bm[..BITMAP_BYTES] && Read16(data, 24) == count && Begins(data, 26, body)
  {
    hide Print16, Read16, Begins;
    assert bm + total + Print16(count) + body == bm + (total + (Print16(count) + body));
    BeginsSplit(data, 0, bm, total + (Print16(count) + body));
    BeginsSplit(data, 20, total, Print16(count) + body);
    BeginsSplit(data, 24, Print16(count), body);
    Read16Print16(data, 24, count);
  }
}

/** The delta-coded lists cut short. Their last field is not checked: a record is taken as soon as
    the fields before it are there. */
module CutRecords {
  import opened Bytes
  import opened Codec
  import opened CutShort
  import opened DeltaRecords
  import opened DeltaRoundTrip
  import opened RecordStream

  /** The bytes of a record without its last field. */
  function PrintMost(lay: Layout, r: Raw): seq<Byte>
    requires Printable(lay, r) && lay.Ok()
  {
    (if lay.stamped then Print16(r.stamp) else []) + EncodeAll(r.fields[..lay.width - 1])
  }

  /** How many records of the list are taken from `room` bytes. */
  function Begun(lay: Layout, rs: seq<Raw>, room: int): nat
    requires lay.Ok() && forall i :: 0 <= i < |rs| ==> Printable(lay, rs[i])
  {
    if rs == [] || |PrintMost(lay, rs[0])| > room then 0
    else if |PrintRaw(lay, rs[0])| > room then 1
    else 1 + Begun(lay, rs[1..], room - |PrintRaw(lay, rs[0])|)
  }

  predicate SameButLast(r: Raw, s: Raw) {
    && r.stamp == s.stamp && |r.fields| == |s.fields| > 0
    && r.fields[..|r.fields| - 1] == s.fields[..|s.fields| - 1]
  }

  lemma PrintParts(lay: Layout, r: Raw)
    requires Printable(lay, r) && lay.Ok()
    ensures PrintRaw(lay, r) == PrintMost(lay, r) + Encode(r.fields[lay.width - 1])
  {
    var stamp := if lay.stamped then Print16(r.stamp) else [];
    var front, last := r.fields[..lay.width - 1], r.fields[lay.width - 1];
    assert r.fields == front + [last];
    hide EncodeAll;
    NextField([], 0, front, last);
    assert stamp + (EncodeAll(front) + Encode(last)) == (stamp + EncodeAll(front)) + Encode(last);
  }

  /** A record cut before its last field stops the parser. */
  lemma CutMostStops(lay: Layout, data: seq<Byte>, pos: nat, r: Raw)
    requires lay.Ok() && lay.guarded && Printable(lay, r) && Begins(data, pos, PrintMost(lay, r))
    requires |data| - pos < |PrintMost(lay, r)|
    ensures lay.Stops(data, pos)
  {
    hide Decode, DecodeAll, EncodeAll, Print16, Begins;
    var stamp, front := if lay.stamped then Print16(r.stamp) else [], r.fields[..lay.width - 1];
    BeginsSplit(data, pos, stamp, EncodeAll(front));
    if |data| - pos >= |stamp| && pos + |stamp| + |EncodeAll(front)| > |data| {
      CutFields(data, pos + |stamp|, front);
    }
  }

  /** A record cut within its last field is taken, with whatever that field reads as, and stops
      the parser after it. */
  lemma CutLastField(lay: Layout, data: seq<Byte>, pos: nat, r: Raw)
    requires lay.Ok() && lay.guarded && Printable(lay, r) && Begins(data, pos, PrintRaw(lay, r))
    requires |PrintMost(lay, r)| <= |data| - pos < |PrintRaw(lay, r)| && pos < |data|
    ensures !lay.Stops(data, pos) && SameButLast(RawAt(lay, data, pos), r)
    ensures NextAt(lay, data, pos) > |data|
  {
    hide Decode, DecodeAll, EncodeAll, Print16, Read16, Begins;
    var stamp, front := if lay.stamped then Print16(r.stamp) else [], r.fields[..lay.width - 1];
    var last := r.fields[lay.width - 1];
    PrintParts(lay, r);
    BeginsSplit(data, pos, PrintMost(lay, r), Encode(last));
    AtSplit(data, pos, stamp, EncodeAll(front));
    if lay.stamped {
      Read16Print16(data, pos, r.stamp);
    }
    var p := pos + |stamp|;
    DecodeAllEncodeAll(data, p, front);
    CutValue(data, p + |EncodeAll(front)|, last);
    LastOfAll(data, p, lay.width);
  }

  lemma LastOfAll(data: seq<Byte>, p: nat, n: nat)
    requires 0 < n
    ensures var f := DecodeAll(data, p, n - 1);
            && DecodeAll(data, p, n).next == Decode(data, f.next).next
            && DecodeAll(data, p, n).values[..n - 1] == f.values
  {
  }

  lemma PastTheEnd(lay: Layout, data: seq<Byte>, pos: nat, n: nat)
    requires lay.Ok() && lay.guarded && pos > |data|
    ensures RawFrom(lay, data, pos, n) == []
  {
  }

  lemma MostIsSome(lay: Layout, r: Raw)
    requires lay.Ok() && 1 < lay.width && Printable(lay, r)
    ensures 0 < |PrintMost(lay, r)| && |r.fields| == lay.width
  {
    assert r.fields[..lay.width - 1] != [];
  }

  /** What is taken of `rs`: a beginning, exact but for the last field of the last record. */
  predicate Taken(got: seq<Raw>, rs: seq<Raw>) {
    && |got| <= |rs|
    && (forall i :: 0 <= i < |got| ==> SameButLast(got[i], rs[i]))
    && forall i :: 0 <= i < |got| - 1 ==> got[i] == rs[i]
  }

  lemma SameAsItself(r: Raw)
    requires r.fields != []
    ensures SameButLast(r, r)
  {
  }

  lemma {:induction false} RawsCut(lay: Layout, data: seq<Byte>, pos: nat, rs: seq<Raw>)
    requires lay.Ok() && lay.guarded && 1 < lay.width && forall i :: 0 <= i < |rs| ==> Printable(lay, rs[i])
    requires Begins(data, pos, PrintRaws(lay, rs))
    ensures |RawFrom(lay, data, pos, |rs|)| == Begun(lay, rs, |data| - pos)
    ensures Taken(RawFrom(lay, data, pos, |rs|), rs)
    decreases rs
  {
    hide RawAt, NextAt, PrintRaw, PrintMost, Encodable, Layout.Stops, Begins, Taken;
    NoneTaken(rs);
    if rs != [] {
      var r, rest := rs[0], rs[1..];
      MostIsSome(lay, r);
      PrintParts(lay, r);
      BeginsSplit(data, pos, PrintRaw(lay, r), PrintRaws(lay, rest));
      if |data| - pos >= |PrintRaw(lay, r)| {
        OneRaw(lay, data, pos, r);
        RawsCut(lay, data, pos + |PrintRaw(lay, r)|, rest);
        TakenCons(r, RawFrom(lay, data, pos + |PrintRaw(lay, r)|, |rest|), rest);
        assert rs == [r] + rest;
      } else {
        CutRecord(lay, data, pos, r, |rs|);
        if |data| - pos >= |PrintMost(lay, r)| {
          OneTaken(RawAt(lay, data, pos), rs);
        }
      }
    }
  }

  /** A record cut anywhere: taken if all but its last field is there, and nothing after it. */
  lemma CutRecord(lay: Layout, data: seq<Byte>, pos: nat, r: Raw, n: nat)
    requires lay.Ok() && lay.guarded && 1 < lay.width && Printable(lay, r) && 0 < n
    requires Begins(data, pos, PrintRaw(lay, r)) && |data| - pos < |PrintRaw(lay, r)|
    ensures if |data| - pos < |PrintMost(lay, r)| then RawFrom(lay, data, pos, n) == []
            else !lay.Stops(data, pos) && SameButLast(RawAt(lay, data, pos), r)
                 && RawFrom(lay, data, pos, n) == [RawAt(lay, data, pos)]
  {
    hide RawAt, NextAt, PrintRaw, PrintMost, Encodable, Layout.Stops, Begins, SameButLast;
    MostIsSome(lay, r);
    PrintParts(lay, r);
    BeginsSplit(data, pos, PrintMost(lay, r), Encode(r.fields[lay.width - 1]));
    if |data| - pos < |PrintMost(lay, r)| {
      CutMostStops(lay, data, pos, r);
    } else {
      CutLastField(lay, data, pos, r);
      PastTheEnd(lay, data, NextAt(lay, data, pos), n - 1);
    }
  }

  lemma NoneTaken(rs: seq<Raw>)
    ensures Taken([], rs)
  {
  }

  lemma OneTaken(r: Raw, rs: seq<Raw>)
    requires rs != [] && SameButLast(r, rs[0])
    ensures Taken([r], rs)
  {
  }

  lemma TakenCons(r: Raw, got: seq<Raw>, rest: seq<Raw>)
    requires Taken(got, rest) && r.fields != []
    ensures Taken([r] + got, [r] + rest)
  {
    SameAsItself(r);
    hide SameButLast;
  }

  /** What the parser takes from a message of records that ends anywhere after its header. */
  lemma MessageCut(lay: Layout, filler: seq<Byte>, rs: seq<Raw>, data: seq<Byte>)
    requires lay.Ok() && lay.guarded && 1 < lay.width && |rs| < TWO_16
    requires forall i :: 0 <= i < |rs| ==> Printable(lay, rs[i])
    requires 2 + |filler| <= |data| && Begins(data, 0, Message(lay, filler, rs, []))
    ensures Read16(data, 0) == |rs|
    ensures var got, k := RawFrom(lay, data, 2 + |filler|, |rs|), Begun(lay, rs, |data| - 2 - |filler|);
            |got| == k <= |rs| && Taken(got, rs)
  {
    hide RawFrom, PrintRaws, Print16, Read16, Begins, Printable;
    assert Message(lay, filler, rs, []) == Print16(|rs|) + (filler + PrintRaws(lay, rs));
    BeginsSplit(data, 0, Print16(|rs|), filler + PrintRaws(lay, rs));
    BeginsSplit(data, 2, filler, PrintRaws(lay, rs));
    Read16Print16(data, 0, |rs|);
    RawsCut(lay, data, 2 + |filler|, rs);
  }

  lemma {:induction false} TradesOf(got: seq<Raw>, ts: seq<Trade>, last: int)
    requires SmallPrice(last) && (forall i :: 0 <= i < |ts| ==> TradeOk(ts[i])) && Taken(got, TradeRaws(ts, last))
    requires forall i :: 0 <= i < |got| ==> |got[i].fields| == 5
    ensures Transactions(got, last) == ShownAll(ts[..|got|])
    decreases ts
  {
    if got != [] {
      var t, rest := ts[0], ts[1..];
      FirstTrade(got, ts, last);
      hide TradeRaws, Taken, SecondsOf;
      TradesOf(got[1..], rest, t.price);
      SecondsOfDay(t.minutes);
      assert ts[..|got|] == [t] + rest[..|got| - 1];
      assert Transactions(got, last) == [Shown(t)] + Transactions(got[1..], t.price);
    }
  }

  lemma FirstTrade(got: seq<Raw>, ts: seq<Trade>, last: int)
    requires SmallPrice(last) && (forall i :: 0 <= i < |ts| ==> TradeOk(ts[i])) && Taken(got, TradeRaws(ts, last))
    requires got != [] && |got[0].fields| == 5
    ensures |got| <= |ts| && SmallPrice(ts[0].price) && Taken(got[1..], TradeRaws(ts[1..], ts[0].price))
    ensures var t, f := ts[0], got[0].fields;
            got[0].stamp == t.minutes && f[0] == t.price - last && f[1] == t.volume && f[2] == t.id && f[3] == t.side
  {
    var t := ts[0];
    assert TradeOk(t);
    var raw, rest := Raw(t.minutes, [t.price - last, t.volume, t.id, t.side, t.unknown]), TradeRaws(ts[1..], t.price);
    assert TradeRaws(ts, last) == [raw] + rest;
    hide TradeRaws, TradeOk;
    assert SameButLast(got[0], raw);
    FourAlike(got[0].fields, raw.fields);
    TakenTail(got, raw, rest);
  }

  lemma TakenTail(got: seq<Raw>, first: Raw, rest: seq<Raw>)
    requires got != [] && Taken(got, [first] + rest)
    ensures Taken(got[1..], rest)
  {
    hide SameButLast;
    assert forall i :: 0 <= i < |got| - 1 ==> got[1..][i] == got[i + 1] && rest[i] == ([first] + rest)[i + 1];
  }

  lemma FourAlike(a: seq<int>, b: seq<int>)
    requires |a| == |b| == 5 && a[..4] == b[..4]
    ensures a[0] == b[0] && a[1] == b[1] && a[2] == b[2] && a[3] == b[3]
  {
    assert forall i :: 0 <= i < 4 ==> a[i] == a[..4][i] == b[..4][i] == b[i];
  }

  /** Trades of a message that ends anywhere after its count: a beginning of the list, right in
      every field, one trade for every record of which all but the unused last field came. */
  lemma TradesCutShort(ts: seq<Trade>, data: seq<Byte>)
    requires |ts| < TWO_16 && forall i :: 0 <= i < |ts| ==> TradeOk(ts[i])
    requires 2 <= |data| && Begins(data, 0, Message(TRADE, [], TradeRaws(ts, 0), []))
    ensures var k := Begun(TRADE, TradeRaws(ts, 0), |data| - 2);
            k <= |ts| && ParsedTransactions(data) == ShownAll(ts[..k])
  {
    hide Message, RawFrom, Transactions, TradeRaws, ShownAll, Read16, TradeOk, Begins, Taken, Begun, Printable;
    MessageCut(TRADE, [], TradeRaws(ts, 0), data);
    TradesOf(RawFrom(TRADE, data, 2, |ts|), ts, 0);
  }

  // ---------- orders, whose last field is the volume ----------

  /** A beginning of the list, right but perhaps for the volume of its last order. */
  predicate RightButVolume(parsed: seq<HistoryOrder>, os: seq<HistoryOrder>) {
    && |parsed| <= |os|
    && (forall i :: 0 <= i < |parsed| ==> parsed[i].price == os[i].price && parsed[i].unknown == os[i].unknown)
    && (forall i :: 0 <= i < |parsed| - 1 ==> parsed[i].volume == os[i].volume)
  }

  lemma {:induction false} OrdersOf(got: seq<Raw>, os: seq<HistoryOrder>, last: int)
    requires SmallPrice(last) && (forall i :: 0 <= i < |os| ==> OrderOk(os[i])) && Taken(got, OrderRaws(os, last))
    requires forall i :: 0 <= i < |got| ==> |got[i].fields| == 3
    ensures |HistoryOrders(got, last)| == |got| && RightButVolume(HistoryOrders(got, last), os)
    decreases os
  {
    if got != [] {
      var o, rest := os[0], os[1..];
      FirstOrder(got, os, last);
      hide OrderRaws, Taken;
      OrdersOf(got[1..], rest, o.price);
      assert HistoryOrders(got, last)
          == [HistoryOrder(o.price, o.unknown, got[0].fields[2])] + HistoryOrders(got[1..], o.price);
    }
  }

  lemma FirstOrder(got: seq<Raw>, os: seq<HistoryOrder>, last: int)
    requires SmallPrice(last) && (forall i :: 0 <= i < |os| ==> OrderOk(os[i])) && Taken(got, OrderRaws(os, last))
    requires got != [] && |got[0].fields| == 3
    ensures |got| <= |os| && SmallPrice(os[0].price) && Taken(got[1..], OrderRaws(os[1..], os[0].price))
    ensures var o, f := os[0], got[0].fields;
            f[0] == o.price - last && f[1] == o.unknown && (1 < |got| ==> f[2] == o.volume)
  {
    var o := os[0];
    assert OrderOk(o);
    var raw, rest := Raw(0, [o.price - last, o.unknown, o.volume]), OrderRaws(os[1..], o.price);
    assert OrderRaws(os, last) == [raw] + rest;
    hide OrderRaws, OrderOk;
    assert SameButLast(got[0], raw);
    TwoAlike(got[0].fields, raw.fields);
    TakenTail(got, raw, rest);
  }

  lemma TwoAlike(a: seq<int>, b: seq<int>)
    requires |a| == |b| == 3 && a[..2] == b[..2]
    ensures a[0] == b[0] && a[1] == b[1]
  {
    assert forall i :: 0 <= i < 2 ==> a[i] == a[..2][i] == b[..2][i] == b[i];
  }

  /** Orders of a message that ends anywhere after its header: a beginning of the list, right but
      perhaps for the volume of the last one, which is its record's last field. */
  lemma OrdersCutShort(os: seq<HistoryOrder>, header: seq<Byte>, data: seq<Byte>)
    requires |os| < TWO_16 && |header| == 4 && forall i :: 0 <= i < |os| ==> OrderOk(os[i])
    requires 6 <= |data| && Begins(data, 0, Message(ORDER, header, OrderRaws(os, 0), []))
    ensures var k := Begun(ORDER, OrderRaws(os, 0), |data| - 6);
            var parsed := ParsedOrders(data);
            |parsed| == k <= |os| && RightButVolume(parsed, os)
  {
    hide Message, RawFrom, HistoryOrders, OrderRaws, Read16, OrderOk, Begins, Taken, Begun, Printable,
      RightButVolume;
    var rs := OrderRaws(os, 0);
    MessageCut(ORDER, header, rs, data);
    var got := RawFrom(ORDER, data, 6, |rs|);
    OrdersOf(got, os, 0);
    assert ParsedOrders(data) == HistoryOrders(got, 0);
    hide ParsedOrders;
  }

  /** And that volume does go wrong: of an order with the record cut before its volume the
      parser makes an order of none. */
  lemma VolumeIsMadeUp(price: int, unknown: int, volume: int, header: seq<Byte>)
    requires |header| == 4 && SmallPrice(price) && Encodable(unknown) && Encodable(volume)
    ensures var data := Print16(1) + header + EncodeAll([price, unknown]);
            && Begins(data, 0, Message(ORDER, header, OrderRaws([HistoryOrder(price, unknown, volume)], 0), []))
            && ParsedOrders(data) == [HistoryOrder(price, unknown, 0)]
  {
    hide Decode, Encode, DecodeAll, EncodeAll, Read16, Print16;
    var body := EncodeAll([price, unknown]);
    var data := Print16(1) + header + body;
    var raw := Raw(0, [price, unknown, volume]);
    assert OrderOk(HistoryOrder(price, unknown, volume));
    assert OrderRaws([HistoryOrder(price, unknown, volume)], 0) == [raw];
    assert raw.fields[..2] == [price, unknown];
    PrintParts(ORDER, raw);
    assert PrintRaws(ORDER, [raw]) == PrintRaw(ORDER, raw) + [];
    assert Message(ORDER, header, [raw], []) == data + Encode(volume);
    assert data == (data + Encode(volume))[..|data|];
    assert At(data, 0, Print16(1) + (header + body)) by { assert data == Print16(1) + (header + body); }
    AtSplit(data, 0, Print16(1), header + body);
    AtSplit(data, 2, header, body);
    Read16Print16(data, 0, 1);
    DecodeAllEncodeAll(data, 6, [price, unknown]);
    LastOfAll(data, 6, 3);
    NothingThere(data, |data|);
    OneOrder(data, price, unknown);
  }

  lemma NothingThere(data: seq<Byte>, pos: nat)
    requires pos >= |data|
    ensures Decode(data, pos) == Price(0, pos + 1)
  {
  }

  lemma OneOrder(data: seq<Byte>, price: int, unknown: int)
    requires |data| > 6 && Read16(data, 0) == 1 && DecodeAll(data, 6, 2) == Fields([price, unknown], |data|)
    requires Decode(data, |data|) == Price(0, |data| + 1)
    ensures ParsedOrders(data) == [HistoryOrder(price, unknown, 0)]
  {
    hide Decode, Read16;
    assert DecodeAll(data, 6, 3) == Fields([price, unknown] + [0], |data| + 1);
    assert RawAt(ORDER, data, 6).fields == [price, unknown, 0];
    OrdersUnfold(data, 6, 1, 0);
    OrdersUnfold(data, NextAt(ORDER, data, 6), 0, price);
  }

  // ---------- ticks, which are not checked at all ----------

  /** Whatever the bytes, the parser returns as many ticks as the count says; those past the end
      carry the base price and average, and no volume. */
  lemma {:induction false} MissingTicks(data: seq<Byte>, pos: nat, n: nat, price: int, avg: int)
    requires pos >= |data|
    ensures TicksFrom(data, pos, n, price, avg) == seq(n, _ => Tick(price, avg, 0))
    decreases n
  {
    hide RawFrom, Ticks;
    TicksUnfold(data, pos, n, price, avg);
    if n > 0 {
      NoTick(data, pos);
      MissingTicks(data, NextAt(TICK, data, pos), n - 1, price, avg);
    }
  }

  lemma NoTick(data: seq<Byte>, pos: nat)
    requires pos >= |data|
    ensures RawAt(TICK, data, pos).fields == [0, 0, 0] && NextAt(TICK, data, pos) >= pos
  {
    NothingThere(data, pos);
    NothingThere(data, pos + 1);
    NothingThere(data, pos + 2);
    hide Decode;
    assert DecodeAll(data, pos, 0) == Fields([], pos);
    assert DecodeAll(data, pos, 1) == Fields([0], pos + 1);
    assert DecodeAll(data, pos, 2) == Fields([0, 0], pos + 2);
  }

  lemma {:induction false} TickCount(data: seq<Byte>, pos: nat, n: nat, price: int, avg: int)
    ensures |TicksFrom(data, pos, n, price, avg)| == n
    decreases n
  {
    hide RawFrom, Ticks, RawAt, NextAt;
    TicksUnfold(data, pos, n, price, avg);
    if n > 0 {
      var f := RawAt(TICK, data, pos).fields;
      TickCount(data, NextAt(TICK, data, pos), n - 1, Base(price, f[0]), Base(avg, f[1]));
    }
  }

  /** So a tick list cut short is filled up: the count is kept on any bytes, and a header alone
      gives nothing but zeros. */
  lemma TicksAreMadeUp(data: seq<Byte>)
    requires 4 <= |data|
    ensures |ParsedTicks(data)| == Read16(data, 0)
    ensures |data| == 4 ==> ParsedTicks(data) == seq(Read16(data, 0), _ => Tick(0, 0, 0))
  {
    hide TicksFrom, Read16;
    TickCount(data, 4, Read16(data, 0), 0, 0);
    if |data| == 4 {
      MissingTicks(data, 4, Read16(data, 0), 0, 0);
    }
  }
}

/** K-lines cut short: every bar whose amount has come, with its counts if they came whole. */
module CutKLines {
  import opened Bytes
  import opened Calendar
  import opened Codec
  import opened CutShort
  import opened KLineParser
  import opened KLineRoundTrip
  import opened RecordStream

  function PrintBody(cx: Context, w: WireBar): seq<Byte>
    requires WireOk(cx, w)
  {
    PrintBar(cx, w.(counts := NoCounts))
  }

  lemma BodyAndCounts(cx: Context, w: WireBar)
    requires WireOk(cx, w)
    ensures WireOk(cx, w.(counts := NoCounts)) && PrintBar(cx, w) == PrintBody(cx, w) + PrintCounts(cx, w)
    ensures |PrintCounts(cx, w)| <= 4 && |PrintBody(cx, w)| >= 13
  {
    DateFits(cx, w);
    var prices := EncodeAll(PricesOf(w));
    hide Encode, Print32, Encodable, StampWord;
    var vol, amount, counts := Print32(w.volume), Print32(w.amount), PrintCounts(cx, w);
    assert amount + [] == amount;
    assert prices + (vol + (amount + counts)) == (prices + (vol + amount)) + counts;
    var date, body := Print32(w.date), prices + (vol + amount);
    assert date + (body + counts) == (date + body) + counts;
    assert |prices| > 0;
  }

  /** A bar cut before its amount is complete is not read. */
  lemma CutBarStops(cx: Context, data: seq<Byte>, pos: nat, w: WireBar)
    requires WireOk(cx, w) && Begins(data, pos, PrintBody(cx, w)) && |data| - pos < |PrintBody(cx, w)|
    ensures Stops(data, pos)
  {
    hide Decode, Encode, DecodeAll, EncodeAll, Print32, StampWord, Begins;
    DateFits(cx, w);
    var date, prices := Print32(w.date), EncodeAll(PricesOf(w));
    var vol, amount := Print32(w.volume), Print32(w.amount);
    assert amount + [] == amount;
    BeginsSplit(data, pos, date, prices + (vol + amount));
    if |data| - pos >= 4 {
      BeginsSplit(data, pos + 4, prices, vol + amount);
      if |data| - (pos + 4) < |prices| {
        CutFields(data, pos + 4, PricesOf(w));
      } else {
        DecodeAllEncodeAll(data, pos + 4, PricesOf(w));
      }
    }
  }

  /** What of the printed bars arrives in `room` bytes: whole bars, and a last one without its
      counts if only they are cut. */
  function Received(cx: Context, ws: seq<WireBar>, room: int): (r: seq<WireBar>)
    requires forall i :: 0 <= i < |ws| ==> WireOk(cx, ws[i])
  {
    if ws == [] || |PrintBody(cx, ws[0])| > room then []
    else if |PrintBar(cx, ws[0])| > room then [ws[0].(counts := NoCounts)]
    else [ws[0]] + Received(cx, ws[1..], room - |PrintBar(cx, ws[0])|)
  }

  /** A bar without counts before the end of the data, or before fewer than four bytes more. */
  lemma LastBar(cx: Context, data: seq<Byte>, pos: nat, w: WireBar)
    requires WireOk(cx, w) && w.counts.NoCounts? && At(data, pos, PrintBar(cx, w))
    requires pos + |PrintBar(cx, w)| + 4 > |data|
    ensures !Stops(data, pos)
    ensures BarAt(cx, data, pos) == Expected(cx, w) && NextBar(cx, data, pos) == pos + |PrintBar(cx, w)|
  {
    hide PrintBar, Stops, Prices, CountsAt, Read16, Read32, DatetimeOf;
    BarFields(cx, data, pos, w);
    assert !HasCounts(cx, data, pos);
  }

  lemma TooShort(cx: Context, data: seq<Byte>, pos: nat, n: nat)
    requires pos + 13 > |data|
    ensures BarsFrom(cx, data, pos, n) == []
  {
  }

  /** The first bar of what is left, when all of it but perhaps its counts is there. */
  lemma FirstReceived(cx: Context, data: seq<Byte>, pos: nat, ws: seq<WireBar>)
    requires ws != [] && Increasing(cx, ws) && forall i :: 0 <= i < |ws| ==> WireOk(cx, ws[i])
    requires !ReadsAsLaterDate(cx, ws[0]) && Begins(data, pos, PrintBars(cx, ws))
    requires |data| - pos >= |PrintBar(cx, ws[0])|
    ensures At(data, pos, PrintBar(cx, ws[0]))
    ensures Begins(data, pos + |PrintBar(cx, ws[0])|, PrintBars(cx, ws[1..]))
    ensures !Stops(data, pos)
    ensures BarAt(cx, data, pos) == Expected(cx, ws[0]) && NextBar(cx, data, pos) == pos + |PrintBar(cx, ws[0])|
  {
    hide PrintBar, Stops, BarAt, NextBar, Read32, Datetime, StampWord, Begins, ReadsAsLaterDate, Expected;
    var w, tail := ws[0], ws[1..];
    var next := pos + |PrintBar(cx, w)|;
    BeginsSplit(data, pos, PrintBar(cx, w), PrintBars(cx, tail));
    if w.counts.Counts? {
      CountedBar(cx, data, pos, w);
    } else if |data| - next < 4 {
      LastBar(cx, data, pos, w);
    } else {
      DateArrived(cx, data, next, tail);
      assert tail[0] == ws[1];
      PlainBar(cx, data, pos, w);
    }
  }

  lemma DateArrived(cx: Context, data: seq<Byte>, pos: nat, ws: seq<WireBar>)
    requires (forall i :: 0 <= i < |ws| ==> WireOk(cx, ws[i])) && Begins(data, pos, PrintBars(cx, ws))
    requires |data| - pos >= 4
    ensures ws != [] && Read32(data, pos) == ws[0].date && StampWord(cx, ws[0].date)
  {
    hide Read32, Print32, Encode, StampWord, Begins;
    RoomEnds(data, pos, PrintBars(cx, ws));
    DateFits(cx, ws[0]);
    var w := ws[0];
    var rest := EncodeAll(PricesOf(w)) + (Print32(w.volume) + (Print32(w.amount) + PrintCounts(cx, w)));
    assert PrintBars(cx, ws) == Print32(w.date) + (rest + PrintBars(cx, ws[1..]));
    BeginsSplit(data, pos, Print32(w.date), rest + PrintBars(cx, ws[1..]));
    Read32Print32(data, pos, w.date);
  }

  lemma RoomEnds(data: seq<Byte>, pos: nat, part: seq<Byte>)
    requires Begins(data, pos, part)
    ensures 0 <= |data| - pos <= |part|
  {
  }

  lemma {:induction false} BarsFromCut(cx: Context, data: seq<Byte>, pos: nat, ws: seq<WireBar>)
    requires Increasing(cx, ws) && forall i :: 0 <= i < |ws| ==> WireOk(cx, ws[i])
    requires forall i :: 0 <= i < |ws| ==> !ReadsAsLaterDate(cx, ws[i])
    requires Begins(data, pos, PrintBars(cx, ws))
    ensures BarsFrom(cx, data, pos, |ws|) == Kept(cx, Received(cx, ws, |data| - pos))
    decreases ws
  {
    hide Stops, BarAt, NextBar, PrintBar, PrintBody, PrintCounts, OutOfHours, ReadsAsLaterDate, Datetime, StampWord,
      InHours, Begins, Received, Kept, BarsFrom, WireOk, Expected;
    ReceivedUnfold(cx, ws, |data| - pos);
    BarsUnfold(cx, data, pos, |ws|);
    if ws != [] {
      var w, tail := ws[0], ws[1..];
      BodyAndCounts(cx, w);
      RoomEnds(data, pos, PrintBars(cx, ws));
      if |data| - pos >= |PrintBar(cx, w)| {
        FirstReceived(cx, data, pos, ws);
        assert StampWord(cx, w.date) by { StampIsOk(cx, w); }
        OutOfHoursExactly(cx, w);
        ExpectedTime(cx, w);
        assert forall i :: 0 <= i < |tail| ==> tail[i] == ws[i + 1];
        BarsFromCut(cx, data, pos + |PrintBar(cx, w)|, tail);
        KeptCons(cx, w, Received(cx, tail, |data| - pos - |PrintBar(cx, w)|));
      } else {
        BeginsSplit(data, pos, PrintBar(cx, w), PrintBars(cx, tail));
        LastReceived(cx, data, pos, w, |ws|);
        KeptCons(cx, w.(counts := NoCounts), []);
      }
    } else {
      assert Kept(cx, []) == [] by { NoneKept(cx); }
    }
  }

  lemma NoneKept(cx: Context)
    ensures Kept(cx, []) == []
  {
  }

  lemma StampIsOk(cx: Context, w: WireBar)
    requires WireOk(cx, w)
    ensures StampWord(cx, w.date)
  {
  }

  lemma BarsUnfold(cx: Context, data: seq<Byte>, pos: nat, n: nat)
    ensures n == 0 ==> BarsFrom(cx, data, pos, n) == []
    ensures n > 0 && !Stops(data, pos) ==>
              var bar := BarAt(cx, data, pos);
              BarsFrom(cx, data, pos, n)
                == (if OutOfHours(cx, bar.datetime) then [] else [bar])
                   + BarsFrom(cx, data, NextBar(cx, data, pos), n - 1)
  {
    hide Stops, BarAt, NextBar, OutOfHours;
  }

  lemma ReceivedUnfold(cx: Context, ws: seq<WireBar>, room: int)
    requires forall i :: 0 <= i < |ws| ==> WireOk(cx, ws[i])
    ensures Received(cx, ws, room)
         == if ws == [] || |PrintBody(cx, ws[0])| > room then []
            else if |PrintBar(cx, ws[0])| > room then [ws[0].(counts := NoCounts)]
            else [ws[0]] + Received(cx, ws[1..], room - |PrintBar(cx, ws[0])|)
  {
  }

  lemma KeptCons(cx: Context, w: WireBar, rest: seq<WireBar>)
    ensures Kept(cx, [w] + rest) == (if InHours(cx, w) then [Expected(cx, w)] else []) + Kept(cx, rest)
    ensures Kept(cx, [w]) == if InHours(cx, w) then [Expected(cx, w)] else []
    ensures Kept(cx, []) == []
  {
    assert ([w] + rest)[1..] == rest;
  }

  /** The bar that is cut: in its body, or in its counts. */
  lemma LastReceived(cx: Context, data: seq<Byte>, pos: nat, w: WireBar, n: nat)
    requires WireOk(cx, w) && Begins(data, pos, PrintBar(cx, w)) && |data| - pos < |PrintBar(cx, w)| && 0 < n
    ensures var plain := w.(counts := NoCounts);
            BarsFrom(cx, data, pos, n)
              == if |data| - pos < |PrintBody(cx, w)| then []
                 else if InHours(cx, plain) then [Expected(cx, plain)] else []
  {
    hide Stops, BarAt, NextBar, PrintBar, PrintCounts, OutOfHours, Datetime, StampWord, InHours, Begins, Expected;
    BodyAndCounts(cx, w);
    BeginsSplit(data, pos, PrintBody(cx, w), PrintCounts(cx, w));
    if |data| - pos < |PrintBody(cx, w)| {
      CutBarStops(cx, data, pos, w);
    } else {
      var plain := w.(counts := NoCounts);
      LastBar(cx, data, pos, plain);
      OutOfHoursExactly(cx, plain);
      ExpectedTime(cx, plain);
      TooShort(cx, data, NextBar(cx, data, pos), n - 1);
    }
  }

  lemma ExpectedTime(cx: Context, w: WireBar)
    ensures Expected(cx, w).datetime == Datetime(cx, w.date)
  {
  }

  /** A K-line message that ends anywhere after its count gives the bars of which the amount has
      come, those out of hours left out, each exact but for counts that are cut. */
  lemma KLinesCutShort(cx: Context, ws: seq<WireBar>, data: seq<Byte>)
    requires |ws| < TWO_16 && Increasing(cx, ws) && forall i :: 0 <= i < |ws| ==> WireOk(cx, ws[i])
    requires forall i :: 0 <= i < |ws| ==> !ReadsAsLaterDate(cx, ws[i])
    requires 2 <= |data| && Begins(data, 0, Print16(|ws|) + PrintBars(cx, ws))
    ensures ParsedBars(cx, data) == Kept(cx, Received(cx, ws, |data| - 2))
  {
    hide PrintBars, Print16, Kept, Received, WireOk, ReadsAsLaterDate, Begins, Increasing, ParsedBars;
    CountArrived(cx, data, |ws|, PrintBars(cx, ws));
    BarsFromCut(cx, data, 2, ws);
  }

  lemma CountArrived(cx: Context, data: seq<Byte>, n: nat, body: seq<Byte>)
    requires n < TWO_16 && 2 <= |data| && Begins(data, 0, Print16(n) + body)
    ensures Begins(data, 2, body) && ParsedBars(cx, data) == BarsFrom(cx, data, 2, n)
  {
    hide BarsFrom, Print16, Read16, Begins;
    BeginsSplit(data, 0, Print16(n), body);
    Read16Print16(data, 0, n);
  }
}
