/** A counted stream of records, each an optional 16-bit stamp and a fixed number of
    variable-length integers: the common layout of ticks, trades and historical records. */
module RecordStream {
  import opened Bytes
  import opened Codec

  datatype Fields = Fields(values: seq<int>, next: nat)

  /** `n` variable-length integers read one after the other. */
  function DecodeAll(data: seq<Byte>, pos: nat, n: nat): (r: Fields)
    ensures |r.values| == n
  {
    if n == 0 then Fields([], pos)
    else
      var f := DecodeAll(data, pos, n - 1);
      var p := Decode(data, f.next);
      Fields(f.values + [p.value], p.next)
  }

  function EncodeAll(vs: seq<int>): (r: seq<Byte>)
    ensures vs != [] ==> |r| > 0
  {
    if vs == [] then [] else EncodeAll(vs[..|vs| - 1]) + Encode(vs[|vs| - 1])
  }

  predicate Encodable(v: int) { -TWO_62 < v < TWO_62 }

  /** The difference of two such prices is encodable. */
  predicate SmallPrice(p: int) { -TWO_61 < p < TWO_61 }

  lemma {:induction false} DecodeAllEncodeAll(data: seq<Byte>, pos: nat, vs: seq<int>)
    requires At(data, pos, EncodeAll(vs)) && forall i :: 0 <= i < |vs| ==> Encodable(vs[i])
    ensures DecodeAll(data, pos, |vs|) == Fields(vs, pos + |EncodeAll(vs)|)
  {
    hide Decode, Encode, DecodeAll, EncodeAll;
    NoFields(data, pos);
    if vs != [] {
      var front, last := vs[..|vs| - 1], vs[|vs| - 1];
      assert vs == front + [last];
      NextField(data, pos, front, last);
      AtSplit(data, pos, EncodeAll(front), Encode(last));
      DecodeAllEncodeAll(data, pos, front);
      DecodeEncode(data, pos + |EncodeAll(front)|, last);
    }
  }

  lemma NoFields(data: seq<Byte>, pos: nat)
    ensures DecodeAll(data, pos, 0) == Fields([], pos) && EncodeAll([]) == []
  {
  }

  lemma NextField(data: seq<Byte>, pos: nat, front: seq<int>, last: int)
    ensures EncodeAll(front + [last]) == EncodeAll(front) + Encode(last)
    ensures var f := DecodeAll(data, pos, |front|);
            var p := Decode(data, f.next);
            DecodeAll(data, pos, |front| + 1) == Fields(f.values + [p.value], p.next)
  {
  }

  /** The cursor never moves back. */
  lemma {:induction false} DecodeAllAdvances(data: seq<Byte>, pos: nat, m: nat, n: nat)
    requires m <= n
    ensures DecodeAll(data, pos, m).next <= DecodeAll(data, pos, n).next
    ensures m < n ==> DecodeAll(data, pos, m).next < DecodeAll(data, pos, n).next
    decreases n
  {
    hide Decode;
    if m < n {
      DecodeAllAdvances(data, pos, m, n - 1);
    }
  }

  // ---------- records ----------

  /** `stamped`: each record starts with a 16-bit word. `guarded`: the parser stops when the
      buffer ends before the last field of a record. */
  datatype Layout = Layout(stamped: bool, width: nat, guarded: bool) {
    function StampSize(): nat { if stamped then 2 else 0 }
    predicate Ok() { 1 <= width && (stamped ==> guarded) }

    /** Whether the parser gives up before a record at `pos`. */
    predicate Stops(data: seq<Byte>, pos: nat)
      requires Ok()
    {
      guarded && (
        if stamped then pos + 2 > |data| || DecodeAll(data, pos + 2, width - 1).next > |data|
        else pos >= |data| || DecodeAll(data, pos, width - 1).next > |data|)
    }
  }

  datatype Raw = Raw(stamp: nat, fields: seq<int>)

  function RawAt(lay: Layout, data: seq<Byte>, pos: nat): (r: Raw)
    requires lay.Ok() && !lay.Stops(data, pos)
    ensures |r.fields| == lay.width
  {
    Raw(if lay.stamped then Read16(data, pos) else 0,
        DecodeAll(data, pos + lay.StampSize(), lay.width).values)
  }

  function NextAt(lay: Layout, data: seq<Byte>, pos: nat): nat {
    DecodeAll(data, pos + lay.StampSize(), lay.width).next
  }

  /** At most `n` records from `pos` on. */
  function RawFrom(lay: Layout, data: seq<Byte>, pos: nat, n: nat): (r: seq<Raw>)
    requires lay.Ok()
    ensures |r| <= n
    ensures forall i :: 0 <= i < |r| ==> |r[i].fields| == lay.width
    decreases n
  {
    if n == 0 || lay.Stops(data, pos) then []
    else [RawAt(lay, data, pos)] + RawFrom(lay, data, NextAt(lay, data, pos), n - 1)
  }

  predicate Printable(lay: Layout, r: Raw) {
    && |r.fields| == lay.width
    && (forall i :: 0 <= i < |r.fields| ==> Encodable(r.fields[i]))
    && (if lay.stamped then r.stamp < TWO_16 else r.stamp == 0)
  }

  function PrintRaw(lay: Layout, r: Raw): seq<Byte>
    requires Printable(lay, r)
  {
    (if lay.stamped then Print16(r.stamp) else []) + EncodeAll(r.fields)
  }

  function PrintRaws(lay: Layout, rs: seq<Raw>): seq<Byte>
    requires forall i :: 0 <= i < |rs| ==> Printable(lay, rs[i])
  {
    if rs == [] then [] else PrintRaw(lay, rs[0]) + PrintRaws(lay, rs[1..])
  }

  lemma OneRaw(lay: Layout, data: seq<Byte>, pos: nat, r: Raw)
    requires lay.Ok() && Printable(lay, r) && At(data, pos, PrintRaw(lay, r))
    ensures !lay.Stops(data, pos)
    ensures RawAt(lay, data, pos) == r
    ensures NextAt(lay, data, pos) == pos + |PrintRaw(lay, r)|
  {
    hide Decode, DecodeAll, EncodeAll, Read16, Print16;
    var stamp := if lay.stamped then Print16(r.stamp) else [];
    AtSplit(data, pos, stamp, EncodeAll(r.fields));
    if lay.stamped {
      Read16Print16(data, pos, r.stamp);
    }
    DecodeAllEncodeAll(data, pos + |stamp|, r.fields);
    DecodeAllAdvances(data, pos + |stamp|, lay.width - 1, lay.width);
    DecodeAllAdvances(data, pos + |stamp|, 0, lay.width);
  }

  /** Printing any records and reading them back, at any position and before any bytes. */
  lemma {:induction false} RawRoundTrip(lay: Layout, data: seq<Byte>, pos: nat, rs: seq<Raw>)
    requires lay.Ok() && forall i :: 0 <= i < |rs| ==> Printable(lay, rs[i])
    requires At(data, pos, PrintRaws(lay, rs))
    ensures RawFrom(lay, data, pos, |rs|) == rs
    decreases rs
  {
    hide RawAt, NextAt, PrintRaw, Printable, Layout.Stops;
    if rs != [] {
      AtSplit(data, pos, PrintRaw(lay, rs[0]), PrintRaws(lay, rs[1..]));
      OneRaw(lay, data, pos, rs[0]);
      RawRoundTrip(lay, data, pos + |PrintRaw(lay, rs[0])|, rs[1..]);
      assert [rs[0]] + rs[1..] == rs;
    }
  }
}
