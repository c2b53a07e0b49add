/** Field bitmaps: 160 bits in 20 bytes choose the fields of every row of a reply. Field values
    are raw 32-bit words; their names and number formats are a table lookup by bit. */
module Bitmap {
  import opened Bytes
  import opened Powers

  const BITMAP_BYTES := 20
  const BITS := 160
  const HEADER := 26
  const ROW_FIXED := 68

  // ---------- single bits ----------

  /** `b & (1 << k)` */
  predicate BitSet(b: nat, k: nat) {
    if k == 0 then b % 2 == 1 else BitSet(b / 2, k - 1)
  }

  /** `b | (1 << k)` */
  function WithBit(b: nat, k: nat): nat {
    if k == 0 then b - b % 2 + 1 else b % 2 + 2 * WithBit(b / 2, k - 1)
  }

  lemma {:induction false} WithBitSets(b: nat, k: nat, j: nat)
    ensures BitSet(WithBit(b, k), j) <==> j == k || BitSet(b, j)
  {
    if k > 0 {
      var half := WithBit(b / 2, k - 1);
      assert (b % 2 + 2 * half) % 2 == b % 2 && (b % 2 + 2 * half) / 2 == half;
      if j > 0 {
        WithBitSets(b / 2, k - 1, j - 1);
      }
    } else if j > 0 {
      assert (b - b % 2 + 1) / 2 == b / 2;
    }
  }

  lemma {:induction false} NoBits(k: nat)
    ensures !BitSet(0, k)
  {
    if k > 0 {
      NoBits(k - 1);
    }
  }

  lemma {:induction false} WithBitFits(b: nat, k: nat, n: nat)
    requires b < Pow2(n) && k < n
    ensures WithBit(b, k) < Pow2(n)
  {
    if k > 0 {
      WithBitFits(b / 2, k - 1, n - 1);
    }
  }

  lemma ByteFits(b: Byte, k: nat)
    requires k < 8
    ensures WithBit(b, k) < 256
  {
    SmallPowers();
    WithBitFits(b, k, 8);
  }

  // ---------- bitmaps ----------

  /** Bit `bit` of a bitmap at the start of `data`. */
  predicate Has(data: seq<Byte>, bit: nat)
    requires BITMAP_BYTES <= |data| && bit < BITS
  {
    BitSet(data[bit / 8], bit % 8)
  }

  function SetIn(bm: seq<Byte>, bit: nat): (r: seq<Byte>)
    requires |bm| == BITMAP_BYTES && bit < BITS
    ensures |r| == BITMAP_BYTES
  {
    ByteFits(bm[bit / 8], bit % 8);
    bm[bit / 8 := WithBit(bm[bit / 8], bit % 8)]
  }

  /** The bitmap of a field list; bits outside the bitmap are ignored. */
  function BitmapOf(fields: seq<int>): (r: seq<Byte>)
    ensures |r| == BITMAP_BYTES
  {
    if fields == [] then seq(BITMAP_BYTES, _ => 0)
    else
      var front, last := BitmapOf(fields[..|fields| - 1]), fields[|fields| - 1];
      if 0 <= last < BITS then SetIn(front, last) else front
  }

  method BuildBitmap(fields: seq<int>) returns (bitmap: array<Byte>)
    ensures fresh(bitmap) && bitmap[..] == BitmapOf(fields)
  {
    hide WithBit;
    bitmap := new Byte[BITMAP_BYTES](_ => 0);
    assert bitmap[..] == seq(BITMAP_BYTES, _ => 0);
    for i := 0 to |fields|
      invariant fresh(bitmap) && bitmap.Length == BITMAP_BYTES
      invariant bitmap[..] == BitmapOf(fields[..i])
    {
      var bit := fields[i];
      assert fields[..i + 1][..i] == fields[..i];
      if 0 <= bit < BITS {
        ByteFits(bitmap[bit / 8], bit % 8);
        bitmap[bit / 8] := WithBit(bitmap[bit / 8], bit % 8);
      }
    }
    assert fields[..|fields|] == fields;
  }

  lemma SetInHas(bm: seq<Byte>, bit: nat, j: nat)
    requires |bm| == BITMAP_BYTES && bit < BITS && j < BITS
    ensures Has(SetIn(bm, bit), j) <==> j == bit || Has(bm, j)
  {
    hide WithBit, BitSet;
    if j / 8 == bit / 8 {
      WithBitSets(bm[bit / 8], bit % 8, j % 8);
    }
  }

  lemma {:induction false} BitmapHas(fields: seq<int>, j: nat)
    requires j < BITS
    ensures Has(BitmapOf(fields), j) <==> j in fields
  {
    hide Has, SetIn;
    if fields == [] {
      NoneSet(j);
    } else {
      var front, last := fields[..|fields| - 1], fields[|fields| - 1];
      assert fields == front + [last];
      BitmapHas(front, j);
      if 0 <= last < BITS {
        SetInHas(BitmapOf(front), last, j);
      }
    }
  }

  lemma NoneSet(j: nat)
    requires j < BITS
    ensures !Has(seq(BITMAP_BYTES, _ => 0), j)
  {
    NoBits(j % 8);
  }

  /** On the wire bit `b` is the bit of weight `2^(b % 8)` of byte `b / 8`. */
  lemma OneFieldBitmap(bit: nat)
    requires bit < 160
    ensures |BitmapOf([bit])| == 20
    ensures forall i :: 0 <= i < 20 ==> BitmapOf([bit])[i] == if i == bit / 8 then Pow2(bit % 8) else 0
  {
    ByteFits(0, bit % 8);
    WithBitOfNone(bit % 8);
    hide WithBit;
    assert [bit][..0] == [];
    assert BitmapOf([]) == seq(BITMAP_BYTES, _ => 0);
  }

  lemma {:induction false} WithBitOfNone(k: nat)
    ensures WithBit(0, k) == Pow2(k)
  {
    if k > 0 {
      WithBitOfNone(k - 1);
    }
  }

  // ---------- active bits ----------

  /** The set bits from `from` on, ascending. */
  function ActiveFrom(data: seq<Byte>, from: nat): (r: seq<nat>)
    requires BITMAP_BYTES <= |data| && from <= BITS
    ensures forall i :: 0 <= i < |r| ==> from <= r[i] < BITS
    decreases BITS - from
  {
    if from == BITS then [] else (if Has(data, from) then [from] else []) + ActiveFrom(data, from + 1)
  }

  function ActiveBits(data: seq<Byte>): seq<nat>
    requires BITMAP_BYTES <= |data|
  {
    ActiveFrom(data, 0)
  }

  predicate StrictlyIncreasing(s: seq<nat>) { forall i, j :: 0 <= i < j < |s| ==> s[i] < s[j] }

  lemma {:induction false} ActiveFromMembers(data: seq<Byte>, from: nat, b: nat)
    requires BITMAP_BYTES <= |data| && from <= BITS
    ensures b in ActiveFrom(data, from) <==> from <= b < BITS && Has(data, b)
    decreases BITS - from
  {
    hide Has;
    if from < BITS {
      ActiveFromMembers(data, from + 1, b);
    }
  }

  lemma {:induction false} ActiveFromIsSorted(data: seq<Byte>, from: nat)
    requires BITMAP_BYTES <= |data| && from <= BITS
    ensures StrictlyIncreasing(ActiveFrom(data, from))
    decreases BITS - from
  {
    hide Has;
    if from < BITS {
      ActiveFromIsSorted(data, from + 1);
    }
  }

  lemma {:induction false} ActiveBitsDependOnBitmap(a: seq<Byte>, b: seq<Byte>, from: nat)
    requires BITMAP_BYTES <= |a| && BITMAP_BYTES <= |b| && a[..BITMAP_BYTES] == b[..BITMAP_BYTES] && from <= BITS
    ensures ActiveFrom(a, from) == ActiveFrom(b, from)
    decreases BITS - from
  {
    hide Has;
    if from < BITS {
      SameBit(a, b, from);
      ActiveBitsDependOnBitmap(a, b, from + 1);
    }
  }

  lemma SameBit(a: seq<Byte>, b: seq<Byte>, bit: nat)
    requires BITMAP_BYTES <= |a| && BITMAP_BYTES <= |b| && a[..BITMAP_BYTES] == b[..BITMAP_BYTES] && bit < BITS
    ensures Has(a, bit) == Has(b, bit)
  {
    assert a[bit / 8] == a[..BITMAP_BYTES][bit / 8] == b[..BITMAP_BYTES][bit / 8] == b[bit / 8];
  }

  /** Scanning the bitmap of any field list, in any order and with duplicates, yields its
      in-range bits, distinct and ascending. */
  lemma ScanYieldsSortedFields(fields: seq<int>)
    ensures StrictlyIncreasing(ActiveBits(BitmapOf(fields)))
    ensures forall b: nat :: b in ActiveBits(BitmapOf(fields)) <==> b < BITS && b in fields
  {
    hide Has;
    ActiveFromIsSorted(BitmapOf(fields), 0);
    forall b: nat ensures b in ActiveBits(BitmapOf(fields)) <==> b < BITS && b in fields {
      ActiveFromMembers(BitmapOf(fields), 0, b);
      if b < BITS {
        BitmapHas(fields, b);
      }
    }
  }

  // ---------- rows ----------

  datatype Field = Field(bit: nat, word: nat)
  datatype Row = Row(market: nat, code: seq<Byte>, name: seq<Byte>, fields: seq<Field>)

  function FieldsAt(data: seq<Byte>, pos: nat, bits: seq<nat>, n: nat): (r: seq<Field>)
    requires n <= |bits| && pos + 4 * n <= |data|
    ensures |r| == n
  {
    seq(n, i requires 0 <= i < n => Field(bits[i], Read32(data, pos + 4 * i)))
  }

  function RowLength(bits: seq<nat>): nat { ROW_FIXED + 4 * |bits| }

  function RowAt(data: seq<Byte>, pos: nat, bits: seq<nat>): Row
    requires pos + RowLength(bits) <= |data|
  {
    Row(Read16(data, pos), data[pos + 2..pos + 24], data[pos + 24..pos + ROW_FIXED],
        FieldsAt(data, pos + ROW_FIXED, bits, |bits|))
  }

  function RowsFrom(data: seq<Byte>, pos: nat, bits: seq<nat>, n: nat): seq<Row>
    decreases n
  {
    if n == 0 || pos + RowLength(bits) > |data| then []
    else [RowAt(data, pos, bits)] + RowsFrom(data, pos + RowLength(bits), bits, n - 1)
  }

  function ParsedRows(data: seq<Byte>): seq<Row> {
    if |data| < HEADER then [] else RowsFrom(data, HEADER, ActiveBits(data), Read16(data, 24))
  }

  // ---------- the parser ----------

  method CollectActiveBits(data: seq<Byte>) returns (active: seq<nat>)
    requires BITMAP_BYTES <= |data|
    ensures active == ActiveBits(data)
  {
    hide BitSet, ActiveFrom, Has;
    active := [];
    for byte := 0 to BITMAP_BYTES
      invariant active + ActiveFrom(data, byte * 8) == ActiveBits(data)
    {
      for bit := 0 to 8
        invariant active + ActiveFrom(data, byte * 8 + bit) == ActiveBits(data)
      {
        ActiveUnfold(data, byte, bit);
        ghost var rest := ActiveFrom(data, byte * 8 + bit + 1);
        assert [] + rest == rest;
        if BitSet(data[byte], bit) {
          assert active + ([byte * 8 + bit] + rest) == (active + [byte * 8 + bit]) + rest;
          active := active + [byte * 8 + bit];
        }
      }
    }
    NoMoreBits(data);
  }

  lemma ActiveUnfold(data: seq<Byte>, byte: nat, bit: nat)
    requires BITMAP_BYTES <= |data| && byte < BITMAP_BYTES && bit < 8
    ensures ActiveFrom(data, byte * 8 + bit)
              == (if BitSet(data[byte], bit) then [byte * 8 + bit] else []) + ActiveFrom(data, byte * 8 + bit + 1)
  {
  }

  lemma NoMoreBits(data: seq<Byte>)
    requires BITMAP_BYTES <= |data|
    ensures ActiveFrom(data, BITS) == []
  {
  }

  method ReadRow(data: seq<Byte>, pos: nat, active: seq<nat>) returns (row: Row)
    requires pos + RowLength(active) <= |data|
    ensures row == RowAt(data, pos, active)
  {
    hide Read16, Read32;
    var fields := [];
    var fpos := pos + ROW_FIXED;
    for i := 0 to |active|
      invariant fpos == pos + ROW_FIXED + 4 * i
      invariant fields == FieldsAt(data, pos + ROW_FIXED, active, i)
    {
      fields := fields + [Field(active[i], Read32(data, fpos))];
      fpos := fpos + 4;
    }
    row := Row(Read16(data, pos), data[pos + 2..pos + 24], data[pos + 24..pos + ROW_FIXED], fields);
  }

  method DeserializeSymbolQuotes(data: seq<Byte>) returns (result: seq<Row>)
    ensures result == ParsedRows(data)
  {
    hide RowAt, ActiveBits, Read16;
    result := [];
    if |data| < HEADER {
      return;
    }
    var active := CollectActiveBits(data);
    var rowCount := Read16(data, 24);
    var pos: nat := HEADER;
    for i := 0 to rowCount
      invariant result + RowsFrom(data, pos, active, rowCount - i) == ParsedRows(data)
    {
      if pos + (ROW_FIXED + 4 * |active|) > |data| {
        break;
      }
      var row := ReadRow(data, pos, active);
      result := result + [row];
      pos := pos + (ROW_FIXED + 4 * |active|);
    }
  }

  // ---------- round trip ----------

  /** A row to print: one word per active bit. */
  datatype WireRow = WireRow(market: nat, code: seq<Byte>, name: seq<Byte>, words: seq<nat>)

  predicate RowOk(w: WireRow, n: nat) {
    && w.market < TWO_16 && |w.code| == 22 && |w.name| == 44
    && |w.words| == n && forall i :: 0 <= i < n ==> w.words[i] < TWO_32
  }

  function PrintWords(words: seq<nat>): (r: seq<Byte>)
    requires forall i :: 0 <= i < |words| ==> words[i] < TWO_32
    ensures |r| == 4 * |words|
  {
    if words == [] then [] else PrintWords(words[..|words| - 1]) + Print32(words[|words| - 1])
  }

  function PrintRow(w: WireRow, n: nat): (r: seq<Byte>)
    requires RowOk(w, n)
    ensures |r| == ROW_FIXED + 4 * n
  {
    Print16(w.market) + (w.code + (w.name + PrintWords(w.words)))
  }

  function PrintRows(ws: seq<WireRow>, n: nat): seq<Byte>
    requires forall i :: 0 <= i < |ws| ==> RowOk(ws[i], n)
  {
    if ws == [] then [] else PrintRow(ws[0], n) + PrintRows(ws[1..], n)
  }

  /** Each word under the bit it was printed for. */
  function Attached(w: WireRow, bits: seq<nat>): Row
    requires RowOk(w, |bits|)
  {
    Row(w.market, w.code, w.name, seq(|bits|, i requires 0 <= i < |bits| => Field(bits[i], w.words[i])))
  }

  lemma {:induction false} WordsRestored(data: seq<Byte>, pos: nat, words: seq<nat>)
    requires (forall i :: 0 <= i < |words| ==> words[i] < TWO_32) && At(data, pos, PrintWords(words))
    ensures forall i :: 0 <= i < |words| ==> Read32(data, pos + 4 * i) == words[i]
  {
    hide Read32, Print32;
    if words != [] {
      var front, last := words[..|words| - 1], words[|words| - 1];
      AtSplit(data, pos, PrintWords(front), Print32(last));
      WordsRestored(data, pos, front);
      Read32Print32(data, pos + 4 * |front|, last);
      assert forall i :: 0 <= i < |front| ==> words[i] == front[i];
    }
  }

  lemma OneRow(data: seq<Byte>, pos: nat, bits: seq<nat>, w: WireRow)
    requires RowOk(w, |bits|) && At(data, pos, PrintRow(w, |bits|))
    ensures pos + RowLength(bits) <= |data| && RowAt(data, pos, bits) == Attached(w, bits)
  {
    hide Read16, Print16, Read32, PrintWords;
    AtSplit(data, pos, Print16(w.market), w.code + (w.name + PrintWords(w.words)));
    AtSplit(data, pos + 2, w.code, w.name + PrintWords(w.words));
    AtSplit(data, pos + 24, w.name, PrintWords(w.words));
    Read16Print16(data, pos, w.market);
    WordsRestored(data, pos + ROW_FIXED, w.words);
    assert RowAt(data, pos, bits).fields == Attached(w, bits).fields;
  }

  lemma {:induction false} ManyRows(data: seq<Byte>, pos: nat, bits: seq<nat>, ws: seq<WireRow>)
    requires (forall i :: 0 <= i < |ws| ==> RowOk(ws[i], |bits|)) && At(data, pos, PrintRows(ws, |bits|))
    ensures |RowsFrom(data, pos, bits, |ws|)| == |ws|
    ensures forall i :: 0 <= i < |ws| ==> RowsFrom(data, pos, bits, |ws|)[i] == Attached(ws[i], bits)
    decreases ws
  {
    hide RowAt, Attached, PrintRow;
    if ws != [] {
      AtSplit(data, pos, PrintRow(ws[0], |bits|), PrintRows(ws[1..], |bits|));
      OneRow(data, pos, bits, ws[0]);
      ManyRows(data, pos + RowLength(bits), bits, ws[1..]);
    }
  }

  /** Bitmap-driven layout round trip: rows printed under the bitmap of any field list are
      parsed back with every word attached to its own bit, whatever follows the message. */
  lemma SymbolQuotesRoundTrip(fields: seq<int>, total: seq<Byte>, ws: seq<WireRow>, rest: seq<Byte>)
    requires |total| == 4 && |ws| < TWO_16
    requires forall i :: 0 <= i < |ws| ==> RowOk(ws[i], |ActiveBits(BitmapOf(fields))|)
    ensures var bits := ActiveBits(BitmapOf(fields));
            var parsed := ParsedRows(BitmapOf(fields) + total + Print16(|ws|) + PrintRows(ws, |bits|) + rest);
            |parsed| == |ws| && forall i :: 0 <= i < |ws| ==> parsed[i] == Attached(ws[i], bits)
  {
    hide RowsFrom, PrintRows, ActiveFrom, BitmapOf, Print16, Read16, Attached, RowOk;
    var bm := BitmapOf(fields);
    var bits := ActiveBits(bm);
    var body := PrintRows(ws, |bits|) + rest;
    var m := bm + total + Print16(|ws|) + PrintRows(ws, |bits|) + rest;
    assert m[0..|m|] == m == bm + (total + (Print16(|ws|) + body));
    AtSplit(m, 0, bm, total + (Print16(|ws|) + body));
    AtSplit(m, 20, total, Print16(|ws|) + body);
    AtSplit(m, 24, Print16(|ws|), body);
    AtSplit(m, HEADER, PrintRows(ws, |bits|), rest);
    Read16Print16(m, 24, |ws|);
    assert m[..BITMAP_BYTES] == bm[..BITMAP_BYTES];
    ActiveBitsDependOnBitmap(m, bm, 0);
    ManyRows(m, HEADER, bits, ws);
  }
}
