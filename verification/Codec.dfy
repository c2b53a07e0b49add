/** The signed variable-length integer of the quote protocol: 6 bits and a sign in the first
    byte, then 7-bit groups, least significant first. */
module Codec {
  import opened Bytes
  import opened Powers

  const TWO_61 := 0x2000_0000_0000_0000
  const TWO_62 := 0x4000_0000_0000_0000
  const TWO_63 := 0x8000_0000_0000_0000
  const TWO_64 := 0x1_0000_0000_0000_0000
  const MAX_CONTINUATIONS := 9

  datatype Price = Price(value: int, next: nat)

  /** Two's-complement 64-bit value of an integer. */
  function Wrap64(x: int): int { (x + TWO_63) % TWO_64 - TWO_63 }

  function Negated(x: int): int { if x == -TWO_63 then 0 else -x }

  /** The continuation bytes: byte `nb` stands at `pos` and weighs `2^shift`. */
  function Continue(data: seq<Byte>, pos: nat, nb: nat, shift: nat, acc: int): (r: Price)
    requires nb <= MAX_CONTINUATIONS
    ensures pos <= r.next <= pos + (MAX_CONTINUATIONS - nb)
    ensures r.next <= |data| || r.next == pos
    decreases MAX_CONTINUATIONS - nb
  {
    if nb == MAX_CONTINUATIONS || pos >= |data| then Price(acc, pos)
    else
      var b := data[pos];
      var acc' := Wrap64(acc + Wrap64(b % 128 * Pow2(shift)));
      if b < 128 then Price(acc', pos + 1) else Continue(data, pos + 1, nb + 1, shift + 7, acc')
  }

  /** Whether the continuation stops for want of bytes rather than at its last byte. */
  predicate Truncated(data: seq<Byte>, pos: nat, nb: nat)
    requires nb <= MAX_CONTINUATIONS
    decreases MAX_CONTINUATIONS - nb
  {
    nb < MAX_CONTINUATIONS && (pos >= |data| || (data[pos] >= 128 && Truncated(data, pos + 1, nb + 1)))
  }

  /** What the decoder returns. A value cut short by the end of the buffer leaves the cursor
      one past the end. */
  function Decode(data: seq<Byte>, pos: nat): (r: Price)
    ensures pos < r.next <= pos + 11
  {
    if pos >= |data| then Price(0, pos + 1)
    else
      var b := data[pos];
      var c := if b >= 128 then Continue(data, pos + 1, 0, 6, b % 64) else Price(b % 64, pos + 1);
      var short := b >= 128 && Truncated(data, pos + 1, 0);
      Price(if b / 64 % 2 == 1 then Negated(c.value) else c.value, if short then c.next + 1 else c.next)
  }

  method GetPrice(data: seq<Byte>, start: nat) returns (value: int, next: nat)
    ensures Price(value, next) == Decode(data, start)
  {
    var pos := start;
    if pos >= |data| {
      return 0, pos + 1;
    }
    var posByte := 6;
    var bdata := data[pos];
    var intData: int := bdata % 64;
    var sign := bdata / 64 % 2 == 1;
    if bdata >= 128 {
      for nb := 0 to MAX_CONTINUATIONS
        invariant pos < |data|
        invariant Continue(data, start + 1, 0, 6, data[start] % 64) == Continue(data, pos + 1, nb, posByte, intData)
        invariant Truncated(data, start + 1, 0) <==> Truncated(data, pos + 1, nb)
      {
        pos := pos + 1;
        if pos >= |data| {
          break;
        }
        bdata := data[pos];
        intData := Wrap64(intData + Wrap64(bdata % 128 * Pow2(posByte)));
        posByte := posByte + 7;
        if bdata < 128 {
          break;
        }
      }
    }
    pos := pos + 1;
    if sign {
      intData := Negated(intData);
    }
    return intData, pos;
  }

  // ---------- the cursor ----------

  /** On arbitrary bytes and at any position, past the end too: the cursor strictly advances, by
      at most ten bytes, and it leaves the buffer exactly when it stood outside or the value is
      cut short, by one position. */
  lemma CursorAdvances(data: seq<Byte>, pos: nat)
    ensures pos < Decode(data, pos).next <= pos + 10
    ensures Decode(data, pos).next > |data| <==>
              pos >= |data| || (data[pos] >= 128 && Truncated(data, pos + 1, 0))
    ensures Decode(data, pos).next <= (if pos < |data| then |data| else pos) + 1
  {
    if pos < |data| && data[pos] >= 128 {
      ContinueCursor(data, pos + 1, 0, 6, data[pos] % 64);
    }
  }

  lemma {:induction false} ContinueCursor(data: seq<Byte>, pos: nat, nb: nat, shift: nat, acc: int)
    requires nb <= MAX_CONTINUATIONS && pos <= |data|
    ensures var c := Continue(data, pos, nb, shift, acc);
            if Truncated(data, pos, nb) then c.next == |data| && c.next < pos + (MAX_CONTINUATIONS - nb)
            else c.next <= |data|
    decreases MAX_CONTINUATIONS - nb
  {
    if nb < MAX_CONTINUATIONS && pos < |data| && data[pos] >= 128 {
      ContinueCursor(data, pos + 1, nb + 1, shift + 7,
                     Wrap64(acc + Wrap64(data[pos] % 128 * Pow2(shift))));
    }
  }

  // ---------- range ----------

  lemma Pow2Plus7(n: nat)
    ensures Pow2(n + 7) == 128 * Pow2(n)
  {
    assert Pow2(n + 7) == 2 * Pow2(n + 6) == 4 * Pow2(n + 5) == 8 * Pow2(n + 4);
    assert Pow2(n + 4) == 2 * Pow2(n + 3) == 4 * Pow2(n + 2) == 8 * Pow2(n + 1);
  }

  /** `2^shift` for the `nb`-th continuation byte. */
  lemma {:induction false} Weights(nb: nat)
    requires nb <= 8
    ensures Pow2(6 + 7 * nb) == [0x40, 0x2000, 0x10_0000, 0x800_0000, 0x4_0000_0000, 0x200_0000_0000,
                                 0x1_0000_0000_0000, 0x80_0000_0000_0000, TWO_62][nb]
  {
    if nb == 0 {
      assert Pow2(6) == 2 * Pow2(5) == 4 * Pow2(4) == 8 * Pow2(3) == 16 * Pow2(2);
    } else {
      Weights(nb - 1);
      Pow2Plus7(6 + 7 * (nb - 1));
    }
  }

  lemma WrapIsIdentity(x: int)
    requires -TWO_63 <= x < TWO_63
    ensures Wrap64(x) == x
  {
  }

  lemma GroupFits(b: Byte, w: nat, acc: nat)
    requires 0 < w <= TWO_62 / 128 && acc < w
    ensures acc + b % 128 * w < 128 * w <= TWO_62
    ensures Wrap64(acc + Wrap64(b % 128 * w)) == acc + b % 128 * w
  {
    GroupBound(b % 128, w);
    WrapIsIdentity(b % 128 * w);
    WrapIsIdentity(acc + b % 128 * w);
  }

  lemma GroupBound(d: nat, w: nat)
    requires d <= 127
    ensures d * w <= 127 * w
  {
    assert (127 - d) * w >= 0;
  }

  function Weight(nb: nat): (r: nat)
    ensures 0 < r
  {
    Pow2(6 + 7 * nb)
  }

  lemma WeightStep(nb: nat)
    requires nb < 8
    ensures Weight(nb + 1) == 128 * Weight(nb) && 0 < Weight(nb) <= TWO_62 / 128
  {
    Weights(nb);
    Weights(nb + 1);
    hide Pow2;
  }

  /** One continuation byte, without wrap-around. */
  lemma ContinueOnce(data: seq<Byte>, pos: nat, nb: nat, acc: nat)
    requires nb < 8 && pos < |data| && acc < Weight(nb)
    ensures Weight(nb + 1) == 128 * Weight(nb) <= TWO_62
    ensures acc + data[pos] % 128 * Weight(nb) < Weight(nb + 1)
    ensures Continue(data, pos, nb, 6 + 7 * nb, acc)
              == if data[pos] < 128 then Price(acc + data[pos] % 128 * Weight(nb), pos + 1)
                 else Continue(data, pos + 1, nb + 1, 6 + 7 * (nb + 1), acc + data[pos] % 128 * Weight(nb))
  {
    hide Pow2, Wrap64;
    WeightStep(nb);
    assert 6 + 7 * nb + 7 == 6 + 7 * (nb + 1);
    GroupFits(data[pos], Weight(nb), acc);
  }

  /** With at most eight continuation bytes nothing wraps and the magnitude stays below 2^62. */
  lemma {:induction false} ContinueRange(data: seq<Byte>, pos: nat, nb: nat, acc: nat)
    requires nb <= 8 && acc < Weight(nb)
    requires Continue(data, pos, nb, 6 + 7 * nb, acc).next <= pos + (8 - nb)
    ensures 0 <= Continue(data, pos, nb, 6 + 7 * nb, acc).value < TWO_62
    decreases MAX_CONTINUATIONS - nb
  {
    hide Weight, Wrap64, Continue;
    WeightBound(nb);
    ContinueEdges(data, pos, nb, 6 + 7 * nb, acc);
    if pos < |data| && nb < 8 {
      var acc' := ContinueBelow(data, pos, nb, acc);
      WeightBound(nb + 1);
      if data[pos] >= 128 {
        ContinueRange(data, pos + 1, nb + 1, acc');
      }
    }
  }

  lemma ContinueBelow(data: seq<Byte>, pos: nat, nb: nat, acc: nat) returns (acc': nat)
    requires nb < 8 && pos < |data| && acc < Weight(nb)
    ensures acc' < Weight(nb + 1)
    ensures Continue(data, pos, nb, 6 + 7 * nb, acc)
         == if data[pos] < 128 then Price(acc', pos + 1) else Continue(data, pos + 1, nb + 1, 6 + 7 * (nb + 1), acc')
  {
    hide Continue, Weight;
    ContinueOnce(data, pos, nb, acc);
    acc' := acc + data[pos] % 128 * Weight(nb);
  }

  lemma ContinueEdges(data: seq<Byte>, pos: nat, nb: nat, shift: nat, acc: int)
    requires nb <= 8
    ensures pos >= |data| ==> Continue(data, pos, nb, shift, acc) == Price(acc, pos)
    ensures pos < |data| ==> pos < Continue(data, pos, nb, shift, acc).next
  {
  }

  lemma WeightBound(nb: nat)
    requires nb <= 8
    ensures Weight(nb) <= TWO_62
    ensures nb == 0 ==> Weight(nb) == 64
    ensures nb == 8 ==> Weight(nb) == TWO_62
  {
    Weights(nb);
  }

  /** Any value decoded from at most nine bytes is below 2^62 in magnitude ... */
  lemma DecodedRange(data: seq<Byte>, pos: nat)
    requires Decode(data, pos).next <= pos + 9
    ensures -TWO_62 < Decode(data, pos).value < TWO_62
  {
    hide Continue, Truncated, Weight;
    if pos < |data| && data[pos] >= 128 {
      WeightBound(0);
      ContinueRange(data, pos + 1, 0, data[pos] % 64);
    }
  }

  /** ... so the sum of two of them, a base and a delta, fits a signed 64-bit integer. */
  lemma SumOfTwoFits(data: seq<Byte>, p: nat, q: nat)
    requires Decode(data, p).next <= p + 9 && Decode(data, q).next <= q + 9
    ensures Wrap64(Decode(data, p).value + Decode(data, q).value)
              == Decode(data, p).value + Decode(data, q).value
  {
    DecodedRange(data, p);
    DecodedRange(data, q);
  }

  // ---------- round trip ----------

  function Groups(n: nat): (r: seq<Byte>)
    ensures |r| > 0
  {
    if n < 128 then [n] else [128 + n % 128] + Groups(n / 128)
  }

  function Magnitude(v: int): nat { if v < 0 then -v else v }

  /** The canonical encoding. */
  function Encode(v: int): (r: seq<Byte>)
    ensures |r| > 0
  {
    var m := Magnitude(v);
    var sign := if v < 0 then 64 else 0;
    if m < 64 then [sign + m] else [128 + sign + m % 64] + Groups(m / 64)
  }

  lemma {:induction false} GroupsDecode(data: seq<Byte>, pos: nat, nb: nat, acc: nat, n: nat)
    requires nb < 8 && acc < Weight(nb) && At(data, pos, Groups(n))
    requires acc + n * Weight(nb) < TWO_62
    ensures Continue(data, pos, nb, 6 + 7 * nb, acc) == Price(acc + n * Weight(nb), pos + |Groups(n)|)
    ensures !Truncated(data, pos, nb)
    decreases n
  {
    hide Weight, Wrap64, Continue;
    var w := Weight(nb);
    AtIndex(data, pos, Groups(n), 0);
    ContinueOnce(data, pos, nb, acc);
    if n >= 128 {
      AtSplit(data, pos, [128 + n % 128], Groups(n / 128));
      Regroup(n, w);
      FewGroups(nb, n);
      GroupsDecode(data, pos + 1, nb + 1, acc + n % 128 * w, n / 128);
    }
  }

  /** No value below 2^62 needs a ninth group. */
  lemma FewGroups(nb: nat, n: nat)
    requires nb < 8 && 128 <= n && n * Weight(nb) < TWO_62
    ensures nb < 7
  {
    if nb == 7 {
      Weights(7);
    }
  }

  lemma Regroup(n: nat, w: nat)
    ensures n % 128 * w + n / 128 * (128 * w) == n * w
  {
  }

  lemma FirstByte(more: bool, negative: bool, low: nat)
    requires low < 64
    ensures var b := (if more then 128 else 0) + (if negative then 64 else 0) + low;
            b < 256 && b % 64 == low && (b / 64 % 2 == 1 <==> negative) && (b >= 128 <==> more)
  {
  }

  /** A first byte with sign and low bits, followed by continuation `c` if it asks for one. */
  lemma DecodeParts(data: seq<Byte>, pos: nat, more: bool, negative: bool, low: nat, c: Price)
    requires pos < |data| && low < 64
    requires data[pos] as int == (if more then 128 else 0) + (if negative then 64 else 0) + low
    requires if more then Continue(data, pos + 1, 0, 6, low) == c && !Truncated(data, pos + 1, 0)
             else c == Price(low, pos + 1)
    requires 0 <= c.value < TWO_62
    ensures Decode(data, pos) == Price(if negative then -c.value else c.value, c.next)
  {
    hide Continue, Truncated;
    FirstByte(more, negative, low);
  }

  lemma DecodeShort(data: seq<Byte>, pos: nat, v: int)
    requires Magnitude(v) < 64 && At(data, pos, Encode(v))
    ensures Decode(data, pos) == Price(v, pos + |Encode(v)|)
  {
    hide Continue, Truncated, Groups, Decode;
    AtIndex(data, pos, Encode(v), 0);
    DecodeParts(data, pos, false, v < 0, Magnitude(v), Price(Magnitude(v), pos + 1));
  }

  lemma DecodeLong(data: seq<Byte>, pos: nat, v: int)
    requires 64 <= Magnitude(v) < TWO_62 && At(data, pos, Encode(v))
    ensures Decode(data, pos) == Price(v, pos + |Encode(v)|)
  {
    hide Continue, Truncated, Groups, Decode, Weight;
    var m := Magnitude(v);
    AtIndex(data, pos, Encode(v), 0);
    AtSplit(data, pos, [128 + (if v < 0 then 64 else 0) + m % 64], Groups(m / 64));
    WeightBound(0);
    GroupsDecode(data, pos + 1, 0, m % 64, m / 64);
    DecodeParts(data, pos, true, v < 0, m % 64, Price(m, pos + 1 + |Groups(m / 64)|));
  }

  /** Round trip: at any position and before any following bytes, decoding the canonical
      encoding of `v` yields `v` and consumes exactly its bytes. */
  lemma DecodeEncode(data: seq<Byte>, pos: nat, v: int)
    requires -TWO_62 < v < TWO_62 && At(data, pos, Encode(v))
    ensures Decode(data, pos) == Price(v, pos + |Encode(v)|)
    ensures pos + |Encode(v)| <= |data|
  {
    hide Decode, Encode;
    if Magnitude(v) < 64 {
      DecodeShort(data, pos, v);
    } else {
      DecodeLong(data, pos, v);
    }
  }

  // ---------- the value of arbitrary bytes ----------

  /** A number in base 128, least significant group first; the top bit of a group only says that
      another one follows. */
  function Digits(groups: seq<Byte>): nat {
    if groups == [] then 0 else groups[0] % 128 + 128 * Digits(groups[1..])
  }

  /** `k` bytes from `pos` on, all but the last asking for another. */
  predicate Chain(data: seq<Byte>, pos: nat, k: nat) {
    && 0 < k && pos + k <= |data| && data[pos + k - 1] < 128
    && forall j :: pos <= j < pos + k - 1 ==> data[j] >= 128
  }

  lemma {:induction false} ContinueDigits(data: seq<Byte>, pos: nat, nb: nat, k: nat, acc: nat)
    requires Chain(data, pos, k) && nb + k <= 8 && acc < Weight(nb)
    ensures Continue(data, pos, nb, 6 + 7 * nb, acc)
         == Price(acc + Digits(data[pos..pos + k]) * Weight(nb), pos + k)
    ensures acc + Digits(data[pos..pos + k]) * Weight(nb) < TWO_62
    ensures !Truncated(data, pos, nb)
    decreases k
  {
    hide Weight, Continue, Digits;
    var groups, w := data[pos..pos + k], Weight(nb);
    ContinueOnce(data, pos, nb, acc);
    FirstDigit(groups, w);
    if k > 1 {
      assert groups[1..] == data[pos + 1..pos + k];
      ContinueDigits(data, pos + 1, nb + 1, k - 1, acc + data[pos] % 128 * w);
    } else {
      assert groups == [data[pos]] && groups[1..] == [];
      TruncatedStep(data, pos, nb);
    }
  }

  lemma TruncatedStep(data: seq<Byte>, pos: nat, nb: nat)
    requires nb < MAX_CONTINUATIONS && pos < |data| && data[pos] < 128
    ensures !Truncated(data, pos, nb)
  {
  }

  lemma FirstDigit(groups: seq<Byte>, w: nat)
    requires groups != []
    ensures Digits(groups) * w == groups[0] % 128 * w + Digits(groups[1..]) * (128 * w)
    ensures groups[1..] == [] ==> Digits(groups[1..]) == 0
  {
    DigitTimes(groups[0] % 128, Digits(groups[1..]), w);
  }

  lemma DigitTimes(d: nat, rest: nat, w: nat)
    ensures (d + 128 * rest) * w == d * w + rest * (128 * w)
  {
    assert (128 * rest) * w == rest * (128 * w);
  }

  /** The value of any one to nine bytes of the form, canonical or not: the first byte gives six
      bits and, as its next bit, the sign, and the groups after it weigh 64, 64 * 128 and so on. */
  lemma DecodedValue(data: seq<Byte>, pos: nat, k: nat)
    requires Chain(data, pos, k + 1) && k <= 8
    ensures var m := data[pos] % 64 + 64 * Digits(data[pos + 1..pos + 1 + k]);
            Decode(data, pos) == Price(if data[pos] % 128 < 64 then m else -m, pos + 1 + k)
  {
    hide Weight, Continue, Truncated;
    WeightBound(0);
    if k == 0 {
      assert data[pos + 1..pos + 1] == [];
    } else {
      ContinueDigits(data, pos + 1, 0, k, data[pos] % 64);
    }
  }

  /** One turn of the continuation whose byte asks for another. */
  lemma ContinueOn(data: seq<Byte>, pos: nat, nb: nat, shift: nat, acc: int) returns (acc': int)
    requires nb < MAX_CONTINUATIONS && pos < |data| && data[pos] >= 128
    ensures -TWO_63 <= acc' < TWO_63
    ensures Continue(data, pos, nb, shift, acc) == Continue(data, pos + 1, nb + 1, shift + 7, acc')
    ensures Truncated(data, pos, nb) == Truncated(data, pos + 1, nb + 1)
  {
    acc' := Wrap64(acc + Wrap64(data[pos] % 128 * Pow2(shift)));
    hide Pow2;
  }

  lemma ContinueEnds(data: seq<Byte>, pos: nat, shift: nat, acc: int)
    requires pos < |data|
    ensures Continue(data, pos, 8, shift, acc).next == pos + 1 && !Truncated(data, pos, 8)
  {
    hide Pow2, Wrap64;
  }

  lemma {:induction false} ContinueAll(data: seq<Byte>, pos: nat, nb: nat, shift: nat, acc: int)
    requires nb <= 8 && pos + (9 - nb) <= |data|
    requires forall j :: pos <= j < pos + 8 - nb ==> data[j] >= 128
    ensures Continue(data, pos, nb, shift, acc).next == pos + (9 - nb) && !Truncated(data, pos, nb)
    decreases MAX_CONTINUATIONS - nb
  {
    hide Continue, Truncated;
    if nb == 8 {
      ContinueEnds(data, pos, shift, acc);
    } else {
      var acc' := ContinueOn(data, pos, nb, shift, acc);
      ContinueAll(data, pos + 1, nb + 1, shift + 7, acc');
    }
  }

  lemma {:induction false} ContinueWraps(data: seq<Byte>, pos: nat, nb: nat, shift: nat, acc: int)
    requires nb <= MAX_CONTINUATIONS && -TWO_63 <= acc < TWO_63
    ensures -TWO_63 <= Continue(data, pos, nb, shift, acc).value < TWO_63
    decreases MAX_CONTINUATIONS - nb
  {
    hide Pow2;
    if nb < MAX_CONTINUATIONS && pos < |data| && data[pos] >= 128 {
      ContinueWraps(data, pos + 1, nb + 1, shift + 7, Wrap64(acc + Wrap64(data[pos] % 128 * Pow2(shift))));
    }
  }

  /** No bytes take the decoder out of a signed 64-bit integer, the negation of the least one
      included, and a value that never ends is given up after ten bytes. */
  lemma DecodedFits(data: seq<Byte>, pos: nat)
    ensures -TWO_63 <= Decode(data, pos).value < TWO_63
    ensures pos + 10 <= |data| && (forall j :: pos <= j < pos + 9 ==> data[j] >= 128) ==>
              Decode(data, pos).next == pos + 10
  {
    hide Continue, Truncated;
    if pos < |data| && data[pos] >= 128 {
      ContinueWraps(data, pos + 1, 0, 6, data[pos] % 64);
      if pos + 10 <= |data| && forall j :: pos <= j < pos + 9 ==> data[j] >= 128 {
        ContinueAll(data, pos + 1, 0, 6, data[pos] % 64);
      }
    }
  }
}
