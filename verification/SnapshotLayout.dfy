/** Keys, key buffers and probe paths of the shared quote table: what the writer,
    the C++ reader and the Python reader have to agree on. */
module SnapshotLayout {

  import opened Bytes
  import opened Options

  /** One machine word of a slot's payload, as a bit pattern. */
  type Word = nat

  const CODE_BYTES := 8
  const QUOTE_WORDS := 28
  const FNV_OFFSET := 2166136261
  const FNV_PRIME := 16777619

  /** The fixed-size payload of a slot. */
  datatype Quote = Quote(words: seq<Word>)

  /** A key as the callers spell it. */
  datatype Code = Code(bytes: seq<Byte>) {
    function Size(): nat { |bytes| }

    /** What `Put` and `Get` accept: 1 to 7 bytes. No stock code contains a zero byte. */
    predicate Accepted() { 1 <= |bytes| <= 7 }
    ghost predicate Text() { forall i :: 0 <= i < |bytes| ==> bytes[i] != 0 }
  }

  // ---------- key buffers ----------

  function Zeros(n: nat): (r: seq<Byte>)
    ensures |r| == n
  {
    seq(n, _ => 0)
  }

  /** The 8-byte buffer `CopyCode` fills. */
  function Padded(c: Code): (r: seq<Byte>)
    requires c.Accepted()
    ensures |r| == CODE_BYTES
  {
    c.bytes + Zeros(CODE_BYTES - c.Size())
  }

  /** The writer's and the C++ reader's comparison: a prefix compare, then a terminator test. */
  predicate Matches(existing: seq<Byte>, c: Code)
    requires |existing| == CODE_BYTES && c.Accepted()
  {
    existing[..c.Size()] == c.bytes && existing[c.Size()] == 0
  }

  /** Index of the first zero byte at or after `from`, or 8. */
  function TerminatorAt(existing: seq<Byte>, from: nat): (r: nat)
    requires |existing| == CODE_BYTES && from <= CODE_BYTES
    ensures from <= r <= CODE_BYTES
    ensures r < CODE_BYTES ==> existing[r] == 0
    ensures forall i :: from <= i < r ==> existing[i] != 0
    decreases CODE_BYTES - from
  {
    if from == CODE_BYTES || existing[from] == 0 then from else TerminatorAt(existing, from + 1)
  }

  /** The Python reader's comparison: cut at the first zero byte, then compare whole strings. */
  predicate MatchesPython(existing: seq<Byte>, c: Code)
    requires |existing| == CODE_BYTES && c.Accepted()
  {
    var end := TerminatorAt(existing, 0);
    end == c.Size() && existing[..end] == c.bytes
  }

  /** A stored key matches a searched key exactly when they are the same key: no key is
      taken for a longer or shorter one. */
  lemma MatchesIsKeyEquality(k: Code, c: Code)
    requires k.Accepted() && k.Text() && c.Accepted() && c.Text()
    ensures Matches(Padded(k), c) <==> k == c
    ensures Padded(k)[0] != 0
  {
    var buffer := Padded(k);
    assert buffer[k.Size()] == 0;
    assert c.Size() < k.Size() ==> buffer[c.Size()] == k.bytes[c.Size()];
    if Matches(buffer, c) {
      assert forall i :: 0 <= i < c.Size() ==> c.bytes[i] == buffer[..c.Size()][i] == buffer[i];
      assert k.Size() == c.Size();
      assert buffer[..c.Size()] == k.bytes;
    }
  }

  /** Both readers decide every comparison alike, on every buffer. */
  lemma ReadersCompareAlike(existing: seq<Byte>, c: Code)
    requires |existing| == CODE_BYTES && c.Accepted() && c.Text()
    ensures MatchesPython(existing, c) <==> Matches(existing, c)
  {
  }

  // ---------- hashing ----------

  function HashStep(h: nat, b: Byte): (r: nat)
    requires h < TWO_32
    ensures r < TWO_32
  {
    (((h as bv32) ^ (b as bv32)) as nat * FNV_PRIME) % TWO_32
  }

  /** FNV-1a over 32 bits. */
  function Fnv(bytes: seq<Byte>): (r: nat)
    ensures r < TWO_32
  {
    if bytes == [] then FNV_OFFSET else HashStep(Fnv(bytes[..|bytes| - 1]), bytes[|bytes| - 1])
  }

  method Hash(bytes: seq<Byte>) returns (h: nat)
    ensures h == Fnv(bytes)
  {
    hide HashStep;
    h := FNV_OFFSET;
    for i := 0 to |bytes|
      invariant h == Fnv(bytes[..i])
    {
      assert bytes[..i + 1][..i] == bytes[..i];
      h := HashStep(h, bytes[i]);
    }
    assert bytes[..|bytes|] == bytes;
  }

  // ---------- probe paths ----------

  /** The `probe`-th slot visited for a key. The table's size is a power of two, so the
      mask is the remainder. */
  function Path(count: nat, c: Code, probe: nat): (r: nat)
    requires 0 < count
    ensures r < count
  {
    (Fnv(c.bytes) % count + probe) % count
  }

  lemma WrapOnce(x: nat, n: nat)
    requires 0 < n && x < 2 * n
    ensures x % n == if x < n then x else x - n
  {
  }

  lemma PathUnfold(count: nat, c: Code, probe: nat)
    requires probe < count
    ensures var home := Fnv(c.bytes) % count;
            Path(count, c, probe) == if home + probe < count then home + probe else home + probe - count
  {
    WrapOnce(Fnv(c.bytes) % count + probe, count);
  }

  /** One round of probing visits every slot exactly once. */
  lemma PathCovers(count: nat, c: Code, slot: nat) returns (probe: nat)
    requires slot < count
    ensures probe < count && Path(count, c, probe) == slot
  {
    var home := Fnv(c.bytes) % count;
    probe := if home <= slot then slot - home else slot + count - home;
    PathUnfold(count, c, probe);
  }

  lemma PathInjective(count: nat, c: Code, i: nat, j: nat)
    requires i < count && j < count && Path(count, c, i) == Path(count, c, j)
    ensures i == j
  {
    PathUnfold(count, c, i);
    PathUnfold(count, c, j);
  }

  // ---------- the Python reader's lookup ----------

  function PythonStep(h: nat, b: Byte): (r: nat)
    requires h < 0x1_0000_0000
    ensures r < 0x1_0000_0000
  {
    (((h as bv32) ^ (b as bv32)) as nat * 16777619) % 0x1_0000_0000
  }

  /** Its hash, folded from the left. */
  function PythonHash(h: nat, bytes: seq<Byte>): (r: nat)
    requires h < 0x1_0000_0000
    ensures r < 0x1_0000_0000
    decreases bytes
  {
    if bytes == [] then h else PythonHash(PythonStep(h, bytes[0]), bytes[1..])
  }

  /** Its cursor, moved on slot by slot. */
  function PythonSlot(count: nat, home: nat, probe: nat): nat
    requires 0 < count
  {
    if probe == 0 then home else (PythonSlot(count, home, probe - 1) + 1) % count
  }

  lemma StepsAlike(h: nat, b: Byte)
    requires h < TWO_32
    ensures HashStep(h, b) == PythonStep(h, b)
  {
  }

  lemma {:induction false} HashSnoc(h: nat, bytes: seq<Byte>, b: Byte)
    requires h < TWO_32
    ensures PythonHash(h, bytes + [b]) == PythonStep(PythonHash(h, bytes), b)
    decreases bytes
  {
    hide PythonStep;
    if bytes == [] {
      assert ([] + [b])[1..] == [];
    } else {
      assert (bytes + [b])[1..] == bytes[1..] + [b];
      HashSnoc(PythonStep(h, bytes[0]), bytes[1..], b);
    }
  }

  /** Writer and Python reader agree on the hash of every code: FNV-1a over 32 bits, with its
      published start and prime, exclusive-or first. */
  lemma {:induction false} HashesAlike(bytes: seq<Byte>)
    ensures Fnv(bytes) == PythonHash(2166136261, bytes)
  {
    hide HashStep, PythonStep;
    if bytes != [] {
      var front, last := bytes[..|bytes| - 1], bytes[|bytes| - 1];
      assert bytes == front + [last];
      HashesAlike(front);
      HashSnoc(2166136261, front, last);
      StepsAlike(Fnv(front), last);
    }
  }

  /** And so they visit the same slots in the same order. */
  lemma {:induction false} ProbesAlike(count: nat, c: Code, probe: nat)
    requires probe < count
    ensures Path(count, c, probe) == PythonSlot(count, PythonHash(2166136261, c.bytes) % count, probe)
  {
    hide Fnv, PythonHash, Path;
    HashesAlike(c.bytes);
    PathUnfold(count, c, probe);
    if probe > 0 {
      ProbesAlike(count, c, probe - 1);
      PathUnfold(count, c, probe - 1);
      WrapOnce(Path(count, c, probe - 1) + 1, count);
    }
  }
}
