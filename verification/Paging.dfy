/** Collecting one text page by page: each request asks for at most 32000 bytes, each reply
    says how many bytes it brings, and the next request starts after them. */
module Paging {
  import opened Bytes
  import opened Sequences

  const CHUNK := 32000
  const HEADER := 12

  datatype Page = Stop | Text(bytes: seq<Byte>)

  /** A server's reply body, by the number of the request, its start and its length. */
  type Server = (nat, nat, nat) -> seq<Byte>

  /** The text of a reply: a 12-byte header whose last two bytes are the count, then the text.
      A short body, a zero count and a count beyond the body end the collection. */
  function PageOf(reply: seq<Byte>): (r: Page)
    ensures r.Text? ==> 0 < |r.bytes| < TWO_16
  {
    if |reply| < HEADER then Stop
    else
      var got := Read16(reply, 10);
      if got == 0 || HEADER + got > |reply| then Stop else Text(reply[HEADER..HEADER + got])
  }

  function Want(length: nat, offset: nat): nat
    requires offset < length
  {
    if length - offset < CHUNK then length - offset else CHUNK
  }

  /** The reply to request number `turn`; the start of the range is a 32-bit sum. */
  function Reply(server: Server, start: nat, length: nat, offset: nat, turn: nat): Page
    requires offset < length
  {
    PageOf(server(turn, (start + offset) % TWO_32, Want(length, offset)))
  }

  function Collected(server: Server, start: nat, length: nat, offset: nat, turn: nat): seq<Byte>
    decreases if offset < length then length - offset else 0
  {
    if offset >= length then []
    else
      match Reply(server, start, length, offset, turn)
      case Stop => []
      case Text(bytes) => bytes + Collected(server, start, length, offset + |bytes|, turn + 1)
  }

  /** The bytes collected, and whether the collection ended by itself. */
  datatype Collection = Collection(raw: seq<Byte>, ended: bool)

  /** What at most `requests` requests collect, with the offset's 32-bit wrap-around. */
  function Gathered(server: Server, start: nat, length: nat, offset: nat, turn: nat, requests: nat): Collection
    decreases requests
  {
    if offset >= length then Collection([], true)
    else if requests == 0 then Collection([], false)
    else
      match Reply(server, start, length, offset, turn)
      case Stop => Collection([], true)
      case Text(bytes) =>
        var rest := Gathered(server, start, length, (offset + |bytes|) % TWO_32, turn + 1, requests - 1);
        Collection(bytes + rest.raw, rest.ended)
  }

  /** The request loop, watched for at most `requests` requests. */
  method GetFullText(server: Server, start: nat, length: nat, requests: nat) returns (raw: seq<Byte>, ended: bool)
    ensures Collection(raw, ended) == Gathered(server, start, length, 0, 0, requests)
  {
    hide PageOf, Gathered;
    raw, ended := [], true;
    var offset: nat, turn: nat := 0, 0;
    while offset < length && turn < requests
      invariant turn <= requests
      invariant var rest := Gathered(server, start, length, offset, turn, requests - turn);
                Collection(raw + rest.raw, rest.ended) == Gathered(server, start, length, 0, 0, requests)
      decreases requests - turn
    {
      var want := if CHUNK < length - offset then CHUNK else length - offset;
      var page := PageOf(server(turn, (start + offset) % TWO_32, want));
      OneRequest(server, start, length, offset, turn, requests - turn);
      if page == Stop {
        assert raw + [] == raw;
        return;
      }
      Associative(raw, page.bytes,
                  Gathered(server, start, length, (offset + |page.bytes|) % TWO_32, turn + 1, requests - turn - 1).raw);
      raw := raw + page.bytes;
      offset := (offset + |page.bytes|) % TWO_32;
      turn := turn + 1;
    }
    LastRequest(server, start, length, offset, turn, requests - turn);
    assert raw + [] == raw;
    ended := offset >= length;
  }

  lemma OneRequest(server: Server, start: nat, length: nat, offset: nat, turn: nat, requests: nat)
    requires offset < length && 0 < requests
    ensures var page := Reply(server, start, length, offset, turn);
            Gathered(server, start, length, offset, turn, requests)
              == if page.Stop? then Collection([], true)
                 else
                   var rest := Gathered(server, start, length, (offset + |page.bytes|) % TWO_32,
                                        turn + 1, requests - 1);
                   Collection(page.bytes + rest.raw, rest.ended)
  {
    hide PageOf;
  }

  lemma LastRequest(server: Server, start: nat, length: nat, offset: nat, turn: nat, requests: nat)
    requires offset >= length || requests == 0
    ensures Gathered(server, start, length, offset, turn, requests) == Collection([], offset >= length)
  {
  }

  /** Against any server, a text that ends a page before 2^32 is collected by at most one
      request a byte: the loop ends, and its offset never wraps around. */
  lemma {:induction false} ShortTextsEnd(server: Server, start: nat, length: nat, offset: nat, turn: nat, requests: nat)
    requires length <= TWO_32 - TWO_16 && length <= offset + requests
    ensures Gathered(server, start, length, offset, turn, requests)
         == Collection(Collected(server, start, length, offset, turn), true)
    decreases requests
  {
    hide PageOf;
    if offset < length {
      var page := Reply(server, start, length, offset, turn);
      if page.Text? {
        assert (offset + |page.bytes|) % TWO_32 == offset + |page.bytes|;
        ShortTextsEnd(server, start, length, offset + |page.bytes|, turn + 1, requests - 1);
      }
    }
  }

  lemma AllRead(server: Server, start: nat, length: nat, offset: nat, turn: nat)
    requires offset >= length
    ensures Collected(server, start, length, offset, turn) == []
  {
  }

  lemma OnePage(server: Server, start: nat, length: nat, offset: nat, turn: nat)
    requires offset < length
    ensures var page := Reply(server, start, length, offset, turn);
            Collected(server, start, length, offset, turn)
              == if page.Stop? then []
                 else page.bytes + Collected(server, start, length, offset + |page.bytes|, turn + 1)
  {
  }

  // ---------- a server of one file ----------

  /** A text is a non-empty prefix, of whatever length, of the range asked for. */
  ghost predicate ServesPrefixes(server: Server, file: seq<Byte>) {
    forall turn: nat, at: nat, want: nat :: 0 < want && at + want <= |file| && PageOf(server(turn, at, want)).Text? ==>
      var bytes := PageOf(server(turn, at, want)).bytes;
      |bytes| <= want && bytes == file[at..at + |bytes|]
  }

  ghost predicate NeverStops(server: Server, file: seq<Byte>) {
    forall turn: nat, at: nat, want: nat :: at + want <= |file| && 0 < want ==> PageOf(server(turn, at, want)).Text?
  }

  /** Some request for the bytes from `at` on was answered with a stop. */
  ghost predicate StoppedAt(server: Server, at: nat, want: nat) {
    exists turn: nat :: PageOf(server(turn, at, want)) == Stop
  }

  lemma {:induction false} CollectsPrefix(server: Server, file: seq<Byte>, start: nat, length: nat,
                                          offset: nat, turn: nat)
    requires ServesPrefixes(server, file) && start + length <= |file| <= TWO_32 && offset <= length
    ensures var r := Collected(server, start, length, offset, turn);
            && offset + |r| <= length
            && r == file[start + offset..start + offset + |r|]
            && (offset + |r| < length ==> StoppedAt(server, start + offset + |r|, Want(length, offset + |r|)))
    decreases length - offset
  {
    hide PageOf, Collected, ServesPrefixes, StoppedAt, Reply;
    if offset < length {
      OnePage(server, start, length, offset, turn);
      Served(server, file, start, length, offset, turn);
      var page := Reply(server, start, length, offset, turn);
      if page.Text? {
        var next := offset + |page.bytes|;
        CollectsPrefix(server, file, start, length, next, turn + 1);
        Adjoin(file, start + offset, page.bytes, Collected(server, start, length, next, turn + 1));
      }
    } else {
      AllRead(server, start, length, offset, turn);
    }
  }

  lemma Served(server: Server, file: seq<Byte>, start: nat, length: nat, offset: nat, turn: nat)
    requires ServesPrefixes(server, file) && start + length <= |file| <= TWO_32 && offset < length
    ensures var page := Reply(server, start, length, offset, turn);
            && (page.Text? ==> 0 < |page.bytes| <= length - offset)
            && (page.Text? ==> page.bytes == file[start + offset..start + offset + |page.bytes|])
            && (page.Stop? ==> StoppedAt(server, start + offset, Want(length, offset)))
  {
  }

  lemma Adjoin(file: seq<Byte>, at: nat, a: seq<Byte>, b: seq<Byte>)
    requires at + |a| + |b| <= |file| && a == file[at..at + |a|] && b == file[at + |a|..at + |a| + |b|]
    ensures a + b == file[at..at + |a + b|]
  {
  }

  /** Such a server is collected by at most one request a byte, up to the longest 32-bit
      length. */
  lemma {:induction false} PrefixServersEnd(server: Server, file: seq<Byte>, start: nat, length: nat,
                                            offset: nat, turn: nat, requests: nat)
    requires ServesPrefixes(server, file) && start + length <= |file| <= TWO_32 && length < TWO_32
    requires offset <= length <= offset + requests
    ensures Gathered(server, start, length, offset, turn, requests)
         == Collection(Collected(server, start, length, offset, turn), true)
    decreases requests
  {
    hide PageOf, ServesPrefixes, StoppedAt, Reply;
    if offset < length {
      Served(server, file, start, length, offset, turn);
      var page := Reply(server, start, length, offset, turn);
      if page.Text? {
        PrefixServersEnd(server, file, start, length, offset + |page.bytes|, turn + 1, requests - 1);
      }
    }
  }

  /** Whatever lengths the server picks, and wherever it stops, what is collected is the
      beginning of `file[start..start + length]`; it is short only if the server stopped at
      its end. */
  lemma EarlyStopKeepsPrefix(server: Server, file: seq<Byte>, start: nat, length: nat)
    requires ServesPrefixes(server, file) && start + length <= |file| <= TWO_32
    ensures var r := Collected(server, start, length, 0, 0);
            && |r| <= length && r == file[start..start + |r|]
            && (|r| < length ==> StoppedAt(server, start + |r|, Want(length, |r|)))
  {
    hide Collected, StoppedAt, ServesPrefixes;
    CollectsPrefix(server, file, start, length, 0, 0);
  }

  /** A server that never stops yields exactly the range. */
  lemma PagesReassemble(server: Server, file: seq<Byte>, start: nat, length: nat)
    requires ServesPrefixes(server, file) && NeverStops(server, file) && start + length <= |file| <= TWO_32
    ensures Collected(server, start, length, 0, 0) == file[start..start + length]
  {
    hide Collected, NeverStops, StoppedAt, ServesPrefixes;
    EarlyStopKeepsPrefix(server, file, start, length);
    var r := Collected(server, start, length, 0, 0);
    if |r| < length {
      NeverStopped(server, file, start + |r|, Want(length, |r|));
    }
  }

  lemma NeverStopped(server: Server, file: seq<Byte>, at: nat, want: nat)
    requires NeverStops(server, file) && at + want <= |file| && 0 < want
    ensures !StoppedAt(server, at, want)
  {
  }

  // ---------- the reply format ----------

  /** A reply that carries `bytes`: ten header bytes, the count, the text, anything after. */
  function Printed(header: seq<Byte>, bytes: seq<Byte>, trailer: seq<Byte>): seq<Byte>
    requires |bytes| < TWO_16
  {
    header + Print16(|bytes|) + bytes + trailer
  }

  lemma PageOfPrinted(header: seq<Byte>, bytes: seq<Byte>, trailer: seq<Byte>)
    requires |header| == 10 && 0 < |bytes| < TWO_16
    ensures PageOf(Printed(header, bytes, trailer)) == Text(bytes)
  {
  }

  /** A server that prints, in the reply format, the first `pick(turn, at, want)` bytes of
      every range it is asked for is read back completely. */
  lemma AnyPageLengthsReassemble(file: seq<Byte>, header: seq<Byte>, pick: (nat, nat, nat) -> nat,
                                 server: Server, start: nat, length: nat)
    requires |header| == 10 && start + length <= |file| <= TWO_32
    requires forall turn: nat, at: nat, want: nat ::
               0 < want ==> 0 < pick(turn, at, want) <= want && pick(turn, at, want) < TWO_16
    requires forall turn: nat, at: nat, want: nat :: 0 < want && at + want <= |file| ==>
               server(turn, at, want) == Printed(header, file[at..at + pick(turn, at, want)], [])
    ensures Collected(server, start, length, 0, 0) == file[start..start + length]
  {
    forall turn: nat, at: nat, want: nat | 0 < want && at + want <= |file|
      ensures PageOf(server(turn, at, want)) == Text(file[at..at + pick(turn, at, want)])
    {
      PageOfPrinted(header, file[at..at + pick(turn, at, want)], []);
    }
    hide PageOf;
    PagesReassemble(server, file, start, length);
  }

  // ---------- the count is not compared with the request ----------

  /** Against an arbitrary server the text is at most one page too long... */
  lemma {:induction false} AtMostOnePageOver(server: Server, start: nat, length: nat, offset: nat, turn: nat)
    ensures var r := Collected(server, start, length, offset, turn);
            offset < length ==> offset + |r| < length + TWO_16 - 1
    decreases if offset < length then length - offset else 0
  {
    if offset < length {
      var page := Reply(server, start, length, offset, turn);
      if page.Text? {
        AtMostOnePageOver(server, start, length, offset + |page.bytes|, turn + 1);
      }
    }
  }

  /** ... and it can be: asked for one byte, the server sends two and both are kept. */
  lemma ReplyMayExceedRequest(header: seq<Byte>, start: nat)
    requires |header| == 10
    ensures Collected((turn, at, want) => Printed(header, [7, 8], []), start, 1, 0, 0) == [7, 8]
  {
  }

  /** The reply to a request brings no more than was asked for. */
  predicate Modest(server: Server, turn: nat, at: nat, want: nat) {
    var page := PageOf(server(turn, at, want));
    page.Text? ==> |page.bytes| <= want
  }

  ghost predicate AllModest(server: Server) {
    forall turn: nat, at: nat, want: nat :: at < TWO_32 && 0 < want <= CHUNK ==> Modest(server, turn, at, want)
  }

  lemma {:induction false} ModestFits(server: Server, start: nat, length: nat, offset: nat, turn: nat)
    requires AllModest(server) && offset <= length
    ensures offset + |Collected(server, start, length, offset, turn)| <= length
    decreases length - offset
  {
    hide PageOf;
    if offset < length {
      var page := Reply(server, start, length, offset, turn);
      assert Modest(server, turn, (start + offset) % TWO_32, Want(length, offset));
      if page.Text? {
        ModestFits(server, start, length, offset + |page.bytes|, turn + 1);
      }
    }
  }

  lemma ImmodestOverruns(server: Server, turn: nat, at: nat, want: nat)
    requires at < TWO_32 && 0 < want <= CHUNK && !Modest(server, turn, at, want)
    ensures |Collected(server, at, want, 0, turn)| > want
  {
    hide PageOf;
    assert (at + 0) % TWO_32 == at && Want(want, 0) == want;
    OnePage(server, at, want, 0, turn);
  }

  /** No text comes out too long, whatever is asked for and whenever, if and only if no reply
      brings more than was asked for. */
  lemma NeverTooLongExactly(server: Server)
    ensures (forall start: nat, length: nat, turn: nat :: |Collected(server, start, length, 0, turn)| <= length)
              <==> AllModest(server)
  {
    hide Collected, Modest;
    if AllModest(server) {
      forall start: nat, length: nat, turn: nat ensures |Collected(server, start, length, 0, turn)| <= length {
        ModestFits(server, start, length, 0, turn);
      }
    } else {
      var turn: nat, at: nat, want: nat :| at < TWO_32 && 0 < want <= CHUNK && !Modest(server, turn, at, want);
      ImmodestOverruns(server, turn, at, want);
    }
  }

  // ---------- the offset wraps around ----------

  lemma {:induction false} EvenOffsetNeverEnds(server: Server, page: seq<Byte>, start: nat, offset: nat,
                                               turn: nat, requests: nat)
    requires |page| == 65534 && forall t: nat, at: nat, want: nat :: PageOf(server(t, at, want)) == Text(page)
    requires offset < TWO_32 && offset % 2 == 0
    ensures !Gathered(server, start, TWO_32 - 1, offset, turn, requests).ended
    decreases requests
  {
    hide PageOf;
    if requests > 0 {
      assert Reply(server, start, TWO_32 - 1, offset, turn) == Text(page);
      EvenStep(offset);
      EvenOffsetNeverEnds(server, page, start, (offset + 65534) % TWO_32, turn + 1, requests - 1);
    }
  }

  /** Near 2^32 the loop need not end: a server that always sends 65534 bytes keeps the offset
      even, past the wrap-around too, and it never reaches the odd length 2^32 - 1. */
  lemma WrappedOffsetNeverEnds(header: seq<Byte>, page: seq<Byte>, start: nat, requests: nat)
    requires |header| == 10 && |page| == 65534
    ensures !Gathered((turn, at, want) => Printed(header, page, []), start, TWO_32 - 1, 0, 0, requests).ended
  {
    var server: Server := (turn, at, want) => Printed(header, page, []);
    PageOfPrinted(header, page, []);
    EvenOffsetNeverEnds(server, page, start, 0, 0, requests);
  }

  lemma EvenStep(offset: nat)
    requires offset < TWO_32 && offset % 2 == 0
    ensures (offset + 65534) % TWO_32 < TWO_32 && (offset + 65534) % TWO_32 % 2 == 0
  {
  }

  // ---------- requests and replies, byte by byte ----------

  /** What counts of a reply: nothing of one that is shorter than twelve bytes, counts none or
      counts beyond its end; of any other the header and exactly the counted bytes. */
  function Counted(reply: seq<Byte>): seq<Byte> {
    if |reply| < 12 then []
    else
      var count := reply[10] as int + 256 * (reply[11] as int);
      if count == 0 || 12 + count > |reply| then [] else reply[..12 + count]
  }

  /** Only that matters: against a server whose replies are cut down to it, empty where nothing
      counts, the text is the same, whatever else the server sends. */
  lemma {:induction false} OnlyCountedBytesMatter(server: Server, start: nat, length: nat, offset: nat, turn: nat)
    ensures Collected(server, start, length, offset, turn)
         == Collected((t, at, want) => Counted(server(t, at, want)), start, length, offset, turn)
    decreases if offset < length then length - offset else 0
  {
    hide PageOf, Counted;
    if offset < length {
      var reply := server(turn, (start + offset) % TWO_32, Want(length, offset));
      SamePage(reply);
      match PageOf(reply)
      case Stop =>
      case Text(bytes) =>
        PageIsCounted(reply);
        OnlyCountedBytesMatter(server, start, length, offset + |bytes|, turn + 1);
    }
  }

  lemma SamePage(reply: seq<Byte>)
    ensures PageOf(Counted(reply)) == PageOf(reply)
  {
  }

  lemma PageIsCounted(reply: seq<Byte>)
    ensures PageOf(reply).Text? ==> 0 < |PageOf(reply).bytes|
  {
  }

  /** Against a server that fills every request, a text below 4 GB takes a request for every 32000
      bytes begun, and no more. */
  lemma {:induction false} FullPagesCount(server: Server, start: nat, length: nat, offset: nat, turn: nat,
                                          requests: nat)
    requires length < TWO_32
    requires forall t: nat, at: nat, want: nat :: 0 < want <= 32000 ==>
               var page := PageOf(server(t, at, want)); page.Text? && |page.bytes| == want
    ensures Gathered(server, start, length, offset, turn, requests).ended <==> offset + requests * 32000 >= length
    decreases requests
  {
    hide PageOf;
    if offset < length && requests > 0 {
      var page := Reply(server, start, length, offset, turn);
      assert (offset + |page.bytes|) % TWO_32 == offset + |page.bytes|;
      FullPagesCount(server, start, length, offset + |page.bytes|, turn + 1, requests - 1);
    }
  }
}
