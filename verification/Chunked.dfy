/** Chunked transfer coding: the writer in connection.py and the reader in response.py (RFC 9112, section 7.1). */
module Chunked {
  import opened Bytes
  import opened Codec
  import opened Response

  const CR: byte := 13
  const LF: byte := 10
  const CRLF: bytes := [CR, LF]

  // ---- sizes in hexadecimal ------------------------------------------------------------------

  function HexChar(d: nat): byte
    requires d < 16
  {
    if d < 10 then (48 + d) as byte else (87 + d) as byte
  }

  /** `%x` of a chunk's length. */
  function Hex(n: nat): (s: bytes)
    ensures s != []
  {
    if n < 16 then [HexChar(n)] else Hex(n / 16) + [HexChar(n % 16)]
  }

  function HexValue(b: byte): Option<nat> {
    if 48 <= b < 58 then Some(b as nat - 48)
    else if 97 <= b < 103 then Some(b as nat - 87)
    else if 65 <= b < 71 then Some(b as nat - 55)
    else None
  }

  predicate IsSpace(b: byte) {
    b == 32 || 9 <= b <= 13
  }

  function StripLeft(s: bytes): bytes {
    if s != [] && IsSpace(s[0]) then StripLeft(s[1..]) else s
  }

  function StripRight(s: bytes): bytes {
    if s != [] && IsSpace(s[|s| - 1]) then StripRight(s[..|s| - 1]) else s
  }

  /** Hexadecimal digits, single underscores allowed between two of them. */
  function Digits(s: bytes): Option<nat> {
    if s == [] then None
    else
      var d := HexValue(s[|s| - 1]);
      var init := s[..|s| - 1];
      if d.None? || init == [] then d
      else
        var high := Digits(if init[|init| - 1] == 95 then init[..|init| - 1] else init);
        if high.None? then None else Some(16 * high.value + d.value)
  }

  /** Python's `int(s, 16)`: surrounding space, a sign, a 0x prefix and underscores are all let through. */
  function ParseHex(s: bytes): Option<int> {
    var t := StripRight(StripLeft(s));
    var negative := t != [] && t[0] == 45;
    var u := if t != [] && (t[0] == 45 || t[0] == 43) then t[1..] else t;
    var v := if |u| >= 2 && u[0] == 48 && (u[1] == 120 || u[1] == 88) then
               (if |u| >= 3 && u[2] == 95 then u[3..] else u[2..])
             else u;
    match Digits(v)
    case None => None
    case Some(n) => Some(if negative then -(n as int) else n)
  }

  lemma {:induction false} DigitsOfHex(n: nat)
    ensures Digits(Hex(n)) == Some(n)
    ensures forall b :: b in Hex(n) ==> HexValue(b).Some? && !IsSpace(b) && b != LF && b != 59 && b != 95
    ensures |Hex(n)| >= 2 ==> Hex(n)[0] != 48
    ensures n > 0 ==> Hex(n)[0] != 48
  {
    if n >= 16 {
      DigitsOfHex(n / 16);
      var s := Hex(n);
      assert s[..|s| - 1] == Hex(n / 16);
    }
  }

  lemma StripCrlf(h: bytes)
    requires h != [] && !IsSpace(h[0]) && !IsSpace(h[|h| - 1])
    ensures StripRight(StripLeft(h + CRLF)) == h
  {
    var s := h + CRLF;
    assert StripLeft(s) == s;
    assert s[..|s| - 1] == h + [CR] && (h + [CR])[..|h|] == h;
    assert StripRight(h) == h;
    assert StripRight(h + [CR]) == h;
    assert StripRight(s) == h;
  }

  /** The size line the writer sends is read back as the length it stands for. */
  lemma SizeRoundTrip(n: nat)
    ensures ParseHex(Hex(n) + CRLF) == Some(n)
  {
    hide Digits, Hex, HexValue, IsSpace, StripLeft, StripRight;
    DigitsOfHex(n);
    var h := Hex(n);
    assert h[0] in h && h[|h| - 1] in h;
    StripCrlf(h);
    SignsAreNotDigits();
    assert HexValue(h[0]).Some?;
    assert |h| >= 2 ==> h[0] != 48;
  }

  lemma SignsAreNotDigits()
    ensures HexValue(45).None? && HexValue(43).None?
  {
  }

  // ---- lines ---------------------------------------------------------------------------------

  /** Everything up to the first line feed, that included; all of `s` when there is none. */
  function Line(s: bytes): (l: bytes)
    ensures l <= s
    ensures s != [] ==> l != []
  {
    if s == [] then [] else if s[0] == LF then s[..1] else s[..1] + Line(s[1..])
  }

  function BeforeSemicolon(s: bytes): bytes {
    if s == [] || s[0] == 59 then [] else s[..1] + BeforeSemicolon(s[1..])
  }

  /** The chunk size a line announces; extensions after a semicolon are ignored. */
  function SizeOf(line: bytes): Option<int> {
    ParseHex(BeforeSemicolon(line))
  }

  ghost predicate IsLine(l: bytes) {
    l != [] && l[|l| - 1] == LF && LF !in l[..|l| - 1]
  }

  lemma {:induction false} LineOf(l: bytes, rest: bytes)
    requires IsLine(l)
    ensures Line(l + rest) == l && (l + rest)[|l|..] == rest
  {
    if |l| > 1 {
      assert (l + rest)[1..] == l[1..] + rest;
      assert l[0] in l[..|l| - 1];
      assert l[1..][..|l[1..]| - 1] == l[..|l| - 1][1..];
      LineOf(l[1..], rest);
    }
  }

  lemma {:induction false} NoSemicolon(s: bytes)
    requires 59 !in s
    ensures BeforeSemicolon(s) == s
  {
    if s == [] {
    } else {
      NoSemicolon(s[1..]);
    }
  }

  lemma NoLineNoSize()
    ensures SizeOf([]).None?
  {
  }

  // ---- what a chunked body says --------------------------------------------------------------

  function Prepend(data: bytes, p: Option<(bytes, bytes)>): Option<(bytes, bytes)> {
    if p.None? then None else Some((data + p.value.0, p.value.1))
  }

  /** The body a chunked stream carries and what follows its last chunk; None for a broken stream. */
  function Parse(wire: bytes): Option<(bytes, bytes)>
    decreases |wire|, 0
  {
    var line := Line(wire);
    match SizeOf(line)
    case None => None
    case Some(n) => NoLineNoSize(); Remaining(n, wire[|line|..])
  }

  /** The same from inside a chunk of which `n` bytes are still to come. */
  function Remaining(n: int, wire: bytes): Option<(bytes, bytes)>
    decreases |wire|, 1
  {
    if n < 0 then None
    else if n == 0 then Some(([], wire))
    else if |wire| < n + 2 then None
    else Prepend(wire[..n], Parse(wire[n + 2..]))
  }

  function ParseFrom(left: Option<int>, wire: bytes): Option<(bytes, bytes)> {
    if left.None? then Parse(wire) else Remaining(left.value, wire)
  }

  /** What is left after the trailer section: lines up to an empty one, or up to the end. */
  function SkipTrailer(wire: bytes): (rest: bytes)
    decreases |wire|
  {
    var line := Line(wire);
    if line == [] then wire
    else if line == CRLF then wire[|line|..]
    else SkipTrailer(wire[|line|..])
  }

  // ---- the writer ----------------------------------------------------------------------------

  function FrameChunk(block: bytes): bytes {
    if block == [] then [] else Hex(|block|) + CRLF + block + CRLF
  }

  function FrameChunks(blocks: seq<bytes>): bytes {
    if blocks == [] then [] else FrameChunk(blocks[0]) + FrameChunks(blocks[1..])
  }

  const LAST_CHUNK: bytes := [48] + CRLF + CRLF

  function Frame(blocks: seq<bytes>): bytes {
    FrameChunks(blocks) + LAST_CHUNK
  }

  lemma {:induction false} FrameSnoc(blocks: seq<bytes>, b: bytes)
    ensures FrameChunks(blocks + [b]) == FrameChunks(blocks) + FrameChunk(b)
  {
    if blocks == [] {
      assert [] + [b] == [b];
    } else {
      assert (blocks + [b])[1..] == blocks[1..] + [b];
      FrameSnoc(blocks[1..], b);
    }
  }

  /** The body loop of `request` with chunked framing: empty blocks are left out, a last chunk closes the body. */
  method SendChunked(blocks: seq<bytes>) returns (sent: bytes)
    ensures sent == Frame(blocks)
  {
    sent := [];
    var i := 0;
    while i < |blocks|
      invariant 0 <= i <= |blocks| && sent == FrameChunks(blocks[..i])
    {
      var chunk := blocks[i];
      assert blocks[..i + 1] == blocks[..i] + [chunk];
      FrameSnoc(blocks[..i], chunk);
      i := i + 1;
      if chunk == [] {
        continue;
      }
      sent := sent + (Hex(|chunk|) + CRLF + chunk + CRLF);
    }
    assert blocks[..|blocks|] == blocks;
    sent := sent + ([48] + CRLF + CRLF);
  }

  // ---- any well-formed framing is read back ----------------------------------------------------

  /** A chunk as any sender may frame it: its size line, extensions and all, and its data. */
  datatype Chunk = Chunk(line: bytes, data: bytes)

  ghost predicate WellFramed(c: Chunk) {
    IsLine(c.line) && c.data != [] && SizeOf(c.line) == Some(|c.data|)
  }

  function Wire(chunks: seq<Chunk>): bytes {
    if chunks == [] then [] else chunks[0].line + chunks[0].data + CRLF + Wire(chunks[1..])
  }

  function Body(chunks: seq<Chunk>): bytes {
    if chunks == [] then [] else chunks[0].data + Body(chunks[1..])
  }

  lemma ParseOne(c: Chunk, more: bytes)
    requires WellFramed(c)
    ensures Parse(c.line + (c.data + CRLF + more)) == Prepend(c.data, Parse(more))
  {
    hide SizeOf, IsLine;
    var after := c.data + CRLF + more;
    LineOf(c.line, after);
    assert after[..|c.data|] == c.data && after[|c.data| + 2..] == more;
    assert Parse(c.line + after) == Remaining(|c.data|, after);
  }

  /** Any chunk extensions, any spelling of the sizes: the data is read back, up to and including the last chunk. */
  lemma {:induction false} ParseFramed(chunks: seq<Chunk>, last: bytes, rest: bytes)
    requires (forall c :: c in chunks ==> WellFramed(c)) && IsLine(last) && SizeOf(last) == Some(0)
    ensures Parse(Wire(chunks) + last + rest) == Some((Body(chunks), rest))
    decreases |chunks|
  {
    hide SizeOf, IsLine, WellFramed;
    if chunks == [] {
      assert Wire(chunks) + last + rest == last + rest;
      LineOf(last, rest);
    } else {
      var c, more := chunks[0], Wire(chunks[1..]) + last + rest;
      assert Wire(chunks) + last + rest == c.line + (c.data + CRLF + more);
      assert WellFramed(c);
      ParseOne(c, more);
      ParseFramed(chunks[1..], last, rest);
    }
  }

  function JoinLines(lines: seq<bytes>): bytes {
    if lines == [] then [] else lines[0] + JoinLines(lines[1..])
  }

  /** A trailer section of any non-empty lines is skipped together with the empty line that ends it. */
  lemma {:induction false} SkipsTrailer(lines: seq<bytes>, rest: bytes)
    requires forall l :: l in lines ==> IsLine(l) && l != CRLF
    ensures SkipTrailer(JoinLines(lines) + CRLF + rest) == rest
    decreases |lines|
  {
    if lines == [] {
      assert JoinLines(lines) + CRLF + rest == CRLF + rest;
      LineOf(CRLF, rest);
    } else {
      var l := lines[0];
      var more := JoinLines(lines[1..]) + CRLF + rest;
      assert JoinLines(lines) + CRLF + rest == l + more;
      assert IsLine(l);
      LineOf(l, more);
      SkipsTrailer(lines[1..], rest);
    }
  }

  /** The chunks `request` sends for its blocks. */
  function Chunks(blocks: seq<bytes>): seq<Chunk> {
    if blocks == [] then []
    else (if blocks[0] == [] then [] else [Chunk(Hex(|blocks[0]|) + CRLF, blocks[0])]) + Chunks(blocks[1..])
  }

  lemma SizeLine(n: nat)
    ensures IsLine(Hex(n) + CRLF) && SizeOf(Hex(n) + CRLF) == Some(n)
  {
    hide Hex, ParseHex;
    DigitsOfHex(n);
    SizeRoundTrip(n);
    var l := Hex(n) + CRLF;
    assert l[..|l| - 1] == Hex(n) + [CR];
    assert LF !in Hex(n) && 59 !in Hex(n);
    NoSemicolon(l);
  }

  lemma {:induction false} ChunksAreFramed(blocks: seq<bytes>)
    ensures forall c :: c in Chunks(blocks) ==> WellFramed(c)
    ensures Wire(Chunks(blocks)) == FrameChunks(blocks) && Body(Chunks(blocks)) == Flatten(blocks)
  {
    hide SizeOf, IsLine, Hex;
    if blocks == [] {
    } else {
      ChunksAreFramed(blocks[1..]);
      if blocks[0] != [] {
        SizeLine(|blocks[0]|);
        assert Chunks(blocks)[1..] == Chunks(blocks[1..]);
      } else {
        assert Chunks(blocks) == Chunks(blocks[1..]);
      }
    }
  }

  /** What `request` sends for any blocks, followed by anything, parses to the blocks laid end to end; the bytes up to
      and including the last chunk are used up and nothing beyond them. */
  lemma FramingRoundTrip(blocks: seq<bytes>, rest: bytes)
    ensures var p := Parse(Frame(blocks) + rest);
            p.Some? && p.value.0 == Flatten(blocks) && SkipTrailer(p.value.1) == rest
  {
    hide Parse, SkipTrailer, SizeOf, IsLine, Chunks, Wire, Body, FrameChunks;
    var zero: bytes := [48] + CRLF;
    assert Hex(0) == [48];
    SizeLine(0);
    ChunksAreFramed(blocks);
    ParseFramed(Chunks(blocks), zero, CRLF + rest);
    assert FrameChunks(blocks) + zero + (CRLF + rest) == Frame(blocks) + rest;
    SkipsTrailer([], rest);
    assert JoinLines([]) + CRLF + rest == CRLF + rest;
  }

  // ---- the reader ----------------------------------------------------------------------------

  datatype ChunkError = EndedPrematurely | InvalidChunkLength | IncompleteChunk | BadCount

  datatype ChunkRead = Got(data: bytes) | Broken(error: ChunkError)

  class ChunkedResponse {
    var wire: bytes              // what the connection's file object has yet to deliver
    var isOpen: bool
    var chunkLeft: Option<int>
    var decoder: Option<Decoder>

    ghost predicate Valid()
      reads this
    {
      (decoder.Some? ==> decoder.value.Valid()) && (isOpen ==> chunkLeft.GetOr(1) > 0)
    }

    /** What the stream still says, from the current position. */
    ghost function Said(): Option<(bytes, bytes)>
      reads this
    {
      ParseFrom(chunkLeft, wire)
    }

    /** What the response still has to yield: decoded bytes, and the stream after the last chunk. */
    ghost function Due(): Option<(bytes, bytes)>
      reads this
      requires decoder.Some? ==> decoder.value.Valid()
    {
      Decoded(decoder, Said())
    }

    constructor (wire: bytes, decoder: Option<Decoder>)
      requires decoder.Some? ==> decoder.value.Valid()
      ensures Valid() && isOpen && chunkLeft.None? && this.wire == wire && this.decoder == decoder
    {
      this.wire, this.decoder := wire, decoder;
      isOpen, chunkLeft := true, None;
    }

    /** `_safe_read(n)`: exactly `n` bytes or an error; a count of -1 takes all there is, as the file object does. */
    method SafeRead(n: int) returns (r: ChunkRead)
      modifies this`wire
      ensures n >= 0 && |old(wire)| >= n ==> r == Got(old(wire)[..n]) && wire == old(wire)[n..]
      ensures n >= 0 && |old(wire)| < n ==> r.Broken?
      ensures n == -1 ==> r == Got(old(wire)) && wire == []
      ensures n < -1 ==> r.Broken?
    {
      if n < -1 {
        return Broken(BadCount);
      }
      var data := if n == -1 || |wire| < n then wire else wire[..n];
      wire := wire[|data|..];
      r := if |data| < n then Broken(IncompleteChunk) else Got(data);
    }

    /** `_update_chunk_length`: reads the next size line unless a chunk is under way. */
    method UpdateChunkLength() returns (error: Option<ChunkError>)
      modifies this`wire, this`chunkLeft
      ensures error.Some? ==> old(Said()).None?
      ensures error.None? ==> chunkLeft.Some? && Said() == old(Said())
      ensures error.None? ==> if old(chunkLeft).Some? then wire == old(wire) && chunkLeft == old(chunkLeft)
              else |wire| < |old(wire)|
    {
      if chunkLeft.Some? {
        return None;
      }
      var line := Line(wire);
      NoLineNoSize();
      wire := wire[|line|..];
      var size := BeforeSemicolon(line);
      var n := ParseHex(size);
      if n.None? {
        return Some(if size != [] then InvalidChunkLength else EndedPrematurely);
      }
      chunkLeft := n;
      return None;
    }

    /** `_handle_chunk(amt)`: the next part of the current chunk, with its line end when the chunk is used up. */
    method HandleChunk(amt: Option<nat>) returns (r: ChunkRead)
      requires chunkLeft.Some? && chunkLeft.value != 0 && amt != Some(0)
      modifies this`wire, this`chunkLeft
      ensures r.Broken? ==> old(Said()).None?
      ensures r.Got? ==> r.data != [] && (amt.Some? ==> |r.data| <= amt.value) && |wire| < |old(wire)|
      ensures r.Got? ==> old(Said()) == Prepend(r.data, Said()) && chunkLeft.GetOr(1) > 0
    {
      var left := chunkLeft.value;
      if amt.Some? && amt.value < left {
        r := SafeRead(amt.value);
        if r.Got? {
          chunkLeft := Some(left - amt.value);
          SplitChunk(old(wire), left, amt.value);
        }
        return;
      }
      r := SafeRead(left);
      if r.Broken? {
        return;
      }
      var end := SafeRead(2);
      if end.Broken? {
        return end;
      }
      chunkLeft := None;
      if left > 0 {
        assert old(wire)[left..][2..] == old(wire)[left + 2..];
      }
    }

    /** `read_chunked(amt)`, run to its end: it fails exactly on a broken stream; otherwise its pieces, never empty and
        never longer than `amt`, are the decoded body, and the stream is left just behind the trailer section. */
    method ReadChunked(requested: Option<int>) returns (pieces: seq<bytes>, error: Option<ChunkError>)
      requires Valid()
      modifies this
      ensures Valid() && Bounded(pieces, requested.GetOr(-1))
      ensures !old(isOpen) || requested == Some(0) ==> pieces == [] && error.None? && wire == old(wire)
      ensures old(isOpen) && requested != Some(0) ==>
                && !isOpen
                && (error.Some? <==> old(Due()).None?)
                && (error.None? ==>
                      exists after :: old(Due()) == Some((Flatten(pieces), after)) && wire == SkipTrailer(after))
    {
      hide Parse, Remaining, ParseFrom, Prepend, Decoded, Ahead, HasTail, Flatten, Bounded, SkipTrailer,
        Response.Decode,
        Codec.Decoder.Valid;
      pieces, error := [], None;
      NothingYet(requested.GetOr(-1), Due());
      if !isOpen || requested == Some(0) {
        return;
      }
      var limit := if requested.GetOr(-1) < 0 then -1 else requested.value;
      var amt := if limit < 0 then None else Some(limit as nat);
      while true
        invariant Valid() && isOpen
        invariant Bounded(pieces, requested.GetOr(-1))
        invariant Prepend(Flatten(pieces), Due()) == old(Due())
        decreases |wire|, |Ahead(decoder, [])|, HasTail(decoder)
      {
        var chunk: bytes := [];
        ghost var said := Said();
        PrependNothing(said);
        NothingDue(Flatten(pieces), decoder, said);
        if !HasTail(decoder) {
          error := UpdateChunkLength();
          if error.Some? {
            isOpen := false;
            return;
          }
          if chunkLeft == Some(0) {
            break;
          }
          var r := HandleChunk(amt);
          if r.Broken? {
            error, isOpen := Some(r.error), false;
            return;
          }
          chunk := r.data;
        }
        assert said == Prepend(chunk, Said());
        DecodeStep(decoder, chunk, Said(), limit);
        var (d, decoded) := Decode(decoder, chunk, false, limit);
        decoder := d;
        YieldPiece(pieces, decoded, requested.GetOr(-1), Due());
        if decoded != [] {
          pieces := pieces + [decoded];
        }
      }
      pieces := Finish(pieces);
    }

    /** After the last chunk: flush the decoder, discard the trailer section, close. */
    method Finish(yielded: seq<bytes>) returns (pieces: seq<bytes>)
      requires (decoder.Some? ==> decoder.value.Valid()) && !HasTail(decoder)
      modifies this
      ensures Prepend(Flatten(yielded), Decoded(old(decoder), ParseFrom(Some(0), old(wire))))
              == Some((Flatten(yielded), old(wire)))
      ensures Valid() && !isOpen && pieces == yielded && wire == SkipTrailer(old(wire))
    {
      hide Response.Decode, SkipTrailer, Flatten;
      pieces := yielded;
      FlushNothing(decoder, pieces, wire);
      var (d, flushed) := Decode(decoder, [], true, -1);
      decoder := d;
      if flushed != [] {
        pieces := pieces + [flushed];
      }
      var line := [CR];
      while line != [] && line != CRLF
        invariant decoder == d
        invariant SkipTrailer(old(wire)) == if line == [] || line == CRLF then wire else SkipTrailer(wire)
        decreases |wire|, |line|
      {
        TrailerStep(wire);
        line := Line(wire);
        wire := wire[|line|..];
      }
      isOpen := false;
    }
  }

  /** What one side sends for any blocks, the other side reads back, whatever follows on the connection. */
  method SendAndReceive(blocks: seq<bytes>, following: bytes, amt: Option<int>)
      returns (pieces: seq<bytes>, left: bytes)
    requires amt != Some(0)
    ensures Flatten(pieces) == Flatten(blocks) && Bounded(pieces, amt.GetOr(-1)) && left == following
  {
    hide Parse, Flatten, Frame, Bounded, SkipTrailer;
    var sent := SendChunked(blocks);
    FramingRoundTrip(blocks, following);
    var response := new ChunkedResponse(sent + following, None);
    var error;
    pieces, error := response.ReadChunked(amt);
    left := response.wire;
  }

  /** Non-empty pieces of at most `n` bytes; no bound unless `n` is positive. */
  ghost predicate Bounded(pieces: seq<bytes>, n: int) {
    forall p :: p in pieces ==> p != [] && (n > 0 ==> |p| <= n)
  }

  /** A stream's parse with its body decoded. */
  ghost function Decoded(d: Option<Decoder>, p: Option<(bytes, bytes)>): Option<(bytes, bytes)>
    requires d.Some? ==> d.value.Valid()
  {
    if p.None? then None else Some((Ahead(d, p.value.0), p.value.1))
  }

  lemma NothingYet(n: int, due: Option<(bytes, bytes)>)
    ensures Bounded([], n) && Prepend(Flatten<byte>([]), due) == due
  {
    if due.Some? {
      assert [] + due.value.0 == due.value.0;
    }
  }

  lemma YieldPiece(pieces: seq<bytes>, p: bytes, n: int, due: Option<(bytes, bytes)>)
    requires Bounded(pieces, n) && (n > 0 ==> |p| <= n)
    ensures p != [] ==> Bounded(pieces + [p], n)
    ensures Prepend(Flatten(if p == [] then pieces else pieces + [p]), due) == Prepend(Flatten(pieces), Prepend(p, due))
  {
    FlattenSnoc(pieces, p);
    if due.Some? {
      assert Flatten(pieces) + p + due.value.0 == Flatten(pieces) + (p + due.value.0);
      assert Flatten(pieces) + [] == Flatten(pieces);
    }
  }

  /** Decoding a chunk moves its bytes from what is due to the output; without new input it makes progress. */
  lemma DecodeStep(d: Option<Decoder>, chunk: bytes, said: Option<(bytes, bytes)>, limit: int)
    requires d.Some? ==> d.value.Valid()
    requires d.None? && limit >= 0 ==> |chunk| <= limit
    ensures var (e, out) := Decode(d, chunk, false, limit);
            && Decoded(d, Prepend(chunk, said)) == Prepend(out, Decoded(e, said))
            && (limit >= 0 ==> |out| <= limit)
            && (chunk == [] && HasTail(d) && limit != 0 ==>
                  |Ahead(e, [])| < |Ahead(d, [])| || (|Ahead(e, [])| == |Ahead(d, [])| && !HasTail(e)))
  {
    var (e, out) := Decode(d, chunk, false, limit);
    if said.Some? {
      DecodeAhead(d, chunk, said.value.0, false, limit);
    }
    DecodeAhead(d, chunk, [], false, limit);
    assert chunk + [] == chunk;
  }

  /** At the end of the body nothing is held back, so flushing yields nothing. */
  lemma FlushNothing(d: Option<Decoder>, pieces: seq<bytes>, after: bytes)
    requires (d.Some? ==> d.value.Valid()) && !HasTail(d)
    ensures Decode(d, [], true, -1).1 == []
    ensures Prepend(Flatten(pieces), Decoded(d, ParseFrom(Some(0), after))) == Some((Flatten(pieces), after))
  {
    LastChunk(after);
    NoTailIdle(d);
    DecodeAhead(d, [], [], true, -1);
    assert Flatten(pieces) + [] == Flatten(pieces);
  }

  lemma LastChunk(wire: bytes)
    ensures Remaining(0, wire) == Some(([], wire))
  {
  }

  /** A broken stream stays broken whatever is put before it and however its body is decoded. */
  lemma NothingDue(data: bytes, d: Option<Decoder>, said: Option<(bytes, bytes)>)
    requires d.Some? ==> d.value.Valid()
    ensures Prepend(data, Decoded(d, said)).None? <==> said.None?
  {
  }

  lemma PrependNothing(p: Option<(bytes, bytes)>)
    ensures Prepend([], p) == p
  {
    if p.Some? {
      assert [] + p.value.0 == p.value.0;
    }
  }

  lemma TrailerStep(wire: bytes)
    ensures var line := Line(wire);
            SkipTrailer(wire) == if line == [] || line == CRLF then wire[|line|..] else SkipTrailer(wire[|line|..])
  {
  }

  /** Taking `k` bytes off the front of a chunk leaves a chunk that is `k` bytes shorter. */
  lemma SplitChunk(wire: bytes, n: int, k: nat)
    requires k < n && k <= |wire|
    ensures Remaining(n, wire) == Prepend(wire[..k], Remaining(n - k, wire[k..]))
  {
    if |wire| >= n + 2 {
      assert wire[k..][n - k + 2..] == wire[n + 2..];
      assert wire[..k] + wire[k..][..n - k] == wire[..n];
      var p := Parse(wire[n + 2..]);
      if p.Some? {
        assert wire[..k] + (wire[k..][..n - k] + p.value.0) == wire[..n] + p.value.0;
      }
    }
  }
}
