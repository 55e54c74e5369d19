/** response.py HTTPResponse: reading a body of known or unknown length through a content decoder. */
module Response {
  import opened Bytes
  import opened Codec
  import opened ByteQueue

  /** What is still to come out when `future` is what will still be fed; without a decoder the bytes pass through. */
  ghost function Ahead(d: Option<Decoder>, future: bytes): bytes
    requires d.Some? ==> d.value.Valid()
  {
    match d
    case None => future
    case Some(d) =>
      assert Extends(d.fed + future, d.fed);
      d.decode(d.fed + future)[d.emitted..]
  }

  predicate HasTail(d: Option<Decoder>) {
    d.Some? && d.value.HasUnconsumedTail()
  }

  /** `_decode`, the flush included: flushing asks for everything and resets the limit. */
  function Decode(d: Option<Decoder>, data: bytes, flush: bool, limit: int): (r: (Option<Decoder>, bytes))
    requires d.Some? ==> d.value.Valid()
    ensures r.0.Some? == d.Some? && (r.0.Some? ==> r.0.value.Valid())
  {
    match d
    case None => (None, data)
    case Some(d) =>
      var (d1, out) := d.Decompress(data, if flush then -1 else limit);
      if flush then
        var (d2, more) := d1.Decompress([], -1);
        (Some(d2), out + more)
      else
        (Some(d1), out)
  }

  ghost predicate Idle(d: Option<Decoder>)
    requires d.Some? ==> d.value.Valid()
  {
    !HasTail(d) && Ahead(d, []) == []
  }

  lemma DecompressAhead(d: Decoder, data: bytes, future: bytes, limit: int)
    requires d.Valid()
    ensures var (e, out) := d.Decompress(data, limit);
            && Ahead(Some(d), data + future) == out + Ahead(Some(e), future)
            && (limit < 0 || |out| < limit ==> Idle(Some(e)))
            && (limit >= 0 ==> |out| <= limit)
  {
    var (e, out) := d.Decompress(data, limit);
    Regroup(d.fed, data, future);
    AddNothing(e.fed);
    assert Extends(d.fed + (data + future), d.fed + data) && Extends(d.fed + data, d.fed);
    TakeAhead(d.decode(d.fed + data), d.decode(d.fed + (data + future)), d.emitted, limit);
  }

  lemma TakeAhead(now: bytes, later: bytes, emitted: nat, limit: int)
    requires now <= later && emitted <= |now|
    ensures var out := Take(now[emitted..], limit);
            && later[emitted..] == out + later[emitted + |out|..]
            && (limit < 0 || |out| < limit ==> now[emitted + |out|..] == [])
            && (limit >= 0 ==> |out| <= limit)
  {
  }

  /** Decoding moves bytes from what is ahead to what has come out, and stops short of its limit only when idle. */
  lemma DecodeAhead(d: Option<Decoder>, data: bytes, future: bytes, flush: bool, limit: int)
    requires d.Some? ==> d.value.Valid()
    ensures var (e, out) := Decode(d, data, flush, limit);
            && Ahead(d, data + future) == out + Ahead(e, future)
            && (flush || limit < 0 || |out| < limit || d.None? ==> Idle(e))
            && (d.Some? && !flush && limit >= 0 ==> |out| <= limit)
  {
    hide Codec.Meets, Ahead;
    if d.Some? {
      DecompressAhead(d.value, data, future, if flush then -1 else limit);
      if flush {
        var (d1, out) := d.value.Decompress(data, -1);
        DecompressAhead(d1, [], future, -1);
        var (d2, more) := d1.Decompress([], -1);
        assert [] + future == future;
        assert out + (more + Ahead(Some(d2), future)) == out + more + Ahead(Some(d2), future);
      }
    } else {
      PassThrough(data + future);
      PassThrough(future);
      PassThrough([]);
    }
  }

  lemma PassThrough(future: bytes)
    ensures Ahead(None, future) == future
  {
  }

  /** With no tail held, nothing is ahead but what the future brings. */
  lemma NoTailIdle(d: Option<Decoder>)
    requires (d.Some? ==> d.value.Valid()) && !HasTail(d)
    ensures Ahead(d, []) == []
  {
    if d.Some? {
      assert d.value.fed + [] == d.value.fed;
    }
  }

  datatype ReadResult = Data(data: bytes) | IncompleteRead

  class HTTPResponse {
    var wire: bytes                  // what the underlying file object has yet to deliver
    var fpClosed: bool
    var lengthRemaining: Option<int> // what the Content-Length header still promises
    const enforceContentLength: bool
    const closesOnRead: bool         // the file object closes itself once read() has delivered everything
    var decoder: Option<Decoder>
    const decodedBuffer: BytesQueueBuffer

    ghost predicate Valid()
      reads this, decodedBuffer
    {
      && decodedBuffer.Valid()
      && (decoder.Some? ==> decoder.value.Valid())
      && (fpClosed ==> wire == [])
    }

    /** All the decoded bytes that reading to the end would still yield. */
    ghost function Rest(): bytes
      reads this, decodedBuffer
      requires Valid()
    {
      decodedBuffer.Contents() + Ahead(decoder, wire)
    }

    /** The promised length disagrees with what the file object delivers. */
    ghost predicate Truncated()
      reads this
    {
      enforceContentLength && lengthRemaining.Some? && lengthRemaining.value != |wire|
    }

    /** Nothing is left anywhere. */
    ghost predicate Finished()
      reads this, decodedBuffer
      requires Valid()
    {
      wire == [] && decodedBuffer.Contents() == [] && Idle(decoder)
    }

    /** The test of the loop in `stream`. */
    predicate Unfinished()
      reads this, decodedBuffer
    {
      !fpClosed || decodedBuffer.size > 0 || HasTail(decoder)
    }

    constructor (wire: bytes, length: Option<int>, enforce: bool, closes: bool, decoder: Option<Decoder>)
      requires decoder.Some? ==> decoder.value.Valid()
      ensures Valid() && fresh(decodedBuffer) && this.wire == wire && this.decoder == decoder
      ensures closesOnRead == closes && !fpClosed
      ensures Rest() == Ahead(decoder, wire) && Truncated() == (enforce && length.Some? && length.value != |wire|)
    {
      this.wire, this.fpClosed := wire, false;
      this.lengthRemaining, this.enforceContentLength, this.closesOnRead := length, enforce, closes;
      this.decoder := decoder;
      this.decodedBuffer := new BytesQueueBuffer();
    }

    /** One read of the file object: any non-empty part of what it has, nothing only at the end. A read of everything
        closes it if it is one that closes itself then; at the end of sized reads it may have closed itself. */
    method RawRead(amt: Option<nat>) returns (r: ReadResult)
      requires Valid()
      modifies this`wire, this`fpClosed, this`lengthRemaining
      ensures Valid() && Truncated() == old(Truncated())
      ensures r.Data? ==> old(wire) == r.data + wire
      ensures r.Data? && r.data == [] && amt != Some(0) ==> wire == [] && (amt.Some? ==> fpClosed)
      ensures r.Data? && amt.None? ==> wire == [] && fpClosed == (old(fpClosed) || closesOnRead)
      ensures r.IncompleteRead? <==> amt.Some? && amt.value > 0 && old(wire) == [] && old(Truncated())
      ensures (r.IncompleteRead? ==> wire == [] && fpClosed) && (old(fpClosed) ==> fpClosed)
    {
      var data := [];
      if !fpClosed {
        var n: nat := |wire|;
        if amt.Some? && wire != [] {
          if amt.value == 0 {
            n := 0;
          } else {
            n :| 1 <= n <= amt.value && n <= |wire|;
          }
        }
        data := wire[..n];
        wire := wire[n..];
        var closes: bool := *;
        fpClosed := if amt.None? then closesOnRead else wire == [] && closes;
      }
      if amt.Some? && amt.value != 0 && data == [] {
        fpClosed := true;
        if enforceContentLength && lengthRemaining.Some? && lengthRemaining.value != 0 {
          return IncompleteRead;
        }
      }
      if lengthRemaining.Some? {
        lengthRemaining := Some(lengthRemaining.value - |data|);
      }
      r := Data(data);
    }

    /** Decodes what was read and queues the result. */
    method DecodeAndPut(data: bytes, flush: bool, limit: int)
      requires Valid()
      modifies this`decoder, decodedBuffer
      ensures Valid() && decodedBuffer.buffer != []
      ensures decodedBuffer.Contents() + Ahead(decoder, wire)
              == old(decodedBuffer.Contents() + Ahead(decoder, data + wire))
      ensures flush || limit < 0 || old(decoder).None? || decodedBuffer.size < old(decodedBuffer.size) + limit ==>
              Idle(decoder)
      ensures old(decoder).Some? && !flush && limit >= 0 ==> decodedBuffer.size <= old(decodedBuffer.size) + limit
      ensures decoder.Some? == old(decoder).Some?
    {
      hide Ahead;
      DecodeAhead(decoder, data, wire, flush, limit);
      var (d, out) := Decode(decoder, data, flush, limit);
      decoder := d;
      decodedBuffer.Put(out);
    }

    /** `read(amt)`: exactly `amt` decoded bytes until the body runs out, everything for a negative or absent `amt`,
        however the file object cuts the body up; and an error exactly when more is asked for than a truncated body
        holds. */
    method Read(requested: Option<int>) returns (r: ReadResult)
      requires Valid()
      modifies this, decodedBuffer
      ensures Valid() && Truncated() == old(Truncated())
      ensures r.Data? ==> r.data + Rest() == old(Rest())
      ensures r.Data? ==> r.data == Take(old(Rest()), requested.GetOr(-1))
      ensures r.Data? && (requested.GetOr(-1) < 0 || |r.data| < requested.value) ==> Finished()
      ensures r.Data? && requested.GetOr(-1) < 0 ==> fpClosed == (old(fpClosed) || closesOnRead)
      ensures r.Data? && 0 <= requested.GetOr(-1) && |r.data| < requested.value ==> fpClosed
      ensures old(fpClosed) ==> fpClosed
      ensures r.IncompleteRead? ==> Rest() == old(Rest())
      ensures r.IncompleteRead? <==> requested.GetOr(-1) > |old(Rest())| && old(Truncated())
    {
      hide Ahead, HasTail;
      if requested.None? || requested.value < 0 {
        r := ReadAll();
        return;
      }
      var amt: nat := requested.value;
      if HasTail(decoder) && decodedBuffer.size < amt {
        DecodeAndPut([], false, amt - decodedBuffer.size);
        assert [] + wire == wire;
      } else if decodedBuffer.size < amt {
        NoTailIdle(decoder);
      }
      if decodedBuffer.size >= amt {
        r := GetDecoded(amt);
        return;
      }
      r := Fill(amt);
    }

    /** The queue holds enough, or all there is. */
    method GetDecoded(amt: nat) returns (r: ReadResult)
      requires Valid() && (amt == 0 || decodedBuffer.buffer != [])
      requires decodedBuffer.size >= amt || (wire == [] && Idle(decoder))
      modifies decodedBuffer
      ensures Valid() && r.Data? && r.data + Rest() == old(Rest()) && r.data == Take(old(Rest()), amt)
      ensures |r.data| < amt ==> decodedBuffer.Contents() == []
    {
      hide Ahead;
      var got := decodedBuffer.Get(amt);
      assert got.Got?;
      r := Data(got.data);
      ghost var ahead := Ahead(decoder, wire);
      assert got.data + decodedBuffer.Contents() + ahead == got.data + (decodedBuffer.Contents() + ahead);
      TakeIsPrefix(got.data, decodedBuffer.Contents() + ahead, amt);
    }

    /** Reads and decodes until the queue holds `amt` bytes or the file object ends. */
    method Fill(amt: nat) returns (r: ReadResult)
      requires Valid() && decodedBuffer.size < amt && Ahead(decoder, []) == []
      modifies this, decodedBuffer
      ensures Valid() && Truncated() == old(Truncated())
      ensures r.Data? ==> r.data + Rest() == old(Rest()) && r.data == Take(old(Rest()), amt)
      ensures (r.Data? && |r.data| < amt ==> Finished() && fpClosed) && (old(fpClosed) ==> fpClosed)
      ensures r.IncompleteRead? ==> Rest() == old(Rest())
      ensures r.IncompleteRead? <==> amt > |old(Rest())| && old(Truncated())
    {
      hide Ahead, HasTail;
      r := RawRead(Some(amt));
      if r.IncompleteRead? {
        return;
      }
      var data := r.data;
      var flush := data == [];
      if data == [] && decodedBuffer.size == 0 && !HasTail(decoder) {
        assert Rest() == [];
        return;
      }
      DecodeAndPut(data, flush, amt - decodedBuffer.size);
      while decodedBuffer.size < amt && data != []
        invariant Valid() && Rest() == old(Rest()) && Truncated() == old(Truncated())
        invariant data == [] ==> wire == [] && fpClosed && !Truncated()
        invariant decodedBuffer.size < amt || data == [] ==> Idle(decoder)
        invariant decodedBuffer.buffer != [] && (data != [] ==> !flush) && (old(fpClosed) ==> fpClosed)
        decreases |wire|, |data|
      {
        r := RawRead(Some(amt));
        if r.IncompleteRead? {
          return;
        }
        data := r.data;
        DecodeAndPut(data, flush, amt - decodedBuffer.size);
      }
      r := GetDecoded(amt);
    }

    method ReadAll() returns (r: ReadResult)
      requires Valid()
      modifies this, decodedBuffer
      ensures Valid() && Truncated() == old(Truncated()) && r.Data? && r.data == old(Rest()) && Finished()
              && Rest() == []
      ensures fpClosed == (old(fpClosed) || closesOnRead)
    {
      hide Ahead, HasTail;
      r := RawRead(None);
      var data := r.data;
      if data == [] && decodedBuffer.size == 0 && !HasTail(decoder) {
        NoTailIdle(decoder);
        return;
      }
      DecodeAhead(decoder, data, wire, true, -1);
      var (d, out) := Decode(decoder, data, true, -1);
      decoder, data := d, out;
      if decodedBuffer.size > 0 {
        decodedBuffer.Put(data);
        data := decodedBuffer.GetAll();
      }
      r := Data(data);
    }

    /** `stream(amt)` over a body that is not chunked, for as many turns of its loop: the decoded body in pieces of
        exactly `amt` bytes, the last one excepted, or in one piece without an `amt`; never an empty piece. The loop
        ends, after at most one turn more than there are bytes, if an `amt` is given or the file object closes itself on
        read(); otherwise it never does, although the first turn has yielded everything. */
    method Stream(requested: Option<int>, turns: nat) returns (pieces: seq<bytes>, failed: bool, ended: bool)
      requires Valid()
      modifies this, decodedBuffer
      ensures Valid() && Flatten(pieces) + Rest() == old(Rest()) && Pieces(pieces, requested.GetOr(-1))
      ensures failed ==> ended && old(Truncated()) && |Rest()| < requested.GetOr(-1)
      ensures requested != Some(0) && ended && !failed ==> Rest() == []
      ensures turns > |old(Rest())| && (requested.GetOr(-1) >= 0 || closesOnRead || old(fpClosed)) ==> ended
      ensures requested.GetOr(-1) < 0 && !closesOnRead && !old(fpClosed) ==> !ended && (turns > 0 ==> Rest() == [])
    {
      hide Ahead, HasTail, Flatten, Pieces, FullPieces, Codec.Decoder.Valid, Take;
      pieces, failed, ended := [], false, true;
      NoPieces(requested.GetOr(-1));
      assert [] + Rest() == Rest();
      if requested == Some(0) {
        return;
      }
      ghost var n, short := requested.GetOr(-1), false;
      var turn := 0;
      while turn < turns && Unfinished()
        invariant Valid() && Truncated() == old(Truncated()) && Flatten(pieces) + Rest() == old(Rest())
                  && 0 <= turn <= turns
        invariant Pieces(pieces, n) && (!short ==> FullPieces(pieces, n) && turn + |Rest()| <= |old(Rest())|)
        invariant short ==> Finished() && Rest() == []
        invariant short && (n >= 0 || closesOnRead || old(fpClosed)) ==> fpClosed
        invariant n < 0 && !closesOnRead && !old(fpClosed) ==> !fpClosed && (short <==> turn > 0)
        invariant !short && old(fpClosed) ==> fpClosed
        decreases turns - turn
      {
        ghost var rest := Rest();
        var r := Read(requested);
        if r.IncompleteRead? {
          failed := true;
          return;
        }
        TookAll(rest, r.data, Rest(), n);
        short := n < 0 || |r.data| < n;
        if r.data != [] {
          AddPiece(pieces, r.data, n, Rest());
          pieces := pieces + [r.data];
        }
        turn := turn + 1;
      }
      ended := !Unfinished();
      if ended {
        NoTailIdle(decoder);
      }
    }

    /** Any series of reads: each returns the next bytes of the decoded body, as many as it asks for as long as there
        are so many; a truncated body makes the first one fail that asks for more than is left, and no other does. */
    method ReadEach(amounts: seq<Option<int>>) returns (outs: seq<bytes>, failed: bool)
      requires Valid()
      modifies this, decodedBuffer
      ensures Valid() && Truncated() == old(Truncated()) && Flatten(outs) + Rest() == old(Rest())
      ensures |outs| <= |amounts| && outs == Cuts(old(Rest()), amounts[..|outs|])
      ensures if failed then |outs| < |amounts| && old(Truncated()) && amounts[|outs|].GetOr(-1) > |Rest()|
              else |outs| == |amounts|
      ensures old(Truncated()) ==> forall i :: 0 <= i < |outs| ==> amounts[i].GetOr(-1) <= |outs[i]|
    {
      hide Ahead, HasTail, Cuts, Flatten, Codec.Decoder.Valid;
      outs, failed := [], false;
      NoCuts(Rest(), amounts);
      for i := 0 to |amounts|
        invariant Valid() && Truncated() == old(Truncated()) && Flatten(outs) + Rest() == old(Rest())
        invariant |outs| == i && outs == Cuts(old(Rest()), amounts[..i])
        invariant old(Truncated()) ==> forall k :: 0 <= k < i ==> amounts[k].GetOr(-1) <= |outs[k]|
      {
        ghost var rest := Rest();
        var r := Read(amounts[i]);
        if r.IncompleteRead? {
          failed := true;
          return;
        }
        NextCut(old(Rest()), amounts, i, outs, rest, Rest());
        outs := outs + [r.data];
      }
    }
  }

  /** A byte string cut up as the amounts say; no amount or a negative one takes the rest. */
  function Cuts(rest: bytes, amounts: seq<Option<int>>): (outs: seq<bytes>)
    ensures |outs| == |amounts|
    decreases |amounts|
  {
    if amounts == [] then []
    else
      var out := Take(rest, amounts[0].GetOr(-1));
      [out] + Cuts(rest[|out|..], amounts[1..])
  }

  lemma NoCuts(rest: bytes, amounts: seq<Option<int>>)
    ensures Cuts(rest, amounts[..0]) == [] && Flatten<byte>([]) + rest == rest
  {
  }

  lemma {:induction false} CutsSnoc(all: bytes, amounts: seq<Option<int>>, amt: Option<int>, rest: bytes)
    requires Flatten(Cuts(all, amounts)) + rest == all
    ensures Cuts(all, amounts + [amt]) == Cuts(all, amounts) + [Take(rest, amt.GetOr(-1))]
    decreases |amounts|
  {
    if amounts == [] {
      assert Flatten(Cuts(all, amounts)) == [] && [amt][1..] == [] && [] + [amt] == [amt];
      assert [] + rest == rest;
    } else {
      var out := Take(all, amounts[0].GetOr(-1));
      var left := all[|out|..];
      FlattenFirst(out, Cuts(left, amounts[1..]));
      Regroup(out, Flatten(Cuts(left, amounts[1..])), rest);
      assert (amounts + [amt])[1..] == amounts[1..] + [amt];
      CutsSnoc(left, amounts[1..], amt, rest);
      Regroup([out], Cuts(left, amounts[1..]), [Take(rest, amt.GetOr(-1))]);
    }
  }

  lemma NextCut(all: bytes, amounts: seq<Option<int>>, i: nat, outs: seq<bytes>, rest: bytes, left: bytes)
    requires i < |amounts| && outs == Cuts(all, amounts[..i]) && Flatten(outs) + rest == all
    requires Take(rest, amounts[i].GetOr(-1)) + left == rest
    ensures outs + [Take(rest, amounts[i].GetOr(-1))] == Cuts(all, amounts[..i + 1])
    ensures Flatten(outs + [Take(rest, amounts[i].GetOr(-1))]) + left == all
  {
    hide Cuts;
    CutsSnoc(all, amounts[..i], amounts[i], rest);
    assert amounts[..i + 1] == amounts[..i] + [amounts[i]];
    FlattenSnoc(outs, Take(rest, amounts[i].GetOr(-1)));
    Regroup(Flatten(outs), Take(rest, amounts[i].GetOr(-1)), left);
  }

  /** Non-empty pieces, all of `n` bytes but the last, which may be shorter; no bound for a negative `n`. */
  ghost predicate Pieces(pieces: seq<bytes>, n: int) {
    forall i :: 0 <= i < |pieces| ==>
      && pieces[i] != []
      && (n >= 0 ==> |pieces[i]| <= n)
      && (i < |pieces| - 1 ==> |pieces[i]| == n)
  }

  ghost predicate FullPieces(pieces: seq<bytes>, n: int) {
    forall p :: p in pieces ==> p != [] && |p| == n
  }

  lemma TookAll(rest: bytes, data: bytes, left: bytes, n: int)
    requires data == Take(rest, n) && data + left == rest
    ensures n < 0 || |data| < n ==> left == []
    ensures data != [] ==> |left| < |rest|
    ensures n >= 0 ==> |data| <= n
  {
  }

  lemma NoPieces(n: int)
    ensures Flatten<byte>([]) == [] && Pieces([], n) && FullPieces([], n)
  {
  }

  lemma AddPiece(pieces: seq<bytes>, p: bytes, n: int, rest: bytes)
    requires FullPieces(pieces, n) && p != [] && (n >= 0 ==> |p| <= n)
    ensures Pieces(pieces + [p], n) && (|p| == n ==> FullPieces(pieces + [p], n))
    ensures Flatten(pieces + [p]) + rest == Flatten(pieces) + (p + rest)
  {
    FlattenSnoc(pieces, p);
  }
}
