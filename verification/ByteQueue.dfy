/** response.py BytesQueueBuffer: decoded bytes kept as a queue of pieces, which refines one flat string of the
    bytes. */
module ByteQueue {
  import opened Bytes

  /** A queued piece: the object that was put, or a view left over after part of it was taken. */
  datatype Piece = Whole(data: bytes) | View(data: bytes)

  function Joined(pieces: seq<Piece>): bytes {
    if pieces == [] then [] else pieces[0].data + Joined(pieces[1..])
  }

  lemma {:induction false} JoinedAppend(a: seq<Piece>, p: Piece)
    ensures Joined(a + [p]) == Joined(a) + p.data
  {
    if a == [] {
      assert a + [p] == [p];
    } else {
      assert (a + [p])[1..] == a[1..] + [p];
      JoinedAppend(a[1..], p);
    }
  }

  /** Moving the front piece, or the front `n` bytes of it, from the queue to what has been read loses nothing. */
  lemma MoveFront(ret: bytes, pieces: seq<Piece>, n: nat)
    requires pieces != [] && n <= |pieces[0].data|
    ensures var p, rest := pieces[0].data, pieces[1..];
            && ret + Joined(pieces) == ret + p + Joined(rest)
            && ret + Joined(pieces) == ret + p[..n] + Joined([View(p[n..])] + rest)
            && |Joined(pieces)| == |p| + |Joined(rest)|
            && |Joined([View(p[n..])] + rest)| == |Joined(pieces)| - n
  {
    var p, rest := pieces[0].data, pieces[1..];
    var cut := [View(p[n..])] + rest;
    assert cut[1..] == rest;
    assert p == p[..n] + p[n..];
    assert ret + (p + Joined(rest)) == ret + p + Joined(rest);
    assert ret + (p[..n] + (p[n..] + Joined(rest))) == ret + p[..n] + (p[n..] + Joined(rest));
    assert Joined(pieces) == p[..n] + Joined(cut);
  }

  lemma NothingJoined()
    ensures Joined([]) == []
  {
  }

  datatype QueueError = BufferIsEmpty | NegativeCount
  datatype GetResult = Got(data: bytes) | Failed(error: QueueError)

  class BytesQueueBuffer {
    var buffer: seq<Piece>
    var size: nat

    ghost function Contents(): bytes
      reads this
    {
      Joined(buffer)
    }

    ghost predicate Valid()
      reads this
    {
      size == |Contents()|
    }

    constructor ()
      ensures Valid() && Contents() == [] && buffer == []
    {
      buffer, size := [], 0;
    }

    method Put(data: bytes)
      requires Valid()
      modifies this
      ensures Valid() && Contents() == old(Contents()) + data && buffer != []
    {
      JoinedAppend(buffer, Whole(data));
      buffer := buffer + [Whole(data)];
      size := size + |data|;
    }

    /** The first `n` bytes, or all there are; the rest stays queued in order. */
    method Get(n: int) returns (r: GetResult)
      requires Valid()
      modifies this
      ensures Valid()
      ensures r.Failed? <==> n != 0 && (old(buffer) == [] || n < 0)
      ensures r.Failed? ==>
              buffer == old(buffer) && r.error == (if old(buffer) == [] then BufferIsEmpty else NegativeCount)
      ensures r.Got? ==> r.data == Take(old(Contents()), n) && r.data + Contents() == old(Contents())
    {
      if n == 0 {
        return Got([]);
      } else if buffer == [] {
        return Failed(BufferIsEmpty);
      } else if n < 0 {
        return Failed(NegativeCount);
      }
      var ret;
      if |buffer[0].data| == n && buffer[0].Whole? {
        size := size - n;
        ret, buffer := buffer[0].data, buffer[1..];
      } else {
        ret := Gather(n);
      }
      TakeIsPrefix(ret, Contents(), n);
      r := Got(ret);
    }

    /** Joins pieces off the front, cutting the last one when it is longer than needed. */
    method Gather(n: nat) returns (ret: bytes)
      requires Valid() && n > 0 && buffer != []
      modifies this
      ensures Valid() && ret + Contents() == old(Contents())
      ensures |ret| == n || (|ret| < n && Contents() == [])
    {
      hide Joined;
      var fetched;
      fetched, ret := 0, [];
      while fetched < n
        invariant Valid() && |ret| == fetched <= n && (buffer != [] || fetched == n)
        invariant ret + Contents() == old(Contents())
        decreases |buffer|
      {
        var remaining, chunk, rest := n - fetched, buffer[0].data, buffer[1..];
        MoveFront(ret, buffer, if remaining < |chunk| then remaining else 0);
        if remaining < |chunk| {
          ret, buffer, size := ret + chunk[..remaining], [View(chunk[remaining..])] + rest, size - remaining;
          break;
        } else {
          ret, buffer, size := ret + chunk, rest, size - |chunk|;
        }
        fetched := fetched + |chunk|;
        if buffer == [] {
          NothingJoined();
          break;
        }
      }
    }

    method GetAll() returns (r: bytes)
      requires Valid()
      modifies this
      ensures Valid() && r == old(Contents()) && Contents() == [] && buffer == []
    {
      if buffer == [] {
        assert size == 0;
        return [];
      }
      r := [];
      while buffer != []
        invariant r + Contents() == old(Contents())
        decreases |buffer|
      {
        r := r + buffer[0].data;
        buffer := buffer[1..];
      }
      size := 0;
    }
  }
}
