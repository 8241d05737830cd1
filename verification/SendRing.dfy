/** The send ring of Client in src/socket.cpp: Send and DoSend. */
module SendRing {
  import opened Bytes
  import opened Ring

  class SendBuffer {
    const buffer: array<Byte>
    var gpos: nat  // the next cell to send
    var ppos: nat  // the next cell to write
    var used: nat

    /** The ring without regard to the write position. */
    ghost predicate Readable()
      reads this
    {
      IsPowerOfTwo(buffer.Length) && used <= buffer.Length && gpos < buffer.Length
    }

    ghost predicate Valid()
      reads this
    {
      Readable() && ppos == Wrap(gpos + used, buffer.Length)
    }

    /** Written from the first cell on and never around the end, as an upload does. */
    ghost predicate Linear()
      reads this
    {
      && IsPowerOfTwo(buffer.Length) && used <= ppos <= buffer.Length
      && gpos == Wrap(ppos - used, buffer.Length)
    }

    /** The bytes written and not yet accepted by the socket, oldest first. */
    ghost function Pending(): seq<Byte>
      requires Readable()
      reads this, buffer
    {
      Cells(buffer[..], gpos, used)
    }

    constructor (size: nat)
      requires IsPowerOfTwo(size)
      ensures Valid() && Linear() && Pending() == [] && ppos == 0
      ensures fresh(buffer) && buffer.Length == size
    {
      DoubledPower(size);
      buffer := new Byte[size](_ => 0);
      gpos, ppos, used := 0, 0, 0;
    }

    /** Client::Send: appends data if it fits. */
    method Put(data: seq<Byte>) returns (fits: bool)
      requires Valid()
      modifies `ppos, `used, buffer
      ensures Valid() && (fits <==> |data| <= buffer.Length - old(used))
      ensures Pending() == old(Pending()) + if fits then data else []
      ensures old(Linear()) && fits && old(ppos) + |data| < buffer.Length ==> Linear() && ppos == old(ppos) + |data|
    {
      if |data| > buffer.Length - used {
        return false;
      }
      for i := 0 to |data|
        invariant gpos == old(gpos) && used == old(used)
        invariant ppos == Wrap(gpos + used + i, buffer.Length)
        invariant Cells(buffer[..], gpos, used + i) == old(Pending()) + data[..i]
        invariant old(ppos) + i < buffer.Length ==> ppos == old(ppos) + i
      {
        ghost var before := buffer[..];
        buffer[ppos] := data[i];
        assert buffer[..] == before[ppos := data[i]];
        CellsAppend(before, gpos, used + i, ppos, old(Pending()), data, i);
        ppos := Masked(ppos + 1, buffer.Length);
      }
      used := used + |data|;
      return true;
    }

    /** Copies data behind the write position without a mask. */
    method PutLinear(data: seq<Byte>)
      requires Linear() && Readable() && ppos + |data| <= buffer.Length
      modifies `ppos, `used, buffer
      ensures Linear() && Readable() && ppos == old(ppos) + |data|
      ensures Pending() == old(Pending()) + data
    {
      for i := 0 to |data|
        invariant gpos == old(gpos) && used == old(used) && ppos == old(ppos)
        invariant forall k :: 0 <= k < ppos ==> buffer[k] == old(buffer[k])
        invariant forall k :: 0 <= k < i ==> buffer[ppos + k] == data[k]
      {
        buffer[ppos + i] := data[i];
      }
      ppos := ppos + |data|;
      used := used + |data|;
      assert Pending() == old(Pending()) + data;
    }

    /** One send call: the socket takes the first written bytes, or fails if written is negative. */
    method DoSend(written: int) returns (ok: bool, taken: seq<Byte>)
      requires Readable() && written <= used && written <= CHUNK
      modifies `gpos, `used
      ensures ok <==> written >= 0
      ensures ok ==> Readable() && used == old(used) - written && taken + Pending() == old(Pending())
      ensures ok && old(Valid()) ==> Valid()
      ensures ok && old(Linear()) ==> Linear()
    {
      var start := gpos;
      var buf := CopyOut();
      if written < 0 {
        return false, [];
      }
      CellsDrop(buffer[..], start, used, written);
      gpos := Masked(start + written, buffer.Length);
      used := used - written;
      return true, buf[..written];
    }

    /** Copies up to a chunk out of the ring, moving gpos. */
    method CopyOut() returns (buf: seq<Byte>)
      requires Readable()
      modifies `gpos
      ensures |buf| == if used < CHUNK then used else CHUNK
      ensures buf == old(Pending())[..|buf|]
    {
      buf := [];
      ghost var all := Pending();
      while |buf| < (if used < CHUNK then used else CHUNK)
        invariant |buf| <= used && |buf| <= CHUNK
        invariant gpos == Wrap(old(gpos) + |buf|, buffer.Length)
        invariant buf == all[..|buf|]
      {
        buf := buf + [buffer[gpos]];
        gpos := Masked(gpos + 1, buffer.Length);
      }
    }
  }
}
