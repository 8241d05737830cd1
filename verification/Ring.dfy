/**
 Power-of-two ring buffers: the index arithmetic of src/socket.cpp, and the receive ring
 of Client (Recv and DoRecv).
 */
module Ring {
  import opened Bytes

  // -- Masks ---------------------------------------------------------------------------

  function PowerOfTwo(k: nat): (p: nat)
    ensures p > 0
  {
    if k == 0 then 1 else 2 * PowerOfTwo(k - 1)
  }

  ghost predicate IsPowerOfTwo(n: nat) {
    exists k: nat :: n == PowerOfTwo(k)
  }

  /** Bitwise and. */
  function BitAnd(x: nat, y: nat): nat {
    if x == 0 || y == 0 then 0 else 2 * BitAnd(x / 2, y / 2) + (x % 2) * (y % 2)
  }

  /** Masking with one less than a power of two is the remainder. */
  lemma {:induction false} MaskIsModulo(x: nat, k: nat)
    ensures BitAnd(x, PowerOfTwo(k) - 1) == x % PowerOfTwo(k)
  {
    if k != 0 {
      var p := PowerOfTwo(k - 1);
      MaskIsModulo(x / 2, k - 1);
      assert (2 * p - 1) / 2 == p - 1 && (2 * p - 1) % 2 == 1;
      HalfModulo(x, p);
    }
  }

  lemma HalfModulo(x: nat, p: nat)
    requires p > 0
    ensures x % (2 * p) == 2 * (x / 2 % p) + x % 2
  {
    var h := x / 2;
    var q, r := h / p, h % p;
    assert h == p * q + r;
    assert x == (2 * p) * q + (2 * r + x % 2) by { assert 2 * (p * q) == (2 * p) * q; }
    RemainderUnique(x, 2 * p, q, 2 * r + x % 2);
  }

  lemma MulAtLeast(d: nat, k: nat)
    requires k >= 1
    ensures d * k >= d
  {
  }

  lemma RemainderUnique(x: nat, d: nat, q: nat, r: nat)
    requires r < d && x == d * q + r
    ensures x % d == r
  {
    var q', r' := x / d, x % d;
    assert d * (q - q') == r' - r && d * (q' - q) == r - r';
    if q - q' >= 1 { MulAtLeast(d, q - q'); }
    if q' - q >= 1 { MulAtLeast(d, q' - q); }
  }

  /** A position moved by at most one turn around a ring of n cells. */
  function Wrap(x: nat, n: nat): (p: nat)
    requires n > 0 && x < 2 * n
    ensures p < n
  {
    if x < n then x else x - n
  }

  lemma MaskWraps(x: nat, n: nat)
    requires IsPowerOfTwo(n) && x < 2 * n
    ensures BitAnd(x, n - 1) == Wrap(x, n)
  {
    var k: nat :| n == PowerOfTwo(k);
    MaskIsModulo(x, k);
    RemainderUnique(x, n, if x < n then 0 else 1, Wrap(x, n));
  }

  /** (x & mask), where mask is one less than the size of the ring. */
  method Masked(x: nat, n: nat) returns (p: nat)
    requires IsPowerOfTwo(n) && x < 2 * n
    ensures p == Wrap(x, n)
  {
    MaskWraps(x, n);
    p := BitAnd(x, n - 1);
  }

  /** assert_power_of_two: true means that it does not throw. A size of 0 is never passed. */
  method AssertPowerOfTwo(size: nat) returns (ok: bool)
    requires size > 0
    ensures ok <==> IsPowerOfTwo(size)
  {
    var s := size;
    ghost var shifted: nat := 0;
    while s % 2 == 0
      invariant s > 0 && size == s * PowerOfTwo(shifted)
      decreases s
    {
      s := s / 2;
      shifted := shifted + 1;
    }
    OddPart(size, s, shifted);
    ok := s <= 1;
  }

  lemma OddPart(size: nat, s: nat, k: nat)
    requires s % 2 == 1 && size == s * PowerOfTwo(k)
    ensures IsPowerOfTwo(size) <==> s == 1
  {
    if IsPowerOfTwo(size) {
      var j: nat :| size == PowerOfTwo(j);
      OddTimesPower(s, k, j);
    }
  }

  lemma {:induction false} OddTimesPower(s: nat, k: nat, j: nat)
    requires s % 2 == 1 && s * PowerOfTwo(k) == PowerOfTwo(j)
    ensures s == 1
  {
    if k != 0 && j != 0 {
      assert 2 * (s * PowerOfTwo(k - 1)) == 2 * PowerOfTwo(j - 1);
      OddTimesPower(s, k - 1, j - 1);
    } else if j == 0 {
      MulAtLeast(s, PowerOfTwo(k));
    }
  }

  lemma DoubledPower(n: nat)
    requires IsPowerOfTwo(n)
    ensures IsPowerOfTwo(2 * n) && n > 0
  {
    var k: nat :| n == PowerOfTwo(k);
    assert 2 * n == PowerOfTwo(k + 1);
  }

  // -- Contents ------------------------------------------------------------------------

  /** The n cells from start on, around the ring. */
  function Cells(buffer: seq<Byte>, start: nat, n: nat): (s: seq<Byte>)
    requires start < |buffer| && n <= |buffer|
    ensures |s| == n
    ensures forall i :: 0 <= i < n ==> s[i] == buffer[Wrap(start + i, |buffer|)]
  {
    seq(n, i requires 0 <= i < n => buffer[Wrap(start + i, |buffer|)])
  }

  lemma CellsPut(buffer: seq<Byte>, start: nat, n: nat, at: nat, c: Byte)
    requires start < |buffer| && n < |buffer| && at == Wrap(start + n, |buffer|)
    ensures Cells(buffer[at := c], start, n + 1) == Cells(buffer, start, n) + [c]
  {
    assert Cells(buffer[at := c], start, n + 1) == Cells(buffer, start, n) + [c];
  }

  /** The same while data is copied behind what was pending. */
  lemma CellsAppend(buffer: seq<Byte>, start: nat, n: nat, at: nat, pending: seq<Byte>, data: seq<Byte>, i: nat)
    requires start < |buffer| && n < |buffer| && at == Wrap(start + n, |buffer|) && i < |data|
    requires Cells(buffer, start, n) == pending + data[..i]
    ensures Cells(buffer[at := data[i]], start, n + 1) == pending + data[..i + 1]
  {
    CellsPut(buffer, start, n, at, data[i]);
    assert data[..i + 1] == data[..i] + [data[i]];
  }

  lemma CellsGrow(buffer: seq<Byte>, start: nat, n: nat)
    requires start < |buffer| && n < |buffer|
    ensures Cells(buffer, start, n + 1) == Cells(buffer, start, n) + [buffer[Wrap(start + n, |buffer|)]]
  {
  }

  /** The cells behind the first k. */
  lemma CellsDrop(buffer: seq<Byte>, start: nat, n: nat, k: nat)
    requires start < |buffer| && k <= n <= |buffer|
    ensures Cells(buffer, start, n)[k..] == Cells(buffer, Wrap(start + k, |buffer|), n - k)
    ensures Cells(buffer, start, n)[..k] == Cells(buffer, start, k)
  {
    assert Cells(buffer, start, n)[k..] == Cells(buffer, Wrap(start + k, |buffer|), n - k);
    assert Cells(buffer, start, n)[..k] == Cells(buffer, start, k);
  }

  // -- The receive ring ----------------------------------------------------------------

  const CHUNK := 8192

  class Receiver {
    const buffer: array<Byte>
    var gpos: nat  // the last cell read
    var ppos: nat  // the last cell written
    var used: nat

    ghost predicate Valid()
      reads this, buffer
    {
      && IsPowerOfTwo(buffer.Length) && used <= buffer.Length
      && gpos < buffer.Length && ppos == Wrap(gpos + used, buffer.Length)
    }

    /** The bytes received and not yet read, oldest first. */
    ghost function Pending(): seq<Byte>
      requires Valid()
      reads this, buffer
    {
      Cells(buffer[..], Wrap(gpos + 1, buffer.Length), used)
    }

    constructor (size: nat)
      requires IsPowerOfTwo(size)
      ensures Valid() && Pending() == [] && fresh(buffer) && buffer.Length == size
    {
      DoubledPower(size);
      buffer := new Byte[size](_ => 0);
      gpos, ppos, used := 0, 0, 0;
    }

    /** Takes up to length bytes from the front. */
    method Recv(length: nat) returns (ret: seq<Byte>)
      requires Valid()
      modifies `gpos, `used
      ensures Valid()
      ensures ret + Pending() == old(Pending())
      ensures |ret| == if length < |old(Pending())| then length else |old(Pending())|
    {
      var n := if length < used then length else used;
      ret := Take(n);
      CellsDrop(buffer[..], Wrap(old(gpos) + 1, buffer.Length), used, n);
      used := used - n;
    }

    /** Copies the next n cells out and goes behind them. */
    method Take(n: nat) returns (ret: seq<Byte>)
      requires IsPowerOfTwo(buffer.Length) && gpos < buffer.Length && n <= buffer.Length
      modifies `gpos
      ensures gpos == Wrap(old(gpos) + n, buffer.Length)
      ensures ret == Cells(buffer[..], Wrap(old(gpos) + 1, buffer.Length), n)
    {
      ret := [];
      ghost var cells, first := buffer[..], Wrap(gpos + 1, buffer.Length);
      for i := 0 to n
        invariant gpos == Wrap(old(gpos) + i, buffer.Length)
        invariant ret == Cells(cells, first, i)
      {
        gpos := Masked(gpos + 1, buffer.Length);
        assert gpos == Wrap(first + i, buffer.Length);
        CellsGrow(cells, first, i);
        ret := ret + [buffer[gpos]];
      }
    }

    function ToRecv(): nat
      requires used <= buffer.Length
      reads this
    {
      if buffer.Length - used < CHUNK then buffer.Length - used else CHUNK
    }

    /** Appends what one recv call delivered; false closes the connection. */
    method DoRecv(received: seq<Byte>) returns (ok: bool)
      requires Valid() && |received| <= ToRecv()
      modifies this, buffer
      ensures Valid()
      ensures ok <==> received != []
      ensures Pending() == old(Pending()) + received
    {
      if ToRecv() == 0 {
        return false;
      }
      if |received| == 0 {
        return false;
      }
      ghost var start := Wrap(gpos + 1, buffer.Length);
      for i := 0 to |received|
        invariant gpos == old(gpos) && used == old(used)
        invariant ppos == Wrap(gpos + used + i, buffer.Length)
        invariant Cells(buffer[..], start, used + i) == old(Pending()) + received[..i]
      {
        ppos := Masked(ppos + 1, buffer.Length);
        ghost var before := buffer[..];
        buffer[ppos] := received[i];
        assert buffer[..] == before[ppos := received[i]];
        CellsAppend(before, start, used + i, ppos, old(Pending()), received, i);
      }
      used := used + |received|;
      return true;
    }
  }
}
