/**
 The streaming hash of src/sha256.c: a context with eight hash words, a 64-byte
 buffer and a byte count, fed by any number of update calls.
 */
module Sha256 {
  import opened Sha256Spec

  const BLOCK_SIZE := 64
  const TWO_64 := 0x1_0000_0000_0000_0000

  /** Ch as the code computes it, with one `and`. */
  function ChCode(x: Word, y: Word, z: Word): (r: Word)
    ensures r == Ch(x, y, z)
  {
    assert z ^ (x & (y ^ z)) == (x & y) ^ (!x & z);
    z ^ (x & (y ^ z))
  }

  /** Maj as the code computes it, with `or`. */
  function MajCode(x: Word, y: Word, z: Word): (r: Word)
    ensures r == Maj(x, y, z)
  {
    assert (x & y) | (z & (x | y)) == (x & y) ^ (x & z) ^ (y & z);
    (x & y) | (z & (x | y))
  }

  /** The code adds the three terms of the new first word from left to right. */
  function FirstWordCode(t: Word, sigma: Word, maj: Word): (r: Word)
    ensures r == PlusT2(t, sigma, maj)
  {
    t + sigma + maj
  }

  /** The code adds the four terms of a schedule word in the opposite order. */
  function ScheduleWordCode(w16: Word, s0: Word, w7: Word, s1: Word): (r: Word)
    ensures r == Sum4(s1, w7, s0, w16)
  {
    w16 + s0 + w7 + s1
  }

  ghost predicate Holds(v: Vars, h: seq<Word>) {
    |h| == 8 && v == Vars(h[0], h[1], h[2], h[3], h[4], h[5], h[6], h[7])
  }

  /** h holds the hash of all of m but its last pos bytes, and those are the buffer's first pos bytes. */
  ghost predicate Partial(m: seq<Byte>, pos: nat, h: seq<Word>, buf: seq<Byte>) {
    && |buf| == 64
    && pos <= 64 && pos <= |m| && (|m| - pos) % 64 == 0
    && Holds(Absorb(m[..|m| - pos]), h)
    && buf[..pos] == m[|m| - pos..]
  }

  lemma PartialGrows(m: seq<Byte>, pos: nat, h: seq<Word>, buf: seq<Byte>, data: seq<Byte>, buf': seq<Byte>)
    requires Partial(m, pos, h, buf) && pos + |data| <= 64 == |buf'|
    requires buf'[..pos + |data|] == buf[..pos] + data
    ensures Partial(m + data, pos + |data|, h, buf')
  {
    var all := m + data;
    assert all[..|all| - (pos + |data|)] == m[..|m| - pos];
  }

  /** Absorbing one more block after a whole number of blocks. */
  lemma AbsorbBlock(m: seq<Byte>, block: Block)
    requires |m| % 64 == 0
    ensures Absorb(m + block) == Compress(Absorb(m), block)
  {
    var s := m + block;
    assert s[..|s| - 64] == m && s[|s| - 64..] == block;
  }

  lemma TailLength(len: nat, pos: nat)
    requires pos < 64 && pos <= len && (len - pos) % 64 == 0
    ensures pos == len % 64
  {
    assert len == 64 * ((len - pos) / 64) + pos;
  }

  /** A 64-bit byte count still knows the position in the buffer. */
  lemma LengthWraps(len: nat, n: nat)
    ensures len % TWO_64 % 64 == len % 64
    ensures (len % TWO_64 + n) % TWO_64 == (len + n) % TWO_64
  {
    var q, r := len / TWO_64, len % TWO_64;
    assert len == 64 * (0x400_0000_0000_0000 * q + r / 64) + r % 64;
    var s := (len + n) / TWO_64;
    assert r + n == TWO_64 * (s - q) + (len + n) % TWO_64;
  }

  lemma ZerosJoin(m: seq<Byte>, a: nat, b: nat)
    ensures m + Zeros(a) + Zeros(b) == m + Zeros(a + b)
  {
  }

  /** The zeros written by PadToLength, with or without a block boundary between them. */
  lemma ZeroRuns(len: nat, pos: nat)
    requires pos < 64 && pos <= len && (len - pos) % 64 == 0
    ensures ZeroCount(len) == if pos < 56 then 55 - pos else (63 - pos) + 56
  {
    TailLength(len, pos);
  }

  /** The two 32-bit halves of the bit count, each truncated, spell its eight bytes. */
  lemma LengthField(length: nat, high: nat, low: nat)
    requires high == length / 0x2000_0000 % 0x1_0000_0000
    requires low == length * 8 % 0x1_0000_0000
    ensures BigEndian32(high) + BigEndian32(low) == BigEndian64(8 * length)
  {
    Truncates(length / 0x2000_0000);
    Truncates(length * 8);
    assert length / 0x2000_0000 == 8 * length / 0x1_0000_0000;
  }

  lemma PadParts(m: seq<Byte>, done: seq<Byte>, field: seq<Byte>)
    requires 8 * |m| < TWO_64
    requires done == m + [0x80] + Zeros(ZeroCount(|m|)) && field == BigEndian64(8 * |m|)
    ensures Pad(m) == done + field && |field| == 8
  {
  }

  /** Truncation to 32 bits does not change the four bytes. */
  lemma Truncates(v: nat)
    ensures BigEndian32(v % 0x1_0000_0000) == BigEndian32(v)
  {
    var q, r := v / 0x1_0000_0000, v % 0x1_0000_0000;
    assert v == 0x1_0000_0000 * q + r;
    TruncatesByte(q, r, 0x100_0000, 1);
    TruncatesByte(q, r, 0x1_0000, 0x100);
    TruncatesByte(q, r, 0x100, 0x1_0000);
    TruncatesByte(q, r, 1, 0x100_0000);
  }

  lemma ModAdds(k: nat, x: nat)
    ensures (256 * k + x) % 256 == x % 256
  {
  }

  lemma TruncatesByte(q: nat, r: nat, d: nat, e: nat)
    requires (d, e) in {(0x100_0000, 1), (0x1_0000, 0x100), (0x100, 0x1_0000), (1, 0x100_0000)}
    ensures (0x1_0000_0000 * q + r) / d % 256 == r / d % 256
  {
    assert (0x1_0000_0000 * q + r) / d == 256 * (e * q) + r / d;
    ModAdds(e * q, r / d);
  }

  ghost function WordsBytes(w: seq<Word>): seq<Byte> {
    if w == [] then [] else WordsBytes(w[..|w| - 1]) + WordBytes(w[|w| - 1])
  }

  lemma EightWords(v: Vars, h: seq<Word>)
    requires Holds(v, h)
    ensures WordsBytes(h) == DigestBytes(v)
  {
    forall n | 0 < n <= 8 ensures WordsBytes(h[..n]) == WordsBytes(h[..n - 1]) + WordBytes(h[n - 1]) {
      assert h[..n][..n - 1] == h[..n - 1];
    }
    assert h[..8] == h;
    var two := WordsBytes(h[..2]);
    assert two == WordBytes(v.a) + WordBytes(v.b);
    var four := WordsBytes(h[..4]);
    assert four == two + WordBytes(v.c) + WordBytes(v.d);
    var six := WordsBytes(h[..6]);
    assert six == four + WordBytes(v.e) + WordBytes(v.f);
  }

  /** The rounds added to the hash value are the compression. */
  lemma Added(v: Vars, data: Block, before: seq<Word>, s: seq<Word>, after: seq<Word>)
    requires Holds(v, before) && Holds(Rounds(v, Schedule(data, 64), 64), s)
    requires |after| == 8 && forall k :: 0 <= k < 8 ==> after[k] == Add(before[k], s[k])
    ensures Holds(Compress(v, data), after)
  {
  }

  class Context {
    const h: array<Word>
    const buf: array<Byte>
    var length: nat
    ghost var message: seq<Byte>  // everything passed to Update since Start

    ghost predicate Valid()
      reads this, h, buf
    {
      && h.Length == 8 && buf.Length == BLOCK_SIZE
      && length == |message| % TWO_64
      && Partial(message, |message| % 64, h[..], buf[..])
    }

    constructor ()
      ensures h.Length == 8 && buf.Length == BLOCK_SIZE && fresh(h) && fresh(buf)
    {
      h := new Word[8];
      buf := new Byte[BLOCK_SIZE];
      length := 0;
      message := [];
    }

    method Start()
      requires h.Length == 8 && buf.Length == BLOCK_SIZE
      modifies this, h
      ensures Valid() && message == []
    {
      h[0], h[1], h[2], h[3] := 0x6A09E667, 0xBB67AE85, 0x3C6EF372, 0xA54FF53A;
      h[4], h[5], h[6], h[7] := 0x510E527F, 0x9B05688C, 0x1F83D9AB, 0x5BE0CD19;
      length := 0;
      message := [];
    }

    method Process(data: Block, ghost v: Vars)
      requires Holds(v, h[..])
      modifies h
      ensures Holds(Compress(v, data), h[..])
    {
      var s := new Word[8];
      for i := 0 to 8
        invariant s[..i] == h[..i]
        invariant h[..] == old(h[..])
      {
        s[i] := h[i];
      }
      assert s[..] == h[..];
      RunRounds(s, data, v);
      AddTo(s);
      Added(v, data, old(h[..]), s[..], h[..]);
    }

    method AddTo(s: array<Word>)
      requires s != h && h.Length == s.Length == 8
      modifies h
      ensures forall k :: 0 <= k < 8 ==> h[k] == Add(old(h[k]), s[k])
    {
      for i := 0 to 8
        invariant forall k :: 0 <= k < i ==> h[k] == Add(old(h[k]), s[k])
        invariant forall k :: i <= k < 8 ==> h[k] == old(h[k])
      {
        h[i] := Add(h[i], s[i]);
      }
    }

    static method RunRounds(s: array<Word>, data: Block, ghost v: Vars)
      requires Holds(v, s[..])
      modifies s
      ensures Holds(Rounds(v, Schedule(data, 64), 64), s[..])
    {
      var w := ExpandBlock(data);
      for i := 0 to 64
        invariant w[..] == Schedule(data, 64)
        invariant Holds(Rounds(v, w[..], i), s[..])
      {
        MixRound(s, K[i], w[i], Rounds(v, w[..], i));
      }
    }

    static method MixRound(s: array<Word>, k: Word, w: Word, ghost v: Vars)
      requires s.Length == 8 && Holds(v, s[..])
      modifies s
      ensures Holds(Round(v, k, w), s[..])
    {
      var t := Sum5(s[7], BigSigma1(s[4]), ChCode(s[4], s[5], s[6]), k, w);
      s[7] := s[6];
      s[6] := s[5];
      s[5] := s[4];
      s[4] := Add(s[3], t);
      s[3] := s[2];
      s[2] := s[1];
      s[1] := s[0];
      s[0] := FirstWordCode(t, BigSigma0(s[1]), MajCode(s[1], s[2], s[3]));
    }

    static method ExpandBlock(data: Block) returns (w: array<Word>)
      ensures fresh(w) && w[..] == Schedule(data, 64)
    {
      w := new Word[BLOCK_SIZE];
      for i := 0 to 16
        invariant w[..i] == Schedule(data, i)
      {
        w[i] := BigEndianWord(data[4 * i], data[4 * i + 1], data[4 * i + 2], data[4 * i + 3]);
        assert w[..i + 1] == w[..i] + [w[i]];
      }
      for i := 16 to 64
        invariant w[..i] == Schedule(data, i)
      {
        ghost var p := w[..i];
        w[i] := ScheduleWordCode(w[i - 16], SmallSigma0(w[i - 15]), w[i - 7], SmallSigma1(w[i - 2]));
        assert w[..i + 1] == p + [w[i]];
      }
      assert w[..64] == w[..];
    }

    /** Appends input to the message, for any split into calls. */
    method Update(input: seq<Byte>)
      requires Valid() && |input| < TWO_64
      modifies this, h, buf
      ensures Valid() && message == old(message) + input
    {
      LengthWraps(|message|, |input|);
      var pos := length % BLOCK_SIZE;
      length := (length + |input|) % TWO_64;
      pos := Consume(pos, input, message);
      message := message + input;
      TailLength(|message|, pos);
    }

    /** The update loop. */
    method Consume(start: nat, input: seq<Byte>, ghost before: seq<Byte>) returns (pos: nat)
      requires h.Length == 8 && buf.Length == BLOCK_SIZE
      requires start < BLOCK_SIZE && Partial(before, start, h[..], buf[..])
      modifies h, buf
      ensures pos < BLOCK_SIZE && Partial(before + input, pos, h[..], buf[..])
    {
      pos := start;
      var rest := input;
      ghost var done := before;
      while |rest| > 0
        invariant before + input == done + rest
        invariant pos < BLOCK_SIZE && Partial(done, pos, h[..], buf[..])
      {
        var n, next := Feed(pos, rest, done);
        done := done + rest[..n];
        rest, pos := rest[n..], next;
      }
      assert done == before + input;
    }

    /** One turn of the update loop: n bytes are taken from the input. */
    method Feed(pos: nat, rest: seq<Byte>, ghost done: seq<Byte>) returns (n: nat, next: nat)
      requires h.Length == 8 && buf.Length == BLOCK_SIZE && |rest| > 0
      requires pos < BLOCK_SIZE && Partial(done, pos, h[..], buf[..])
      modifies h, buf
      ensures 0 < n <= |rest| && next < BLOCK_SIZE
      ensures Partial(done + rest[..n], next, h[..], buf[..])
    {
      if |rest| >= BLOCK_SIZE && pos == 0 {
        n, next := BLOCK_SIZE, 0;
        Absorbs(rest[..n], done);
      } else {
        n := if |rest| < BLOCK_SIZE - pos then |rest| else BLOCK_SIZE - pos;
        Fill(pos, rest[..n], done);
        next := pos + n;
        if next == BLOCK_SIZE {
          Flush(done + rest[..n]);
          next := 0;
        }
      }
    }

    /** Hashes one block straight from the input. */
    method Absorbs(data: Block, ghost done: seq<Byte>)
      requires h.Length == 8 && buf.Length == BLOCK_SIZE
      requires Partial(done, 0, h[..], buf[..])
      modifies h
      ensures Partial(done + data, 0, h[..], buf[..])
    {
      assert done[..|done|] == done;
      Process(data, Absorb(done));
      AbsorbBlock(done, data);
      ghost var all := done + data;
      assert all[..|all|] == all;
    }

    /** Copies data into the buffer at pos: the tail of the absorbed message grows by data. */
    method Fill(pos: nat, data: seq<Byte>, ghost done: seq<Byte>)
      requires h.Length == 8 && buf.Length == BLOCK_SIZE
      requires Partial(done, pos, h[..], buf[..]) && pos + |data| <= BLOCK_SIZE
      modifies buf
      ensures Partial(done + data, pos + |data|, h[..], buf[..])
    {
      Copy(buf, pos, data);
      PartialGrows(done, pos, h[..], old(buf[..]), data, buf[..]);
    }

    static method Copy(buf: array<Byte>, pos: nat, data: seq<Byte>)
      requires pos + |data| <= buf.Length
      modifies buf
      ensures buf[..pos + |data|] == old(buf[..pos]) + data
    {
      for k := 0 to |data|
        invariant forall j :: 0 <= j < pos ==> buf[j] == old(buf[j])
        invariant forall j :: 0 <= j < k ==> buf[pos + j] == data[j]
      {
        buf[pos + k] := data[k];
      }
    }

    /** Hashes a full buffer. */
    method Flush(ghost done: seq<Byte>)
      requires h.Length == 8 && buf.Length == BLOCK_SIZE
      requires Partial(done, 64, h[..], buf[..])
      modifies h
      ensures Partial(done, 0, h[..], buf[..])
    {
      ghost var whole := done[..|done| - 64];
      Process(buf[..], Absorb(whole));
      AbsorbBlock(whole, buf[..]);
      assert whole + buf[..] == done && done[..|done|] == done;
    }

    /** Pads and hashes the rest; the digest, if asked for, is SHA-256 of the whole message. */
    method Finish(digest: array?<Byte>)
      requires Valid() && 8 * |message| < TWO_64
      requires digest != null ==> digest.Length == 32 && digest != buf
      modifies h, buf, digest
      ensures digest != null ==> digest[..] == Sha256(message)
      ensures Holds(Absorb(Pad(message)), h[..])
    {
      var pos := length % BLOCK_SIZE;
      assert length == |message| && pos == |message| % 64;
      ghost var done := PadToLength(pos, message);
      AddLength(done);
      if digest != null {
        WriteDigest(digest, Absorb(Pad(message)));
      }
    }

    /** Writes the 64 bits of the length behind the padding and hashes the last block. */
    method AddLength(ghost done: seq<Byte>)
      requires h.Length == 8 && buf.Length == BLOCK_SIZE && 8 * |message| < TWO_64 && length == |message|
      requires done == message + [0x80] + Zeros(ZeroCount(|message|)) && Partial(done, 56, h[..], buf[..])
      modifies h, buf
      ensures Holds(Absorb(Pad(message)), h[..])
    {
      var high := length / 0x2000_0000 % 0x1_0000_0000;
      var low := length * 8 % 0x1_0000_0000;
      LengthField(length, high, low);
      PadParts(message, done, BigEndian32(high) + BigEndian32(low));
      FinishBlock(BigEndian32(high) + BigEndian32(low), done, Pad(message));
    }

    method FinishBlock(field: seq<Byte>, ghost done: seq<Byte>, ghost padded: seq<Byte>)
      requires h.Length == 8 && buf.Length == BLOCK_SIZE
      requires |field| == 8 && Partial(done, 56, h[..], buf[..])
      requires padded == done + field
      modifies h, buf
      ensures |padded| % 64 == 0 && Holds(Absorb(padded), h[..])
    {
      Fill(BLOCK_SIZE - 8, field, done);
      Flush(padded);
      assert padded[..|padded|] == padded;
    }

    /** Writes the 0x80 byte and zeros until eight bytes of a block are left. */
    method PadToLength(start: nat, ghost m: seq<Byte>) returns (ghost done: seq<Byte>)
      requires h.Length == 8 && buf.Length == BLOCK_SIZE
      requires start < BLOCK_SIZE && Partial(m, start, h[..], buf[..])
      modifies h, buf
      ensures done == m + [0x80] + Zeros(ZeroCount(|m|))
      ensures Partial(done, 56, h[..], buf[..])
    {
      ZeroRuns(|m|, start);
      var pos := start;
      Fill(pos, [0x80], m);
      done := m + [0x80];
      pos := pos + 1;
      if pos > BLOCK_SIZE - 8 {
        done := FillZeros(pos, BLOCK_SIZE, done);
        Flush(done);
        ZerosJoin(m + [0x80], BLOCK_SIZE - pos, BLOCK_SIZE - 8);
        pos := 0;
      }
      done := FillZeros(pos, BLOCK_SIZE - 8, done);
    }

    /** Writes zeros from pos up to the given end; returns the extended message. */
    method FillZeros(pos: nat, end: nat, ghost done: seq<Byte>) returns (ghost more: seq<Byte>)
      requires h.Length == 8 && buf.Length == BLOCK_SIZE
      requires pos <= end <= BLOCK_SIZE && Partial(done, pos, h[..], buf[..])
      modifies buf
      ensures more == done + Zeros(end - pos)
      ensures Partial(more, end, h[..], buf[..])
    {
      more := done;
      var p := pos;
      while p < end
        invariant pos <= p <= end
        invariant more == done + Zeros(p - pos)
        invariant Partial(more, p, h[..], buf[..])
      {
        Fill(p, [0], more);
        more := more + [0];
        p := p + 1;
      }
    }

    method WriteDigest(digest: array<Byte>, ghost v: Vars)
      requires Holds(v, h[..]) && digest.Length == 32
      modifies digest
      ensures digest[..] == DigestBytes(v)
    {
      for i := 0 to 8
        invariant digest[..4 * i] == WordsBytes(h[..i])
      {
        Copy(digest, 4 * i, WordBytes(h[i]));
        assert h[..i + 1][..i] == h[..i];
      }
      assert digest[..32] == digest[..] && h[..8] == h[..];
      EightWords(v, h[..]);
    }
  }

  ghost function Joined(chunks: seq<seq<Byte>>): seq<Byte> {
    if chunks == [] then [] else Joined(chunks[..|chunks| - 1]) + chunks[|chunks| - 1]
  }

  /** However a message is cut into update calls, the digest is SHA-256 of the whole. */
  method HashChunks(chunks: seq<seq<Byte>>) returns (digest: seq<Byte>)
    requires 8 * |Joined(chunks)| < TWO_64
    requires forall k :: 0 <= k < |chunks| ==> |chunks[k]| < TWO_64
    ensures digest == Sha256(Joined(chunks))
  {
    var ctx := new Context();
    ctx.Start();
    for i := 0 to |chunks|
      invariant fresh(ctx) && fresh(ctx.h) && fresh(ctx.buf) && ctx.Valid()
      invariant ctx.message == Joined(chunks[..i])
    {
      ctx.Update(chunks[i]);
      assert chunks[..i + 1][..i] == chunks[..i];
    }
    assert chunks[..|chunks|] == chunks;
    var out := new Byte[32];
    ctx.Finish(out);
    digest := out[..];
  }
}
