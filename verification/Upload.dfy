/**
 File uploads of src/eoclient.cpp: a larger ring takes the place of the send ring, the file
 is written into it, and packets sent meanwhile collect behind the ones that were waiting.
 */
module Upload {
  import opened Bytes
  import opened Common
  import opened PacketFields
  import opened Ring
  import opened SendRing

  const MAX_FILE := 63992
  const PUB_HEADER := 10

  /** A map file with the three bytes that turn player killing on. */
  function Patched(file: seq<Byte>): (r: seq<Byte>)
    ensures |r| == |file|
    ensures forall i :: 0 <= i < |file| ==> r[i] == PatchedByte(file, i)
  {
    seq(|file|, i requires 0 <= i < |file| => PatchedByte(file, i))
  }

  function PatchedByte(file: seq<Byte>, i: nat): Byte
    requires i < |file|
  {
    if i == 0x03 then 0xFF else if i == 0x04 then 0x01 else if i == 0x1F then 0x04 else file[i]
  }

  /** The bytes an upload reads: the whole file, or the first ten bytes and one section of it. */
  function Section(file: seq<Byte>, start: nat, length: nat): seq<Byte>
    requires SectionExists(file, start, length)
  {
    if length == 0 then file
    else if start == 0 then file[..length + PUB_HEADER]
    else file[..PUB_HEADER] + file[start..start + length]
  }

  predicate SectionExists(file: seq<Byte>, start: nat, length: nat) {
    if length == 0 then start == 0
    else if start == 0 then length + PUB_HEADER <= |file|
    else PUB_HEADER <= |file| && start + length <= |file|
  }

  lemma PatchIs(file: seq<Byte>)
    requires |file| > 0x1F
    ensures Patched(file) == file[0x03 := 0xFF][0x04 := 0x01][0x1F := 0x04]
  {
  }

  /** What the sections of a pub file between consecutive splits hold behind their header. */
  function Bodies(file: seq<Byte>, splits: seq<nat>): seq<Byte>
    requires Splits(file, splits)
  {
    if |splits| <= 1 then []
    else
      assert 10 <= splits[0] < splits[1] <= |file|;
      Section(file, splits[0], splits[1] - splits[0])[10..] + Bodies(file, splits[1..])
  }

  predicate Splits(file: seq<Byte>, splits: seq<nat>) {
    && |file| >= 10
    && (forall i :: 0 <= i < |splits| ==> 10 <= splits[i] <= |file|)
    && (forall i, j :: 0 <= i < j < |splits| ==> splits[i] < splits[j])
  }

  /** The sections between consecutive splits all start with the header of the file, and tile the rest of it. */
  lemma {:induction false} SectionsTile(file: seq<Byte>, splits: seq<nat>)
    requires Splits(file, splits) && splits != []
    ensures Bodies(file, splits) == file[splits[0]..splits[|splits| - 1]]
    ensures forall i :: 0 < i < |splits| ==>
      SectionExists(file, splits[i - 1], splits[i] - splits[i - 1])
      && Section(file, splits[i - 1], splits[i] - splits[i - 1])[..10] == file[..10]
    decreases |splits|
  {
    if |splits| > 1 {
      SectionsTile(file, splits[1..]);
      var last := splits[|splits| - 1];
      assert splits[1..][|splits| - 2] == last;
      assert file[splits[0]..last] == file[splits[0]..splits[1]] + file[splits[1]..last];
      assert Section(file, splits[0], splits[1] - splits[0])[10..] == file[splits[0]..splits[1]];
      forall i | 0 < i < |splits|
        ensures SectionExists(file, splits[i - 1], splits[i] - splits[i - 1])
        ensures Section(file, splits[i - 1], splits[i] - splits[i - 1])[..10] == file[..10]
      {
      }
    }
  }

  datatype UploadResult = Threw | Failed | Started

  lemma SixIsNoPower()
    ensures !IsPowerOfTwo(6)
  {
    assert PowerOfTwo(1) == 2;
    OddPart(6, 3, 1);
  }

  lemma JoinFile(header: seq<Byte>, section: seq<Byte>, payload: seq<Byte>, copied: nat, pending: seq<Byte>)
    requires copied <= |section| == |payload| && payload[..copied] == section[..copied]
    ensures header + section[..copied] + (payload[copied..] + pending) == header + payload + pending
  {
    assert payload == section[..copied] + payload[copied..];
  }

  lemma AppendLast(a: seq<Byte>, b: seq<Byte>, c: seq<Byte>, d: seq<Byte>)
    ensures a + (b + (c + d)) == a + (b + c) + d
  {
  }

  /** File bytes that go from the file into the ring, possibly changed, change only themselves. */
  lemma FileMoves(cells: seq<Byte>, data: seq<Byte>, file: seq<Byte>, from: nat, to: nat, behind: seq<Byte>)
    requires from <= to <= |file| && |data| == to - from
    ensures (cells + data) + (file[to..] + behind) == cells + (file[from..] + behind) <==> data == file[from..to]
  {
    var a, b := (cells + data) + (file[to..] + behind), cells + (file[from..] + behind);
    assert a[|cells|..|cells| + |data|] == data && b[|cells|..|cells| + |data|] == file[from..to];
    assert file[from..] == file[from..to] + file[to..];
  }

  /** The bytes that one read leaves in the ring; one that starts at the second patched byte does not patch it. */
  predicate IsChunk(source: seq<Byte>, pk: bool, from: nat, data: seq<Byte>) {
    from + |data| <= |source| && forall i :: 0 <= i < |data| ==>
      data[i] == if pk && !(from == 4 && i == 0) then PatchedByte(source, from + i) else source[from + i]
  }

  /** A chunk of the file is what should go out unless it starts at the second patched byte. */
  lemma ChunkExactly(source: seq<Byte>, pk: bool, from: nat, data: seq<Byte>)
    requires IsChunk(source, pk, from, data)
    ensures data == (if pk then Patched(source) else source)[from..from + |data|]
      <==> !(|data| > 0 && pk && from == 4 && source[4] != 0x01)
  {
    var file := if pk then Patched(source) else source;
    if |data| > 0 {
      assert file[from..from + |data|][0] == file[from];
    }
  }

  /** The same chunk, byte by byte as it is. */
  lemma ChunkIs(source: seq<Byte>, pk: bool, from: nat, data: seq<Byte>)
    requires IsChunk(source, pk, from, data)
    ensures var chunk := (if pk then Patched(source) else source)[from..from + |data|];
      data == if |data| > 0 && pk && from == 4 then chunk[0 := source[4]] else chunk
  {
  }

  /** A first byte that is changed on its way into the ring. */
  lemma ByteMoves(cells: seq<Byte>, file: seq<Byte>, from: nat, to: nat, b: Byte, behind: seq<Byte>)
    requires from < to <= |file|
    ensures (cells + file[from..to][0 := b]) + (file[to..] + behind) == (cells + (file[from..] + behind))[|cells| := b]
  {
    assert file[from..] == file[from..to] + file[to..];
  }

  /** What is to go out after a read. */
  lemma ChunkMoves(cells: seq<Byte>, source: seq<Byte>, file: seq<Byte>, pk: bool, from: nat, data: seq<Byte>,
                   behind: seq<Byte>)
    requires IsChunk(source, pk, from, data) && file == if pk then Patched(source) else source
    ensures var before, after := cells + (file[from..] + behind), (cells + data) + (file[from + |data|..] + behind);
      && (after == before <==> !(|data| > 0 && pk && from == 4 && source[4] != 0x01))
      && after == if |data| > 0 && pk && from == 4 then before[|cells| := source[4]] else before
  {
    FileMoves(cells, data, file, from, from + |data|, behind);
    ChunkExactly(source, pk, from, data);
    ChunkIs(source, pk, from, data);
    if |data| > 0 && pk && from == 4 {
      ByteMoves(cells, file, 4, 4 + |data|, source[4], behind);
    }
  }

  /** All bytes of a connection, of which the file starts at a place; a missed byte is as it was in the file. */
  ghost function Unpatched(all: seq<Byte>, missed: bool, place: nat, source: seq<Byte>): (r: seq<Byte>)
    ensures |r| == |all|
  {
    if missed && place + 4 < |all| && 4 < |source| then all[place + 4 := source[4]] else all
  }

  lemma MoveFront(wire: seq<Byte>, taken: seq<Byte>, rest: seq<Byte>, behind: seq<Byte>)
    ensures wire + ((taken + rest) + behind) == (wire + taken) + (rest + behind)
  {
  }

  lemma AppendOnly(a: seq<Byte>, d: seq<Byte>)
    ensures (a + []) + d == (a + d) + [] && (a + []) + [] == a + []
  {
  }

  class Sender {
    var ring: SendBuffer
    var ring2: SendBuffer?    // during an upload, the ring that was in use before it
    var source: seq<Byte>     // what the file reads of the upload give, in order
    var pk: bool              // the map bytes are patched
    var uploadPos: nat
    var uploadSize: nat
    var closed: bool
    ghost var wire: seq<Byte>     // what the socket has accepted
    ghost var payload: seq<Byte>  // the file as it should go out

    predicate Uploading()
      reads this
    {
      ring2 != null
    }

    ghost predicate Valid()
      reads this, ring, ring2
    {
      if ring2 == null then ring.Valid()
      else
        && ring != ring2 && ring.buffer != ring2.buffer && ring2.Valid()
        && ring.Linear() && ring.ppos + (uploadSize - uploadPos) <= ring.buffer.Length
        && uploadPos <= uploadSize == |source| && uploadPos <= |wire| + ring.used
        && payload == if pk then Patched(source) else source
    }

    /** Every byte that is still to go out, in the order in which it will. */
    ghost function Future(): seq<Byte>
      requires Valid()
      reads this, ring, ring.buffer, ring2, if ring2 == null then {} else {ring2.buffer}
    {
      ring.Pending() + if ring2 == null then [] else payload[uploadPos..] + ring2.Pending()
    }

    /** Where the file starts among all bytes of the connection. */
    ghost function Place(): nat
      requires Valid() && Uploading()
      reads this, ring, ring2
    {
      |wire| + ring.used - uploadPos
    }

    constructor (size: nat)
      requires IsPowerOfTwo(size)
      ensures Valid() && Future() == [] && wire == [] && !Uploading() && !closed
      ensures fresh(ring) && fresh(ring.buffer) && ring.buffer.Length == size
    {
      ring := new SendBuffer(size);
      ring2 := null;
      source, pk, uploadPos, uploadSize, closed := [], false, 0, 0, false;
      wire, payload := [], [];
    }

    /** One send call of the socket moves bytes from the future to the wire. */
    method DoSend(written: int) returns (ok: bool)
      requires Valid() && written <= ring.used && written <= CHUNK
      modifies `wire, ring`gpos, ring`used
      ensures ok <==> written >= 0
      ensures ok ==> Valid() && wire + Future() == old(wire + Future()) && |wire| == |old(wire)| + written
      ensures ok && Uploading() ==> Place() == old(Place())
    {
      var taken;
      ghost var behind := if ring2 == null then [] else payload[uploadPos..] + ring2.Pending();
      ghost var before := ring.Pending();
      ok, taken := ring.DoSend(written);
      if ok {
        assert before == taken + ring.Pending();
        MoveFront(wire, taken, ring.Pending(), behind);
        wire := wire + taken;
      }
    }

    /** EOClient::Send with an encoded packet; one that does not fit closes the connection. */
    method Send(data: seq<Byte>) returns (fits: bool)
      requires Valid()
      modifies `closed, ring, ring.buffer, ring2, if ring2 == null then {} else {ring2.buffer}
      ensures Valid() && closed == (old(closed) || !fits)
      ensures Future() == old(Future()) + if fits then data else []
      ensures Uploading() ==> Place() == old(Place())
      ensures ring.buffer == old(ring.buffer)
    {
      if ring2 != null {
        ghost var cells := ring2.Pending();
        fits := ring2.Put(data);
        AppendLast(ring.Pending(), payload[uploadPos..], cells, if fits then data else []);
      } else {
        AppendOnly(ring.Pending(), data);
        fits := ring.Put(data);
      }
      closed := closed || !fits;
    }

    /** EOClient::Upload: header and file go in front of everything that is still to go out. */
    method Upload(file: Option<seq<Byte>>, start: nat, length: nat, reply: Byte, fileId: Option<Int32>, pkMap: bool)
      returns (r: UploadResult, header: seq<Byte>)
      requires Valid()
      requires file.Some? ==> SectionExists(file.value, start, length)
      requires pkMap ==> start == 0
      modifies this
      ensures Valid() && wire == old(wire)
      ensures r == if old(Uploading()) || length > 63992 then Threw else if file.None? then Failed else Started
      ensures !r.Started? ==> Future() == old(Future()) && Uploading() == old(Uploading())
      ensures r.Started? ==>
        && Uploading() && fresh(ring) && fresh(ring.buffer) && ring2 == old(ring)
        && source == Section(file.value, start, length) && pk == pkMap
        && payload == (if pkMap then Patched(source) else source)
        && uploadPos == (if start != 0 then PUB_HEADER else 0) && uploadSize == |source|
        && Future() == header + payload + old(Future()) && Place() == |wire| + |header|
        && header == UploadHeader(reply, fileId, |source|)
    {
      header := [];
      if ring2 != null || length > MAX_FILE {
        return Threw, [];
      }
      if file.None? {
        return Failed, [];
      }
      var section := Section(file.value, start, length);
      header := BuildHeader(reply, fileId, |section|);
      var bigger := StartRing(section, header, if start != 0 then PUB_HEADER else 0);
      Exchange(bigger, section, if start != 0 then PUB_HEADER else 0, pkMap, header);
      r := Started;
    }

    /** The temporary ring with the header packet and the first copied bytes of the file. */
    method StartRing(section: seq<Byte>, header: seq<Byte>, copied: nat) returns (r: SendBuffer)
      requires IsPowerOfTwo(ring.buffer.Length) && |header| <= 6 && copied <= |section|
      ensures fresh(r) && fresh(r.buffer) && r.Linear() && r.Pending() == header + section[..copied]
      ensures r.ppos + (|section| - copied) <= r.buffer.Length
    {
      r := BiggerRing(ring.buffer.Length, |section|);
      var fits := r.Put(header);
      r.PutLinear(section[..copied]);
      assert [] + header + section[..copied] == header + section[..copied];
    }

    /** The rings change places. */
    method Exchange(bigger: SendBuffer, section: seq<Byte>, copied: nat, pkMap: bool, ghost header: seq<Byte>)
      requires ring2 == null && ring.Valid() && bigger != ring && bigger.buffer != ring.buffer
      requires copied <= |section| && (pkMap ==> copied == 0)
      requires bigger.Linear() && bigger.Pending() == header + section[..copied]
      requires bigger.ppos + (|section| - copied) <= bigger.buffer.Length
      modifies this
      ensures Valid() && wire == old(wire) && closed == old(closed)
      ensures ring == bigger && ring2 == old(ring) && source == section && pk == pkMap
      ensures uploadPos == copied && uploadSize == |section|
      ensures payload == if pkMap then Patched(section) else section
      ensures Future() == header + payload + old(ring.Pending()) && Place() == |wire| + |header|
    {
      ghost var pending := ring.Pending();
      ring, ring2 := bigger, ring;
      source, pk, uploadPos, uploadSize := section, pkMap, copied, |section|;
      payload := if pkMap then Patched(section) else section;
      JoinFile(header, section, payload, copied, pending);
    }

    function Available(): nat
      requires ring.used <= ring.buffer.Length && uploadPos <= uploadSize
      reads this, ring
    {
      var room := ring.buffer.Length - ring.used;
      if uploadSize - uploadPos < room then uploadSize - uploadPos else room
    }

    /**
     One tick of an upload: the next read bytes of the file go into the ring, or the rings change back.
     Nothing is lost or changed, except that a map byte stays unpatched when a read starts right at it.
     */
    method Tick(read: nat)
      requires Valid() && Uploading() && read <= Available()
      modifies this, ring`ppos, ring`used, ring.buffer
      ensures Valid() && wire == old(wire) && closed == old(closed) && pk == old(pk)
      ensures Future() == old(Future())
        <==> !(read > 0 && old(pk && uploadPos == 4 && uploadPos < |source| && source[4] != 0x01))
      ensures Future() ==
        if read > 0 && old(pk && uploadPos == 4) then old(Future()[ring.used := source[4]]) else old(Future())
      ensures Uploading() <==> old(uploadPos) < old(uploadSize) || old(ring.used) > 0
      ensures if Uploading()
        then ring == old(ring) && ring2 == old(ring2) && uploadSize == old(uploadSize)
          && uploadPos == old(uploadPos) + read && source == old(source) && Place() == old(Place())
        else ring == old(ring2)
    {
      if Available() != 0 {
        TickFile(read);
      } else if uploadPos == uploadSize && ring.used == 0 {
        ghost var behind := ring2.Pending();
        ring, ring2 := ring2, null;
        uploadPos, uploadSize, source := 0, 0, [];
        assert payload[old(uploadPos)..] == [];
        assert [] + ([] + behind) == behind + [];
      }
    }

    method TickFile(read: nat)
      requires Valid() && Uploading() && read <= Available()
      modifies `uploadPos, ring`ppos, ring`used, ring.buffer
      ensures Valid() && uploadPos == old(uploadPos) + read && Place() == old(Place())
      ensures Future() == old(Future())
        <==> !(read > 0 && old(pk && uploadPos == 4 && uploadPos < |source| && source[4] != 0x01))
      ensures Future() ==
        if read > 0 && old(pk && uploadPos == 4) then old(Future()[ring.used := source[4]]) else old(Future())
    {
      ghost var from, cells, behind := uploadPos, ring.Pending(), ring2.Pending();
      var data := NextBytes(read);
      ChunkMoves(cells, source, payload, pk, from, data, behind);
      ring.PutLinear(data);
      uploadPos := uploadPos + read;
    }

    /** The bytes one file read puts into the ring, with the map bytes rewritten as the code rewrites them. */
    method NextBytes(read: nat) returns (data: seq<Byte>)
      requires uploadPos + read <= |source|
      ensures |data| == read
      ensures IsChunk(source, pk, uploadPos, data)
    {
      data := source[uploadPos..uploadPos + read];
      if pk {
        if uploadPos <= 0x03 && uploadPos + read > 0x03 {
          data := data[0x03 - uploadPos := 0xFF];
        }
        if uploadPos <= 0x03 && uploadPos + read > 0x04 {
          data := data[0x04 - uploadPos := 0x01];
        }
        if uploadPos <= 0x1F && uploadPos + read > 0x1F {
          data := data[0x1F - uploadPos := 0x04];
        }
      }
    }

    /** A fresh ring, the old size doubled until it holds six header bytes and the file. */
    static method BiggerRing(size: nat, fileSize: nat) returns (r: SendBuffer)
      requires IsPowerOfTwo(size)
      ensures fresh(r) && fresh(r.buffer) && r.Valid() && r.Linear() && r.Pending() == [] && r.ppos == 0 && r.used == 0
      ensures r.buffer.Length >= fileSize + 6 && r.buffer.Length > 6
    {
      var temp := size;
      DoubledPower(size);
      while temp < fileSize + 6
        invariant temp > 0 && IsPowerOfTwo(temp)
        decreases fileSize + 6 - temp
      {
        DoubledPower(temp);
        temp := temp * 2;
      }
      SixIsNoPower();
      r := new SendBuffer(temp);
    }

    /** The packet that announces the file; its length field counts the file. */
    static method BuildHeader(reply: Byte, fileId: Option<Int32>, size: nat) returns (packet: seq<Byte>)
      ensures packet == UploadHeader(reply, fileId, size)
    {
      var builder := new PacketBuilder(255, 255);
      builder.AddChar(reply);
      if fileId.Some? {
        builder.AddChar(fileId.value);
      }
      builder.AddSize(size);
      packet := builder.Get();
    }
  }

  // -- Whole uploads -------------------------------------------------------------------

  /** What can happen to a connection: a packet is sent, the socket takes bytes, the server ticks. */
  datatype Op = SendOp(data: seq<Byte>) | SocketOp(count: nat) | TickOp(count: nat)

  ghost function Repr(s: Sender): set<object>
    reads s
  {
    {s, s.ring, s.ring.buffer} + if s.ring2 == null then {} else {s.ring2, s.ring2.buffer}
  }

  /** The place in the file after a read; every read may go up to the end of the file. */
  function Read(pos: nat, size: nat, count: nat): nat
    requires pos <= size
  {
    pos + Min(count, size - pos)
  }

  /** Whether some tick of a run reads from the second patched byte on, which it then misses. */
  predicate Misses(ops: seq<Op>, pos: nat, size: nat)
    requires pos <= size
    decreases |ops|
  {
    if ops == [] then false
    else if !ops[0].TickOp? then Misses(ops[1..], pos, size)
    else pos == 4 < Read(pos, size, ops[0].count) || Misses(ops[1..], Read(pos, size, ops[0].count), size)
  }

  /** The place in the file after a run. */
  function ReadAll(ops: seq<Op>, pos: nat, size: nat): (p: nat)
    requires pos <= size
    ensures pos <= p <= size
    decreases |ops|
  {
    if ops == [] then pos
    else ReadAll(ops[1..], if ops[0].TickOp? then Read(pos, size, ops[0].count) else pos, size)
  }

  lemma {:induction false} MissesAppends(ops: seq<Op>, op: Op, pos: nat, size: nat)
    requires pos <= size
    ensures Misses(ops + [op], pos, size) <==> Misses(ops, pos, size) || Misses([op], ReadAll(ops, pos, size), size)
    decreases |ops|
  {
    if ops == [] {
      assert [] + [op] == [op];
    } else {
      assert (ops + [op])[1..] == ops[1..] + [op];
      MissesAppends(ops[1..], op, if ops[0].TickOp? then Read(pos, size, ops[0].count) else pos, size);
    }
  }

  lemma MissesNext(ops: seq<Op>, pos: nat, size: nat)
    requires ops != [] && pos <= size
    ensures var next := ReadAll([ops[0]], pos, size);
      && (Misses(ops, pos, size) <==> Misses([ops[0]], pos, size) || Misses(ops[1..], next, size))
      && ReadAll(ops, pos, size) == ReadAll(ops[1..], next, size)
  {
    assert [ops[0]][1..] == [];
  }

  lemma {:induction false} NoMissAtEnd(ops: seq<Op>, size: nat)
    ensures !Misses(ops, size, size) && ReadAll(ops, size, size) == size
    decreases |ops|
  {
    if ops != [] {
      NoMissAtEnd(ops[1..], size);
    }
  }

  /** Reads that give all that was asked for, which is the whole file, miss nothing. */
  lemma {:induction false} FullReadsMissNothing(ops: seq<Op>, size: nat)
    requires forall i :: 0 <= i < |ops| && ops[i].TickOp? ==> ops[i].count >= size
    ensures !Misses(ops, 0, size)
    decreases |ops|
  {
    if ops != [] {
      if ops[0].TickOp? {
        NoMissAtEnd(ops[1..], size);
      } else {
        FullReadsMissNothing(ops[1..], size);
      }
    }
  }

  /** The ring of an upload always has room for the rest of the file, so a read asks for all of it. */
  lemma AsksForAll(s: Sender)
    requires s.Valid() && s.Uploading()
    ensures s.Available() == s.uploadSize - s.uploadPos
  {
  }

  /** Whether a run on this connection misses the byte. */
  predicate MissedBy(s: Sender, ops: seq<Op>)
    requires s.Valid()
    reads s, s.ring, s.ring2
  {
    s.Uploading() && s.pk && Misses(ops, s.uploadPos, s.uploadSize)
  }

  /** Every byte of a connection, those on the wire and those still to go out; a missed one as it was in the file. */
  ghost function All(s: Sender, missed: bool): seq<Byte>
    requires s.Valid()
    reads s, s.ring, s.ring.buffer, s.ring2, if s.ring2 == null then {} else {s.ring2.buffer}
  {
    Unpatched(s.wire + s.Future(), missed, if s.Uploading() then s.Place() else 0, s.source)
  }

  /** An upload that is not over goes on with the same file, at the place that the reads give. */
  twostate predicate GoesOn(s: Sender, ops: seq<Op>)
    requires old(s.Valid()) && s.Valid()
    reads s, s.ring, s.ring2
  {
    && (s.Uploading() ==>
      && old(s.Uploading()) && s.uploadSize == old(s.uploadSize) && s.source == old(s.source)
      && s.Place() == old(s.Place()) && s.uploadPos == ReadAll(ops, old(s.uploadPos), old(s.uploadSize)))
    && (old(s.Uploading()) && !s.Uploading() ==>
      ReadAll(ops, old(s.uploadPos), old(s.uploadSize)) == old(s.uploadSize))
  }

  /** One step; counts are cut to what the ring or the file has. */
  method Step(s: Sender, op: Op) returns (accepted: seq<Byte>, ghost missed: bool)
    requires s.Valid()
    modifies Repr(s)
    ensures s.Valid() && s.pk == old(s.pk) && Repr(s) <= old(Repr(s))
    ensures missed == old(MissedBy(s, [op])) && GoesOn(s, [op])
    ensures s.wire + s.Future() == old(All(s, MissedBy(s, [op]))) + accepted
    ensures old(s.closed) ==> s.closed
    ensures !s.closed ==> accepted == Sent([op])
  {
    accepted, missed := [], MissedBy(s, [op]);
    OneOp(op);
    if op.TickOp? {
      ghost var all := All(s, missed);
      TickOnce(s, op.count);
      AppendFuture(all, [], []);
    } else {
      accepted := TrafficOnce(s, op);
    }
  }

  lemma OneOp(op: Op)
    ensures [op][1..] == [] && Sent([op]) == if op.SendOp? then op.data else []
  {
  }

  lemma ReadOnce(op: Op, pos: nat, size: nat)
    requires pos <= size
    ensures ReadAll([op], pos, size) == if op.TickOp? then Read(pos, size, op.count) else pos
    ensures Misses([op], pos, size) <==> op.TickOp? && pos == 4 < Read(pos, size, op.count)
  {
    OneOp(op);
  }

  lemma ByteBehind(w: seq<Byte>, f: seq<Byte>, at: nat, b: Byte)
    requires at < |f|
    ensures w + f[at := b] == (w + f)[|w| + at := b]
  {
  }

  /** A packet that is sent, or bytes that the socket takes. */
  method TrafficOnce(s: Sender, op: Op) returns (accepted: seq<Byte>)
    requires s.Valid() && !op.TickOp?
    modifies Repr(s)
    ensures s.Valid() && s.pk == old(s.pk) && Repr(s) <= old(Repr(s))
    ensures !old(MissedBy(s, [op])) && GoesOn(s, [op])
    ensures s.wire + s.Future() == old(s.wire + s.Future()) + accepted
    ensures old(s.closed) ==> s.closed
    ensures !s.closed ==> accepted == if op.SendOp? then op.data else []
  {
    accepted := [];
    ghost var w, f := s.wire, s.Future();
    if s.Uploading() {
      ReadOnce(op, s.uploadPos, s.uploadSize);
    }
    if op.SendOp? {
      var fits := s.Send(op.data);
      accepted := if fits then op.data else [];
    } else {
      var ok := s.DoSend(Min(op.count, Min(s.ring.used, CHUNK)));
    }
    AppendFuture(w, f, accepted);
  }

  /** One tick, which misses a byte if its read starts right at it. */
  method TickOnce(s: Sender, count: nat)
    requires s.Valid()
    modifies Repr(s)
    ensures s.Valid() && s.pk == old(s.pk) && s.closed == old(s.closed) && Repr(s) <= old(Repr(s))
    ensures GoesOn(s, [TickOp(count)])
    ensures s.wire + s.Future() == old(All(s, MissedBy(s, [TickOp(count)])))
  {
    if s.Uploading() {
      ReadOnce(TickOp(count), s.uploadPos, s.uploadSize);
      AsksForAll(s);
      if s.pk && s.uploadPos == 4 < Read(s.uploadPos, s.uploadSize, count) {
        ByteBehind(s.wire, s.Future(), s.ring.used, s.source[4]);
      }
      s.Tick(Min(count, s.Available()));
    }
  }

  lemma AppendFuture(w: seq<Byte>, f: seq<Byte>, a: seq<Byte>)
    ensures w + (f + a) == w + f + a && w + f + [] == w + f && f + [] == f
  {
  }

  /** The packets of a run, one after the other. */
  function Sent(ops: seq<Op>): seq<Byte> {
    if ops == [] then [] else (if ops[0].SendOp? then ops[0].data else []) + Sent(ops[1..])
  }

  lemma SentNext(ops: seq<Op>)
    requires ops != []
    ensures Sent(ops) == Sent([ops[0]]) + Sent(ops[1..])
  {
    assert Sent([ops[0]][1..]) == [];
  }

  /**
   Over any run nothing is lost, duplicated or reordered: wire and future grow by what was sent. A patched
   map byte can be missed, and then only by a read that starts right at it.
   */
  method Run(s: Sender, ops: seq<Op>) returns (accepted: seq<Byte>, ghost missed: bool)
    requires s.Valid()
    modifies Repr(s)
    ensures s.Valid() && s.pk == old(s.pk) && Repr(s) <= old(Repr(s))
    ensures missed == old(MissedBy(s, ops)) && GoesOn(s, ops)
    ensures s.wire + s.Future() == old(All(s, MissedBy(s, ops))) + accepted
    ensures old(s.closed) ==> s.closed
    ensures !s.closed ==> accepted == Sent(ops)
    decreases |ops|
  {
    ghost var place, source, all := if s.Uploading() then s.Place() else 0, s.source, s.wire + s.Future();
    if ops == [] {
      accepted, missed := [], false;
      AppendFuture(all, [], []);
    } else {
      if s.Uploading() {
        MissesNext(ops, s.uploadPos, s.uploadSize);
        NoMissAtEnd(ops[1..], s.uploadSize);
        HoldsFile(s);
      }
      ghost var missedFirst, missedRest;
      var first, rest;
      first, missedFirst := Step(s, ops[0]);
      rest, missedRest := Run(s, ops[1..]);
      accepted, missed := first + rest, missedFirst || missedRest;
      SentNext(ops);
      Composed(all, missedFirst, missedRest, place, source, first, rest);
    }
  }

  /** The file of an upload is among the bytes of the connection. */
  lemma HoldsFile(s: Sender)
    requires s.Valid() && s.Uploading()
    ensures s.Place() + |s.source| <= |s.wire + s.Future()|
  {
  }

  lemma Composed(all: seq<Byte>, missedFirst: bool, missedRest: bool, place: nat, source: seq<Byte>, first: seq<Byte>,
                 rest: seq<Byte>)
    requires missedRest && 4 < |source| ==> place + 4 < |all|
    ensures Unpatched(Unpatched(all, missedFirst, place, source) + first, missedRest, place, source) + rest
      == Unpatched(all, missedFirst || missedRest, place, source) + (first + rest)
  {
    var a := Unpatched(all, missedFirst, place, source);
    if missedRest && 4 < |source| {
      assert (a + first)[place + 4 := source[4]] == a[place + 4 := source[4]] + first;
    }
    Regroup(Unpatched(all, missedFirst || missedRest, place, source), first, rest);
  }

  lemma ComposedLast(all: seq<Byte>, missedFirst: bool, missedLast: bool, place: nat, source: seq<Byte>,
                     first: seq<Byte>)
    requires missedLast && 4 < |source| ==> place + 4 < |all|
    ensures Unpatched(Unpatched(all, missedFirst, place, source) + first, missedLast, place, source)
      == Unpatched(all, missedFirst || missedLast, place, source) + first
  {
    Composed(all, missedFirst, missedLast, place, source, first, []);
    AppendFuture([], first, []);
    AppendFuture([], Unpatched(Unpatched(all, missedFirst, place, source) + first, missedLast, place, source), []);
  }

  /** The socket takes all there is in the ring. */
  method Flush(s: Sender)
    requires s.Valid()
    modifies s`wire, s.ring`gpos, s.ring`used
    ensures s.Valid() && s.ring.used == 0
    ensures s.wire + s.Future() == old(s.wire + s.Future())
  {
    while s.ring.used > 0
      invariant s.Valid()
      invariant s.wire + s.Future() == old(s.wire + s.Future())
      decreases s.ring.used
    {
      var ok := s.DoSend(Min(s.ring.used, CHUNK));
    }
  }

  /** Everything goes out, and the rings change back. */
  method Close(s: Sender)
    requires s.Valid() && (s.Uploading() ==> s.uploadPos == s.uploadSize)
    modifies Repr(s)
    ensures s.Valid() && !s.Uploading() && s.Future() == [] && s.closed == old(s.closed)
    ensures s.wire == old(s.wire + s.Future())
  {
    Flush(s);
    if s.Uploading() {
      s.Tick(0);
      Flush(s);
    }
    AppendFuture(s.wire, [], []);
  }

  /** The rest of the file is read, the rings change back and everything goes out. */
  method Finish(s: Sender) returns (ghost missed: bool)
    requires s.Valid()
    modifies Repr(s)
    ensures s.Valid() && !s.Uploading() && s.Future() == [] && s.closed == old(s.closed)
    ensures missed == old(MissedBy(s, [TickOp(s.uploadSize)]))
    ensures s.wire == old(All(s, MissedBy(s, [TickOp(s.uploadSize)])))
  {
    missed := MissedBy(s, [TickOp(s.uploadSize)]);
    if s.Uploading() {
      ReadOnce(TickOp(s.uploadSize), s.uploadPos, s.uploadSize);
    }
    TickOnce(s, s.uploadSize);
    Close(s);
  }

  /** The rest of an upload after any traffic. */
  method RunOut(s: Sender, ops: seq<Op>) returns (accepted: seq<Byte>, ghost missed: bool)
    requires s.Valid() && s.Uploading() && (s.pk ==> s.uploadPos == 0)
    modifies Repr(s)
    ensures s.Valid() && !s.Uploading()
    ensures !s.closed ==> accepted == Sent(ops)
    ensures missed == old(s.pk && Misses(ops + [TickOp(s.uploadSize)], 0, s.uploadSize))
    ensures s.wire == old(All(s, s.pk && Misses(ops + [TickOp(s.uploadSize)], 0, s.uploadSize))) + accepted
  {
    if s.pk {
      MissesAppends(ops, TickOp(s.uploadSize), 0, s.uploadSize);
      NoMissAtEnd([TickOp(s.uploadSize)], s.uploadSize);
    }
    HoldsFile(s);
    ghost var place, source, all := s.Place(), s.source, s.wire + s.Future();
    ghost var missedEarly, missedLate;
    accepted, missedEarly := Run(s, ops);
    missedLate := Finish(s);
    missed := missedEarly || missedLate;
    ComposedLast(all, missedEarly, missedLate, place, source, accepted);
  }

  /** The file as it goes out. */
  function Outgoing(file: seq<Byte>, pk: bool, missed: bool): seq<Byte> {
    var patched := if pk then Patched(file) else file;
    if missed && 4 < |file| then patched[4 := file[4]] else patched
  }

  lemma FilePlaced(wire: seq<Byte>, header: seq<Byte>, sent: seq<Byte>, waiting: seq<Byte>, missed: bool,
                   file: seq<Byte>)
    requires |sent| == |file|
    ensures Unpatched(wire + (header + sent + waiting), missed, |wire| + |header|, file)
      == wire + header + (if missed && 4 < |file| then sent[4 := file[4]] else sent) + waiting
  {
  }

  /** Reads of four bytes miss the second patched byte; what goes out then is not the patched map. */
  lemma FourBytesMiss(file: seq<Byte>)
    requires |file| > 4 && file[4] != 0x01
    ensures Misses([TickOp(4)] + [TickOp(|file|)], 0, |file|) && Outgoing(file, true, true) != Patched(file)
  {
    assert ([TickOp(4)] + [TickOp(|file|)])[1..] == [TickOp(|file|)];
    assert Outgoing(file, true, true)[4] != Patched(file)[4];
  }

  /**
   An upload in the middle of any traffic: the wire gets the header, the whole file, the bytes that were
   waiting, then those sent meanwhile. The file of a patched map goes out patched, unless one of the reads,
   the last one for all the rest, starts right at the second of the patched bytes; then only that one is missed.
   */
  method UploadSession(s: Sender, file: seq<Byte>, start: nat, length: nat, reply: Byte, fileId: Option<Int32>,
                       pkMap: bool, ops: seq<Op>)
    returns (accepted: seq<Byte>, ghost missed: bool)
    requires s.Valid() && !s.Uploading() && length <= MAX_FILE && SectionExists(file, start, length)
    requires pkMap ==> start == 0
    modifies Repr(s)
    ensures s.Valid() && !s.Uploading()
    ensures !s.closed ==> accepted == Sent(ops)
    ensures var size := |Section(file, start, length)|;
      missed == (pkMap && Misses(ops + [TickOp(size)], 0, size))
    ensures var content := Section(file, start, length);
      s.wire == old(s.wire) + UploadHeader(reply, fileId, |content|) + Outgoing(content, pkMap, missed)
        + old(s.Future()) + accepted
  {
    ghost var wire, waiting, content := s.wire, s.Future(), Section(file, start, length);
    var r, header := s.Upload(Some(file), start, length, reply, fileId, pkMap);
    ghost var sent := if pkMap then Patched(content) else content;
    accepted, missed := RunOut(s, ops);
    FilePlaced(wire, header, sent, waiting, missed, content);
  }

  function UploadHeader(reply: Byte, fileId: Option<Int32>, size: nat): (h: seq<Byte>)
    ensures 5 <= |h| <= 6
  {
    var data := Written(CharField(reply)) + (if fileId.Some? then Written(CharField(fileId.value)) else []);
    ENumberBytes((|data| + 2 + size) % UINT)[..2] + [255, 255] + data
  }

  /** The header packet: its length, the family and action 255, the reply and the number of the file. */
  lemma HeaderIs(reply: Byte, fileId: Option<Int32>, size: nat)
    requires reply < 253
    ensures var h := UploadHeader(reply, fileId, size);
      && h[2..5] == [255, 255, reply + 1]
      && |h| == (if fileId.Some? then 6 else 5)
      && (fileId.Some? && 0 <= fileId.value < 253 ==> h[5] == fileId.value + 1)
  {
  }

  /** The length field is right exactly when header and file are shorter than 253^2. */
  lemma AnnouncedLengthExactly(reply: Byte, fileId: Option<Int32>, size: nat)
    requires size < 0x8000_0000
    ensures var h := UploadHeader(reply, fileId, size);
      ReadDigits(h[..2]) == |h| - 2 + size <==> |h| - 2 + size < MAX2
  {
    var h := UploadHeader(reply, fileId, size);
    var n := |h| - 2 + size;
    assert h[..2] == ENumberBytes(n)[..2];
    TwoBytesKeep(n);
  }

  /**
   Upload compares the length that it is given with its limit; for a whole file that length is 0 and the size
   is found later. So every section that is accepted is announced rightly, and a whole file exactly when it is
   short enough.
   */
  lemma AcceptedLengthExactly(file: seq<Byte>, start: nat, length: nat, reply: Byte, fileId: Option<Int32>)
    requires length <= MAX_FILE && SectionExists(file, start, length) && |file| < 0x8000_0000
    ensures var size := |Section(file, start, length)|;
      var h := UploadHeader(reply, fileId, size);
      ReadDigits(h[..2]) == |h| - 2 + size <==> length != 0 || |h| - 2 + |file| < MAX2
  {
    AnnouncedLengthExactly(reply, fileId, |Section(file, start, length)|);
  }

  /** A file that is accepted and announced wrongly. */
  lemma LongFileMisannounced(file: seq<Byte>, reply: Byte, fileId: Option<Int32>)
    requires |file| == 64006
    ensures 0 <= MAX_FILE && SectionExists(file, 0, 0) && Section(file, 0, 0) == file
    ensures var h := UploadHeader(reply, fileId, |file|); ReadDigits(h[..2]) != |h| - 2 + |file|
  {
    AcceptedLengthExactly(file, 0, 0, reply, fileId);
  }

  lemma TwoBytesKeep(n: UInt)
    ensures ReadDigits(ENumberBytes(n)[..2]) == n <==> n < MAX2
  {
    ShortFieldKeeps(n, 2);
  }
}
