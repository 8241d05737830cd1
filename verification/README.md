# A verified model of an EOSERV game server core

The project models the small machines inside a C++ game server and proves what they are for. Sockets, SQL
libraries, files and clocks appear only as delivered bytes, as a state function with losses, as byte
sequences and as time values. Code that changes things in place is modelled as classes and methods with
loops; each such method is tied to a specification, and the laws are about the specification.

| files | machine | source |
|---|---|---|
| `Sha256Spec.dfy`, `Sha256Example.dfy`, `Sha256.dfy` | streaming SHA-256, against FIPS 180-4 and its first example | `src/sha256.c` |
| `Winding.dfy`, `Scrambler.dfy` | run reversal, interleaving, flipping of packets | `src/packet.cpp` |
| `PacketFields.dfy` | base-253 numbers, typed fields, builder and reader | `src/packet.cpp` |
| `Ring.dfy`, `SendRing.dfy` | the ring buffers of a socket | `src/socket.cpp` |
| `FrameSpec.dfy`, `Framing.dfy`, `Upload.dfy` | framing, and the buffer swap of a file upload | `src/eoclient.cpp` |
| `Sequence.dfy` | sequence numbers, ping and pong, on in-order channels | `src/eoclient.cpp`, `src/eoserver.cpp` |
| `Database.dfy` | transactions replayed after lost connections | `src/database.cpp` |
| `Visibility.dfy` | who sees whom after a step | `src/map.cpp` |
| `Timer.dfy`, `Evacuate.dfy` | timer events, and map evacuation as one of them | `src/timer.cpp`, `src/map.cpp` |
| `Damage.dfy`, `Party.dfy`, `Chest.dfy` | damage lists with back links, experience shares, chests | `src/npc.cpp`, `src/party.cpp`, `src/map.cpp` |
| `Lexer.dfy`, `Spelling.dfy`, `TokenServer.dfy` | the lexer and the token server of quest files | `src/eoplus/` |
| `QuestGrammar.dfy`, `QuestForms.dfy`, `Parser.dfy` | the parser, and what it builds, form by form | `src/eoplus/parse.cpp` |
| `QuestSource.dfy`, `CanonicalQuest.dfy`, `QuestText.dfy` | source forms, their meaning, the text of a quest | `src/eoplus/` |
| `QuestSave.dfy`, `QuestStore.dfy`, `ItemSave.dfy` | the save formats of quests, items and spells | `src/character.cpp`, `src/quest.cpp` |

`Bytes.dfy` and `Common.dfy` hold what several files share. `dafny verify dfyconfig.toml` checks the whole project.

Definitions that a method and its specification share are tied down by laws of their own: the published digest of
"abc" for SHA-256, the bytes of a number and of a scrambled packet, the distance as the least number of steps, and
each form of the quest language as what it builds.

Where a promised law does not hold of the code for every input, a lemma whose name ends in `Exactly` (or the
contract of the method) states for which inputs it holds, as an if-and-only-if, and the code is modelled as
it is. These are:

- a scrambled body does not always arrive: `RoundTripExactly` says when, if no run of multiples crosses from the
  length bytes, and `CrossingExactly` if one does; `BuiltBodyBreaks` shows packets of the builder that are damaged
  by a crossing run. The length bytes: `HeaderExactly`, `CrossingHeaderExactly`;
- a four-byte number is kept below 253^4 and where its top byte is 255: `IntFieldKeepsExactly`; that byte is
  then a break byte: `BreaklessExactly`;
- the second byte of the map patch is missed when a read of the file starts right at it, and goes out as it is in
  the file: `ChunkExactly`, `UploadSession`, `FourBytesMiss`. For that `fread` has to return exactly four bytes of
  a longer file, since a read asks for all the rest: `FullReadsMissNothing`;
- the length that an upload announces is wrong for a whole file that is too long, because the limit is compared
  before the length of a whole file is known (src/eoclient.cpp:396, 407-416): `AcceptedLengthExactly`,
  `LongFileMisannounced`;
- a ping that is sent before the init reply keeps the sequence numbers in order only if the two starts are equal,
  or the reply's start is larger by a multiple of 253 and the ping's is at most 243: `PingBeforeInitExactly`;
- a negative first hit of a new attacker breaks the damage total: `HitExactly`. Both callers clamp the amount at 0
  (src/map.cpp:1684, 2310), so no such hit arrives, and `Perform` and `Run` hold without exception;
- an event is freed exactly once if it stayed registered, left the timer in its own firing, or was deleted from
  outside of it: `FreedExactly`. The timer's interface allows more: an event that is unregistered from outside and
  not deleted is never freed, and one that its own callback deletes is freed twice (`UnregisteredIsKept`,
  `OwnDeleteFreesTwice`). This program does neither: it takes events off by deleting them (src/character.cpp:961,
  src/arena.cpp:213, src/eoserver.cpp:153), and `FreedWithoutUnregister` is the law for programs that do;
- an item taken from a chest is lost when it is unknown or the cap on one item is passed: `ChestTake`;
- a negative quest counter does not survive a save, with one exception: `ShortExactly`, `NegativeChanges`. What a
  quest text loads survives the next save exactly if every counter does and no quest is both active and inactive:
  `QuestStore.ReloadedExactly`;
- an item or spell id above 32767 is loaded as a negative one, and the next load drops it: `ItemSave.ReloadedExactly`.

## Model

| member | source | states |
|---|---|---|
| Sha256.ChCode | src/sha256.c:112 | the code's Ch with one `and` is that of FIPS 180-4, section 4.1.2 |
| Sha256.MajCode | src/sha256.c:120 | the code's Maj with `or` is that of FIPS 180-4, section 4.1.2 |
| Sha256Spec.ZeroCountIsLeast | src/sha256.c:168-184 | the padding has the least number of zeros that section 5.1.1 asks for |
| Sha256.LengthField | src/sha256.c:164-187 | two truncated words are the 64-bit length in bits |
| Sha256.PartialGrows | src/sha256.c:144-151 | copying into the buffer extends the message that hash and buffer stand for |
| Sha256.Context.Process | src/sha256.c:87-127 | the block loop computes the compression of section 6.2.2 |
| Sha256.Context.Update | src/sha256.c:129-159 | the context holds the fold over the full blocks and the unprocessed tail of all that was passed |
| Sha256.Context.Finish | src/sha256.c:161-202 | the digest is SHA-256 of everything passed to Update, whatever the padding case |
| Sha256.HashChunks | src/sha256.c:75-202 | for every way of cutting a message into calls, the digest is SHA-256 of the whole |
| Sha256Example.DigestOfAbc | src/sha256.c:75-202 | the digest of "abc" is the one that FIPS 180-4 publishes |
| Winding.WoundTwice | src/packet.cpp:227-268 | reversing the runs twice gives the input back |
| Winding.WoundSplits | src/packet.cpp:227-268 | winding acts separately on two parts between which no run crosses |
| Winding.WoundLoose | src/packet.cpp:227-268 | without two neighbouring multiples winding changes nothing |
| Winding.Wind | src/packet.cpp:227-268 | the loop computes the reversal of every run of multiples |
| Scrambler.UnmixedMixed | src/packet.cpp:131-225 | interleaving back undoes interleaving, up to the swap of 0 and 128 in the first two bytes |
| Scrambler.WireByte | src/packet.cpp:177-225 | where each byte of the wound body stands on the wire, and what becomes of it: the top bit changes, but 0 and 128 stay |
| Bytes.FlipTopIsXor | src/packet.cpp:177-225 | changing the top bit is exclusive or with 0x80 |
| Scrambler.RoundTripExactly | src/packet.cpp:131-268 | a body without a crossing run arrives exactly if its first two wound bytes are not 0 or 128 and not both ends are 127 |
| Scrambler.HeaderExactly | src/packet.cpp:177-225 | the two length bytes arrive exactly unless they are two different multiples |
| Scrambler.CrossingExactly | src/packet.cpp:131-268 | with a crossing run the body arrives exactly if the shift of the run, head swap included, changes no byte and the wound body does not both begin and end with 127 |
| Scrambler.CrossingHeaderExactly | src/packet.cpp:177-268 | with a crossing run the length bytes arrive exactly if they are the end of the run backwards |
| Scrambler.BuiltBodyBreaks | src/packet.cpp:678-692 | packets as the builder heads them, 1265 to 1517 bytes long with multiplier 6, whose body is damaged |
| Scrambler.BoundaryRunBreaks | src/packet.cpp:177-268 | one such packet |
| Scrambler.UnreadBody | src/packet.cpp:131-145 | a scrambled body that begins and ends with 127 once wound, and so is taken for an INIT packet, never arrives |
| Scrambler.InitPasses | src/packet.cpp:131-190 | INIT packets pass both ways unchanged |
| Scrambler.PacketProcessor.Encode | src/packet.cpp:177-225 | winds, then interleaves and flips all but the length bytes, which stay in front |
| Scrambler.PacketProcessor.Decode | src/packet.cpp:131-175 | the inverse order, with the swap of 0 and 128 from index 2 on only |
| Scrambler.PacketProcessor.Interleave | src/packet.cpp:177-225 | the two loops send every byte to its slot from both ends |
| Scrambler.PacketProcessor.Deinterleave | src/packet.cpp:131-175 | the two loops take every byte back from its place |
| PacketFields.ENumber | src/packet.cpp:306-353 | the successive divisions write the base-253 digits with absent leading digits |
| PacketFields.NumberWritten | src/packet.cpp:306-353 | the four bytes of a number: its base-253 digits and 1, or 254 |
| PacketFields.NumberRead | src/packet.cpp:286-304 | the number of four bytes, 254 counting 0 and 0 being read as 128 |
| PacketFields.ShortFieldKeeps | src/packet.cpp:286-353 | one to three digits read back the number modulo the power of 253 |
| PacketFields.IntFieldKeepsExactly | src/packet.cpp:286-353 | four digits read back the number exactly below 253^4 or with the top byte 255 |
| PacketFields.BreaklessExactly | src/packet.cpp:306-353 | a number is written without a 255 byte exactly outside one range |
| PacketFields.VarField | src/packet.cpp:610-622 | AddVar picks a width that keeps the number whenever the bounds allow one |
| PacketFields.PacketBuilder.AddBreakString | src/packet.cpp:640-665 | a break string is written with its break bytes replaced by y and one break byte behind |
| PacketFields.PacketBuilder.Get | src/packet.cpp:678-692 | the packet is headed by its own length and its id |
| PacketFields.PacketReader.GetBreakString | src/packet.cpp:451-456 | reads up to the next break byte and goes behind it |
| PacketFields.Transmit | src/packet.cpp:367-692 | any list of fields written by the builder is read back in order |
| Ring.MaskIsModulo | src/socket.cpp:346-352 | the bit mask of a power of two is the remainder |
| Ring.AssertPowerOfTwo | src/socket.cpp:278-287 | the loop accepts exactly the powers of two |
| Ring.Receiver.Recv | src/socket.cpp:342-359 | reading takes the oldest bytes, in order, around the ring |
| Ring.Receiver.DoRecv | src/socket.cpp:380-409 | received bytes are appended, around the ring |
| SendRing.SendBuffer.Put | src/socket.cpp:361-378 | data is queued whole or not at all |
| SendRing.SendBuffer.DoSend | src/socket.cpp:411-434 | a partial write takes exactly the bytes it reports from the front |
| FrameSpec.FramesSplit | src/eoclient.cpp:118-177 | later bytes only add frames, and only the unfinished tail matters for them |
| FrameSpec.StandsFrame | src/eoclient.cpp:152-177 | the data that completes a frame makes it one more executed frame |
| FrameSpec.StandsMore | src/eoclient.cpp:152-177 | data that does not complete a frame is kept, and nothing is executed |
| Framing.FramesOfStream | src/packet.cpp:678-692 | the frames of a stream of built packets are their bodies, in order |
| Framing.FrameReader.Tick | src/eoclient.cpp:118-177 | one tick consumes exactly the bytes that the parser waits for, as far as they are there, and keeps ring, parser state and executed frames in account of every byte received |
| Framing.Serve | src/eoclient.cpp:118-177 | for every chunking and schedule the executed payloads are the complete frames of what the receive calls have taken, what is left in the socket is stated, and the connection stays open exactly if no receive call meets a full ring; with nothing left on an open connection they are the frames of all that arrived |
| Framing.EveryByte | src/socket.cpp:380-409 | on an open connection the bytes received and those left in the socket are those that arrived |
| Framing.OpenExactly | src/socket.cpp:779-782 | a connection whose input is asked for only while its ring is not full, as Select does, never closes for a full ring, and only such a one stays open |
| Upload.Sender.Upload | src/eoclient.cpp:389-473 | header and file go in front of everything waiting; a second upload and a long section throw |
| Upload.Sender.BiggerRing | src/eoclient.cpp:427-436 | doubling ends in a power of two that holds header and file |
| Upload.HeaderIs | src/eoclient.cpp:445-460 | the bytes of the packet that announces a file |
| Upload.Sender.Send | src/eoclient.cpp:475-502 | during an upload packets are queued in the ring that waits |
| Upload.Sender.Tick | src/eoclient.cpp:72-116 | file bytes move into the ring without passing its end; at the end the rings change back |
| Upload.ChunkExactly | src/eoclient.cpp:72-97 | a chunk read from a map is patched as it should be exactly if it does not start at offset 4 |
| Upload.AnnouncedLengthExactly | src/eoclient.cpp:438-450 | the announced length is right exactly if header and file are shorter than 253^2 |
| Upload.AcceptedLengthExactly | src/eoclient.cpp:396-450 | of the uploads that are accepted, sections are announced rightly, and a whole file exactly if it is short enough |
| Upload.LongFileMisannounced | src/eoclient.cpp:396-450 | a whole file that is accepted and announced wrongly |
| Upload.Run | src/eoclient.cpp:72-116 | over any run of packets, socket writes and ticks the bytes on the wire and to come grow by what was sent, in order; a patched byte goes out unpatched exactly if a read starts at it |
| Upload.FullReadsMissNothing | src/eoclient.cpp:72-97 | reads that give all they are asked for miss no patched byte |
| Upload.UploadSession | src/eoclient.cpp:389-502 | the wire gets the header, the whole file, the waiting bytes, then those sent meanwhile; a PK file goes out patched, all but the second patched byte exactly if a read starts at it |
| Upload.FourBytesMiss | src/eoclient.cpp:72-97 | a read of four bytes of a longer map makes the next one miss that byte |
| Upload.PatchIs | src/eoclient.cpp:82-97 | the three bytes that the patch of a map writes |
| Upload.SectionsTile | src/eoclient.cpp:377-384 | the sections between consecutive splits all start with the header of the pub file and tile the rest of it |
| Sequence.InitRangeNonempty | src/eoclient.cpp:205-214 | there is always a pair of bytes to choose for a start |
| Sequence.InitRangeExactly | src/eoclient.cpp:205-214 | the choices of the first byte are exactly those for which there is a second one below 253 |
| Sequence.EOClient.GetSeqInitBytes | src/eoclient.cpp:205-214 | the chosen bytes fit and decode to the start |
| Sequence.EOClient.GetSeqUpdateBytes | src/eoclient.cpp:216-225 | the bytes of a ping fit their fields and decode to the start |
| Sequence.EOClient.CheckSequence | src/eoclient.cpp:266-313 | a pong installs the new start before its own number is checked |
| Sequence.SequenceReadBack | src/eoclient.cpp:275-285 | one or two bytes, as the server chooses by value, read back the number |
| Sequence.SequenceWidth | src/eoclient.cpp:275-285 | one byte is written and read below 253, two from there on |
| Sequence.NextKeeps | src/eoclient.cpp:180-313 | every step of client, server and pings keeps the agreement about all packets in flight |
| Sequence.NeverBadSequence | src/eoclient.cpp:275-307 | over every run no client is closed for a bad sequence, with packets in flight across a ping |
| Sequence.FromInit | src/handlers/Init.cpp:153-158 | the same from the state that Init_Init leaves, for every start and every choice of bytes |
| Sequence.PingBeforeInitExactly | src/eoserver.cpp:30-55 | with a ping before the init reply no run ends in a bad sequence exactly if the two starts are alike |
| Sequence.EOClient.Ping | src/eoserver.cpp:30-55 | a missing pong closes; otherwise the bytes of the ping decode to the start it announces |
| Sequence.Begin | src/handlers/Init.cpp:153-158 | Init_Init leaves the state that FromInit starts from |
| Sequence.ServerStep | src/eoclient.cpp:266-313 | each step of the server in the protocol is what the methods of its client record do |
| Database.FoldPrefix | src/database.cpp:334-390 | a log that can be replayed can be replayed up to every point |
| Database.IsSelect | src/database.cpp:404 | a statement is taken for a reading one exactly if it begins with SELECT |
| Database.Connection.Reconnect | src/database.cpp:306-390 | a replay that succeeds restores the open state |
| Database.Connection.RawQuery | src/database.cpp:276-406 | a statement is carried out exactly once however often the connection is lost; inside a transaction the log grows by it unless it is a SELECT |
| Database.Connection.BeginTransaction | src/database.cpp:644-689 | opens one transaction, with up to ten attempts |
| Database.Connection.EndTransaction | src/database.cpp:691-709 | commits or discards what the log describes |
| Database.Connection.ExecuteQueries | src/database.cpp:95-132 | all statements of a bulk query or none |
| Database.Run | src/database.cpp:276-709 | for every database in which statements that begin with SELECT change nothing, any run with losses reaches the state and gives the answers of the run without losses |
| Visibility.NoShorterPath | src/util.hpp:103-109 | no path of single steps is shorter than the distance |
| Visibility.ShortestPath | src/util.hpp:103-109 | and between any two places one is as long |
| Visibility.ViewEdges | src/map.cpp:970-1024 | newcoords is in range now minus in range before, oldcoords the reverse, each coordinate once |
| Visibility.EdgeAt | src/map.cpp:970-1024 | a coordinate is on an edge exactly if it changes sides, and then at one index |
| Visibility.EdgesHold | src/map.cpp:1296-1345 | the list of both overloads is both difference sets, for every direction and distance |
| Visibility.Target | src/map.cpp:865-912 | the step does not wrap; for Down the code looks at the wrong coordinate, which does no harm within a map |
| Visibility.Classify | src/map.cpp:1026-1064 | exactly those standing on an edge are collected |
| Visibility.Map.WalkCharacter | src/map.cpp:861-1223 | the step succeeds exactly onto a passable tile of the map, warps or fails otherwise, and after it every client still knows exactly the others within sight |
| Visibility.Map.WalkNpc | src/map.cpp:1225-1410 | the step succeeds exactly onto a passable tile of the map, and after it every client still knows exactly the NPCs within sight |
| Visibility.KnownExactly | src/util.hpp:103-109 | what a client knows, spelled out in coordinates |
| Visibility.Run | src/map.cpp:861-1410 | over every run of walks all stand where the walks lead, and every client knows exactly what is within sight |
| Timer.ElapsedIsProduct | src/timer.cpp:196-199 | adding the speed n times is n times the speed |
| Timer.Timer.Register | src/timer.cpp:259-273 | registers at the present time, unless the lifetime is used up |
| Timer.Timer.Fire | src/timer.cpp:196-253 | one firing advances the event by its speed, runs its callback, and frees it when its lifetime ends |
| Timer.Timer.Tick | src/timer.cpp:180-257 | a tick takes the events registered at its start, each once, in some order, with whatever their callbacks do |
| Timer.FiresExactly | src/timer.cpp:184-200 | an event of the snapshot fires exactly if, when its turn comes, it is still registered and one period has passed since its last time |
| Timer.QuietExactly | src/timer.cpp:184-200 | without callbacks exactly those fire for which one period has passed |
| Timer.NeverAhead | src/timer.cpp:196-199 | over any run an event that has fired n times since it was registered was registered more than n periods before the latest tick |
| Timer.TurnsKeep | src/timer.cpp:180-319 | a tick keeps every event within its lifetime and its number of frees in account, whatever the callbacks register, unregister and delete; a freed event is not touched again |
| Timer.Timer.Destroy | src/timer.cpp:284-302 | frees exactly what is still registered |
| Timer.Timer.Delete | src/timer.cpp:313-319 | deleting an event takes it out of its timer before its memory is freed |
| Timer.FreedExactly | src/timer.cpp:180-319 | no event fires beyond its lifetime; in the end it has been freed once exactly if it stayed registered, left the timer in its own firing or was deleted from outside, and twice exactly if its own callback deleted it |
| Timer.FreedWithoutUnregister | src/character.cpp:957-962 | where events are taken off by deleting them, each that was registered or deleted is freed, and more than once exactly if its own callback deletes it |
| Timer.WholeLife | src/timer.cpp:180-319 | over any operations, deletions included, the timer holds the events of that life, and its destructor frees the registered ones |
| Timer.UnregisteredIsKept | src/timer.cpp:275-282 | an event that is unregistered from outside and not deleted is never freed |
| Timer.OwnDeleteFreesTwice | src/timer.cpp:249-250 | an event that its own callback deletes is freed again by the tick |
| Evacuate.Map.MapEvacuate | src/map.cpp:125-165 | counts down, or sends away exactly those below guide, unlocks and frees its record |
| Evacuate.Map.Evacuate | src/map.cpp:2779-2799 | accepted exactly if unlocked; with step 0 everything happens at once |
| Evacuate.Step | src/map.cpp:125-165 | a request during an evacuation changes nothing; each firing brings the last call one nearer |
| Evacuate.Run | src/map.cpp:2779-2799 | accepted requests are served in order, each with step+1 calls, one evacuation and one free |
| Damage.HitExactly | src/npc.cpp:438-483 | a hit keeps the total equal to the sum exactly unless it is a negative one of a new attacker |
| Damage.KillsExactly | src/npc.cpp:438-525 | a hit kills a mortal NPC exactly if it is for all of its hp, and always kills another |
| Damage.HitBooks | src/npc.cpp:438-483 | the hp that a mortal NPC loses are booked in its total and in the entry of the attacker alone |
| Damage.StrikeLinks | src/npc.cpp:457-483 | after a hit attackers are distinct and back links match the lists |
| Damage.LeaveTidy | src/character.cpp:2399-2410 | a character that leaves is in no list, and the total still is the sum |
| Damage.LinksAgree | src/npc.cpp:474-483 | an attacker is in the list exactly if the NPC is in its links, and then once |
| Damage.Field.Damage | src/npc.cpp:438-525 | lists, totals and links after any hit, and when it is deadly |
| Damage.Field.Killed | src/npc.cpp:1043-1132 | the lists of the NPC and of the children that die with it are emptied on both sides |
| Damage.Field.Die | src/npc.cpp:1137-1155 | a living NPC dies with an empty list and no links to it |
| Damage.Field.Destroy | src/npc.cpp:1384-1402 | no character keeps a link to a destroyed NPC |
| Damage.Field.Logout | src/character.cpp:2399-2410 | the damage of the leaving character is taken out of list and total of every NPC |
| Damage.Field.Unload | src/map.cpp:680-692 | unloading a map leaves no link to its NPCs |
| Damage.Field.Perform | src/npc.cpp:438-483 | every operation, with hits clamped at 0 as the callers do, keeps all totals, lists and links; an NPC that outlives it keeps the sum of hp and total damage, unless an attacker logs out |
| Damage.Field.Run | src/npc.cpp:438-525 | the same over every run of possible operations: what an NPC that is alive has lost in hp is its total damage, until an attacker logs out |
| Party.ShareBounds | src/party.cpp:149-199 | the ceilings add up to at least the experience and less than one point more for each member |
| Party.GivenBounds | src/party.cpp:185-199 | the bounds of the partial sums, over the common denominator |
| Party.RewardExactly | src/party.cpp:149-199 | a share is an equal part, or in proportion to the level, rounded up |
| Party.RewardedExactly | src/party.cpp:185-232 | a share is added to the experience and raises the level by one if the table says so |
| Party.Party.ShareExp | src/party.cpp:149-232 | every eligible member gets its share and at most one level, nobody else anything |
| Chest.MapChest.AddItem | src/map.cpp:180-242 | when an item is accepted, and the chest after it; limits and spawn slots are kept |
| Chest.MapChest.DelItem | src/map.cpp:244-271 | the first item of the id goes, whole, and the clock of its spawn slot starts again |
| Chest.MapChest.DelSomeItem | src/map.cpp:273-310 | a part taken leaves the rest behind without its spawn slot, whose clock starts again; the result is what is left, or the whole amount when all is taken |
| Chest.MapChest.Respawn | src/map.cpp:49-102 | each empty slot with a due spawn gets one of them, if the chest has room; limits and slots are kept |
| Chest.DueHolds | src/map.cpp:60-84 | the collected spawns of a slot are the due ones of an empty slot |
| Chest.DueExactly | src/map.cpp:60-84 | a spawn is due once its minutes have passed and its slot is empty |
| Chest.TotalReplaces | src/map.cpp:180-310 | exchanging items changes the totals by their difference only |
| Chest.GainsExactly | src/character.cpp:742-788 | what AddItem adds, the cap on one item included |
| Chest.LeavesOwned | src/character.cpp:790-822 | DelItem takes exactly the amount when that much is there |
| Chest.NeverOverloaded | src/character.cpp:846-864 | what CanHoldItem allows never passes the weight limit |
| Chest.CanHoldExactly | src/character.cpp:835-864 | the amount allowed is the greatest within the stock, the cap on one item and the weight limit |
| Chest.ChestAdd | src/handlers/Chest.cpp:62-93 | chest and inventory together keep every total, whatever is asked for |
| Chest.ChestTake | src/handlers/Chest.cpp:231-277 | what is taken leaves the chest, and nothing is lost exactly if the item is known and the cap is kept |
| Lexer.HashIsUnique | src/fwd/eoplus.hpp:12-16 | no two operators share a hash |
| Lexer.LowerIs | src/eoplus/lex.cpp:175 | upper-case letters become lower-case ones, and nothing else changes |
| QuestForms.OperatorsAre | src/eoplus/lex.cpp:38-51 | the operators of two characters |
| QuestForms.OperatorsRead | src/eoplus/lex.cpp:197-216 | such an operator is one token |
| QuestForms.WordReads | src/eoplus/lex.cpp:160-185 | a word is read up to its end, in lower case |
| QuestForms.StringsWritten | src/eoplus/lex.cpp:118-158 | how strings with a quote, a backslash or a new-line in them are written |
| Lexer.LexNewLines | src/eoplus/lex.cpp:70-85 | every new-line character gives one new-line token, inside strings and comments too |
| Lexer.TokenNewLines | src/eoplus/lex.cpp:218-273 | one call accounts for the new-lines it passes and those it holds back |
| Lexer.Lexer.ReadNumber | src/eoplus/lex.cpp:97-116 | the value of the digits, when it is an int |
| Lexer.Lexer.ReadString | src/eoplus/lex.cpp:118-158 | the unescaped content; a bare new-line is an error |
| Lexer.Lexer.ReadOperator | src/eoplus/lex.cpp:197-216 | one or two characters by the operator table |
| Lexer.Lexer.ReadToken | src/eoplus/lex.cpp:218-273 | the next token after white space and comments, new-line tokens first |
| Lexer.Lexer.Lex | src/eoplus/lex.hpp:41-51 | all tokens up to the end of the file |
| Spelling.SpellingReads | src/eoplus/lex.cpp:97-216 | every token of a quest is read back from its spelling, and reading stops behind it |
| Spelling.BlankSkips | src/eoplus/lex.cpp:218-258 | white space and line comments change no token but new-lines |
| Spelling.TextReads | src/eoplus/lex.cpp:87-274 | every layout of spelled tokens lexes to those tokens |
| TokenServer.Server.GetToken | src/eoplus/parse.cpp:21-62 | the next token but new-lines, if its type is allowed, and otherwise no change |
| TokenServer.Server.PutBack | src/eoplus/parse.cpp:64-77 | the last token is the next again; its new-lines go back below it |
| TokenServer.Server.Accounts | src/eoplus/parse.cpp:21-77 | tokens handed out are a prefix of the source; line and buffered new-lines account for those pulled |
| QuestSource.ExprReads | src/eoplus/parse.cpp:167-263 | expressions with scopes and arguments, and goto, are read as what they mean |
| QuestForms.GotoReads | src/eoplus/parse.cpp:201-215 | goto is a call of setstate with the name of the state |
| QuestForms.ScopeReads | src/eoplus/parse.cpp:167-199 | the four scopes by name |
| QuestForms.CallReads | src/eoplus/parse.cpp:201-263 | a call with no arguments, with a number and a string, and with a scope |
| QuestForms.RuleReads | src/eoplus/parse.cpp:301-486 | rule and goal: what they add to a state |
| QuestForms.ConditionReads | src/eoplus/parse.cpp:301-370 | if, elseif and elif: the same |
| QuestForms.ActionReads | src/eoplus/parse.cpp:301-370 | action and else: the same |
| QuestForms.DescReads | src/eoplus/parse.cpp:437-486 | desc, once in a state; any other keyword is an error |
| QuestForms.NameReads | src/eoplus/parse.cpp:383-390 | questname, once |
| QuestForms.VersionReads | src/eoplus/parse.cpp:141-165 | the major part of a version is its high half |
| QuestForms.FlagsRead | src/eoplus/parse.cpp:372-435 | hidden, hidden_end and disabled, each once, the first two being one attribute |
| QuestForms.PartsRead | src/eoplus/parse.cpp:488-536 | main, once in a file, and state, once for each name |
| QuestSource.EntriesRead | src/eoplus/parse.cpp:301-486 | the entries of a state give its rules, actions, goal and description, and fail exactly for a second description |
| QuestSource.MainReads | src/eoplus/parse.cpp:372-435 | the main block gives its attributes and fails exactly for a repeated one |
| QuestSource.SourceReads | src/eoplus/parse.cpp:498-536 | parsing a source gives what it means and fails exactly on the sources in error |
| CanonicalQuest.StateMeans | src/eoplus/parse.cpp:437-486 | the canonical entries of a state mean the state, with goal index and kinds of conditions |
| CanonicalQuest.SourceMeans | src/eoplus/parse.cpp:498-536 | the canonical source of a quest means the quest, with its version |
| CanonicalQuest.TokensRead | src/eoplus/parse.cpp:141-536 | parsing the canonical tokens gives the quest back |
| QuestText.SourceLoads | src/eoplus.cpp:75-85 | reading any layout of any source gives what the source means |
| QuestText.QuestLoads | src/eoplus.cpp:75-85 | lexing and parsing any layout of the canonical text of a quest gives the quest back |
| Parser.Parser.ParseScopes | src/eoplus/parse.cpp:167-199 | the scopes, each with its dot, and a token put back where they end |
| Parser.Parser.ParseExpression | src/eoplus/parse.cpp:201-263 | what the grammar says about the next tokens |
| Parser.Parser.ParseRuleActionBlock | src/eoplus/parse.cpp:301-370 | the state that the grammar builds, over pushed-back tokens |
| Parser.Parser.ParseMain | src/eoplus/parse.cpp:372-435 | the attributes that the grammar builds |
| Parser.Parser.ParseGlobal | src/eoplus/parse.cpp:498-536 | the quest that the grammar builds, or an error |
| Parser.LoadQuest | src/eoplus.cpp:75-85 | lexer and parser together read a quest file as the text says |
| QuestSave.Explode | src/util.cpp:86-101 | the pieces between the delimiters |
| QuestSave.IntReads | src/character.cpp:207 | a number is read back from its decimal text |
| QuestSave.ShortExactly | src/quest.cpp:1211-1259 | a counter is read back exactly if it is not negative, but for one number |
| QuestSave.ProgressExactly | src/quest.cpp:1203-1272 | a progress map comes back with all its keys, and unchanged exactly if each counter does |
| QuestSave.NegativeChanges | src/quest.cpp:1211-1259 | a counter of -5 becomes -25 with one save and load, and -275 with the next |
| QuestStore.LinesRead | src/character.cpp:198-298 | the entries of a save are read one by one; the three nested formats do not interfere |
| QuestStore.OldFormatsRead | src/character.cpp:250-288 | an entry without progress, and one whose progress is not kept, are read as entries without counters |
| QuestStore.AllPlaced | src/character.cpp:300-338 | every entry of different ids ends up active or inactive, once |
| QuestStore.FirstStays | src/character.cpp:300-338 | of two records of a quest the first one counts |
| QuestStore.ContextReads | src/character.cpp:315-320 | a resumed quest has the state name and end mark that were saved, and the progress exactly if each counter can be read back |
| QuestStore.QuestsSurvive | src/character.cpp:198-341 | saving and then loading keeps every quest; an active id hides the inactive entry; nothing else appears |
| QuestStore.LoadedIsClean | src/character.cpp:236-341 | from any text, old formats included, only known states are loaded as active and only others as inactive, and no name or key with a separator |
| QuestStore.ReloadedExactly | src/character.cpp:198-341 | what any text loads survives being saved and loaded again exactly if no quest is both active and inactive and every counter can be read back |
| QuestStore.SomethingHolds | src/character.cpp:198-234 | whatever was loaded can be listed for the next save |
| QuestStore.QuestContext.SetState | src/eoplus/context.cpp:43-68 | unknown states are refused; a known one keeps the daily counters only |
| QuestStore.QuestContext.UnserializeProgress | src/quest.cpp:1226-1272 | the scanner adds what the text says to the progress |
| QuestStore.QuestContext.SerializeProgress | src/quest.cpp:1203-1224 | the text of the progress map |
| QuestStore.Character.QuestUnserialize | src/character.cpp:236-341 | loading files each entry, old formats included, under its id narrowed to a short |
| QuestStore.QuestSerialize | src/character.cpp:198-234 | the save holds the active quests and the inactive ones that they do not hide |
| ItemSave.SavedExactly | src/character.cpp:61-198 | an inventory or spell list, its ids shorts and its levels bytes, comes back unchanged exactly if every record is in range |
| ItemSave.ReloadedExactly | src/character.cpp:61-198 | what any text loads survives being saved and loaded again exactly if no id of it is above 32767 |
| ItemSave.LinesRead | src/character.cpp:61-108 | loading what was saved gives the records that are in range, in order |
| ItemSave.PartReadsExactly | src/character.cpp:84-105 | which numbers are taken, and what the fields keep of them |
| ItemSave.Serialize | src/character.cpp:61-74 | the text of the records |
| ItemSave.Unserialize | src/character.cpp:76-108 | loading drops malformed parts and records out of range, and narrows the others to their fields |
| ItemSave.GenerateItemId | src/map.cpp:711-724 | the least positive number that no item has, in spite of restarts |

## Left out

- SHA-256: the cleared message schedule is not modelled; lengths are unbounded integers reduced modulo 2^64.
- Packets: handler contents, family and action names, the `size` output of `ENumber` (always 4), reserving memory.
- Sockets: select, poll, connecting, closing and their clocks; a receive or send call is a count of bytes.
- Upload.Sender.Tick: a failing seek and a file shorter than its header are not modelled; `fread` returns any number of bytes up to what is asked.
- Sequence.NeverBadSequence: does not model the renumbering of `AccountReplyNewSequence`; `EnforceSequence` is on and the action queue is left out.
- Database.Run: does not model the lost reply of a statement that was carried out; a loss drops the open transaction and a lost statement has no effect. SQLite and result sets are left out.
- Visibility.Map.WalkCharacter: warps, doors, spikes and blocked tiles are inputs; a warp is not followed.
- Timer: events are numbered instead of pointed to, so that memory used again is a new number; the clock is the time passed to `Tick`. A freed event is no longer registered, unregistered or deleted by anybody.
- Evacuate.Map.MapEvacuate: announcements, sounds and the jail itself are left out; the configured divisions are taken as defined.
- Damage: packets, rewards, drops and integer overflow are left out, and so are admin duty swaps, which log a character out without destroying it.
- Party.ShareBounds: ceilings are exact rational ones instead of those of `double`.
- Chest: the recycler pseudo-chest at 12,20, tile and distance conditions, lore items and integer overflow are left out; the random choice is an input.
- Chest.MapChest.Respawn: the limits of a chest are constants of the model; reloading the configuration is left out.
- Lexer.Lexer.ReadToken: integers above INT_MAX overflow and a comment that the file ends in never ends; both are excluded by a precondition.
- Parser: messages and line numbers of errors are not carried by the results; the line account is proved of the token server. The Float token and `has_desc` are never set by the code and are left out.
- QuestSave.IntReads: `to_int` on text that is no decimal number, or none of an `int`, is left out.
- QuestStore.QuestContext.SetState: dialogs that `BeginState` sets up and the actions of a state are left out.
- The paperdoll serializer, bank, trade and board code are left out: they repeat what the item lists and the chest show.
- `Context::DoActions`, the RPN evaluator, quest rules at run time, the dungeon and portal flags: nothing is claimed.
