# Verification of the engine's codecs and resumable state machines

A Dafny model, with machine-checked proofs, of the parts of the engine where the logic is hardest: Ogg framing and
bit packing, the AE camera decoder, the sprite decompressors, the CD sector stream, the editor's undo stack, the job
queue behind the sound cache, the resumable loops of the map loader, and the walk over game definitions.
`dafny verify dfyconfig.toml` checks the whole project (Dafny 4.11).

Code that updates things in place is modelled as a class or a method over arrays and fields, and each such method is
proved against a specification on values; the theorems about whole runs are lemmas about that specification.

## What is proved, part by part

**Ogg framing** (`3rdParty/ogg/framing.c`; RFC 3533, sections 5 and 6).
`OggSegments` and `OggPage` give the lacing of packets into segments and the page as bytes, `OggCrc` the checksum.
`OggState` is the logical stream state on values; `OggStream.StreamState` keeps the body, lacing and granule FIFOs with
their fill and returned marks and is proved to be that state. `OggEncoder` has whole encoder runs, `OggPageOut` says
when they write a page and how much goes on it, and `OggFormat` what every byte of every page is, with the numbers as
bytes (`Bytes`, `Registers`). `OggTransport` has what a decoder must return for a stream, `OggDecoder`, `OggDelivery` and `OggReceiver` a decoder behind a channel that drops
pages, `OggRoundTrip` the theorems: the round trip, loss safety, and both with the bytes cut into any chunks. `OggParse`
defines the pages of a byte stream, one byte at a time; `OggSync.SyncState` is the sync layer, which skips.

**Bit packing** (`3rdParty/ogg/bitwise.c`; section 2 of the Vorbis I specification). `OggPack.PackBuffer` has the writer
and the reader in both bit orders. The bits of a buffer are one natural number (`PowersOfTwo`), so that a write adds
at a place and a read takes a field; `BitOrder` says which bits of which bytes a field is made of, in both orders, and
`OggWords` has the round trip at every alignment.

**AE cameras** (`src/oddlib/bits_ae_pc.cpp`). `AeCamera` has the lifting step and its inverse, the quad tree by plain
four-way recursion, and an encoder; `AeDecoder.Camera` is the decoder as written, three recursive calls and a loop.
`AePicture` says what it computes: the picture of which the coefficients are the rounded means and differences, at every
scale.

**Sprites** (`src/oddlib/compressiontype*.cpp`). The bit windows return consecutive fields (`BitWindows`). Each decoder
is proved against what its format means: runs in rows (`SpriteRows`, types 3Ae and 6Ae), runs (type 3), tokens with
overlapping copies (types 4 and 5), and the yields of a pair grammar (`BytePairGrammar`, types 6 and 7). A decoder is
given, as a ghost argument, the tokens that its input encodes; `SpriteFormats` says in plain numbers which field stands
where and what it gives.

**CD stream** (`include/cdromfilesystem.hpp`). `CdFileStream.Stream` reads a file as one flat run of bytes.
A read before the first `Seek` counts sectors from the start of the image: it goes astray exactly when it crosses a
sector and the file does not start the image.

**Undo stack** (`include/editormode.hpp`, `src/editormode.cpp`). `EditorHistory` has documents, commands and the stack as
a history; `EditorEffects` says what each command and each push and merge does line by line, and `EditorMode.Editor`
updates them in place. Two things hold only under a condition, which is proved exactly:
undoing a selection gives the document back when the selection was a toggle, and a merged command keeps the history
when it is the last one done (or the merge has no effect). Clicking a line, dragging it, undoing the drag and dragging on
breaks the second, in every new editor.

**Jobs** (`include/asyncqueue.hpp`, `include/jobsystem.hpp`, `src/soundcache.cpp`, `src/sound.cpp`). `JobSteps` is a state
machine in which each locked section, or stretch between two shared accesses, is one step of one thread; a tracked job
is inserted in one step and queued in a later one, and a loader tests its cancel flag in one step and starts a job in
a later one. `JobRuns` has the invariant and what follows from it, for every run from the start. `JobCancel` has what
a cancel does: between a loader's test of its flag and the start of the next job it comes too late for that one job,
and for no other. `JobThemes` has that an idle system has cached the sounds of its theme.
`SoundSystem.SoundPlayer` is the switch of `Sound::Update`, updated in place.

**Map loader** (`include/iterativeforloop.hpp`, `src/gridmap.cpp`). `IterativeForLoops` and `NestedForLoops` show that
resumable loops, one inside the other, are the nested loops; `MapLoader.Loader` uses them as the loader does, frame by
frame, up to a whole load, and `MapObjects` says which objects that gives: those accepted, read screen by screen.

**Game definitions** (`include/gamedefinition.hpp`). `GameDependencies` has the depth-first walk over definitions that
may require each other in cycles.

Where the code and a comment disagree, the code is followed: `process_segment` decodes 16 blocks, not 15; a packetpeek
that meets a gap consumes the report of it, as a packetout does.

## Model

| member | source | states |
|---|---|---|
| `CrcTable.TableEntry` | 3rdParty/ogg/framing.c:103-184 | Every one of the 256 entries of the lookup table is eight shift-and-xor steps of the polynomial 0x04c11db7 on its index. |
| `OggCrc.TableStepIsSerial` | 3rdParty/ogg/framing.c:291-294 | One step of the direct-table loop equals eight bit-serial steps on the register with the byte added at its top, for every register and byte. |
| `OggCrc.SerialCrcConcat` | 3rdParty/ogg/framing.c:291-294 | The bit-serial checksum of header then body is the checksum of their concatenation. |
| `OggCrc.TableCrc` | 3rdParty/ogg/framing.c:291-294 | The table-driven loop computes the bit-serial checksum that section 6 of RFC 3533 asks for, for every byte string. |
| `OggPage.ChecksumSet` | 3rdParty/ogg/framing.c:280-301 | Afterwards the four bytes from 22 on are, lowest first, the bit-serial checksum of the header with these bytes zero and then the body; nothing else in the buffer changes. |
| `OggPage.OkIffCarries` | 3rdParty/ogg/framing.c:697-722 | A page passes the comparison of checksums exactly when its bytes 22 to 25, read as a little-endian number, are the bit-serial checksum of the header with these bytes zero and then the body. |
| `Registers.FourBytes` | 3rdParty/ogg/framing.c:295-298 | The bytes of a 32-bit register that shifts by 0, 8, 16 and 24 take out, in this order, are its number, lowest byte first. |
| `OggFormat.HeaderBytes` | 3rdParty/ogg/framing.c:442-501 | Every byte of a header: capture pattern, version 0, the flags 1, 2 and 4, granule position in bytes 6 to 13, serial number in 14 to 17 and page number in 18 to 21, lowest byte first and negative ones in two's complement, the checksum, the number of segments, the segment table. |
| `OggFormat.RunPageBytes` | 3rdParty/ogg/framing.c:386-501 | Every byte of every page of every encoder run: the flags say whether it starts inside a packet, is the first, may be the last; its granule position is that of the last packet that ends on it, -1 when none does, 0 on the first page; its number is its place; its segment table has the sizes of its segments, and its body their bytes. |
| `OggPage.MakePageReads` | 3rdParty/ogg/framing.c:29-70 | The accessors read from a page that the encoder made exactly the flags, granule position, serial and page number and segment table it was made of, and its checksum verifies. |
| `OggSegments.LaceShape` | 3rdParty/ogg/framing.c:343-352 | Each segment of a laced packet: 255 bytes but for the last, which is shorter (possibly empty); start flag on the first only; granule position of the packet on the last, the previous one before it. |
| `OggSegments.LaceJoin` | 3rdParty/ogg/framing.c:304-352 | The bytes of a packet's segments are the packet. |
| `OggSegments.CutJoin` | 3rdParty/ogg/framing.c:474-493 | Cutting a page's body at its segment table gives back the segments that the page was made of. |
| `OggSegments.EventsConcat` | 3rdParty/ogg/framing.c:958-1010 | The packets that a list of lacing entries stands for come from each side of a packet boundary separately. |
| `OggStream.ZipAt` | 3rdParty/ogg/framing.c:304-360 | Entry i of the three parallel FIFOs is lacing value i, granule value i, and the body bytes that the earlier lacing values leave for it. |
| `OggStream.StreamState.constructor` | 3rdParty/ogg/framing.c:188-208 | A new state is empty, with its serial number, and its storage is above its fill marks. |
| `OggStream.StreamState.IovecIn` | 3rdParty/ogg/framing.c:304-360 | A packet given in pieces is laced onto the FIFOs: the state afterwards is the old one with the packet's segments appended; marks stay below storage and lacing accounts for the body. |
| `OggStream.StreamState.SubmitPacket` | 3rdParty/ogg/framing.c:362-369 | Submitting a packet appends its segments, its end flag and its granule position, and keeps the encoder invariant. |
| `OggStream.StreamState.ChooseSegments` | 3rdParty/ogg/framing.c:386-440 | The segments of the next page: the first packet alone on the first page, else up to the nominal size after four packets, at most 255; its granule position; and whether it is written now. |
| `OggStream.StreamState.FlushI` | 3rdParty/ogg/framing.c:372-501 | The page written, if any, has the header, checksum, segment table and body of the chosen segments, and exactly these leave the FIFOs, by memmove of the lacing FIFO. |
| `OggStream.StreamState.Flush` | 3rdParty/ogg/framing.c:517-527 | A flush writes a page whenever a segment is left. |
| `OggStream.StreamState.PageOut` | 3rdParty/ogg/framing.c:533-557 | In place: a pageout forces a page when the end was submitted and a segment is left, and when a segment is left and no page was written yet; `OggPageOut` says what that means for when a page is written. |
| `OggStream.StreamState.ReceivePage` | 3rdParty/ogg/framing.c:790-916 | A page of this stream and version 0 is taken apart into the FIFOs: sequence check and hole, unrolling of an unfinished packet, skipping of an orphaned continuation, granule position on the last completed packet, end flag; any other page is refused with -1 and the state stays as it is. |
| `OggFormat.AcceptsIff` | 3rdParty/ogg/framing.c:834-836 | A page is taken exactly when byte 4 of its header is zero and bytes 14 to 17 are the stream's serial number, lowest byte first; any other page leaves the stream as it is. |
| `OggDecoder.PageAdds` | 3rdParty/ogg/framing.c:841-905 | A page in sequence adds its segments, in order, behind those that are there; left out are only, when the page starts inside a packet of which nothing is there, the segments up to the end of that packet; the next page number is one more than the page's, and a page flagged as the end flags the state and the last segment. |
| `OggStream.StreamState.NextPacket` | 3rdParty/ogg/framing.c:958-1019 | A packetout or packetpeek returns 0 when nothing is pending, -1 when a gap is first, else 1 and the packet that is first, with its number; a packetout takes exactly that out of what is pending, and the gather loop stays in bounds. |
| `OggStream.StreamState.Reset` | 3rdParty/ogg/framing.c:930-949 | A reset state is empty with page number -1. |
| `OggDecoder.PageInKeeps` | 3rdParty/ogg/framing.c:807-905 | After any well-formed page the entries before lacing_packet are whole packets and holes, and those after it are all 255. |
| `OggDecoder.PopEvent` | 3rdParty/ogg/framing.c:958-1010 | Taking the head packet or hole leaves exactly the other pending ones, and keeps the decoder invariant. |
| `OggDecoder.NoEvent` | 3rdParty/ogg/framing.c:958-964 | Nothing is ready exactly when no packet and no hole is pending. |
| `OggDecoder.AnswerIs` | 3rdParty/ogg/framing.c:958-1010 | The answer is 0 when nothing is pending, -1 when a gap is first, else 1; the packet given is the first pending one, and what stays pending is the rest. |
| `OggEncoder.EncoderRun` | 3rdParty/ogg/framing.c:304-557 | In every run of submissions, pageouts and flushes, also when packets follow one that ends the stream: the pages and the FIFOs together hold exactly the submitted segments in order; each page has 1 to 255 segments, is numbered in order and headed by its contents; the end flag is on a page only after an end was submitted; the first page holds the first packet only. |
| `OggEncoder.EndingRun` | 3rdParty/ogg/framing.c:430-439 | When no packet but the last ends the stream, the end flag is on the last page exactly when the end was submitted and nothing is left, and on no other page. |
| `OggEncoder.FlushShrinks` | 3rdParty/ogg/framing.c:372-393 | A flush of a state with segments writes a page and leaves strictly fewer segments. |
| `OggEncoder.FlushesDrain` | 3rdParty/ogg/framing.c:517-519 | As many flushes as there are segments leave nothing in the encoder. |
| `OggPageOut.CutTakes` | 3rdParty/ogg/framing.c:386-426 | The first page takes the first packet, as far as 255 segments go; a later one as few segments as end at least four packets and hold more than the nominal size, or all that wait, or 255. |
| `OggPageOut.FlushWrites` | 3rdParty/ogg/framing.c:517-519 | In every encoder run a flush writes a page exactly when a segment waits. |
| `OggPageOut.FirstPageOutWrites` | 3rdParty/ogg/framing.c:537-540 | The first pageout of a run that has a segment waiting writes the first page. |
| `OggPageOut.LastPageOutWrites` | 3rdParty/ogg/framing.c:537-539 | After a packet that ends the stream was submitted, a pageout writes a page exactly when a segment waits. |
| `OggPageOut.PageOutWrites` | 3rdParty/ogg/framing.c:393-426 | Otherwise a pageout writes a page exactly when 255 segments wait, or the segments up to the end of some packet end four packets and hold more than the nominal size. |
| `OggPageOut.OnePageOrNone` | 3rdParty/ogg/framing.c:428-501 | A pageout or flush adds at most one page, which has the first of the segments that wait, as many as a page takes, and leaves the others; when it adds none nothing changes. |
| `OggPageOut.PageOutsDrain` | 3rdParty/ogg/framing.c:533-557 | After the end was submitted, as many pageouts as segments wait leave none. |
| `OggPageOut.NoPageNothingLeft` | 3rdParty/ogg/framing.c:533-557 | After the end was submitted, a pageout that adds no page has nothing left to write. |
| `OggFormat.EndIsPagedOut` | 3rdParty/ogg/framing.c:430-439 | After the packet that ends the stream was submitted, enough pageouts leave nothing, and the last page written, and no other, has flag 4. |
| `OggTransport.PacketRunEvent` | 3rdParty/ogg/framing.c:982-1007 | The entries that a decoder stores for a whole packet are returned as that packet: its bytes, the start flag on the first packet only, the end flag on the last only, its granule position. |
| `OggTransport.GranuleOfEnd` | 3rdParty/ogg/framing.c:880-905 | The granule value stored with a packet's last segment is the page's for the last packet completed on the page, and -1 for the others. |
| `OggDelivery.KeptOnPage` | 3rdParty/ogg/framing.c:841-872 | Of the packets that a delivered page completes, all are whole but possibly the first, which is whole exactly when no page that carries it was lost. |
| `OggDelivery.DeliverStep` | 3rdParty/ogg/framing.c:807-916 | One delivered page makes pending exactly the packets that are whole on it, after one report of a gap before it; continuation pages of a lost packet are skipped over any number of pages. |
| `OggReceiver.DecoderRun` | 3rdParty/ogg/framing.c:790-1010 | However page arrivals and packetouts are interleaved, what is returned and pending is exactly what the delivered pages must give, and packets are numbered in the order returned. |
| `OggRoundTrip.RoundTrip` | 3rdParty/ogg/framing.c:304-1010 | Any packets of which exactly the last ends the stream, any interleaving of packetin, pageout and flush that leaves nothing, any interleaving of pagein and packetout: the decoder gives the packets, in order, byte for byte, numbered from 0, b_o_s on the first and e_o_s on the last only. |
| `OggRoundTrip.PageOutRoundTrip` | src/audioconverter.cpp:171-193 | The round trip of a loop that takes pages until pageout has none, after the end was submitted: no flush is needed, and nothing need be supposed of what is left in the encoder. |
| `OggRoundTrip.GranuleRule` | 3rdParty/ogg/framing.c:386-440 | A returned packet's granule position: its own when it is the last that its page completes, but 0 on the first page; -1 otherwise. |
| `OggRoundTrip.LossSafety` | 3rdParty/ogg/framing.c:841-872 | For any packets of which none but the last ends the stream, and any subsequence of the encoder's pages, delivered in order: the packets returned are exactly those of which every page was delivered, unaltered and in order; there is one report for each break in the order, and it stands after the packets complete before the break and before those complete after it. |
| `OggRoundTrip.ReportsInPlace` | 3rdParty/ogg/framing.c:841-872 | Each break has a report of its own: with the reports of the earlier breaks and the packets kept before it in front, and the packets kept from there on behind. |
| `OggRoundTrip.ExpectedIs` | 3rdParty/ogg/framing.c:841-872 | What must be returned, page by page, is packet by packet every packet that arrives whole, and one report for each gap. |
| `OggRoundTrip.AllDelivered` | 3rdParty/ogg/framing.c:790-1010 | When all pages of such a run arrive, whether the stream has ended or not, all packets that they complete are returned, and no gap is reported. |
| `OggRoundTrip.OutsReturn` | 3rdParty/ogg/framing.c:1012-1015 | Enough packetouts return everything that is pending. |
| `OggRoundTrip.PagesAreSound` | 3rdParty/ogg/framing.c:442-501 | Every page of any encoder run whose numbers fit their fields begins with the capture pattern, has the lengths its segment table says, and a right checksum. |
| `OggRoundTrip.EndToEnd` | 3rdParty/ogg/framing.c:304-1010 | The round trip with the pages written as bytes (as src/audioconverter.cpp:171-193 does), cut into any chunks, and found again by the sync layer. |
| `OggParse.SkipLosesNothing` | 3rdParty/ogg/framing.c:724-744 | Skipping to the next byte that may start a capture pattern loses no page, whatever bytes follow. |
| `OggParse.PageIsFirst` | 3rdParty/ogg/framing.c:659-722 | A page that pageseek finds is the first page of the stream, whatever bytes follow. |
| `OggParse.FoundStand` | 3rdParty/ogg/framing.c:659-744 | The pages found in some bytes stand in them in order and without overlap, each with its capture pattern, its lengths and its checksum; between them, and up to where the bytes run out, stands no other such page and nothing that could still become one. |
| `OggParse.SyncRun` | 3rdParty/ogg/framing.c:610-785 | However the bytes are split and whenever pageout is called, the pages returned so far and those still to be found are the greedy left-to-right parse of all the bytes. |
| `OggParse.SyncReturnsPages` | 3rdParty/ogg/framing.c:757-785 | When pageout has asked for more bytes, exactly the pages of all the bytes so far were returned. |
| `OggParse.ReportsAreRare` | 3rdParty/ogg/framing.c:773-779 | Lost sync is reported at most once for each page returned, and once more. |
| `OggParse.AsksDrain` | 3rdParty/ogg/framing.c:757-785 | Enough pageouts come to the point where more bytes are needed. |
| `OggParse.WirePages` | 3rdParty/ogg/framing.c:659-722 | The parse of the bytes of an encoder's pages gives those pages. |
| `OggParse.JunkCostsNothing` | 3rdParty/ogg/framing.c:724-744 | Bytes without a start of a capture pattern in front of a stream cost no page. |
| `OggSync.SyncState.Buffer` | 3rdParty/ogg/framing.c:610-640 | Returned bytes are dropped and room is made; the unreturned bytes stay. |
| `OggSync.SyncState.Wrote` | 3rdParty/ogg/framing.c:642-647 | The bytes copied into the room are added after the unreturned ones; more than there is room for is refused. |
| `OggSync.SyncState.Verify` | 3rdParty/ogg/framing.c:697-722 | The comparison says yes exactly when bytes 22 to 25 of the page are, lowest first, the bit-serial checksum of the header with these bytes zero and then the body; it leaves every byte of the buffer as it was on both outcomes. |
| `OggSync.SyncState.PageSeek` | 3rdParty/ogg/framing.c:659-744 | One look returns a page and its length, 0, or minus the bytes skipped, as the scan of the unreturned bytes says; the buffer is unchanged on success, wait and sync failure. |
| `OggSync.SyncState.TakeNextPage` | 3rdParty/ogg/framing.c:757-785 | pageout returns 1 with the next page, 0 for more bytes, -1 at the first loss of sync. |
| `OggPack.PackBuffer.Write` | 3rdParty/ogg/bitwise.c:83-123 | The low bits of the value are added above the bits written, the bits above endbit in the current byte stay zero (also when the buffer grows), and a bad width clears the writer. |
| `OggPack.PackBuffer.WriteB` | 3rdParty/ogg/bitwise.c:126-166 | The same, high bits first. |
| `OggPack.PackBuffer.WriteTrunc` | 3rdParty/ogg/bitwise.c:60-69 | Cutting the stream off at any bit within the buffer keeps the low bits of what the buffer holds, and so of what was written, and the writer's invariant; a cleared writer stays cleared. |
| `OggPack.PackBuffer.WriteAlign` | 3rdParty/ogg/bitwise.c:168-172 | Zero bits up to the next whole byte; a cleared writer stays cleared. |
| `OggPack.PackBuffer.Reset` | 3rdParty/ogg/bitwise.c:235-240 | A reset writer is empty; on a cleared one a reset does nothing. |
| `OggPack.PackBuffer.Look` | 3rdParty/ogg/bitwise.c:266-295 | The next bits as a field of the buffer, or -1 exactly when there are not enough. |
| `OggPack.PackBuffer.LookB` | 3rdParty/ogg/bitwise.c:298-326 | The same, high bits first. |
| `OggPack.PackBuffer.Adv` | 3rdParty/ogg/bitwise.c:338-352 | Moves on by the bits, or overflows exactly when there are not enough. |
| `OggPack.PackBuffer.Read` | 3rdParty/ogg/bitwise.c:371-412 | The next bits, moved past; -1 and an overflow exactly when there are not enough. |
| `OggPack.PackBuffer.ReadB` | 3rdParty/ogg/bitwise.c:415-455 | The same, high bits first. |
| `OggPack.PackBuffer.Read1` | 3rdParty/ogg/bitwise.c:457-476 | One bit, as a read of width 1. |
| `BitOrder.FieldBits` | 3rdParty/ogg/bitwise.c:371-412 | Low bits first: bit j of a field from bit p on is bit (p + j) % 8, counted from the low end, of byte (p + j) / 8. |
| `BitOrder.FieldBBits` | 3rdParty/ogg/bitwise.c:415-455 | High bits first: bit j of a field, counted from its high end, is bit (p + j) % 8, counted from the high end, of byte (p + j) / 8. |
| `OggWords.PackAndUnpack` | 3rdParty/ogg/bitwise.c:83-166 | Any words of 0 to 32 bits, written and read back with the same widths, come back in order modulo two to their widths, at every alignment and in both bit orders. |
| `OggWords.ReadsGiveWords` | 3rdParty/ogg/bitwise.c:371-455 | Reading from any word boundary of a buffer that holds some words gives these words. |
| `OggWords.OverflowIsSticky` | 3rdParty/ogg/bitwise.c:406-411 | Once a read has returned -1, every later read does. |
| `OggWords.LookThenAdvance` | 3rdParty/ogg/bitwise.c:266-295 | Looking and then moving on is reading: same value, same overflow, same position. |
| `OggWords.LookThenAdvanceB` | 3rdParty/ogg/bitwise.c:298-352 | The same, high bits first. |
| `AeCamera.LiftUnlift` | src/oddlib/bits_ae_pc.cpp:65-87 | Every four integers are the result of a lifting step: the step is onto. |
| `AeCamera.UnliftLift` | src/oddlib/bits_ae_pc.cpp:65-87 | The lifting step loses nothing: the step is one-to-one. |
| `AeCamera.LiftIs` | src/oddlib/bits_ae_pc.cpp:65-87 | What the lifting step computes: four values of which the first value is the mean of the means of their two rows, and the coefficients are the difference of the rows' steps, the difference of the rows' means, and the mean of the rows' steps, all means rounded down; these four and no others. |
| `AeCamera.NeedIs` | src/oddlib/bits_ae_pc.cpp:303-327 | A block of width w takes exactly 3 * (w * w - 1) coefficients. |
| `AeCamera.QuadCovers` | src/oddlib/bits_ae_pc.cpp:303-327 | A block stores to every pixel of its square exactly once, and to no other. |
| `AeCamera.DecodeEncode` | src/oddlib/bits_ae_pc.cpp:303-327 | For any picture of R, G and B integers there are coefficients from which the quad tree gives exactly that picture. |
| `AeCamera.MakeWordReads` | src/oddlib/bits_ae_pc.cpp:285-290 | Any run of up to 511 zeros and any 7-bit coefficient can be put into a word. |
| `AeCamera.WordIs` | src/oddlib/bits_ae_pc.cpp:285-290 | A word is nine bits, the number of zeros, and seven bits, a value in two's complement. |
| `AeCamera.WordGives` | src/oddlib/bits_ae_pc.cpp:278-301 | A word gives as many zeros as it says, then its value, and then what the words after it give. |
| `AeDecoder.Camera.NextBits` | src/oddlib/bits_ae_pc.cpp:278-301 | Each call returns the next of the coefficients that the words stand for: 0 while the counter of zeros runs, which goes down by one, then the held value; and the word that is loaded then is 128 times the new counter plus the new value's seven bits. |
| `AeDecoder.Camera.ReadLogic` | src/oddlib/bits_ae_pc.cpp:65-87 | The constructor takes three coefficients and makes the lifting step. |
| `AeDecoder.Camera.WriteFour` | src/oddlib/bits_ae_pc.cpp:331-356 | The four values go to the four places of the square, clipped to the frame. |
| `AeDecoder.Camera.Decode` | src/oddlib/bits_ae_pc.cpp:303-327 | The loop with three recursive calls stores what the plain four-way recursion stores, in the same order, and takes exactly its coefficients. |
| `AeDecoder.Camera.ProcessSegment` | src/oddlib/bits_ae_pc.cpp:258-275 | A strip is sixteen blocks of 768 coefficients, the three first values of each included. |
| `AeDecoder.StripCovers` | src/oddlib/bits_ae_pc.cpp:258-275 | A strip stores to each of its pixels exactly once. |
| `AeDecoder.StripRoundTrip` | src/oddlib/bits_ae_pc.cpp:258-356 | A strip of any picture whose coefficients the words hold shows, decoded, the picture's colours in its cells and leaves the others as they were. |
| `AeDecoder.StripCanBeStored` | src/oddlib/bits_ae_pc.cpp:278-301 | Words that hold the strip of a picture exist exactly when all its coefficients have seven bits. |
| `AeDecoder.PictureRoundTrip` | src/oddlib/bits_ae_pc.cpp:258-356 | Every picture whose coefficients have seven bits has words, with zero runs, that, decoded, show it in the cells of the strip and change no other. |
| `AeDecoder.WordsExpand` | src/oddlib/bits_ae_pc.cpp:278-301 | Coefficients of seven bits, with every run of up to 511 zeros put into one word, are read back as they are. |
| `AeDecoder.RunTakesOneWord` | src/oddlib/bits_ae_pc.cpp:278-301 | A run of zeros and the value that ends it are put into one word. |
| `AeDecoder.CellIs` | src/oddlib/bits_ae_pc.cpp:11-54 | A stored colour has red in its top five bits, green in the six below and blue in the last five, each the smaller of the value and 31; green's lowest bit is clear, and green is zero at 64. |
| `AePicture.QuadIff` | src/oddlib/bits_ae_pc.cpp:303-327 | A block is decoded to a picture exactly when its first value is the picture's mean, and its coefficients are, at every scale, the differences of the quarters' means for red, green and blue, and then those of the quarters in the order top left, top right, bottom left, bottom right. |
| `AePicture.StripIff` | src/oddlib/bits_ae_pc.cpp:258-275 | A strip is decoded to a picture exactly when the 768 coefficients of each of its blocks, from the top, are the block's mean and what describes the block. |
| `AePicture.EncoderDescribes` | src/oddlib/bits_ae_pc.cpp:258-275 | The encoder's coefficients are those means and differences. |
| `AePicture.FrameShows` | src/oddlib/bits_ae_pc.cpp:258-356 | Decoding such coefficients shows that picture in the cells of the strip, and leaves the others as they were. |
| `BitWindows.SixBitReader.Next` | src/oddlib/compressiontype3ae.cpp:8-24 | The window that refills at 0 and at 14 bits returns consecutive 6-bit fields of the little-endian bit stream. |
| `BitWindows.WordReader.Next` | src/oddlib/compressiontype6or7aepsx.cpp:10-24 | The window that refills by 16-bit words returns consecutive n-bit fields. |
| `BitWindows.NibbleReader.Next` | src/oddlib/compressiontype6ae.cpp:9-22 | The nibble toggle returns consecutive 4-bit fields. |
| `SpriteRows.PadsMatchStrides` | src/oddlib/anim.cpp:636-652 | The widths that the decoders pad rows to are the strides that frames of depth 8 and 4 are laid out with. |
| `SpriteRows.LayoutAt` | src/oddlib/compressiontype3ae.cpp:82-89 | Rows that end exactly at the frame's width put pixel c of row r at r * stride + c. |
| `CompressionType3Ae.Decompress` | src/oddlib/compressiontype3ae.cpp:30-97 | For a stream of such rows, pixel (r, c) is at r * finalW + c and all else is zero. |
| `SpriteFormats.SpanAt` | src/oddlib/compressiontype3ae.cpp:49-79 | A run takes two fields and one for each pixel: first the number of background pixels, then the number of pixels, then the pixels; they are shown in this order from the column on at which the runs before it end. |
| `CompressionType6Ae.Decompress` | src/oddlib/compressiontype6ae.cpp:25-100 | For a stream of such rows, pixel (r, c) is half byte r * finalW + c and every other half of the whole buffer is zero, its second half included, over skipped and or'ed halves. |
| `SpriteFormats.TwoPixels` | src/oddlib/compressiontype6ae.cpp:68-83 | Byte b of a row holds pixel 2b in its low half and pixel 2b + 1 in its high half. |
| `CompressionType3.RoundTrip` | src/oddlib/compressiontype3.cpp:40-75 | Any runs of up to 32 pixels or background come back from their fields. |
| `CompressionType3.Decompress` | src/oddlib/compressiontype3.cpp:28-79 | The frame is what the fields stand for, as far as the frame goes, and zeros after it: also when a run is cut short by the end of the data, and when background goes on past the frame. |
| `SpriteFormats.BackgroundField` | src/oddlib/compressiontype3.cpp:69-73 | A field below 32 stands for one more background pixel than it says. |
| `SpriteFormats.PixelField` | src/oddlib/compressiontype3.cpp:44-68 | A field from 32 on is followed by the pixels themselves, one for 32; those that the data does not have are background. |
| `CompressionType4Or5.CopyIsPeriodic` | src/oddlib/compressiontype4or5.cpp:37-40 | A copy, also one that overlaps what it writes, extends the output periodically with the distance as period. |
| `CompressionType4Or5.TokenBytes` | src/oddlib/compressiontype4or5.cpp:20-48 | The bytes of a token: below 0x80 one less than the number of literals, which follow; else bits 2 to 6 are the length less 3, and the two lowest bits and the next byte the distance less 1. |
| `CompressionType4Or5.Decompress` | src/oddlib/compressiontype4or5.cpp:9-52 | For any well-formed tokens the output is what they stand for, and decoding ends at the declared length and the end of the tokens. |
| `BytePairGrammar.Grammar.FallingIsShort` | src/oddlib/compressiontype6or7aepsx.cpp:107-111 | Along an acyclic grammar no more symbols can be open at once than there are symbols. |
| `BytePairGrammar.Table.RankedIffNoCycle` | src/oddlib/compressiontype6or7aepsx.cpp:107-111 | Symbols of a table make an acyclic grammar exactly when no symbol that they reach is reached from itself. |
| `CompressionType6or7AePsx.LoadTable` | src/oddlib/compressiontype6or7aepsx.cpp:47-83 | The table loop puts every entry, given in pieces of skipped and stored ones, in its place of the two tables. |
| `CompressionType6or7AePsx.EveryTableHasPieces` | src/oddlib/compressiontype6or7aepsx.cpp:47-83 | Every table of pairs has an encoding that the loop loads. |
| `CompressionType6or7AePsx.ExpandSymbol` | src/oddlib/compressiontype6or7aepsx.cpp:107-111 | The inner loop ends, moves pending symbols to the stack without loss, and never has more than 256 of them there. |
| `CompressionType6or7AePsx.ExpandSymbols` | src/oddlib/compressiontype6or7aepsx.cpp:88-114 | The stack loop ends and appends exactly the concatenated yields of the counted symbols. |
| `CompressionType6or7AePsx.BlockIffNoCycle` | src/oddlib/compressiontype6or7aepsx.cpp:88-114 | A table and counted symbols make a block that the decoder is proved for exactly when expanding those symbols meets no cycle; the rest of the table may have cycles. |
| `CompressionType6or7AePsx.Decompress` | src/oddlib/compressiontype6or7aepsx.cpp:27-118 | Over all blocks, the output is the yields of their symbols in their own grammars, and zeros after it. |
| `SpriteFormats.PairGives` | src/oddlib/compressiontype6or7aepsx.cpp:107-113 | A symbol that stands for itself gives itself; a pair gives what its first field gives and then what its second gives. |
| `SpriteFormats.PieceIs` | src/oddlib/compressiontype6or7aepsx.cpp:49-83 | A piece of a table: a first field below half the size is one less than the number of entries that follow; from half the size on it is the number of symbols that stand for themselves plus half the size less one, and one entry follows unless the table is full. |
| `SpriteFormats.BlockIs` | src/oddlib/compressiontype6or7aepsx.cpp:85-114 | After its table a block has the number of its symbols, high part first, and then the symbols. |
| `CdFileStream.FileIsFlat` | include/cdromfilesystem.hpp:387-437 | The bytes that reads return are the data of the file's sectors one after the other, with no header of 24 bytes and no correction of 280 between stretches of 2048 (layout of section 14 of ECMA-130, Mode 2 Form 1). |
| `CdFileStream.Stream.constructor` | include/cdromfilesystem.hpp:338-345 | A new stream is at the raw start of the file's first sector, with the sector counted from the start of the image. |
| `CdFileStream.Stream.Seek` | include/cdromfilesystem.hpp:441-457 | Seeking to q puts the raw position at (location + q / 2048) * 2352 + 24 + q % 2048. |
| `CdFileStream.Stream.ReadPart` | include/cdromfilesystem.hpp:390-435 | One turn of the loop reads the rest of the sector's data or what is wanted of it, and then enters the next sector or stops. |
| `CdFileStream.Stream.ReadBytes` | include/cdromfilesystem.hpp:366-437 | After a Seek, every read of n bytes at p gives bytes p to p + n of the file, moves Pos() to p + n, leaves the raw position in a sector between 24 and 2072, and fails exactly when the image does not have the bytes. |
| `CdFileStream.Stream.ReadUnsought` | include/cdromfilesystem.hpp:338-345 | A read before any Seek gives the right bytes and position exactly when it stays in one sector or the file starts the image; else it is `location` sectors off after the first; and in each case exactly when it succeeds. |
| `CdFileStream.UnsoughtGoesAstray` | include/cdromfilesystem.hpp:338-437 | For any file that does not start its image, an image that has all the bytes of such a read and from which it gives others. |
| `EditorHistory.UndoRedo` | src/editormode.cpp:67-240 | Undoing a command that was made for the document gives the document back, flags, points and selection set. |
| `EditorHistory.CommandsAgree` | src/editormode.cpp:249-269 | Every command, done or undone, keeps the lines' flags and the selection set in agreement. |
| `EditorHistory.SelectUndoneIffToggle` | src/editormode.cpp:67-84 | Undoing a selection gives the document back exactly when the selection was a toggle. |
| `EditorHistory.MergedIsOneMove` | src/editormode.cpp:158-240 | A merged move is one move by the sum of the deltas, or to the last target. |
| `EditorEffects.RedoDoes` | src/editormode.cpp:75-214 | Line by line, on a document whose flags and set agree: selecting a line moves nothing and adds or removes that line, flag and set; clearing moves nothing and leaves no line flagged and the set empty; moving a point puts one end of the selected line with the smallest number at the target and moves nothing else; moving the selection adds the delta to both ends of the selected lines and of no other. |
| `EditorEffects.UndoDoes` | src/editormode.cpp:80-224 | Line by line: the opposite selection; the remembered lines selected again; the end at its old place; the delta subtracted. |
| `EditorEffects.PushDoes` | include/editormode.hpp:70-94 | A push does that to the document, forgets exactly the commands that were undone, and puts the new command, with the selection or the place that it remembers, after the others; when the limit is reached the oldest command, and only it, is forgotten. |
| `EditorEffects.MergesIff` | include/editormode.hpp:50-53 | A drag merges into the last command exactly when merging is asked for and that command is a drag of the same kind. |
| `EditorEffects.MergeDoes` | include/editormode.hpp:53-63 | A merge moves the selected lines by the new delta, or the end to the new place, and nothing else; the last command becomes the move by the sum of both, or the move from the first place to the new one; the other commands stay. |
| `EditorEffects.UndosGoBack` | src/editormode.cpp:300-312 | In a history n undos, for up to as many commands as are done, give the document that the commands before the last n leave. |
| `EditorHistory.UndoAndRedoInvert` | src/editormode.cpp:300-326 | In a history, undo then redo is the identity on document, commands and index, and so is redo then undo. |
| `EditorHistory.PushKeeps` | include/editormode.hpp:72-93 | A push keeps the history: the redo tail is discarded, nothing can be redone, and at the limit the oldest command goes into the base. |
| `EditorHistory.BaseMoves` | include/editormode.hpp:85-88 | Dropping the oldest command moves only the base forward; the document stays the fold of the rest over it. |
| `EditorHistory.MergeKeeps` | include/editormode.hpp:50-64 | A merge at the top of the stack keeps the history. |
| `EditorHistory.MergeKeepsExactly` | include/editormode.hpp:50-64 | A merge keeps the document equal to the history exactly when the command is the last one done, or the merge has no effect. |
| `EditorHistory.MergeAfterUndoBreaks` | include/editormode.hpp:50-64 | In a new editor any line is clicked and dragged, the drag is undone, and the mouse drags on: this is a legal run but for its last merge, and after that the document is no longer what the history says, unless the mouse did not move. |
| `EditorHistory.RunKeeps` | include/editormode.hpp:44-79 | In every run of Push, Undo, Redo and PushMerge at the top, the document is the base folded with the commands before the index, the flags agree with the selection, and the stack stays within its limit. |
| `EditorMode.Editor.Select` | src/editormode.cpp:259-269 | The line is added to the set and flagged, or removed from it and not; no other line, and no point, changes. |
| `EditorMode.Editor.Clear` | src/editormode.cpp:249-257 | The old set is returned; afterwards the set is empty, no line is flagged, and every line is where it was. |
| `EditorMode.Editor.MoveSelected` | src/editormode.cpp:209-216 | Both ends of the selected lines are moved by the delta, and no other line, flag or selection changes. |
| `EditorMode.Editor.SetPoint` | src/editormode.cpp:162-183 | One end of the selected line with the smallest number is at the target, and nothing else changes. |
| `EditorMode.Editor.RedoCommand` | src/editormode.cpp:75-218 | Redo of each of the four commands, with the selection that a clear remembers. |
| `EditorMode.Editor.UndoCommand` | src/editormode.cpp:80-224 | Undo of each of the four commands. |
| `EditorMode.Editor.Push` | include/editormode.hpp:66-93 | The in-place push is the step on values: tail erased, command made, appended and done, first erased at the limit. |
| `EditorMode.Editor.PushMerge` | include/editormode.hpp:49-64 | The in-place merge is undo, new data, redo of the last command, or a push. |
| `EditorMode.Editor.Perform` | src/editormode.cpp:300-326 | Any step on a stack that is a history gives a history again; the base moves only at the limit. |
| `JobSteps.PlacedKept` | include/asyncqueue.hpp:54-204 | Every step keeps every job in exactly one place: being started, queued, with one worker, completed, or notified. |
| `JobSteps.BookedKept` | src/jobsystem.cpp:29-34 | Every step keeps the set of outstanding jobs equal to the jobs that are tracked and not notified. |
| `JobSteps.ProgressKept` | src/soundcache.cpp:233-251 | Every step keeps that the loader of all sounds has started a job for each resident resource it has passed. |
| `JobRuns.RunKeeps` | include/asyncqueue.hpp:54-204 | The invariant holds after every interleaving of main-thread and worker steps from a state that has it. |
| `JobRuns.EveryRun` | include/asyncqueue.hpp:54-204 | From the start, with any resources, the invariant holds after every run. |
| `JobRuns.BoundsHold` | include/asyncqueue.hpp:54-204 | In a state with the invariant no step is blocked by anything but its turn: a worker can go on, and the main thread can add, notify and take, whenever there is something to do. |
| `JobRuns.BusyIsSound` | src/soundcache.cpp:152-155 | A job that is being started, queued, executing, completed or about to be notified is outstanding, so that IsBusy answers yes. |
| `JobRuns.IdleMeansFinished` | src/soundcache.cpp:152-155 | When IsBusy answers no, every job ever tracked has been executed and then notified, exactly once. |
| `JobRuns.BusyInEveryRun` | src/soundcache.cpp:152-155 | After every run from the start, a job in anyone's hands is outstanding and IsBusy answers yes. |
| `JobRuns.IdleInEveryRun` | src/soundcache.cpp:152-155 | After every run from the start at which IsBusy answers no, every job has been executed and then notified, exactly once. |
| `JobRuns.NotifiedOnceAfterExecute` | include/asyncqueue.hpp:150-163 | OnFinished is called only for a job whose OnExecute has returned and that was not notified before. |
| `JobRuns.TakenOnce` | include/asyncqueue.hpp:167-204 | A worker takes only a job that no worker has and that has not been executed. |
| `JobRuns.FirstComeFirstServed` | include/asyncqueue.hpp:150-204 | Every step takes jobs from the front of the queue and adds them at its end, and so for the completed jobs and their notifications; a stop drops the queue. |
| `JobRuns.LeavesLoadingWhenLoaded` | src/sound.cpp:232-237 | Sound leaves eLoadingSoundEffects only when the loader and every job it started are finished, and then, unless the queue was stopped, each resident sound had its own job. |
| `JobThemes.ThemesKept` | src/sound.cpp:261-279 | Every step keeps: while a theme is being loaded, the jobs tracked since and those still to be started are, in order, one for each sound of the theme; while the system is idle, each sound of its theme has had a job that returned and was notified. |
| `JobThemes.IdleMeansThemeCached` | src/sound.cpp:261-279 | After every run from the start at which the system is idle, each sound of the active theme has had a job that returned and was notified. |
| `JobRuns.UnloadsWhenIdle` | src/sound.cpp:222-270 | A theme is unloaded, and jobs are started, only when all earlier jobs are finished, cancelled ones included. |
| `JobCancel.CancelReaches` | src/soundcache.cpp:157-160 | The update in eCancel cancels every outstanding job. |
| `JobCancel.CancelledStarts` | src/soundcache.cpp:239-250 | A job that was cancelled starts, in every run until it has returned, one more job exactly when a worker was past the test of its flag at the time, and no other. |
| `JobCancel.StoppedStarts` | src/soundcache.cpp:239-250 | After the queue was stopped the same holds of every job. |
| `JobCancel.StopEmpties` | include/asyncqueue.hpp:122-132 | After the queue was stopped it is empty, and no worker takes a job any more, in every run. |
| `JobCancel.WorkerStartsAfterCheck` | src/soundcache.cpp:239-250 | A worker starts a job in exactly the step after its test of the flag, for a resident resource, and the new job is not cancelled. |
| `JobCancel.BeforeCancelIsReached` | src/soundcache.cpp:239-250 | A run from the start reaches a state with a worker between the test of the flag and the start of a job. |
| `JobCancel.CancelTooLate` | src/jobsystem.cpp:29-34 | From there a request and the update that cancels are followed by the cancelled loader starting a job, which is outstanding and not cancelled. |
| `SoundSystem.IdleWithLastTheme` | src/sound.cpp:28-290 | However requests and updates interleave, whenever the system is idle the theme asked for last is the active one, if it exists. |
| `SoundSystem.RequestDoes` | src/sound.cpp:28-56 | A request when idle unloads, and the next update makes the theme active; else a known theme makes the next update cancel the jobs, and an unknown one leaves the state and what the next update does as they were. |
| `SoundSystem.TicksLeadToIdle` | src/sound.cpp:220-290 | When the cache is not busy, each update is one step nearer to idle, from any state. |
| `SoundSystem.SoundPlayer.SetMusicTheme` | src/sound.cpp:28-57 | A new theme cancels a load that is under way, or starts to unload; an unknown theme unloads only when idle. |
| `SoundSystem.SoundPlayer.Update` | src/sound.cpp:220-290 | The switch over the states, and what each asks of the cache. |
| `IterativeForLoops.IterateStep` | include/iterativeforloop.hpp:120-146 | One call runs the body for the next index, or finds the range empty, or ends the loop and resets it; calls left go down by one. |
| `IterativeForLoops.IteratePairStep` | include/iterativeforloop.hpp:91-100 | Two loops, one in the other: a call runs the next cell in row order, and they are over and reset after the last, for any bounds, zero included. |
| `NestedForLoops.IterateTripleStep` | src/gridmap.cpp:206-236 | Three loops, one in the other, each inner bound depending on the outer indices: the same. |
| `NestedForLoops.NestedLoopsRun` | src/gridmap.cpp:206-236 | Called until they are over, the loops run the body for every place in range, each once, in lexicographic order. |
| `MapLoader.ForLoop.Begin` | include/iterativeforloop.hpp:120-146 | The part of a call before the body: the bound is taken once, and a loop that is over starts afresh. |
| `MapLoader.Loader.HandleLoadCameras` | src/gridmap.cpp:170-182 | For any time slice, the screens loaded and those to come are all screens in column order; the state changes only after the last, with the loops reset. |
| `MapLoader.Loader.HandleLoadObjects` | src/gridmap.cpp:196-242 | Nothing is lost, repeated or put out of order between the objects kept, the one being initialised and those to come; an object is kept when it is initialised, only an accepted one is ever made, and the state changes only when all accepted objects are in mObjs. |
| `MapLoader.Loader.LoadObjectsFrame` | src/gridmap.cpp:330-332 | A frame of any number of turns keeps that, and makes as much progress as it has turns when objects initialise at once. |
| `MapLoader.Loader.HandleObjectLoaderScripts` | src/gridmap.cpp:184-194 | The objects to come are then all that the factory accepts, in the order of the nested loops. |
| `MapLoader.Loader.Load` | src/gridmap.cpp:296-334 | A frame in any state keeps that, from the first camera on, the screens and objects done and to come are all of the map; a frame that initialises what it makes is one frame nearer to the end. |
| `MapLoader.Loader.LoadMap` | src/gridmap.cpp:296-339 | A whole load over any frames: when it comes to placing Abe, the objects are the accepted ones of the objects read off column by column, in a column screen by screen, in a screen in their order; the screens are all screens, each once, in column order; and it comes there after enough frames that initialise what they make. |
| `MapObjects.AllAcceptedIs` | src/gridmap.cpp:206-236 | The objects that the nested loops make are the accepted ones of the concatenation, over the columns, over the screens of a column, of the objects of a screen. |
| `MapObjects.FilterCounts` | src/gridmap.cpp:229-234 | An accepted object is made as often as it is on the screens, and another never. |
| `MapObjects.FilterOrder` | src/gridmap.cpp:206-236 | The objects made are, in order, those at the rising places of the accepted ones. |
| `MapObjects.FilterAllOrNone` | src/gridmap.cpp:229-234 | All objects are made when all are accepted, and none when none is. |
| `MapObjects.InAllAccepted` | src/gridmap.cpp:206-236 | An object is made exactly when it is on some screen and accepted. |
| `GameDependencies.WalkAllGood` | include/gamedefinition.hpp:343-364 | For any graph, cycles included, a walk ends, and what it adds is new, reachable, closed under requirements, with exactly the missing names. |
| `GameDependencies.WhitePaths` | include/gamedefinition.hpp:343-364 | A walk adds, as one stretch, exactly the definitions reachable around those found before, each name once: depth-first order. |
| `GameDependencies.FoundInOrder` | include/gamedefinition.hpp:343-364 | After a definition the walk next finds the first of the names it requires that has a definition and is not found yet. |
| `GameDependencies.DependenciesAreExact` | include/gamedefinition.hpp:373-377 | The game comes first; found are exactly the definitions it needs, no name twice; missing are exactly the names required by a found definition that no definition has and that are not the game's own. |
| `GameDependencies.StartMustBeNew` | include/gamedefinition.hpp:373-377 | A walk added to an earlier list repeats no name exactly when its start was not in the list. |
| `GameDependencies.Exists` | include/gamedefinition.hpp:319-329 | True exactly when a definition of the name was found. |
| `GameDependencies.FindIsFirst` | include/gamedefinition.hpp:331-341 | What is found for a name is the definition with that name before which no other has it; nothing is found exactly when none has it. |
| `GameDependencies.FindFirst` | include/gamedefinition.hpp:331-341 | The loop returns the definition of the name before which no other has it, or none when no definition has it. |
| `GameDependencies.AddDependencies` | include/gamedefinition.hpp:343-364 | The recursion with its loop over the required names is the walk. |

## Left out

- OggStream.StreamState: the growable C buffers are fields of type `seq`, so that aliasing between a returned page or packet and the buffers, and its lifetime, are not captured; allocation does not fail.
- OggSync.SyncState: the same holds of the sync buffer; the application's copy into the exposed room is a method of its own.
- OggRoundTrip.LossSafety: supposes, as the round trip does, that no packet but the last ends the stream; what a decoder makes of pages after a page flagged as the end is not stated.
- OggRoundTrip.RoundTrip: page numbers stay below 2^31 and granule positions and serial numbers fit their fields; wrapping of page numbers is not modelled.
- OggPack.PackBuffer: `oggpack_writecopy` is not modelled, because its growth guard takes the error path whenever growth is needed; `oggpackB_writetrunc`, look1, adv1 and `oggpackB_read1` would add only easy members.
- AeDecoder.Camera: `vlc_decode`, whose tables are not part of this model, and the surface conversion are left out; an index outside a colour table gives a marked cell instead of reading past the table.
- AeDecoder.Camera.ProcessSegment: requires a word buffer with enough coefficients, which the 0x7E00 words of the caller are (`AeDecoder.BufferSuffices`).
- CompressionType3.Decompress: a run of pixels that passes the end of the frame, which the code would store outside its buffer, is not modelled.
- CompressionType6or7AePsx.Decompress: requires that expanding the counted symbols meets no cycle and that the input ends where the last block does; when a cycle is met the inner loop of the code need not end.
- CompressionType3Ae.Decompress: rows that run past the frame's width, and streams that end early, are not modelled; the same holds of type 6Ae, and types 4 and 5 require well-formed tokens.
- BitWindows.SixBitReader: the two copies of the window, in types 3 and 3Ae, are one class.
- CdFileStream.Stream: the subheader mode used for movies is left out; a failed read leaves the stream unusable; read sizes are in the range of a C int.
- EditorHistory.Vec: coordinates are real numbers; rounding of floats, by which adding and then subtracting a delta may be off, is not modelled.
- EditorHistory.RunKeeps: `UndoStack::Clear` is not among the operations, since it leaves the command index as it is.
- JobSteps.Next: data races between threads are not modelled: each operation on the set of outstanding jobs, the loop that cancels them included, is one step, and so are the test of the stop flags in `ASyncQueue::Add` and its push, so that a job pushed just after a stop, which no worker takes any more, is not in the queue; `IsIdle`, pausing the queue, the number of workers and the contents of the cache are left out.
- SoundSystem.SoundPlayer: playing, and the event after a load, are left out; a theme is the list of its sounds.
- MapLoader.Loader: the clock is the number of turns that fit in a frame, the factory script a predicate on objects, and Init an answer per call; the states before the cameras and placing Abe are left out.
- GameDependencies.Definition: a definition is its name and its required names; parsing, paths and hidden definitions are left out.
- Renderers, input, audio devices, movies, scripting, JSON and file systems are outside the model.
