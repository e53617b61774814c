# Verified models of the Patmos boot path, work farm, TFTP download, audio effects and inference

This project models the parts of the Patmos C code whose correctness is not visible from one function, and proves
what they promise: for every input, every run and every interleaving.

- **Boot over the serial line** (`Bytes`, `Crc`, `Rfc1952`, `Lzss`, `SerialLink`, `Encoder`, `Download`, `Image`,
  `Damage`, `EndToEnd`).
  The class `SerialLink.Link` is the decompressor with its 1 KiB ring, `Download.Downloader` is `download` with its
  locals as fields. Both are proved against specifications that know nothing of rings or packets: an LZSS decoder that
  keeps its whole history, and a section parser over a byte stream. `Encoder.CodeBuffer` is the host's output stage.
  `EndToEnd.Boot` puts them together: whatever tokens and packets the host chooses, the loader returns the entry point
  and memory holds the sections. The CRC is a register of 32 bits stepped bit by bit; for every payload it is shown to be
  what the table-driven sample code in section 8 of RFC 1952 computes, and every burst of at most 32 bits in a payload
  to change it.
- **Multicore boot handshake** (`Handshake`, `HandshakeCalls`, `HandshakeProgress`, `HandshakeFair`). A transition system with one program
  counter per core, any number of cores, arbitrary initial shared memory. Safety needs no assumption on timing. For
  progress the "time to boot" of the source is stated as three allowances (`Timely`); progress is shown as reachability
  and for every fair execution.
- **Master/slave work farm** (`Farm`, `FarmRoles`, `FarmRuns`, `FarmFair`, `EscapeTime`, `Picture`). A transition system for any number of
  slaves and rows, with messages copied word by word; plus the escape-time kernel, the pixel loop and the decimal
  writer as methods over 32-bit integers; `Picture` puts the two together.
- **TFTP download** (`Tftp`, `TftpTransfer`). The receiving loop with its growing buffer as a class, against a lock-step sender as in
  section 2 of RFC 1350, over a network that loses, duplicates and reorders datagrams.
- **Audio effects** (`Audio`). Chorus, delay, vibrato and second-order filter as classes over circular buffers, proved
  against difference equations over the whole streams of samples.
- **Inference** (`Network`). The flat loops of `calculateNNCPU` against the layered network.

`Seqs`, `Products`, `Machine` and `Wrappers` hold facts on sequences, products and machine integers.

Where a function of the source changes state, the model is a method, and its contract ties the new state to a
specification function; the lemmas then speak about these functions. Shared-memory programs are step functions on
values, so that every interleaving of the cores can be quantified over.

## What the proofs found

- `download` does not always reject a damaged packet: its bytes go through the section parser before the checksum is
  compared, and a damaged memsize above 2^32 - 4 sends it into a fill loop that never ends. `Damage.CanHang` shows it
  for every program of one section and one packet; `Damage.DamagedProgramRejected` says exactly when it happens, by a
  condition read off the payload bytes, and that the loader returns NULL otherwise.
- The boot handshake can get stuck although every timing allowance of the source holds: a slave whose application is
  short overwrites its INIT by RETURN before the master looked for it (lines 112-116 and 180 of
  `patmos/c/bootloader/bootloader.c`), and the master waits for ever.
  `HandshakeProgress.MissedFromPowerOn` constructs such a run from every power-on state, `MissedIff` and
  `MissedIffHasty` name the one step that causes it, and `HandshakeProgress.RoundsGoOnIff` and
  `HandshakeFair.FairRoundsIff` show that this is the only way to get stuck.
- TFTP block numbers are 16 bits wide: the offset of block 65536 wraps around. `TftpTransfer.Transfer` shows that the
  receiver returns the file exactly for files of at most 65535 blocks, and is lost at block 65536 of any other.
- The second layer of the network can exceed 32 bits, and the answer can then differ from the network's
  (`Network.BytesDoNotSuffice`). `Network.OutputsFit` gives a condition on the weights under which it never does.
- The second-order filter reads its output buffer at the slot it is about to replace, so `A[2]` weighs the output of
  three steps before, not the present one; the filter is of second order only because `A[2]` is 0
  (`Audio.SecondOrder`). Its output fits 16 bits for every accumulator value exactly for shifts 0 and 1
  (`Audio.NeverCutIff`).

## Model

| member | source | states |
|---|---|---|
| Crc.BurstDetected | patmos/c/bootloader/download.c:130-137 | two payloads of equal length that differ, and only within 32 consecutive bits, have different checksums |
| Crc.BitBurstDetected | patmos/c/bootloader/download.c:131-137 | the same for any register value and any bit strings |
| Crc.StepsInjective | patmos/c/bootloader/download.c:132-136 | the shift/xor step loses nothing: equal registers after any number of steps were equal before |
| Crc.FeedAllIsWord | patmos/c/bootloader/download.c:130-137 | up to 32 bits fed one by one act on the register like xoring the word they spell and then stepping |
| Crc.UpdateAsBits | patmos/c/bootloader/download.c:130-137 | the byte-wise loop is the bit-wise one over the message bits, least significant bit first |
| Rfc1952.ChecksumIsCrc | patmos/c/bootloader/download.c:102-137 | for every payload the loader's checksum is the CRC of section 8 of RFC 1952, in that section's table-driven form with its own constants; it is what java.util.zip.CRC32 computes on the host |
| Rfc1952.WidenIs | patmos/c/bootloader/download.c:131 | a byte is xored into the lowest eight bits of the register, its lowest bit lowest |
| Rfc1952.ChecksumOfZero | patmos/c/bootloader/download.c:102-137 | the CRC-32 of a single zero byte is 0xD202EF8D |
| Crc.FieldReceived | patmos/c/bootloader/download.c:127-128 | shifting in the four bytes of a checksum field gives back the 32-bit checksum |
| Lzss.WritePosWraps | patmos/c/bootloader/decompress.c:58-59 | the write position after n bytes is (958 + n) mod 1024 |
| Lzss.ExtendCopies | patmos/c/bootloader/decompress.c:65-69 | a match appends bytes equal to those d places before, overlapping matches included |
| Lzss.FlagTrick | patmos/c/bootloader/decompress.c:51-56 | a loaded flag byte is used bit by bit from the lowest, and bit 8 stays set for exactly seven shifts |
| Lzss.MatchMeans | patmos/c/bootloader/decompress.c:61-69 | a 0 flag: two bytes give the ring index and the length less three, and the decoder appends that many bytes, each equal to the one as far back as that index lies behind a write position that started at 958 |
| Lzss.FlagsMean | patmos/c/bootloader/decompress.c:51-56 | a flag byte is eight flags, the lowest bit first |
| Lzss.LiteralMeans | patmos/c/bootloader/decompress.c:56-59 | a 1 flag: the next byte is a byte of the text |
| Lzss.InitialHistoryIs | patmos/c/bootloader/decompress.c:36-44 | the history starts with the 66 ring bytes from 958 on that initialisation leaves alone, then 958 blanks |
| SerialLink.Link.DecompressInit | patmos/c/bootloader/decompress.c:36-44 | positions 0 to 957 become blanks (32) and the rest of the ring stays, both positions are 958, no flags are left; what remains is the decoding of the line after that history |
| SerialLink.Link.Match | patmos/c/bootloader/decompress.c:61-69 | a match copied through the ring appends to the history what the unbounded decoder appends |
| SerialLink.Link.Refill | patmos/c/bootloader/decompress.c:50-71 | a refill happens only when nothing is unread, and puts at most 66 bytes into the ring |
| SerialLink.Link.UnreadCount | patmos/c/bootloader/decompress.c:50-75 | the unread count (write_pos - read_pos) mod 1024 is at most 65 at every call, and equal positions mean empty |
| SerialLink.Link.DecompressGetByte | patmos/c/bootloader/decompress.c:46-76 | the byte returned and the bytes still to come are what was to come: successive calls return the output of the unbounded decoder |
| SerialLink.Link.GetByte | patmos/c/bootloader/download.c:62-72 | with or without decompression, the next byte of the stream is returned and the rest remains |
| Encoder.DecodeSerialised | patmos/tools/java/src/patserdow/CompressionOutputStream.java:199-226 | decoding any serialised list of literals and matches gives its expansion |
| Encoder.TokenisesExpands | patmos/tools/java/src/patserdow/CompressionOutputStream.java:189-215 | tokens that cover a text expand to it |
| Encoder.LiteralsTokenise | patmos/tools/java/src/patserdow/CompressionOutputStream.java:199-202 | every text has tokens that cover it |
| Encoder.FoundMatchCovers | patmos/tools/java/src/patserdow/CompressionOutputStream.java:128-208 | a match the comparison found in the encoder's ring, mirrored tail and text read ahead included, is sent as a unit that covers the next bytes of the text |
| Encoder.CoversMore | patmos/tools/java/src/patserdow/CompressionOutputStream.java:194-208 | what covers the text read ahead covers the whole text |
| Encoder.CodeBuffer.Encode | patmos/tools/java/src/patserdow/CompressionOutputStream.java:189-215 | one unit is added to the group; its length is what the caller advances by |
| Encoder.CodeBuffer.Finish | patmos/tools/java/src/patserdow/CompressionOutputStream.java:217-226 | what has been written out is the serialisation of all units, the last group included |
| Download.FillEndsIff | patmos/c/bootloader/download.c:178-181 | the zero-fill loop ends if and only if memsize is at most 2^32 - 4, and how |
| Download.LanesStayClear | patmos/c/bootloader/download.c:139-140 | the lane a byte is placed in is clear, so that the bitwise or is the sum, and the next byte's lane is clear again |
| Image.OrAlwaysSum | patmos/c/bootloader/download.c:139-190 | carried along every run from the start: the or of the next byte is always a sum |
| Download.Downloader.UpdateCrc | patmos/c/bootloader/download.c:130-137 | the bit loop takes the register where one round of the table-driven code of RFC 1952 takes it |
| Download.Downloader.ZeroFill | patmos/c/bootloader/download.c:178-181 | with the byte count wrapping in 32 bits, every word from the data's end up to memsize becomes zero and all other memory stays |
| Download.Downloader.PayloadByte | patmos/c/bootloader/download.c:139-190 | one payload byte moves the section parser on |
| Download.Downloader.Download | patmos/c/bootloader/download.c:82-211 | the loop returns what the packet and section specification says of the byte stream, with the same memory and acknowledgements |
| Image.WrittenAt | patmos/c/bootloader/download.c:167-181 | memory changes exactly in the words of the section |
| Image.LoadedAt | patmos/c/bootloader/download.c:167-181 | what loading a section means, byte by byte: every word it covers holds four of its bytes, the first in the highest place and zeros beyond the data; all other memory stays |
| Image.LoadedAllAt | patmos/c/bootloader/download.c:139-190 | the same for all sections: the last section that covers a word decides it, and a word that none covers stays |
| Image.SectionConsumed | patmos/c/bootloader/download.c:142-190 | a section's bytes leave its data in memory, zeros up to memsize, and the parser ready for the next |
| Image.ProgramConsumed | patmos/c/bootloader/download.c:142-190 | the bytes of a program load all its sections and complete the count |
| Image.ProgramPrefix | patmos/c/bootloader/download.c:202-205 | no proper prefix of a program's bytes completes the count |
| Image.ProgramLoads | patmos/c/bootloader/download.c:114-210 | for every split of a program into packets of 1..255 bytes, the loader returns its entry point with all sections in memory and the low checksum bytes sent back |
| Damage.NeverConsumedIff | patmos/c/bootloader/download.c:173-186 | from any state, bytes are never consumed exactly if one of them completes a section whose wrapping byte count never reaches memsize |
| Damage.HangsIff | patmos/c/bootloader/download.c:142-186 | read off the bytes alone: they are never consumed exactly if they hold a complete section with a memsize above 2^32 - 4 |
| Damage.CanHang | patmos/c/bootloader/download.c:139-201 | every program of one section that fits one packet can be damaged within 32 consecutive bits so that `download` fills for ever |
| Damage.DamagedPacketRejected | patmos/c/bootloader/download.c:195-201 | a packet damaged within 32 consecutive bits makes the loader return NULL, or fill for ever exactly if one of its bytes starts such a loop |
| Damage.WrongChecksumRejected | patmos/c/bootloader/download.c:195-201 | any packet whose checksum field is not the CRC of its payload makes the loader answer and return NULL, unless its bytes start an endless fill |
| Damage.ZeroPacketAnswered | patmos/c/bootloader/download.c:114-210 | the packet 01 D2 02 EF 8D 00, which the host makes of a single zero byte, is answered with 8D and leaves the loader waiting for the next |
| Damage.DamagedProgramRejected | patmos/c/bootloader/download.c:139-201 | whichever packet of a program is damaged, the program is not entered: the loader fills for ever if and only if the bytes so far hold a complete section with a memsize above 2^32 - 4, and returns NULL otherwise |
| EndToEnd.HostPacketsSplit | patmos/tools/java/src/patserdow/Transmitter.java:102-125 | the host's packets are one of the splits of the program |
| EndToEnd.Decompressed | patmos/c/bootloader/decompress.c:46-76 | what the decoder makes of any compression of a text is the text |
| EndToEnd.Boot | patmos/c/bootloader/download.c:62-211 | from the host's bytes, compressed with any tokens or not, to memory and entry point |
| EndToEnd.BootDamaged | patmos/c/bootloader/download.c:62-211 | the same from the host's bytes, compressed or not: NULL after answering the packets so far, or never, by that condition |
| Handshake.StepKeepsInv | patmos/c/bootloader/bootloader.c:63-190 | every step of every core keeps the invariant |
| Handshake.BootOrder | patmos/c/bootloader/bootloader.c:88-184 | in every run: no slave passes its INIT wait before the download is done, the master enters the application after every copy, writes RETURN after every slave left its application, and rounds differ by at most one |
| Handshake.RoundsClose | patmos/c/bootloader/bootloader.c:150-190 | the rounds of any two slaves differ by at most one |
| Handshake.NoSlaveBeforeDownload | patmos/c/bootloader/bootloader.c:79-96 | a slave past its INIT wait is there after a step in which that round's download completed |
| Handshake.BootToldBefore | patmos/c/bootloader/bootloader.c:79-88 | in every run, a slave that looks for BOOT or is past that has made its own status visible in a step of that round |
| Handshake.NothingLeftOver | patmos/c/bootloader/bootloader.c:63-80 | in every run, whatever shared memory held at power-on: a core past its resets sees no status before BOOT, no entry point before the download, and no old answer in its slot |
| HandshakeProgress.NoStepBack | patmos/c/bootloader/bootloader.c:63-190 | no step of any core undoes progress |
| HandshakeProgress.StepKeepsFirm | patmos/c/bootloader/bootloader.c:73-96 | under the timing allowances the stronger invariant is kept |
| HandshakeProgress.SomeoneMovesOn | patmos/c/bootloader/bootloader.c:63-190 | under the allowances, and unless an acknowledgement was missed, one or two steps of some core lead on |
| HandshakeProgress.RoundsGoOnIff | patmos/c/bootloader/bootloader.c:109-190 | every later round can be reached by all cores if and only if no acknowledgement was missed |
| HandshakeProgress.MissedForever | patmos/c/bootloader/bootloader.c:112-116 | a missed acknowledgement stays missed whatever any core does |
| HandshakeProgress.MissedInRun | patmos/c/bootloader/bootloader.c:112-116 | in any run, the master then stays in its round from there on |
| HandshakeProgress.AcknowledgementCanBeMissed | patmos/c/bootloader/bootloader.c:112-182 | from any state with a slave about to acknowledge, a timely run in which the master misses it |
| HandshakeProgress.MissedFromPowerOn | patmos/c/bootloader/bootloader.c:53-182 | from every power-on state and for every slave, a timely run in which the master misses its acknowledgement |
| HandshakeProgress.MissedIff | patmos/c/bootloader/bootloader.c:112-180 | a step misses an acknowledgement exactly if the slave tells its return for the first time before the master has seen its INIT |
| HandshakeProgress.MissedIffHasty | patmos/c/bootloader/bootloader.c:63-190 | over whole timely runs from power-on: an acknowledgement has been missed exactly if such a step was taken |
| HandshakeFair.FairRoundsIff | patmos/c/bootloader/bootloader.c:63-190 | in every fair timely execution all cores go through every round if and only if no acknowledgement is ever missed |
| HandshakeProgress.EntryPointsAgree | patmos/c/bootloader/bootloader.c:126-131 | in timely runs every core, the master included, calls only the entry point that `download` returned, and has called it once it is past its application phase unless it was NULL |
| HandshakeCalls.MasterCallsOnce | patmos/c/bootloader/bootloader.c:124-131 | in timely runs, once the master is in or past its application phase: in an earlier step of this round it has called the entry point `download` returned, exactly if that is not NULL; no step of the round calls anything else, or twice |
| HandshakeCalls.SlaveCallsOnce | patmos/c/bootloader/bootloader.c:124-131 | the same for every slave |
| Farm.SlaveKeepsLane | patmos/c/cmp/mandelbrot_par.c:418-463 | every step of a slave keeps the protocol of its lane |
| FarmRoles.SlaveKeepsRole | patmos/c/cmp/mandelbrot_par.c:418-463 | a slave's step never invalidates what the master's program counter says of its lane |
| FarmRoles.MasterKeepsLane | patmos/c/cmp/mandelbrot_par.c:275-367 | every step of the master keeps every lane, and moves a lane's next row to write exactly when it writes one |
| FarmRuns.AllWrittenIff | patmos/c/cmp/mandelbrot_par.c:320-358 | distinct rows of a picture of n rows are all of them if and only if there are n |
| FarmRuns.StepKeepsInv | patmos/c/cmp/mandelbrot_par.c:275-463 | every step of master or slave keeps the whole invariant |
| FarmRuns.EveryRowOnce | patmos/c/cmp/mandelbrot_par.c:305-358 | in every reachable state the rows written are distinct, carry their own data, and are counted; after the loop every row has been written exactly once |
| FarmRuns.MessagesWhole | patmos/c/cmp/mandelbrot_par.c:205-215 | no reader uses a packet or row while its words are being copied; slaves compute from whole packets, the master takes whole rows |
| FarmRuns.OneUnanswered | patmos/c/cmp/mandelbrot_par.c:341-355 | at most one unanswered packet per slave, none when the next is sent |
| FarmRuns.CanFinish | patmos/c/cmp/mandelbrot_par.c:275-463 | from every reachable state the farm can go on until all have finished |
| FarmFair.FairFarmFinishes | patmos/c/cmp/mandelbrot_par.c:275-463 | every fair schedule ends: the master is done, all slaves have taken their stop packets, nothing changes any more, and every row has been written exactly once |
| EscapeTime.RoundExact | patmos/c/cmp/mandelbrot_par.c:472-477 | one round from a point that has not escaped: every value fits signed 32 bits |
| EscapeTime.OrbitEquation | patmos/c/cmp/mandelbrot_par.c:466-477 | the ideal orbit is z*z + c in 16.16 fixed point from the origin, each product rounded down |
| EscapeTime.DoIter | patmos/c/cmp/mandelbrot_par.c:465-481 | for every point of the picture and any limit of rounds, the count is the first escape of the ideal orbit |
| EscapeTime.EscapesOnce | patmos/c/cmp/mandelbrot_par.c:471-480 | there is only one such count |
| EscapeTime.ComputeRow | patmos/c/cmp/mandelbrot_par.c:451-456 | the pixel loop fills a row of 32 characters exactly; character k is entry n mod 64 of the map, n being the escape count of the point -2 + k * 6144/65536 at the height of the packet, with a square limit of 16 and 64 rounds |
| EscapeTime.PacketsInPicture | patmos/c/cmp/mandelbrot_par.c:307-312 | every packet of the program is one the kernel's bounds hold for |
| EscapeTime.Itoa | patmos/c/cmp/mandelbrot_par.c:406-412 | ten characters, right-aligned without leading zeros, each the decimal digit of its place, that read back as the number |
| Picture.PictureComplete | patmos/c/cmp/mandelbrot_par.c:307-358 | with the program's own kernel: after the loop there are 24 lines, one for every row, of eight words; each word holds four characters, the first highest, and every character is the map's entry for the escape count of its own point at height -1 + row * 5462/65536 |
| Tftp.Parsed | patmos/c/elfloader.c:279-297 | the bytes of a data or error datagram as in section 5 of RFC 1350 are read as its block number and data, or its code |
| Tftp.GrowLoop | patmos/c/elfloader.c:302-305 | the growth loop ends, at a size that holds the block |
| Tftp.Grow | patmos/c/elfloader.c:302-305 | the size never shrinks, reaches the end of the block, exceeds it by at most half, and comes from a smaller one q as (q + 1) * 3 / 2 |
| Tftp.PlacedIff | patmos/c/elfloader.c:295-298 | a block has a place in the buffer exactly if its number is not 0 |
| Tftp.GrowthEndsIff | patmos/c/elfloader.c:302-305 | for all 16-bit block numbers and lengths the growth loop ends, but for a short block with the number 0 |
| TftpTransfer.AllPlacedIff | patmos/c/elfloader.c:295-298 | all blocks of a file have their place exactly if there are at most 65535 |
| Tftp.AckRoundTrip | patmos/c/elfloader.c:245-258 | an acknowledgement is the bytes 0, 4 and the block number, high byte first; the sender reads that number back |
| Tftp.Receiver.Enlarge | patmos/c/elfloader.c:300-314 | growing keeps all earlier data |
| Tftp.Receiver.Store | patmos/c/elfloader.c:293-317 | the block is stored at its place, everything else stays |
| Tftp.Receiver.Receive | patmos/c/elfloader.c:265-332 | nothing is read beyond the first datagram that is an error, a short block or a block 0; -1 is returned exactly after an error, which is not answered and leaves the buffer; the size of the buffer exactly after a short block; otherwise all datagrams are handled and the receiver waits. Blocks are stored and acknowledged in turn |
| TftpTransfer.StepKeepsInv | patmos/c/elfloader.c:319-323 | over any network, a block arrives only after all before it |
| TftpTransfer.HoldsPrefix | patmos/c/elfloader.c:295-317 | after any lock-step deliveries the buffer starts with the file up to the highest block, and is at most half as large again |
| TftpTransfer.Transfer | patmos/c/elfloader.c:260-332 | every file, every run of a sender that reads only the receiver's own acknowledgement bytes: after the last datagram the receiver has returned with the file in a buffer at most half as large again, if and only if the file has at most 65535 blocks of 512 bytes, and is lost otherwise |
| TftpTransfer.CanComplete | patmos/c/elfloader.c:260-332 | from wherever a transfer stands, it can still be brought to its end |
| Audio.Push | patmos/c/audio_apps/wcet_audio.c:585-597 | writing below the newest sample keeps the circular buffer equal to the last samples of the stream |
| Audio.CombFilter2nd | patmos/c/audio_apps/wcet_audio.c:536-569 | three taps at delays 0..L-1 from the pointer, with no overflow of the accumulator |
| Audio.CombFilter1st | patmos/c/audio_apps/wcet_audio.c:610-640 | two taps, with no overflow |
| Audio.Comb2 | patmos/c/audio_apps/wcet_audio.c:622-637 | outputs stay in [-2^14, 2^14 - 1] |
| Audio.Comb3 | patmos/c/audio_apps/wcet_audio.c:551-566 | outputs stay in [-2^14, 2^14 - 1] |
| Audio.ChorusEquation | patmos/c/audio_apps/wcet_audio.c:536-600 | the difference equation written out: the present sample and two earlier ones at the delays of that time, each product shifted by 2, the sum limited to [-0x8000000, 0x7FFFFFF] and shifted by 13 |
| Audio.Chorus.Process | patmos/c/audio_apps/wcet_audio.c:571-600 | a block of 100 stereo samples continues both channels' streams; all that was ever returned is what the equation gives for all that was ever read |
| Audio.EchoEquation | patmos/c/audio_apps/wcet_audio.c:610-668 | the same for the delay: the present input and the output 13019 steps before |
| Audio.EchoDelay.Process | patmos/c/audio_apps/wcet_audio.c:642-668 | the same for the delay |
| Audio.PartialBound | patmos/c/audio_apps/wcet_audio.c:285-293 | the six taps of the filter fit 32 bits with any gains and samples |
| Audio.FilterIir2nd | patmos/c/audio_apps/wcet_audio.c:278-313 | the loop computes the filter's sum without overflow and replaces the oldest output |
| Audio.SecondOrder | patmos/c/audio_apps/wcet_audio.c:285-293 | with A[2] = 0 the sum depends on three inputs and two outputs |
| Audio.FilterEquation | patmos/c/audio_apps/wcet_audio.c:278-313 | the difference equation written out for all gains and shifts: three inputs, and the outputs one, two and three steps before; limited, shifted by 13 less the shift, cut to 16 bits |
| Audio.NeverCutIff | patmos/c/audio_apps/wcet_audio.c:296-310 | over all runs with any gains and 16-bit samples no output is cut, exactly for shifts 0 and 1 |
| Audio.FilterUncut | patmos/c/audio_apps/wcet_audio.c:278-313 | with A[2] = 0 and shifts 0 and 1 nothing is cut: the present input, two before it and two outputs before, limited and shifted |
| Audio.ReturnedEquation | patmos/c/audio_apps/wcet_audio.c:333-350 | what is returned: that value for high and low pass, half the difference from the input for a band pass (2), half the sum for a band reject (3), rounded down |
| Audio.IirFilter.Process | patmos/c/audio_apps/wcet_audio.c:315-352 | the same for the filter, of every type |
| Audio.BlendBound | patmos/c/audio_apps/wcet_audio.c:433-437 | the mix of two samples overflows neither 32 nor 16 bits |
| Audio.VibratoEquation | patmos/c/audio_apps/wcet_audio.c:410-447 | the difference equation written out: f and 32767 - f parts of two neighbouring samples at the delay of that time, shifted by 15 |
| Audio.Vibrato.Process | patmos/c/audio_apps/wcet_audio.c:410-447 | the same for the vibrato |
| Network.AccumulateRow | patmos/c/accelerator/neuralNetwork.h:145-149 | the running index stays at the row's weights; the sum is the row's product, cut to 32 bits |
| Network.CutSum | patmos/c/accelerator/neuralNetwork.h:147-170 | cutting sums on the way or at the end is the same |
| Network.FirstLayerExact | patmos/c/accelerator/neuralNetwork.h:142-155 | with byte-sized pixels and weights the first layer loses nothing |
| Network.RowFitsIff | patmos/c/accelerator/neuralNetwork.h:165-180 | a layer's value fits 32 bits for all inputs up to given tops if and only if it does at the two extremes its weights determine |
| Network.PeakIsMaximum | patmos/c/accelerator/neuralNetwork.h:142-163 | a rectified neuron's peak is the largest value it takes over all images |
| Network.OutputsFit | patmos/c/accelerator/neuralNetwork.h:142-180 | if the second layer fits at the neurons' peaks, which is a condition on weights and biases alone, every output fits for every image |
| Network.BytesDoNotSuffice | patmos/c/accelerator/neuralNetwork.h:165-192 | weights of one byte at which the 32-bit outputs have their maximum elsewhere |
| Network.FindMaximum | patmos/c/accelerator/neuralNetwork.h:182-192 | the least index of a largest value |
| Network.CalculateNNCPU | patmos/c/accelerator/neuralNetwork.h:133-196 | the result is the first largest output of the layered network as 32 bits hold it, and of the network itself for every image if the weights meet the bound |

## Left out

- UART, LED, timer, cache and assembly code: the serial line is a sequence of bytes, memory a map from word addresses,
  the application one step of a core. `machine/boot.h` is not part of this model.
- The Ethernet variant of the boot loader, libelf, `elf_load`, MMU segments and `invoke`: hardware and libraries that are
  not shown.
- The binary search trees of the host's compressor: which node a string is compared with, and that nodes the text read
  ahead has overwritten are no longer among them. The proofs hold for any node outside that stretch.
- Bit operations on bytes (`|`, `&`, `<<` on lanes, flags and match codes) are written with arithmetic; lemmas show
  that the lanes they touch are clear. Only the CRC register is a bit vector.
- An entry point of 0 cannot be told from NULL by the boot loader; `download` is modelled as returning the entry point.
- Handshake.MasterStep: the value an application returns, what is printed of it, and the host's exit code are not
  modelled.
- HandshakeFair.FairRoundsIff: assumes an execution that is fair and keeps the allowances; how a scheduler brings that
  about is not modelled.
- FarmFair.FairFarmFinishes: a core that is left out for ever is not covered. Rows are taken out of the master's buffer
  by words rather than characters, a slave's pixel loop is one step in the farm (`EscapeTime.ComputeRow` proves that
  loop), and the on-chip network's hardware copy is taken to deliver words in order, as `shm_dma` does.
- The number of rows is a multiple of the number of slaves, as with the constants of the source.
- The XPM header, `to_color` and the fixed text around each row.
- Tftp.Receiver.Receive: datagrams hold at least the four bytes of a TFTP header; shorter ones and what is
  printed of an error message are not modelled. A block number of 0 ends the model's run as lost. The host's port, ARP and retransmission
  of the read request are left out.
- In the audio effects the two channels are computed one after the other where the source alternates between them, and
  histories start cleared. Delays are assumed to lie inside the buffers (for the vibrato up to VIBRATO_L - 2) and vibrato
  fractions to be nonnegative. Tremolo, wah-wah, `audio_filter_2`, overdrive and distortion repeat these schemes or treat single
  samples.
- Network.CalculateNNCPU: accumulators start at zero, which the source leaves to chance. The export order of the weights
  is not modelled.
- Network.OutputsFit: sufficient for the whole network; it is exact for each layer (`Network.RowFitsIff`,
  `Network.PeakIsMaximum`), but no single image need bring all neurons to their peaks at once.
- The mode-change barrier of `audio_main.c`, FAT32, and the demos of the message-passing, network-on-chip and Ethernet
  libraries.
