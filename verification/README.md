# openMSX sector-based disks and the MSX mouse, modelled in Dafny

This project models two parts of the openMSX emulator.

**`SectorBasedDisk`** is a floppy disk whose contents are addressed as
512-byte logical sectors:

- `readSector` and `writeSector` check the sector number and the write
  protection, and report any lower failure as a disk I/O error.
- Reads go through a chain of patches over the backing image. `applyPatch`
  pushes a new link on the chain.
- `read` and `write` map a physical (track, side, sector) address to a
  logical sector.
- `readTrackData` builds the raw IBM-format byte stream of a whole track:
  a pre-gap, nine sector records and an end gap.
- `initWriteTrack` and `writeTrackData` decode a raw stream written by a
  controller that formats a track. Bytes go into a 512-byte ring buffer.
  Every second F7 CRC marker commits the ring's 512 bytes as the next sector.
- `detectGeometry` forces a 720 kB image to 9 sectors per track on two sides.

**`Mouse`** is the MSX mouse on a joystick port:

- In mouse mode, the strobe bit of each write moves a four-phase machine.
- Each read returns one nibble of half the latched motion, ORed with the
  button bits.
- When the mouse is plugged in with the left button held, reads emulate a
  joystick. The motion since the last read becomes direction bits, using a
  dead zone and a tan(pi/8) ≈ 5/12 sector test.
- Host events accumulate clamped motion and drive the button bits.

Module layout:

| file | module | contents |
|---|---|---|
| `disk_types.dfy` | `DiskTypes` | bytes, the sector size, disk errors, result types |
| `patch_chain.dfy` | `PatchChain` | the patch chain (`copyBlock`) and the backing store (`writeSectorImpl`) |
| `raw_track.dfy` | `RawTrack` | the raw track layout `readTrackData` emits |
| `write_track.dfy` | `WriteTrack` | the write-track decoder as a transition function, and what whole streams commit |
| `sector_disk.dfy` | `SectorDisk` | the `SectorBasedDisk` class and the specification functions of its sector access |
| `mouse.dfy` | `MsxMouse` | the `Mouse` class and the functions its reads, writes and joystick emulation are proved against |

The classes are imperative:

- Their fields are the source's fields, plus the collaborators listed under "## Left out": the backing image and the `physToLog` and `writeProtected` hooks, which in the source are a subclass's store and two of its methods.
- The write-track ring buffer is an `array`.
- `readTrackData` fills the caller's `array` through counted loops.

Each method is proved equal to a value-level function. The lemmas about
those functions carry the properties: round trips, frames, layouts and
invariants.

Two comments in `src/fdc/SectorBasedDisk.cc` disagree with its code; the
model follows the code:

- **Track length.** The comment at lines 89-91 gives a 122-byte pre-gap
  and a 1080-byte end gap. The loops of `readTrackData` emit a 146-byte
  pre-gap and a 1052-byte end gap, 146 + 9·628 + 1052 = 6850 bytes in all
  (`RAWTRACK_SIZE`, `RawTrack.Track`).
- **No data address mark.** The comment at line 102 lists `A1` x 4 and
  `FB` before the sector data. The code emits none, so the data starts at
  byte 56 of each 628-byte record (`RawTrack.TrackLayout`).

Two behaviours of the code are worth stating outright:

- **Each F7 counts once.** A stream of 512 bytes, F7 F7, 512 bytes, F7 F7
  commits the first 512 bytes to sector 1 and the second 512 to sector 2
  (`WriteTrack.DoubledMarkers`).
- **Failed commit.** When the sector write of a commit fails, the error
  propagates before the sector counter and the marker count are
  incremented. Both stay as they were (`SectorDisk.SectorBasedDisk.WriteTrackData`).

## Model

| member | source | states |
|---|---|---|
| PatchChain.ResolveIsBaseThenDiffs | src/fdc/SectorBasedDisk.cc:39-42 | reading through the chain fails wherever the backing image fails; elsewhere it is the backing image overridden by every applied patch in push order, the newest winning |
| PatchChain.PushTwiceIsPushMerged | src/fdc/SectorBasedDisk.cc:39-42 | applying two patches in turn reads the same as applying one patch holding both, the later one winning |
| PatchChain.CopyBlock | src/fdc/SectorBasedDisk.cc:159 | the copy succeeds exactly when every byte of the range resolves, and then holds the resolved bytes in order |
| PatchChain.StoreSector | src/fdc/SectorBasedDisk.cc:174 | the backing store accepts a sector iff it lies inside the image; the sector's 512 bytes are replaced and every other byte is kept |
| PatchChain.StoreThenCopy | src/fdc/SectorBasedDisk.cc:159-174 | round trip: a stored sector copies back unchanged when no patch overrides it |
| PatchChain.StoreKeepsOtherSectors | src/fdc/SectorBasedDisk.cc:159-174 | storing one sector leaves what every other sector copies unchanged |
| RawTrack.PreGap | src/fdc/SectorBasedDisk.cc:106-112 | the track header is 146 bytes long |
| RawTrack.IdMark | src/fdc/SectorBasedDisk.cc:117-119 | the sync bytes and ID address mark are 16 bytes long |
| RawTrack.IdField | src/fdc/SectorBasedDisk.cc:120-125 | the ID field (C, H, R, N and two CRC bytes) is 6 bytes long |
| RawTrack.Gap2 | src/fdc/SectorBasedDisk.cc:126-127 | gap 2 and the data sync bytes fill the 34 bytes up to the data at offset 56 |
| RawTrack.SectorHeader | src/fdc/SectorBasedDisk.cc:116-127 | what precedes a sector's data is 56 bytes long |
| RawTrack.SectorTail | src/fdc/SectorBasedDisk.cc:131-134 | what follows a sector's data is 60 bytes long |
| RawTrack.SectorRecord | src/fdc/SectorBasedDisk.cc:115-135 | one sector record is 628 bytes long |
| RawTrack.Records | src/fdc/SectorBasedDisk.cc:115-135 | the records of n sectors take 628·n bytes |
| RawTrack.Track | src/fdc/SectorBasedDisk.cc:104-140 | the raw track is 6850 bytes long |
| RawTrack.SectorRecordLayout | src/fdc/SectorBasedDisk.cc:116-134 | a record holds 12×00, 3×A1, FE, the ID field (track, side, record, 2), two zero CRC bytes, 22×4E, 12×00, the 512 data bytes at offset 56, two zero CRC bytes and 58×4E |
| RawTrack.RecordAt | src/fdc/SectorBasedDisk.cc:115-135 | record k sits at offset 628·k and carries sector number k + 1 and sector k's data |
| RawTrack.TrackRecord | src/fdc/SectorBasedDisk.cc:104-140 | the 628 bytes at 146 + 628·k of the raw track are the record of sector k + 1 |
| RawTrack.TrackEnds | src/fdc/SectorBasedDisk.cc:104-140 | the raw track opens with the pre-gap and its last 1052 bytes are 4E |
| RawTrack.TrackLayout | src/fdc/SectorBasedDisk.cc:104-140 | in the raw track, sector k's ID field, zero CRCs, data (at 146 + 628·k + 56) and gap sit where the loops put them, after the pre-gap and before the 4E end gap |
| WriteTrack.NextSector | src/fdc/SectorBasedDisk.cc:76 | the byte-wide sector counter advances modulo 256 |
| WriteTrack.Window | src/fdc/SectorBasedDisk.cc:69-73 | defined as the 512 ring bytes read from the cursor on, wrapping at 512, as the copy-out reads them; ensures the length 512 |
| WriteTrack.RingPush | src/fdc/SectorBasedDisk.cc:79-82 | storing at the cursor and advancing it drops the oldest byte of the window and appends the new one |
| WriteTrack.Start | src/fdc/SectorBasedDisk.cc:50-54 | after initialisation the cursor and marker count are 0, the next sector is 1, and the window is the old ring contents |
| WriteTrack.Feed | src/fdc/SectorBasedDisk.cc:63-82 | a non-F7 byte commits nothing and keeps the counters; an F7 keeps the ring, bumps the marker count, and commits the window as the current sector, then advances the sector, iff the count was odd |
| WriteTrack.FeedWindow | src/fdc/SectorBasedDisk.cc:79-82 | a non-F7 byte joins the window, whose oldest byte drops out |
| WriteTrack.FeedAllAppend | src/fdc/SectorBasedDisk.cc:57-83 | feeding two streams in turn is feeding their concatenation |
| WriteTrack.FeedPlain | src/fdc/SectorBasedDisk.cc:79-82 | a marker-free stream commits nothing, keeps the counters, and leaves the last 512 bytes of old window plus stream in the window |
| WriteTrack.PlainThenMarker | src/fdc/SectorBasedDisk.cc:63-82 | a marker-free run then one F7: the run joins the window, the count goes up by one, and the window is committed to the current sector iff the count was odd |
| WriteTrack.LongRunFillsWindow | src/fdc/SectorBasedDisk.cc:79-82 | after a run of at least 512 bytes the window is the run's last 512 bytes, whatever it held before |
| WriteTrack.HeaderMarker | src/fdc/SectorBasedDisk.cc:65-78 | with an even count, a run then F7 commits nothing and keeps the sector |
| WriteTrack.DataMarker | src/fdc/SectorBasedDisk.cc:65-78 | with an odd count, a run then F7 commits the window to the current sector, which advances |
| WriteTrack.FeedRecord | src/fdc/SectorBasedDisk.cc:63-78 | with an even marker count, an ID field, F7, data field, F7, gap commits exactly the last 512 data bytes to the current sector |
| WriteTrack.ExpectedWrites | src/fdc/SectorBasedDisk.cc:74-76 | defined as the list sending the last 512 data bytes of record k to sector first + k; ensures one write per record |
| WriteTrack.ExpectedWritesSnoc | src/fdc/SectorBasedDisk.cc:74-76 | the writes of n records are those of the first n - 1 followed by the last record's write to sector first + n - 1 |
| WriteTrack.FeedTrackStep | src/fdc/SectorBasedDisk.cc:57-83 | one more well-formed record after a decoded prefix commits its data to the next sector and keeps the marker count even |
| WriteTrack.FeedTrack | src/fdc/SectorBasedDisk.cc:57-83 | a marker-free pre-gap and n well-formed records commit exactly the n data fields to consecutive sectors, in order, and add 2n to the marker count |
| WriteTrack.FormatTrackWritesSectors | src/fdc/SectorBasedDisk.cc:44-83 | after initWriteTrack, formatting a track writes record k's data to sector k + 1 of that track and side, and nothing else |
| WriteTrack.HeaderRun | src/fdc/SectorBasedDisk.cc:65-82 | with an even count, a run of at least 512 bytes then F7 commits nothing, makes the count odd, and leaves the run's last 512 bytes in the window |
| WriteTrack.LoneDataMarker | src/fdc/SectorBasedDisk.cc:65-78 | with an odd count, a lone F7 commits the window as it stands to the current sector |
| WriteTrack.RunThenTwoMarkers | src/fdc/SectorBasedDisk.cc:65-78 | a run then F7 F7 commits the last 512 bytes of the run: the first F7 closes a header CRC, the second the data CRC |
| WriteTrack.DoubledMarkers | src/fdc/SectorBasedDisk.cc:65-78 | 512 bytes, F7 F7, 512 bytes, F7 F7 commits the first block to sector 1 and the second to sector 2 |
| SectorDisk.SectorRead | src/fdc/SectorBasedDisk.cc:153-163 | NoSuchSector iff the sector is at or past nbSectors; DiskIOError iff it is in range but the chain cannot supply all its bytes; Ok exactly when it is in range and every byte resolves, and then the 512 bytes the chain resolves |
| SectorDisk.SectorWriteEffect | src/fdc/SectorBasedDisk.cc:165-178 | WriteProtected iff protected (checked first), else NoSuchSector iff out of range, else DiskIOError iff the backing store cannot hold the sector; a failed write keeps the image; a successful one is the store's write |
| SectorDisk.WriteThenRead | src/fdc/SectorBasedDisk.cc:153-178 | round trip: a successful sector write reads back the bytes written when no patch covers the sector |
| SectorDisk.WriteKeepsOtherSectors | src/fdc/SectorBasedDisk.cc:153-178 | a sector write, successful or not, changes what no other sector reads |
| SectorDisk.TrackSectors | src/fdc/SectorBasedDisk.cc:115-130 | reading sectors 1 to n of a track gives their contents in order, or the error of the first sector that fails, all earlier ones having succeeded |
| SectorDisk.TrackSectorsErrorStays | src/fdc/SectorBasedDisk.cc:115-130 | once a sector of the track fails, the error reported for the whole track is that one |
| SectorDisk.SectorBasedDisk.constructor | src/fdc/SectorBasedDisk.cc:11-15 | a new disk reads through the empty patch over its image; its write-track accumulator starts at cursor 0, count 0, sector 1 with a zero ring |
| SectorDisk.SectorBasedDisk.ReadSector | src/fdc/SectorBasedDisk.cc:153-163 | the result is SectorRead of the disk's patch chain, image and size |
| SectorDisk.SectorBasedDisk.Read | src/fdc/SectorBasedDisk.cc:21-28 | reads the logical sector physToLog maps the physical address to |
| SectorDisk.SectorBasedDisk.WriteSector | src/fdc/SectorBasedDisk.cc:165-178 | outcome and new image are SectorWriteEffect of the old image |
| SectorDisk.SectorBasedDisk.Write | src/fdc/SectorBasedDisk.cc:30-37 | writes the logical sector physToLog maps the physical address to |
| SectorDisk.SectorBasedDisk.ApplyPatch | src/fdc/SectorBasedDisk.cc:39-42 | the new patch wraps the old head of the chain |
| SectorDisk.SectorBasedDisk.InitWriteTrack | src/fdc/SectorBasedDisk.cc:44-55 | WriteProtected with nothing changed when protected; otherwise the accumulator becomes Start(ring, track, side) |
| SectorDisk.SectorBasedDisk.WriteTrackData | src/fdc/SectorBasedDisk.cc:57-83 | WriteProtected with nothing changed when protected; otherwise the accumulator takes the Feed step, and a commit writes the window through write() to the current sector, a failed commit reporting its error and leaving the counters unchanged |
| SectorDisk.SectorBasedDisk.ReadTrackData | src/fdc/SectorBasedDisk.cc:85-141 | the output is exactly Track(track, side, sectors 1..9) when every sector reads; otherwise the error of the first failing sector |
| SectorDisk.SectorBasedDisk.Ready | src/fdc/SectorBasedDisk.cc:143-146 | a sector-based disk is always ready |
| SectorDisk.SectorBasedDisk.DoubleSided | src/fdc/SectorBasedDisk.cc:148-151 | double-sided iff the geometry has two sides |
| SectorDisk.SectorBasedDisk.GetNbSectors | src/fdc/SectorBasedDisk.cc:180-183 | the number of sectors of the disk |
| SectorDisk.SectorBasedDisk.DetectGeometry | src/fdc/SectorBasedDisk.cc:185-210 | 1440 sectors give 9 sectors per track on 2 sides; any other size takes the generic detection's geometry |
| MsxMouse.Scaled | src/input/Mouse.cc:85 | rel / SCALE truncated toward zero: the quotient has the sign of rel and is within one SCALE step of it |
| MsxMouse.HighNibble | src/input/Mouse.cc:85 | the high nibble is a value 0..15 |
| MsxMouse.LowNibble | src/input/Mouse.cc:87 | the low nibble is a value 0..15 |
| MsxMouse.ReadByte | src/input/Mouse.cc:82-94 | a mouse-mode read shows the button bits of status unchanged in its upper nibble |
| MsxMouse.NibblesAreByte | src/input/Mouse.cc:85-91 | the high and low nibble together are the value's two's-complement byte |
| MsxMouse.ReadsRecoverMotion | src/input/Mouse.cc:82-94 | with no direction bit set, the X-high and X-low reads, and the Y-high and Y-low reads, decode as signed bytes to the latched motion divided by SCALE |
| MsxMouse.NibbleOverStatus | src/input/Mouse.cc:85-91 | one axis: the two reads decode back to the scaled value for every value in [-128, 127] |
| MsxMouse.Directions | src/input/Mouse.cc:107-147 | only direction bits are set, never LEFT with RIGHT, never UP with DOWN |
| MsxMouse.MotionGivesDirection | src/input/Mouse.cc:110-147 | any motion outside the dead zone reports at least one direction |
| MsxMouse.MirrorSwapsLeftRight | src/input/Mouse.cc:115-147 | mirroring a motion horizontally swaps RIGHT for LEFT and keeps the vertical bits |
| MsxMouse.JoystickStatus | src/input/Mouse.cc:103-147 | the joystick emulation keeps the button bits and replaces the direction bits by those of the motion |
| MsxMouse.NextFaze | src/input/Mouse.cc:163-180 | the phase stays in 0..3 and either stays or advances by one modulo 4; it advances iff the strobe level differs from the one that entered the phase |
| MsxMouse.SameLevelMovesOnce | src/input/Mouse.cc:163-180 | writing the same strobe level twice moves the phase at most once |
| MsxMouse.StrobeCycle | src/input/Mouse.cc:163-180 | strobe high, low, high, low from Y low visits X high, X low, Y high and returns to Y low |
| MsxMouse.Clamp | src/input/Mouse.cc:196-199 | the accumulated motion lands in [-256, 254], at the point of that range nearest the unclamped value, and is unchanged when already inside it |
| MsxMouse.JoystickBits | src/input/Mouse.cc:102-147 | the bits the emulation's nested sign and 5/12 tests compute are exactly JoystickStatus of the old bits and the motion |
| MsxMouse.ButtonBit | src/input/Mouse.cc:205-231 | the left button drives JOY_BUTTONA, the right one JOY_BUTTONB, others nothing |
| MsxMouse.Mouse.constructor | src/input/Mouse.cc:24-32 | both buttons up, phase Y low, no motion, mouse mode |
| MsxMouse.Mouse.Plug | src/input/Mouse.cc:55-66 | mouse mode iff the left button is up when plugged in, which also restarts the write timer |
| MsxMouse.Mouse.Read | src/input/Mouse.cc:80-99 | in mouse mode ReadByte of the state, with nothing changed; in joystick mode the port bits after the emulation, with the motion consumed |
| MsxMouse.Mouse.EmulateJoystick | src/input/Mouse.cc:101-148 | the port bits become JoystickStatus of the old bits and the accumulated motion, which is reset to zero |
| MsxMouse.Mouse.Write | src/input/Mouse.cc:150-184 | in joystick mode nothing changes; in mouse mode a gap of at least 1000 ticks restarts at Y low, the phase takes the NextFaze step, and only the Y-low to X-high edge latches the motion and resets the accumulator |
| MsxMouse.Mouse.Move | src/input/Mouse.cc:194-199 | the accumulated motion becomes Clamp of itself minus the host motion |
| MsxMouse.Mouse.Press | src/input/Mouse.cc:202-216 | a press clears the button's port bit and no other |
| MsxMouse.Mouse.Release | src/input/Mouse.cc:218-232 | a release sets the button's port bit and no other |
| MsxMouse.Mouse.SignalEvent | src/input/Mouse.cc:188-238 | motion is subtracted and clamped; a left or right press clears its button bit and a release sets it; other buttons and events change nothing |

Every method of both classes also keeps the class invariant `Valid()`:

- The ring buffer holds 512 bytes and its cursor lies inside it.
- The mouse phase stays in 0..3.
- All four motion counters stay in [-256, 254].
- Bits 6 and 7 of the mouse's `status` stay clear.

## Left out

- The IPS patch file format and `EmptyDiskPatch`/`IPSPatch` are not part of this model. A patch is the map of bytes it supplies, and `applyPatch` takes that map instead of a file name.
- `physToLog`, `writeProtected`, `writeSectorImpl` and `Disk::detectGeometry` belong to other classes. They are a function constant, a field, a write into an in-memory image (failing when the image is too short) and a `generic` geometry parameter. The mapping is fixed when the disk is built: in the source it follows the disk's geometry, so a later `DetectGeometry` here changes `sectorsPerTrack` and `nbSides` without changing which logical sector `Read` and `Write` address.
- SectorDisk.SectorBasedDisk.constructor: the name, the geometry and the sector count are set by the concrete disk kind, so they are parameters here. The source leaves the write-track accumulator uninitialised until `initWriteTrack`; the model starts it with cursor, marker count, track and side 0, sector 1 and a zero-filled ring, as the constructor's contract states.
- SectorDisk.SectorBasedDisk.ReadTrackData: on a sector error, the bytes already written to `output` are not stated.
- SectorDisk.SectorBasedDisk.WriteTrackData: the marker count is an unbounded natural number. The source's `int` counter overflow after 2^31 markers is not modelled.
- Exceptions are modelled as `Result`/`Outcome` values. An exception's message text is not modelled.
- DiskChanger, the event distributor, scripting commands, build tooling and serialisation (`Mouse::serialize`) are not part of this model.
- The mouse's event listener registration (`plugHelper2`, `unplugHelper`), its name and description strings, and `checked_cast` are not modelled.
- MsxMouse.Mouse.Write: `EmuTime` is reduced to an integer tick count. `delta` is the difference of two tick counts, and 32-bit overflow of `getTicksTill` is not modelled.
- MsxMouse.Mouse.Move: host motion values are unbounded integers. 32-bit overflow of `curxrel - x` is not modelled.
- MsxMouse.HighNibble: `>>` on a negative `int` is taken to be an arithmetic shift, as on every compiler openMSX targets.
- MsxMouse.Mouse.Plug: the direction bits a joystick-mode read left in `status` persist after a later plug in mouse mode. They are then ORed into every nibble, so `ReadsRecoverMotion` assumes they are clear.
- The `JOY_*` bit values (up 0x01, down 0x02, left 0x04, right 0x08, button A 0x10, button B 0x20) come from the joystick device header, which is not part of this model.
