/** A floppy disk whose contents are addressed as 512-byte logical sectors
    (`SectorBasedDisk`): sector access through the patch chain, the raw
    track view a controller reads, the write-track decoder, and geometry
    detection. */
module SectorDisk {
  import opened DiskTypes
  import opened PatchChain
  import opened RawTrack
  import opened WriteTrack

  /** Sectors per track and number of sides. */
  datatype Geometry = Geometry(sectorsPerTrack: nat, nbSides: nat)

  /** The size, in sectors, of a 720 kB image. */
  const SECTORS_720K: nat := 1440

  /** What a sector write reports, and the backing image after it. */
  datatype WriteResult = WriteResult(outcome: Outcome, image: seq<byte>)

  /** `readSector(sector, buf)`: a sector at or past the end of the disk
      does not exist; any failure of the patch chain below is reported as
      a disk I/O error; otherwise the 512 bytes the chain resolves. */
  function SectorRead(p: Patch, image: seq<byte>, nbSectors: nat, sector: nat): (r: Result<seq<byte>>)
    ensures r == Err(NoSuchSector) <==> sector >= nbSectors
    ensures r == Err(DiskIOError) <==>
              sector < nbSectors && !Readable(p, image, sector * SECTOR_SIZE, SECTOR_SIZE)
    ensures r.Ok? <==> sector < nbSectors && Readable(p, image, sector * SECTOR_SIZE, SECTOR_SIZE)
    ensures r.Ok? ==> |r.value| == SECTOR_SIZE
    ensures r.Ok? ==> forall i :: 0 <= i < SECTOR_SIZE ==>
                        Resolve(p, image, sector * SECTOR_SIZE + i) == Some(r.value[i])
  {
    if sector >= nbSectors then Err(NoSuchSector)
    else match CopyBlock(p, image, sector * SECTOR_SIZE, SECTOR_SIZE)
      case None => Err(DiskIOError)
      case Some(block) => Ok(block)
  }

  /** `writeSector(sector, buf)`: write protection is checked first, then
      the sector number; a failure of the backing store is reported as a
      disk I/O error.  A failed write leaves the image as it was. */
  function SectorWriteEffect(image: seq<byte>, writeProtected: bool, nbSectors: nat,
                             sector: nat, buf: seq<byte>): (r: WriteResult)
    requires |buf| == SECTOR_SIZE
    ensures r.outcome == Fail(WriteProtected) <==> writeProtected
    ensures r.outcome == Fail(NoSuchSector) <==> !writeProtected && sector >= nbSectors
    ensures r.outcome == Fail(DiskIOError) <==>
              !writeProtected && sector < nbSectors && (sector + 1) * SECTOR_SIZE > |image|
    ensures r.outcome.Fail? ==> r.image == image
    ensures r.outcome == Pass ==> Some(r.image) == StoreSector(image, sector, buf)
  {
    if writeProtected then WriteResult(Fail(WriteProtected), image)
    else if sector >= nbSectors then WriteResult(Fail(NoSuchSector), image)
    else match StoreSector(image, sector, buf)
      case None => WriteResult(Fail(DiskIOError), image)
      case Some(image') => WriteResult(Pass, image')
  }

  /** Round trip: after a successful sector write, reading that sector back
      returns the bytes written, provided no applied patch covers them. */
  lemma WriteThenRead(p: Patch, image: seq<byte>, writeProtected: bool, nbSectors: nat,
                      sector: nat, buf: seq<byte>)
    requires |buf| == SECTOR_SIZE
    requires SectorWriteEffect(image, writeProtected, nbSectors, sector, buf).outcome == Pass
    requires forall i :: sector * SECTOR_SIZE <= i < (sector + 1) * SECTOR_SIZE ==> i !in Overrides(p)
    ensures SectorRead(p, SectorWriteEffect(image, writeProtected, nbSectors, sector, buf).image,
                       nbSectors, sector) == Ok(buf)
  {
    var image' := SectorWriteEffect(image, writeProtected, nbSectors, sector, buf).image;
    StoreThenCopy(p, image, sector, buf, image');
  }

  /** A sector write changes what no other sector reads. */
  lemma WriteKeepsOtherSectors(p: Patch, image: seq<byte>, writeProtected: bool, nbSectors: nat,
                               sector: nat, buf: seq<byte>, other: nat)
    requires |buf| == SECTOR_SIZE
    requires other != sector
    ensures SectorRead(p, SectorWriteEffect(image, writeProtected, nbSectors, sector, buf).image,
                       nbSectors, other) == SectorRead(p, image, nbSectors, other)
  {
    var r := SectorWriteEffect(image, writeProtected, nbSectors, sector, buf);
    if r.outcome == Pass {
      StoreKeepsOtherSectors(p, image, sector, buf, r.image, other);
    }
  }

  /** Sector `k + 1` of a physical track, as `readTrackData` reads it. */
  function TrackSector(p: Patch, image: seq<byte>, nbSectors: nat, physToLog: (byte, byte, byte) -> nat,
                       track: byte, side: byte, k: nat): Result<seq<byte>>
    requires k < SECTORS_PER_TRACK
  {
    SectorRead(p, image, nbSectors, physToLog(track, side, (k + 1) as byte))
  }

  /** Sectors 1 to n of a physical track read in order: their contents, or
      the error of the first one that fails. */
  function TrackSectors(p: Patch, image: seq<byte>, nbSectors: nat, physToLog: (byte, byte, byte) -> nat,
                        track: byte, side: byte, n: nat): (r: Result<seq<seq<byte>>>)
    requires n <= SECTORS_PER_TRACK
    ensures r.Ok? ==> |r.value| == n && AllSectors(r.value)
    ensures r.Ok? ==> forall k :: 0 <= k < n ==>
                        TrackSector(p, image, nbSectors, physToLog, track, side, k) == Ok(r.value[k])
    ensures r.Err? ==> exists k :: 0 <= k < n
                        && TrackSector(p, image, nbSectors, physToLog, track, side, k) == Err(r.error)
                        && forall j :: 0 <= j < k ==> TrackSector(p, image, nbSectors, physToLog, track, side, j).Ok?
  {
    if n == 0 then Ok([])
    else match TrackSectors(p, image, nbSectors, physToLog, track, side, n - 1)
      case Err(e) => Err(e)
      case Ok(blocks) =>
        match TrackSector(p, image, nbSectors, physToLog, track, side, n - 1)
        case Err(e) => Err(e)
        case Ok(block) => Ok(blocks + [block])
  }

  /** Reading one more sector of the track extends the blocks read so far
      or reports that sector's error. */
  lemma TrackSectorsNext(p: Patch, image: seq<byte>, nbSectors: nat, physToLog: (byte, byte, byte) -> nat,
                         track: byte, side: byte, j: nat, blocks: seq<seq<byte>>)
    requires j < SECTORS_PER_TRACK
    requires TrackSectors(p, image, nbSectors, physToLog, track, side, j) == Ok(blocks)
    ensures var d := TrackSector(p, image, nbSectors, physToLog, track, side, j);
      && (d.Ok? ==> TrackSectors(p, image, nbSectors, physToLog, track, side, j + 1) == Ok(blocks + [d.value]))
      && (d.Err? ==> TrackSectors(p, image, nbSectors, physToLog, track, side, j + 1) == Err(d.error))
  {
  }

  /** Once a sector of the track fails, reading further sectors does not
      change the reported error. */
  lemma {:induction false} TrackSectorsErrorStays(p: Patch, image: seq<byte>, nbSectors: nat,
                                                  physToLog: (byte, byte, byte) -> nat,
                                                  track: byte, side: byte, m: nat, n: nat)
    requires m <= n <= SECTORS_PER_TRACK
    requires TrackSectors(p, image, nbSectors, physToLog, track, side, m).Err?
    ensures TrackSectors(p, image, nbSectors, physToLog, track, side, n)
            == TrackSectors(p, image, nbSectors, physToLog, track, side, m)
    decreases n - m
  {
    if m < n {
      TrackSectorsErrorStays(p, image, nbSectors, physToLog, track, side, m, n - 1);
    }
  }

  /** `n` copies of `v` written from `pos` on. */
  method Fill(output: array<byte>, pos: nat, n: nat, v: byte) returns (next: nat)
    requires pos + n <= output.Length
    modifies output
    ensures next == pos + n
    ensures output[..next] == old(output[..pos]) + Repeat(v, n)
  {
    for i := 0 to n
      invariant output[..pos + i] == old(output[..pos]) + Repeat(v, i)
    {
      output[pos + i] := v;
      assert output[..pos + i + 1] == output[..pos + i] + [v];
      assert Repeat(v, i + 1) == Repeat(v, i) + [v];
    }
    next := pos + n;
  }

  /** One byte written at `pos`. */
  method Put(output: array<byte>, pos: nat, v: byte) returns (next: nat)
    requires pos < output.Length
    modifies output
    ensures next == pos + 1
    ensures output[..next] == old(output[..pos]) + [v]
  {
    output[pos] := v;
    next := pos + 1;
    assert output[..next] == output[..pos] + [v];
  }

  /** A block of bytes written from `pos` on. */
  method CopyIn(output: array<byte>, pos: nat, data: seq<byte>) returns (next: nat)
    requires pos + |data| <= output.Length
    modifies output
    ensures next == pos + |data|
    ensures output[..next] == old(output[..pos]) + data
  {
    for i := 0 to |data|
      invariant output[..pos + i] == old(output[..pos]) + data[..i]
    {
      output[pos + i] := data[i];
      assert output[..pos + i + 1] == output[..pos + i] + [data[i]];
      assert data[..i + 1] == data[..i] + [data[i]];
    }
    next := pos + |data|;
  }

  /** The bytes of a sector record that precede its data. */
  method PutSectorHeader(output: array<byte>, pos: nat, track: byte, side: byte, record: byte)
    returns (next: nat)
    requires pos + DATA_OFFSET <= output.Length
    modifies output
    ensures next == pos + DATA_OFFSET
    ensures output[..next] == old(output[..pos]) + SectorHeader(track, side, record)
  {
    next := PutIdMark(output, pos);
    next := PutIdField(output, next, track, side, record);
    next := PutGap2(output, next);
  }

  method PutIdMark(output: array<byte>, pos: nat) returns (next: nat)
    requires pos + ID_OFFSET <= output.Length
    modifies output
    ensures next == pos + ID_OFFSET
    ensures output[..next] == old(output[..pos]) + IdMark()
  {
    next := Fill(output, pos, 12, 0x00);
    next := Fill(output, next, 3, 0xA1);
    next := Fill(output, next, 1, 0xFE);
  }

  method PutIdField(output: array<byte>, pos: nat, track: byte, side: byte, record: byte)
    returns (next: nat)
    requires pos + 6 <= output.Length
    modifies output
    ensures next == pos + 6
    ensures output[..next] == old(output[..pos]) + IdField(track, side, record)
  {
    next := Put(output, pos, track);
    next := Put(output, next, side);
    next := Put(output, next, record);
    next := Put(output, next, 0x02);
    next := Put(output, next, 0x00);
    next := Put(output, next, 0x00);
  }

  method PutGap2(output: array<byte>, pos: nat) returns (next: nat)
    requires pos + (DATA_OFFSET - ID_OFFSET - 6) <= output.Length
    modifies output
    ensures next == pos + (DATA_OFFSET - ID_OFFSET - 6)
    ensures output[..next] == old(output[..pos]) + Gap2()
  {
    next := Fill(output, pos, 22, 0x4E);
    next := Fill(output, next, 12, 0x00);
  }

  /** The bytes of a sector record that follow its data. */
  method PutSectorTail(output: array<byte>, pos: nat) returns (next: nat)
    requires pos + (RECORD_SIZE - DATA_CRC_OFFSET) <= output.Length
    modifies output
    ensures next == pos + (RECORD_SIZE - DATA_CRC_OFFSET)
    ensures output[..next] == old(output[..pos]) + SectorTail()
  {
    next := Put(output, pos, 0x00);
    next := Put(output, next, 0x00);
    next := Fill(output, next, 58, 0x4E);
  }

  /** The track header, from the start of the buffer. */
  method PutPreGap(output: array<byte>) returns (next: nat)
    requires PREGAP_SIZE <= output.Length
    modifies output
    ensures next == PREGAP_SIZE && output[..next] == PreGap()
  {
    next := Fill(output, 0, 80, 0x4E);
    next := Fill(output, next, 12, 0x00);
    next := Fill(output, next, 3, 0xC2);
    next := Fill(output, next, 1, 0xFC);
    next := Fill(output, next, 50, 0x4E);
  }

  /** Emitting a sector's header, data and tail after the records of the
      sectors before it yields the records up to and including it. */
  lemma RecordAppended(track: byte, side: byte, blocks: seq<seq<byte>>, data: seq<byte>,
                       before: seq<byte>, after: seq<byte>)
    requires |blocks| < SECTORS_PER_TRACK && AllSectors(blocks) && |data| == SECTOR_SIZE
    requires before == PreGap() + Records(track, side, blocks)
    requires after == before + SectorHeader(track, side, (|blocks| + 1) as byte) + data + SectorTail()
    ensures AllSectors(blocks + [data])
    ensures after == PreGap() + Records(track, side, blocks + [data])
  {
    var blocks' := blocks + [data];
    assert blocks'[..|blocks|] == blocks;
    assert Records(track, side, blocks')
           == Records(track, side, blocks) + SectorRecord(track, side, (|blocks| + 1) as byte, data);
  }

  class SectorBasedDisk {
    /** The backing store `writeSectorImpl` writes to and the empty patch
        reads from. */
    var image: seq<byte>
    /** The head of the patch chain. */
    var patch: Patch
    var nbSectors: nat
    var sectorsPerTrack: nat
    var nbSides: nat
    var writeProtected: bool
    /** The mapping from (track, side, sector) to a logical sector number. */
    const physToLog: (byte, byte, byte) -> nat

    /** The write-track accumulator. */
    const writeTrackBuf: array<byte>
    var writeTrackBufCur: nat
    var writeTrackTrack: byte
    var writeTrackSide: byte
    var writeTrackSector: byte
    var writeTrackCRCcount: nat

    ghost predicate Valid()
      reads this
    {
      writeTrackBuf.Length == RING_SIZE && writeTrackBufCur < RING_SIZE
    }

    /** The write-track accumulator as a value. */
    ghost function Writer(): (w: TrackWriter)
      requires Valid()
      reads this, writeTrackBuf
      ensures WellFormed(w)
    {
      TrackWriter(writeTrackBuf[..], writeTrackBufCur, writeTrackCRCcount,
                  writeTrackTrack, writeTrackSide, writeTrackSector)
    }

    /** A disk over `image` with `nbSectors` sectors and the empty patch;
        the geometry and the sector count are set by the concrete kind of
        disk. */
    constructor (image: seq<byte>, nbSectors: nat, geometry: Geometry, writeProtected: bool,
                 physToLog: (byte, byte, byte) -> nat)
      ensures Valid() && fresh(writeTrackBuf)
      ensures this.image == image && this.patch == EmptyPatch && this.nbSectors == nbSectors
      ensures this.sectorsPerTrack == geometry.sectorsPerTrack && this.nbSides == geometry.nbSides
      ensures this.writeProtected == writeProtected && this.physToLog == physToLog
      ensures writeTrackBuf[..] == Repeat(0, RING_SIZE)
      ensures writeTrackBufCur == 0 && writeTrackCRCcount == 0 && writeTrackSector == 1
      ensures writeTrackTrack == 0 && writeTrackSide == 0
    {
      this.image := image;
      this.patch := EmptyPatch;
      this.nbSectors := nbSectors;
      this.sectorsPerTrack := geometry.sectorsPerTrack;
      this.nbSides := geometry.nbSides;
      this.writeProtected := writeProtected;
      this.physToLog := physToLog;
      writeTrackBuf := new byte[RING_SIZE](_ => 0);
      writeTrackBufCur := 0;
      writeTrackTrack := 0;
      writeTrackSide := 0;
      writeTrackSector := 1;
      writeTrackCRCcount := 0;
    }

    method ReadSector(sector: nat) returns (r: Result<seq<byte>>)
      ensures r == SectorRead(patch, image, nbSectors, sector)
    {
      if sector >= nbSectors {
        return Err(NoSuchSector);
      }
      var block := CopyBlock(patch, image, sector * SECTOR_SIZE, SECTOR_SIZE);
      if block.None? {
        return Err(DiskIOError);
      }
      return Ok(block.value);
    }

    /** `read(track, sector, side, size, buf)`: the logical sector the
        physical address maps to. */
    method Read(track: byte, sector: byte, side: byte, size: nat) returns (r: Result<seq<byte>>)
      requires size == SECTOR_SIZE
      ensures r == SectorRead(patch, image, nbSectors, physToLog(track, side, sector))
    {
      r := ReadSector(physToLog(track, side, sector));
    }

    method WriteSector(sector: nat, buf: seq<byte>) returns (r: Outcome)
      requires |buf| == SECTOR_SIZE
      modifies this`image
      ensures WriteResult(r, image) == SectorWriteEffect(old(image), writeProtected, nbSectors, sector, buf)
    {
      if writeProtected {
        return Fail(WriteProtected);
      }
      if sector >= nbSectors {
        return Fail(NoSuchSector);
      }
      var stored := StoreSector(image, sector, buf);
      if stored.None? {
        return Fail(DiskIOError);
      }
      image := stored.value;
      return Pass;
    }

    /** `write(track, sector, side, size, buf)`: the logical sector the
        physical address maps to. */
    method Write(track: byte, sector: byte, side: byte, size: nat, buf: seq<byte>) returns (r: Outcome)
      requires size == SECTOR_SIZE && |buf| == SECTOR_SIZE
      modifies this`image
      ensures WriteResult(r, image)
              == SectorWriteEffect(old(image), writeProtected, nbSectors, physToLog(track, side, sector), buf)
    {
      r := WriteSector(physToLog(track, side, sector), buf);
    }

    /** `applyPatch(file)`: the new patch wraps the current head. */
    method ApplyPatch(diff: map<nat, byte>)
      modifies this`patch
      ensures patch == Overlay(diff, old(patch))
    {
      patch := Overlay(diff, patch);
    }

    method InitWriteTrack(track: byte, side: byte) returns (r: Outcome)
      requires Valid()
      modifies this`writeTrackBufCur, this`writeTrackTrack, this`writeTrackSide,
               this`writeTrackSector, this`writeTrackCRCcount
      ensures Valid()
      ensures writeProtected ==> r == Fail(WriteProtected) && Writer() == old(Writer())
      ensures !writeProtected ==> r == Pass && Writer() == Start(old(writeTrackBuf[..]), track, side)
    {
      if writeProtected {
        return Fail(WriteProtected);
      }
      writeTrackBufCur := 0;
      writeTrackTrack := track;
      writeTrackSide := side;
      writeTrackSector := 1;
      writeTrackCRCcount := 0;
      r := Pass;
    }

    /** `writeTrackData(data)`: one step of the decoder.  When the step
        closes a data field, the 512 bytes of the ring are written as the
        current sector; if that write fails its error is reported and the
        counters stay where they were. */
    method WriteTrackData(data: byte) returns (r: Outcome)
      requires Valid()
      modifies this`image, this`writeTrackBufCur, this`writeTrackSector, this`writeTrackCRCcount,
               writeTrackBuf
      ensures Valid()
      ensures writeProtected ==>
                r == Fail(WriteProtected) && Writer() == old(Writer()) && image == old(image)
      ensures !writeProtected && Feed(old(Writer()), data).1.None? ==>
                r == Pass && Writer() == Feed(old(Writer()), data).0 && image == old(image)
      ensures !writeProtected && Feed(old(Writer()), data).1.Some? ==>
                var c := Feed(old(Writer()), data).1.value;
                var effect := SectorWriteEffect(old(image), writeProtected, nbSectors,
                                                physToLog(c.track, c.side, c.sector), c.data);
                && r == effect.outcome && image == effect.image
                && Writer() == (if r == Pass then Feed(old(Writer()), data).0 else old(Writer()))
    {
      if writeProtected {
        return Fail(WriteProtected);
      }
      if data == CRC_MARK {
        if writeTrackCRCcount % 2 == 1 {
          var temp := new byte[SECTOR_SIZE];
          for i := 0 to SECTOR_SIZE
            modifies temp
            invariant forall k :: 0 <= k < i ==> temp[k] == writeTrackBuf[(writeTrackBufCur + k) % RING_SIZE]
          {
            temp[i] := writeTrackBuf[(writeTrackBufCur + i) % RING_SIZE];
          }
          assert temp[..] == Window(Writer());
          r := Write(writeTrackTrack, writeTrackSector, writeTrackSide, SECTOR_SIZE, temp[..]);
          if r.Fail? {
            return;
          }
          writeTrackSector := NextSector(writeTrackSector);
        }
        writeTrackCRCcount := writeTrackCRCcount + 1;
      } else {
        writeTrackBuf[writeTrackBufCur] := data;
        writeTrackBufCur := (writeTrackBufCur + 1) % RING_SIZE;
      }
      r := Pass;
    }

    /** `readTrackData(track, side, output)`: the raw track built from
        sectors 1 to 9 of the physical track, or the error of the first
        sector that cannot be read. */
    method ReadTrackData(track: byte, side: byte, output: array<byte>) returns (r: Outcome)
      requires output.Length == RAWTRACK_SIZE
      modifies output
      ensures var t := TrackSectors(patch, image, nbSectors, physToLog, track, side, SECTORS_PER_TRACK);
        && (t.Err? ==> r == Fail(t.error))
        && (t.Ok? ==> r == Pass && output[..] == Track(track, side, t.value))
    {
      var out := PutPreGap(output);
      ghost var blocks: seq<seq<byte>> := [];
      for j := 0 to SECTORS_PER_TRACK
        invariant out == PREGAP_SIZE + RECORD_SIZE * j
        invariant TrackSectors(patch, image, nbSectors, physToLog, track, side, j) == Ok(blocks)
        invariant |blocks| == j && AllSectors(blocks)
        invariant output[..out] == PreGap() + Records(track, side, blocks)
      {
        ghost var before := output[..out];
        out := PutSectorHeader(output, out, track, side, (j + 1) as byte);
        var data := Read(track, (j + 1) as byte, side, SECTOR_SIZE);
        assert data == TrackSector(patch, image, nbSectors, physToLog, track, side, j);
        TrackSectorsNext(patch, image, nbSectors, physToLog, track, side, j, blocks);
        if data.Err? {
          TrackSectorsErrorStays(patch, image, nbSectors, physToLog, track, side, j + 1, SECTORS_PER_TRACK);
          return Fail(data.error);
        }
        out := CopyIn(output, out, data.value);
        out := PutSectorTail(output, out);
        RecordAppended(track, side, blocks, data.value, before, output[..out]);
        blocks := blocks + [data.value];
      }
      out := Fill(output, out, END_GAP_SIZE, 0x4E);
      assert output[..] == output[..out];
      r := Pass;
    }

    function Ready(): (r: bool)
      ensures r
    {
      true
    }

    function DoubleSided(): (r: bool)
      reads this
      ensures r <==> nbSides == 2
    {
      nbSides == 2
    }

    function GetNbSectors(): (r: nat)
      reads this
      ensures r == nbSectors
    {
      nbSectors
    }

    /** `detectGeometry()`: a 720 kB image is taken as 9 sectors per track
        on two sides whatever its boot sector says; any other size gets
        the geometry of the generic detection, passed in as `generic`. */
    method DetectGeometry(generic: Geometry)
      modifies this`sectorsPerTrack, this`nbSides
      ensures nbSectors == SECTORS_720K ==> sectorsPerTrack == 9 && nbSides == 2
      ensures nbSectors != SECTORS_720K ==>
                sectorsPerTrack == generic.sectorsPerTrack && nbSides == generic.nbSides
    {
      if nbSectors == SECTORS_720K {
        sectorsPerTrack := 9;
        nbSides := 2;
      } else {
        sectorsPerTrack := generic.sectorsPerTrack;
        nbSides := generic.nbSides;
      }
    }
  }
}
