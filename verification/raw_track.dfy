/** The raw byte stream a controller sees when it reads a whole track of a
    sector-based disk (`readTrackData`): a pre-gap, nine sector records and
    an end-of-track gap, following the IBM track layout of the TC8566AF
    manual.  CRC fields are zero placeholders and no data address mark is
    emitted before the sector data. */
module RawTrack {
  import opened DiskTypes

  const PREGAP_SIZE: nat := 146
  const RECORD_SIZE: nat := 628
  const SECTORS_PER_TRACK: nat := 9
  const END_GAP_SIZE: nat := 1052
  /** The length of a raw track: 146 + 9 * 628 + 1052. */
  const RAWTRACK_SIZE: nat := 6850

  /** Offsets inside one sector record. */
  const ID_OFFSET: nat := 16
  const DATA_OFFSET: nat := 56
  const DATA_CRC_OFFSET: nat := 568
  const SECTOR_GAP_OFFSET: nat := 570

  /** The track header: 80 x 4E, 12 x 00, 3 x C2, 1 x FC, 50 x 4E. */
  function PreGap(): (r: seq<byte>)
    ensures |r| == PREGAP_SIZE
  {
    Repeat(0x4E, 80) + Repeat(0x00, 12) + Repeat(0xC2, 3) + Repeat(0xFC, 1) + Repeat(0x4E, 50)
  }

  /** The sync bytes and the ID address mark that open a sector record. */
  function IdMark(): (r: seq<byte>)
    ensures |r| == ID_OFFSET
  {
    Repeat(0x00, 12) + Repeat(0xA1, 3) + Repeat(0xFE, 1)
  }

  /** The ID field: cylinder, head, record, size code 2 (512 bytes), and
      a CRC left at zero. */
  function IdField(track: byte, side: byte, record: byte): (r: seq<byte>)
    ensures |r| == 6
  {
    [track] + [side] + [record] + [0x02] + [0x00] + [0x00]
  }

  /** Gap 2 and the sync bytes before the data field. */
  function Gap2(): (r: seq<byte>)
    ensures |r| == DATA_OFFSET - ID_OFFSET - 6
  {
    Repeat(0x4E, 22) + Repeat(0x00, 12)
  }

  /** What precedes a sector's data. */
  function SectorHeader(track: byte, side: byte, record: byte): (r: seq<byte>)
    ensures |r| == DATA_OFFSET
  {
    IdMark() + IdField(track, side, record) + Gap2()
  }

  /** What follows a sector's data: a zero CRC and the end-of-sector gap. */
  function SectorTail(): (r: seq<byte>)
    ensures |r| == RECORD_SIZE - DATA_CRC_OFFSET
  {
    [0x00] + [0x00] + Repeat(0x4E, 58)
  }

  /** The bytes emitted for one sector. */
  function SectorRecord(track: byte, side: byte, record: byte, data: seq<byte>): (r: seq<byte>)
    requires |data| == SECTOR_SIZE
    ensures |r| == RECORD_SIZE
  {
    SectorHeader(track, side, record) + data + SectorTail()
  }

  predicate AllSectors(blocks: seq<seq<byte>>)
  {
    forall k :: 0 <= k < |blocks| ==> |blocks[k]| == SECTOR_SIZE
  }

  /** The records of the first |blocks| sectors, numbered from 1. */
  function Records(track: byte, side: byte, blocks: seq<seq<byte>>): (r: seq<byte>)
    requires |blocks| <= SECTORS_PER_TRACK && AllSectors(blocks)
    ensures |r| == RECORD_SIZE * |blocks|
    decreases |blocks|
  {
    if blocks == [] then []
    else
      var n := |blocks|;
      Records(track, side, blocks[..n - 1]) + SectorRecord(track, side, n as byte, blocks[n - 1])
  }

  /** The whole raw track built from the contents of its nine sectors. */
  function Track(track: byte, side: byte, blocks: seq<seq<byte>>): (r: seq<byte>)
    requires |blocks| == SECTORS_PER_TRACK && AllSectors(blocks)
    ensures |r| == RAWTRACK_SIZE
  {
    PreGap() + Records(track, side, blocks) + Repeat(0x4E, END_GAP_SIZE)
  }

  /** The field layout of one sector record. */
  lemma SectorRecordLayout(track: byte, side: byte, record: byte, data: seq<byte>)
    requires |data| == SECTOR_SIZE
    ensures var r := SectorRecord(track, side, record, data);
      && (forall i :: 0 <= i < 12 ==> r[i] == 0x00)
      && (forall i :: 12 <= i < 15 ==> r[i] == 0xA1)
      && r[15] == 0xFE
      && r[ID_OFFSET .. ID_OFFSET + 4] == [track, side, record, 0x02]
      && r[20] == 0x00 && r[21] == 0x00
      && (forall i :: 22 <= i < 44 ==> r[i] == 0x4E)
      && (forall i :: 44 <= i < DATA_OFFSET ==> r[i] == 0x00)
      && r[DATA_OFFSET .. DATA_CRC_OFFSET] == data
      && r[DATA_CRC_OFFSET] == 0x00 && r[DATA_CRC_OFFSET + 1] == 0x00
      && (forall i :: SECTOR_GAP_OFFSET <= i < RECORD_SIZE ==> r[i] == 0x4E)
  {
    var r := SectorRecord(track, side, record, data);
    var head := SectorHeader(track, side, record);
    assert r[..DATA_OFFSET] == head;
    assert r[DATA_OFFSET .. DATA_CRC_OFFSET] == data;
    assert r[DATA_CRC_OFFSET..] == SectorTail();
    assert r[ID_OFFSET .. ID_OFFSET + 4] == head[ID_OFFSET .. ID_OFFSET + 4];
    assert head[..ID_OFFSET] == IdMark();
    assert head[ID_OFFSET .. ID_OFFSET + 6] == IdField(track, side, record);
    assert head[ID_OFFSET + 6 ..] == Gap2();
  }

  /** Record k (0-based) of the sector records sits at offset 628 * k and
      carries sector number k + 1 and the k-th sector's data. */
  lemma {:induction false} RecordAt(track: byte, side: byte, blocks: seq<seq<byte>>, k: nat)
    requires |blocks| <= SECTORS_PER_TRACK && AllSectors(blocks)
    requires k < |blocks|
    ensures Records(track, side, blocks)[RECORD_SIZE * k .. RECORD_SIZE * (k + 1)]
            == SectorRecord(track, side, (k + 1) as byte, blocks[k])
    decreases |blocks|
  {
    var n := |blocks|;
    var prefix := blocks[..n - 1];
    assert Records(track, side, blocks)
           == Records(track, side, prefix) + SectorRecord(track, side, n as byte, blocks[n - 1]);
    if k < n - 1 {
      RecordAt(track, side, prefix, k);
      assert prefix[k] == blocks[k];
    }
  }

  /** Record k of a raw track sits at offset 146 + 628 * k. */
  lemma TrackRecord(track: byte, side: byte, blocks: seq<seq<byte>>, k: nat)
    requires |blocks| == SECTORS_PER_TRACK && AllSectors(blocks)
    requires k < SECTORS_PER_TRACK
    ensures var at := PREGAP_SIZE + RECORD_SIZE * k;
      Track(track, side, blocks)[at .. at + RECORD_SIZE] == SectorRecord(track, side, (k + 1) as byte, blocks[k])
  {
    var t := Track(track, side, blocks);
    var recs := Records(track, side, blocks);
    var at := PREGAP_SIZE + RECORD_SIZE * k;
    RecordAt(track, side, blocks, k);
    assert t == PreGap() + recs + Repeat(0x4E, END_GAP_SIZE);
    assert t[PREGAP_SIZE .. PREGAP_SIZE + |recs|] == recs;
    assert t[at .. at + RECORD_SIZE] == recs[RECORD_SIZE * k .. RECORD_SIZE * (k + 1)];
  }

  /** The raw track opens with the pre-gap and closes with the 4E end gap. */
  lemma TrackEnds(track: byte, side: byte, blocks: seq<seq<byte>>)
    requires |blocks| == SECTORS_PER_TRACK && AllSectors(blocks)
    ensures Track(track, side, blocks)[..PREGAP_SIZE] == PreGap()
    ensures forall i :: PREGAP_SIZE + RECORD_SIZE * SECTORS_PER_TRACK <= i < RAWTRACK_SIZE ==>
              Track(track, side, blocks)[i] == 0x4E
  {
    var t := Track(track, side, blocks);
    var recs := Records(track, side, blocks);
    assert t == PreGap() + recs + Repeat(0x4E, END_GAP_SIZE);
  }

  /** The layout of a raw track: the pre-gap, then for every sector k its
      ID field (track, side, k + 1, 2), zero CRCs, its data at record offset
      56 and the 4E gap, then the end-of-track gap. */
  lemma TrackLayout(track: byte, side: byte, blocks: seq<seq<byte>>, k: nat)
    requires |blocks| == SECTORS_PER_TRACK && AllSectors(blocks)
    requires k < SECTORS_PER_TRACK
    ensures var t := Track(track, side, blocks);
      var at := PREGAP_SIZE + RECORD_SIZE * k;
      && t[..PREGAP_SIZE] == PreGap()
      && t[at + ID_OFFSET .. at + ID_OFFSET + 4] == [track, side, (k + 1) as byte, 0x02]
      && t[at + 20] == 0x00 && t[at + 21] == 0x00
      && t[at + DATA_OFFSET .. at + DATA_CRC_OFFSET] == blocks[k]
      && t[at + DATA_CRC_OFFSET] == 0x00 && t[at + DATA_CRC_OFFSET + 1] == 0x00
      && (forall i :: at + SECTOR_GAP_OFFSET <= i < at + RECORD_SIZE ==> t[i] == 0x4E)
      && (forall i :: PREGAP_SIZE + RECORD_SIZE * SECTORS_PER_TRACK <= i < RAWTRACK_SIZE ==> t[i] == 0x4E)
  {
    var t := Track(track, side, blocks);
    var at := PREGAP_SIZE + RECORD_SIZE * k;
    var rec := t[at .. at + RECORD_SIZE];
    TrackEnds(track, side, blocks);
    TrackRecord(track, side, blocks, k);
    SectorRecordLayout(track, side, (k + 1) as byte, blocks[k]);
    assert t[at + ID_OFFSET .. at + ID_OFFSET + 4] == rec[ID_OFFSET .. ID_OFFSET + 4];
    assert t[at + DATA_OFFSET .. at + DATA_CRC_OFFSET] == rec[DATA_OFFSET .. DATA_CRC_OFFSET];
    assert t[at + 20] == rec[20] && t[at + 21] == rec[21];
    assert t[at + DATA_CRC_OFFSET] == rec[DATA_CRC_OFFSET];
    assert t[at + DATA_CRC_OFFSET + 1] == rec[DATA_CRC_OFFSET + 1];
    forall i | at + SECTOR_GAP_OFFSET <= i < at + RECORD_SIZE
      ensures t[i] == 0x4E
    {
      assert t[i] == rec[i - at];
    }
  }
}
