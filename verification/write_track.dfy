/** The write-track decoder of a sector-based disk (`initWriteTrack`,
    `writeTrackData`) as a transition function on its accumulator.

    Every byte other than the CRC marker F7 goes into a 512-byte ring
    buffer.  Every F7 bumps a counter; an F7 that arrives while the counter
    is odd closes a data field, and the 512 bytes of the ring buffer,
    oldest first, are written as the next sector of the track. */
module WriteTrack {
  import opened DiskTypes

  /** The byte a controller writes to emit the two CRC bytes of a field. */
  const CRC_MARK: byte := 0xF7
  const RING_SIZE: nat := 512

  /** The accumulator fields of the disk: `writeTrackBuf`,
      `writeTrackBufCur`, `writeTrack_CRCcount`, `writeTrack_track`,
      `writeTrack_side` and `writeTrack_sector`. */
  datatype TrackWriter = TrackWriter(
    ring: seq<byte>, cur: nat, crcCount: nat, track: byte, side: byte, sector: byte)

  predicate WellFormed(w: TrackWriter)
  {
    |w.ring| == RING_SIZE && w.cur < RING_SIZE
  }

  /** A sector write the decoder asks for: `write(track, sector, side, 512, data)`. */
  datatype SectorWrite = SectorWrite(track: byte, sector: byte, side: byte, data: seq<byte>)

  /** The sector counter is a byte: it wraps from 255 to 0. */
  function NextSector(s: byte): (r: byte)
    ensures r as int == (s as int + 1) % 256
  {
    if s == 255 then 0 else s + 1
  }

  /** The ring buffer read from the cursor on, wrapping at 512: the 512
      bytes most recently stored, oldest first. */
  function Window(w: TrackWriter): (r: seq<byte>)
    requires WellFormed(w)
    ensures |r| == RING_SIZE
  {
    seq(RING_SIZE, i requires 0 <= i < RING_SIZE => w.ring[(w.cur + i) % RING_SIZE])
  }

  /** Storing a byte at the cursor and advancing the cursor drops the oldest
      byte of the window and appends the new one. */
  lemma RingPush(w: TrackWriter, b: byte)
    requires WellFormed(w)
    ensures var w' := w.(ring := w.ring[w.cur := b], cur := (w.cur + 1) % RING_SIZE);
      WellFormed(w') && Window(w') == Window(w)[1..] + [b]
  {
    var w' := w.(ring := w.ring[w.cur := b], cur := (w.cur + 1) % RING_SIZE);
    var lhs := Window(w');
    var rhs := Window(w)[1..] + [b];
    forall i | 0 <= i < RING_SIZE
      ensures lhs[i] == rhs[i]
    {
      var j := (w'.cur + i) % RING_SIZE;
      if i < RING_SIZE - 1 {
        assert j == (w.cur + (i + 1)) % RING_SIZE;
        assert j != w.cur;
      } else {
        assert j == w.cur;
      }
    }
    assert lhs == rhs;
  }

  /** The accumulator `initWriteTrack(track, side)` leaves: cursor 0, no CRC
      marker seen, next sector 1; the ring buffer keeps its old bytes. */
  function Start(ring: seq<byte>, track: byte, side: byte): (w: TrackWriter)
    requires |ring| == RING_SIZE
    ensures WellFormed(w) && Window(w) == ring
    ensures w.cur == 0 && w.crcCount == 0 && w.sector == 1
    ensures w.track == track && w.side == side
  {
    TrackWriter(ring, 0, 0, track, side, 1)
  }

  /** One byte of `writeTrackData`, assuming the sector write it may ask
      for succeeds: the new accumulator and that write, if any. */
  function Feed(w: TrackWriter, b: byte): (r: (TrackWriter, Option<SectorWrite>))
    requires WellFormed(w)
    ensures WellFormed(r.0)
    ensures r.0.track == w.track && r.0.side == w.side
    ensures b != CRC_MARK ==>
              && r.1 == None
              && r.0.crcCount == w.crcCount && r.0.sector == w.sector
    ensures b == CRC_MARK ==>
              && r.0.ring == w.ring && r.0.cur == w.cur
              && r.0.crcCount == w.crcCount + 1
              && (r.1.Some? <==> w.crcCount % 2 == 1)
              && (r.1.None? ==> r.0.sector == w.sector)
    ensures r.1.Some? ==>
              && r.1.value == SectorWrite(w.track, w.sector, w.side, Window(w))
              && r.0.sector == NextSector(w.sector)
  {
    if b == CRC_MARK then
      if w.crcCount % 2 == 1 then
        (w.(crcCount := w.crcCount + 1, sector := NextSector(w.sector)),
         Some(SectorWrite(w.track, w.sector, w.side, Window(w))))
      else
        (w.(crcCount := w.crcCount + 1), None)
    else
      (w.(ring := w.ring[w.cur := b], cur := (w.cur + 1) % RING_SIZE), None)
  }

  /** A byte other than F7 joins the window, whose oldest byte drops out. */
  lemma FeedWindow(w: TrackWriter, b: byte)
    requires WellFormed(w) && b != CRC_MARK
    ensures Window(Feed(w, b).0) == Window(w)[1..] + [b]
  {
    RingPush(w, b);
  }

  /** A byte stream fed one byte at a time: the final accumulator and the
      sector writes asked for, in order. */
  function FeedAll(w: TrackWriter, s: seq<byte>): (r: (TrackWriter, seq<SectorWrite>))
    requires WellFormed(w)
    ensures WellFormed(r.0)
    decreases |s|
  {
    if s == [] then (w, [])
    else
      var step := Feed(w, s[0]);
      var rest := FeedAll(step.0, s[1..]);
      (rest.0, (if step.1.Some? then [step.1.value] else []) + rest.1)
  }

  predicate NoMark(s: seq<byte>)
  {
    forall i :: 0 <= i < |s| ==> s[i] != CRC_MARK
  }

  /** Feeding two streams one after the other is feeding their
      concatenation. */
  lemma {:induction false} FeedAllAppend(w: TrackWriter, s: seq<byte>, t: seq<byte>)
    requires WellFormed(w)
    ensures var a := FeedAll(w, s);
      var b := FeedAll(a.0, t);
      FeedAll(w, s + t) == (b.0, a.1 + b.1)
    decreases |s|
  {
    if s == [] {
      assert s + t == t;
      assert FeedAll(w, s) == (w, []);
      assert [] + FeedAll(w, t).1 == FeedAll(w, t).1;
    } else {
      var step := Feed(w, s[0]);
      var first: seq<SectorWrite> := if step.1.Some? then [step.1.value] else [];
      assert (s + t)[0] == s[0];
      assert (s + t)[1..] == s[1..] + t;
      var rest := FeedAll(step.0, s[1..]);
      assert FeedAll(w, s) == (rest.0, first + rest.1);
      var b := FeedAll(rest.0, t);
      FeedAllAppend(step.0, s[1..], t);
      assert FeedAll(step.0, s[1..] + t) == (b.0, rest.1 + b.1);
      assert FeedAll(w, s + t) == (b.0, first + (rest.1 + b.1));
      assert first + (rest.1 + b.1) == (first + rest.1) + b.1;
    }
  }

  /** Feeding a one-byte stream is one step of the decoder. */
  lemma FeedSingle(w: TrackWriter, b: byte)
    requires WellFormed(w)
    ensures var step := Feed(w, b);
      FeedAll(w, [b]) == (step.0, if step.1.Some? then [step.1.value] else [])
  {
    var step := Feed(w, b);
    assert [b][1..] == [];
    assert FeedAll(step.0, []) == (step.0, []);
    var first: seq<SectorWrite> := if step.1.Some? then [step.1.value] else [];
    assert first + [] == first;
  }

  /** A stream without CRC markers asks for no write, keeps the counters
      and leaves in the ring the last 512 bytes of old window plus stream. */
  lemma {:induction false} FeedPlain(w: TrackWriter, s: seq<byte>)
    requires WellFormed(w) && NoMark(s)
    ensures var r := FeedAll(w, s);
      && r.1 == []
      && r.0.crcCount == w.crcCount && r.0.sector == w.sector
      && r.0.track == w.track && r.0.side == w.side
      && Window(r.0) == (Window(w) + s)[|s|..]
    decreases |s|
  {
    if s == [] {
      assert Window(w) + s == Window(w);
    } else {
      var w1 := Feed(w, s[0]).0;
      FeedWindow(w, s[0]);
      FeedPlain(w1, s[1..]);
      calc {
        (Window(w1) + s[1..])[|s| - 1..];
        { assert Window(w1) + s[1..] == (Window(w) + s)[1..]; }
        (Window(w) + s)[1..][|s| - 1..];
        (Window(w) + s)[|s|..];
      }
    }
  }

  /** The last 512 bytes of a field at least that long. */
  function LastSector(body: seq<byte>): (r: seq<byte>)
    requires |body| >= SECTOR_SIZE
    ensures |r| == SECTOR_SIZE && r == body[|body| - SECTOR_SIZE..]
  {
    body[|body| - SECTOR_SIZE..]
  }

  /** One sector as a controller writes it on a track: the ID field closed
      by one F7, then the data field closed by one F7, then a gap.  Only the
      two markers are F7 bytes. */
  datatype FormatRecord = FormatRecord(id: seq<byte>, body: seq<byte>, gap: seq<byte>)

  predicate ValidRecord(rec: FormatRecord)
  {
    NoMark(rec.id) && NoMark(rec.body) && NoMark(rec.gap) && |rec.body| >= SECTOR_SIZE
  }

  predicate ValidRecords(recs: seq<FormatRecord>)
  {
    forall k {:trigger recs[k]} :: 0 <= k < |recs| ==> ValidRecord(recs[k])
  }

  function RecordStream(rec: FormatRecord): seq<byte>
  {
    rec.id + [CRC_MARK] + rec.body + [CRC_MARK] + rec.gap
  }

  /** A marker-free run then one marker: the run joins the window, and the
      marker commits the window iff the marker count was odd. */
  lemma PlainThenMarker(w: TrackWriter, s: seq<byte>)
    requires WellFormed(w) && NoMark(s)
    ensures var r := FeedAll(w, s + [CRC_MARK]);
      && r.0.crcCount == w.crcCount + 1
      && r.0.track == w.track && r.0.side == w.side
      && (w.crcCount % 2 == 0 ==> r.1 == [] && r.0.sector == w.sector)
      && (w.crcCount % 2 == 1 ==>
            && r.1 == [SectorWrite(w.track, w.sector, w.side, (Window(w) + s)[|s|..])]
            && r.0.sector == NextSector(w.sector))
      && Window(r.0) == (Window(w) + s)[|s|..]
  {
    var a := FeedAll(w, s);
    FeedPlain(w, s);
    FeedMarkerAfter(w, s);
    var step := Feed(a.0, CRC_MARK);
    assert Window(step.0) == Window(a.0) by {
      assert step.0.ring == a.0.ring && step.0.cur == a.0.cur;
    }
  }

  /** The window after a run of at least 512 bytes is the run's last 512
      bytes. */
  lemma LongRunFillsWindow(window: seq<byte>, s: seq<byte>)
    requires |window| == RING_SIZE && |s| >= SECTOR_SIZE
    ensures (window + s)[|s|..] == LastSector(s)
  {
    var lhs := (window + s)[|s|..];
    forall i | 0 <= i < SECTOR_SIZE ensures lhs[i] == LastSector(s)[i] {
      assert lhs[i] == (window + s)[|s| + i];
    }
  }

  /** The parity of the marker count flips with every marker. */
  lemma ParityStep(c: nat, d: nat)
    requires d == c + 1 || d == c + 2
    ensures d == c + 1 && c % 2 == 0 ==> d % 2 == 1
    ensures d == c + 2 ==> d % 2 == c % 2
  {
  }

  /** With an even count, a marker closes a header CRC: nothing is
      committed. */
  lemma HeaderMarker(w: TrackWriter, s: seq<byte>)
    requires WellFormed(w) && w.crcCount % 2 == 0 && NoMark(s)
    ensures var r := FeedAll(w, s + [CRC_MARK]);
      && r.1 == [] && r.0.crcCount == w.crcCount + 1 && r.0.sector == w.sector
      && r.0.track == w.track && r.0.side == w.side
      && Window(r.0) == (Window(w) + s)[|s|..]
  {
    PlainThenMarker(w, s);
  }

  /** With an odd count, a marker closes a data CRC: the window is
      committed to the current sector, which advances. */
  lemma DataMarker(w: TrackWriter, s: seq<byte>)
    requires WellFormed(w) && w.crcCount % 2 == 1 && NoMark(s)
    ensures var r := FeedAll(w, s + [CRC_MARK]);
      && r.1 == [SectorWrite(w.track, w.sector, w.side, (Window(w) + s)[|s|..])]
      && r.0.crcCount == w.crcCount + 1 && r.0.sector == NextSector(w.sector)
      && r.0.track == w.track && r.0.side == w.side
  {
    PlainThenMarker(w, s);
  }

  /** With an even marker count, a record's ID marker commits nothing and its
      data marker commits the last 512 bytes of the data field to the
      current sector, which then advances. */
  lemma FeedRecord(w: TrackWriter, rec: FormatRecord)
    requires WellFormed(w) && w.crcCount % 2 == 0 && ValidRecord(rec)
    ensures var r := FeedAll(w, RecordStream(rec));
      && r.1 == [SectorWrite(w.track, w.sector, w.side, LastSector(rec.body))]
      && r.0.crcCount == w.crcCount + 2 && r.0.crcCount % 2 == 0
      && r.0.sector == NextSector(w.sector)
      && r.0.track == w.track && r.0.side == w.side
  {
    var x1 := rec.id + [CRC_MARK];
    var x2 := rec.body + [CRC_MARK];
    var a := FeedAll(w, x1);
    HeaderMarker(w, rec.id);
    ParityStep(w.crcCount, a.0.crcCount);
    var b := FeedAll(a.0, x2);
    DataMarker(a.0, rec.body);
    LongRunFillsWindow(Window(a.0), rec.body);
    var c := FeedAll(b.0, rec.gap);
    FeedPlain(b.0, rec.gap);
    ParityStep(w.crcCount, c.0.crcCount);
    assert FeedAll(w, RecordStream(rec)) == (c.0, a.1 + b.1 + c.1) by {
      FeedAllAppend(w, x1, x2);
      FeedAllAppend(w, x1 + x2, rec.gap);
      assert RecordStream(rec) == x1 + x2 + rec.gap;
    }
  }

  /** The stream of a sequence of records. */
  function TrackStream(recs: seq<FormatRecord>): seq<byte>
    decreases |recs|
  {
    if recs == [] then [] else TrackStream(recs[..|recs| - 1]) + RecordStream(recs[|recs| - 1])
  }

  /** The writes a sequence of well-formed records asks for: record k's data
      goes to sector `first + k` of the track. */
  function ExpectedWrites(track: byte, side: byte, first: byte, recs: seq<FormatRecord>): (r: seq<SectorWrite>)
    requires first as int + |recs| <= 256
    requires ValidRecords(recs)
    ensures |r| == |recs|
  {
    seq(|recs|, k requires 0 <= k < |recs| && |recs[k].body| >= SECTOR_SIZE =>
      SectorWrite(track, (first as int + k) as byte, side, LastSector(recs[k].body)))
  }

  /** Decoding a whole formatted track: after a marker-free pre-gap, record
      k commits the last 512 bytes of its data field to sector `first + k`,
      and nothing else is written. */
  lemma {:induction false} FeedTrack(w: TrackWriter, pre: seq<byte>, recs: seq<FormatRecord>)
    requires WellFormed(w) && w.crcCount % 2 == 0 && NoMark(pre)
    requires w.sector as int + |recs| <= 255
    requires ValidRecords(recs)
    ensures var r := FeedAll(w, pre + TrackStream(recs));
      && r.1 == ExpectedWrites(w.track, w.side, w.sector, recs)
      && r.0.crcCount == w.crcCount + 2 * |recs| && r.0.crcCount % 2 == 0
      && r.0.sector as int == w.sector as int + |recs|
      && r.0.track == w.track && r.0.side == w.side
    decreases |recs|
  {
    if recs == [] {
      FeedPlain(w, pre);
      assert pre + TrackStream(recs) == pre;
    } else {
      var prefix := recs[..|recs| - 1];
      assert ValidRecords(prefix) by {
        forall k | 0 <= k < |prefix| ensures ValidRecord(prefix[k]) {
          assert prefix[k] == recs[k];
        }
      }
      FeedTrack(w, pre, prefix);
      FeedTrackStep(w, pre, recs);
    }
  }

  /** The inductive step of `FeedTrack`: one more record after a decoded
      prefix of records. */
  lemma FeedTrackStep(w: TrackWriter, pre: seq<byte>, recs: seq<FormatRecord>)
    requires WellFormed(w) && |recs| > 0
    requires w.sector as int + |recs| <= 255
    requires ValidRecords(recs) && ValidRecords(recs[..|recs| - 1])
    requires var a := FeedAll(w, pre + TrackStream(recs[..|recs| - 1]));
      && a.1 == ExpectedWrites(w.track, w.side, w.sector, recs[..|recs| - 1])
      && a.0.crcCount == w.crcCount + 2 * (|recs| - 1) && a.0.crcCount % 2 == 0
      && a.0.sector as int == w.sector as int + |recs| - 1
      && a.0.track == w.track && a.0.side == w.side
    ensures var r := FeedAll(w, pre + TrackStream(recs));
      && r.1 == ExpectedWrites(w.track, w.side, w.sector, recs)
      && r.0.crcCount == w.crcCount + 2 * |recs| && r.0.crcCount % 2 == 0
      && r.0.sector as int == w.sector as int + |recs|
      && r.0.track == w.track && r.0.side == w.side
  {
    var n := |recs|;
    var s := pre + TrackStream(recs[..n - 1]);
    var a := FeedAll(w, s);
    FeedRecord(a.0, recs[n - 1]);
    FeedAllAppend(w, s, RecordStream(recs[n - 1]));
    assert pre + TrackStream(recs) == s + RecordStream(recs[n - 1]);
    ExpectedWritesSnoc(w.track, w.side, w.sector, recs);
  }

  /** The expected writes of n records are those of the first n - 1 and
      then the write of the last one. */
  lemma ExpectedWritesSnoc(track: byte, side: byte, first: byte, recs: seq<FormatRecord>)
    requires first as int + |recs| <= 256 && |recs| > 0
    requires ValidRecords(recs)
    ensures var n := |recs|;
      ValidRecords(recs[..n - 1])
      && ExpectedWrites(track, side, first, recs)
         == ExpectedWrites(track, side, first, recs[..n - 1])
            + [SectorWrite(track, (first as int + n - 1) as byte, side, LastSector(recs[n - 1].body))]
  {
    var n := |recs|;
    var prefix := recs[..n - 1];
    assert ValidRecords(prefix) by {
      forall k | 0 <= k < n - 1 ensures ValidRecord(prefix[k]) {
        assert prefix[k] == recs[k];
      }
    }
    var lhs := ExpectedWrites(track, side, first, recs);
    var rhs := ExpectedWrites(track, side, first, prefix)
               + [SectorWrite(track, (first as int + n - 1) as byte, side, LastSector(recs[n - 1].body))];
    forall k | 0 <= k < n ensures lhs[k] == rhs[k] {
      if k < n - 1 {
        assert prefix[k] == recs[k];
      }
    }
    assert lhs == rhs;
  }

  /** After `initWriteTrack(track, side)`, a formatted track of n records
      commits record k's data to sector k + 1 of that track and side. */
  lemma FormatTrackWritesSectors(ring: seq<byte>, track: byte, side: byte, pre: seq<byte>, recs: seq<FormatRecord>)
    requires |ring| == RING_SIZE && NoMark(pre) && |recs| <= 254
    requires ValidRecords(recs)
    ensures var r := FeedAll(Start(ring, track, side), pre + TrackStream(recs));
      && |r.1| == |recs|
      && forall k :: 0 <= k < |recs| ==>
           r.1[k] == SectorWrite(track, (k + 1) as byte, side, LastSector(recs[k].body))
  {
    FeedTrack(Start(ring, track, side), pre, recs);
  }

  /** Feeding a marker after a stream is one more decoder step. */
  lemma FeedMarkerAfter(w: TrackWriter, s: seq<byte>)
    requires WellFormed(w)
    ensures var a := FeedAll(w, s);
      var step := Feed(a.0, CRC_MARK);
      FeedAll(w, s + [CRC_MARK]) == (step.0, a.1 + (if step.1.Some? then [step.1.value] else []))
  {
    FeedSingle(FeedAll(w, s).0, CRC_MARK);
    FeedAllAppend(w, s, [CRC_MARK]);
  }

  /** A marker-free run of at least 512 bytes closed by a header marker:
      nothing is committed and the window holds the run's last 512 bytes. */
  lemma HeaderRun(w: TrackWriter, a: seq<byte>)
    requires WellFormed(w) && w.crcCount % 2 == 0
    requires NoMark(a) && |a| >= SECTOR_SIZE
    ensures var r := FeedAll(w, a + [CRC_MARK]);
      && r.1 == [] && r.0.crcCount == w.crcCount + 1 && r.0.sector == w.sector
      && r.0.crcCount % 2 == 1
      && r.0.track == w.track && r.0.side == w.side
      && Window(r.0) == LastSector(a)
  {
    HeaderMarker(w, a);
    LongRunFillsWindow(Window(w), a);
    ParityStep(w.crcCount, FeedAll(w, a + [CRC_MARK]).0.crcCount);
  }

  /** A lone marker with an odd count commits the window as it stands. */
  lemma LoneDataMarker(w: TrackWriter)
    requires WellFormed(w) && w.crcCount % 2 == 1
    ensures var r := FeedAll(w, [CRC_MARK]);
      && r.1 == [SectorWrite(w.track, w.sector, w.side, Window(w))]
      && r.0.crcCount == w.crcCount + 1 && r.0.sector == NextSector(w.sector)
      && r.0.track == w.track && r.0.side == w.side
  {
    FeedSingle(w, CRC_MARK);
  }

  /** A marker-free run followed by two markers: the first marker closes
      nothing, the second commits the last 512 bytes of the run. */
  lemma RunThenTwoMarkers(w: TrackWriter, a: seq<byte>)
    requires WellFormed(w) && w.crcCount % 2 == 0
    requires NoMark(a) && |a| >= SECTOR_SIZE
    ensures var r := FeedAll(w, a + [CRC_MARK, CRC_MARK]);
      && r.1 == [SectorWrite(w.track, w.sector, w.side, LastSector(a))]
      && r.0.crcCount == w.crcCount + 2 && r.0.sector == NextSector(w.sector)
      && r.0.track == w.track && r.0.side == w.side
  {
    var x1 := a + [CRC_MARK];
    HeaderRun(w, a);
    LoneDataMarker(FeedAll(w, x1).0);
    FeedAllAppend(w, x1, [CRC_MARK]);
    assert x1 + [CRC_MARK] == a + [CRC_MARK, CRC_MARK];
  }

  /** Each F7 counts once: a stream that doubles every marker, 512 bytes,
      F7 F7, 512 bytes, F7 F7, commits the first 512 bytes to sector 1 and
      the second 512 bytes to sector 2. */
  lemma DoubledMarkers(ring: seq<byte>, track: byte, side: byte, a: seq<byte>, p: seq<byte>)
    requires |ring| == RING_SIZE
    requires |a| == SECTOR_SIZE && |p| == SECTOR_SIZE && NoMark(a) && NoMark(p)
    ensures FeedAll(Start(ring, track, side), a + [CRC_MARK, CRC_MARK] + p + [CRC_MARK, CRC_MARK]).1
            == [SectorWrite(track, 1, side, a), SectorWrite(track, 2, side, p)]
  {
    var w0 := Start(ring, track, side);
    var first := a + [CRC_MARK, CRC_MARK];
    var second := p + [CRC_MARK, CRC_MARK];
    RunThenTwoMarkers(w0, a);
    var w1 := FeedAll(w0, first).0;
    RunThenTwoMarkers(w1, p);
    FeedAllAppend(w0, first, second);
    assert first + second == a + [CRC_MARK, CRC_MARK] + p + [CRC_MARK, CRC_MARK];
  }
}
