/** The patch chain a sector-based disk reads through, and the backing
    store it writes to.

    A disk starts with the empty patch over its backing image; applying a
    patch file pushes a new link that wraps the current head.  The format of
    a patch file is not modelled: a link holds the bytes its diff supplies,
    by offset in the disk image. */
module PatchChain {
  import opened DiskTypes

  datatype Patch =
    | EmptyPatch
    | Overlay(diff: map<nat, byte>, inner: Patch)

  /** The byte at offset `i` of the patched image, or None when the
      backing store cannot supply it (a medium error).  A link first asks
      the link it wraps and then lays its own diff on top, so a failure of
      the backing store comes through every link. */
  function Resolve(p: Patch, image: seq<byte>, i: nat): Option<byte>
  {
    match p
    case EmptyPatch => if i < |image| then Some(image[i]) else None
    case Overlay(diff, inner) =>
      match Resolve(inner, image, i)
      case None => None
      case Some(b) => Some(if i in diff then diff[i] else b)
  }

  /** All bytes the diffs of a chain supply, a newer link overriding an
      older one. */
  function Overrides(p: Patch): map<nat, byte>
  {
    match p
    case EmptyPatch => map[]
    case Overlay(diff, inner) => Overrides(inner) + diff
  }

  /** Resolving at the head of the chain is resolving at the base and then
      applying every diff in the order the patches were pushed: None when
      the backing store fails, otherwise the newest override or the base
      byte. */
  lemma {:induction false} ResolveIsBaseThenDiffs(p: Patch, image: seq<byte>, i: nat)
    ensures Resolve(p, image, i) ==
              if i >= |image| then None
              else if i in Overrides(p) then Some(Overrides(p)[i])
              else Some(image[i])
  {
    match p
    case EmptyPatch =>
    case Overlay(diff, inner) =>
      ResolveIsBaseThenDiffs(inner, image, i);
  }

  /** Pushing two patches one after the other reads the same as pushing a
      single patch that holds both diffs, the second one winning. */
  lemma PushTwiceIsPushMerged(p: Patch, d1: map<nat, byte>, d2: map<nat, byte>, image: seq<byte>, i: nat)
    ensures Resolve(Overlay(d2, Overlay(d1, p)), image, i) == Resolve(Overlay(d1 + d2, p), image, i)
  {
    ResolveIsBaseThenDiffs(Overlay(d2, Overlay(d1, p)), image, i);
    ResolveIsBaseThenDiffs(Overlay(d1 + d2, p), image, i);
  }

  /** Every byte of the range `[offset, offset + len)` can be resolved. */
  predicate Readable(p: Patch, image: seq<byte>, offset: nat, len: nat)
  {
    forall i: nat :: offset <= i < offset + len ==> Resolve(p, image, i).Some?
  }

  /** `copyBlock(offset, buf, len)` of the chain's head: the `len` bytes of
      the patched image from `offset`, or None when some byte of the range
      cannot be read from the backing store. */
  function CopyBlock(p: Patch, image: seq<byte>, offset: nat, len: nat): (r: Option<seq<byte>>)
    ensures r.Some? <==> Readable(p, image, offset, len)
    ensures r.Some? ==> |r.value| == len
    ensures r.Some? ==> forall i :: 0 <= i < len ==> Resolve(p, image, offset + i) == Some(r.value[i])
  {
    if Readable(p, image, offset, len) then
      Some(seq(len, i requires 0 <= i < len => Resolve(p, image, offset + i).value))
    else
      None
  }

  /** The backing store's raw sector write (`writeSectorImpl`): the sector's
      512 bytes of the image are replaced.  An image too short to hold the
      sector is a medium failure. */
  function StoreSector(image: seq<byte>, sector: nat, data: seq<byte>): (r: Option<seq<byte>>)
    requires |data| == SECTOR_SIZE
    ensures r.Some? <==> (sector + 1) * SECTOR_SIZE <= |image|
    ensures r.Some? ==> |r.value| == |image|
    ensures r.Some? ==> forall i :: 0 <= i < SECTOR_SIZE ==> r.value[sector * SECTOR_SIZE + i] == data[i]
    ensures r.Some? ==> forall i :: 0 <= i < |image| && !(sector * SECTOR_SIZE <= i < (sector + 1) * SECTOR_SIZE) ==>
                          r.value[i] == image[i]
  {
    if (sector + 1) * SECTOR_SIZE <= |image| then
      Some(image[..sector * SECTOR_SIZE] + data + image[(sector + 1) * SECTOR_SIZE..])
    else
      None
  }

  /** Round trip: a sector stored in the backing image reads back unchanged
      through a chain none of whose diffs touches that sector. */
  lemma StoreThenCopy(p: Patch, image: seq<byte>, sector: nat, data: seq<byte>, image': seq<byte>)
    requires |data| == SECTOR_SIZE
    requires StoreSector(image, sector, data) == Some(image')
    requires forall i :: sector * SECTOR_SIZE <= i < (sector + 1) * SECTOR_SIZE ==> i !in Overrides(p)
    ensures CopyBlock(p, image', sector * SECTOR_SIZE, SECTOR_SIZE) == Some(data)
  {
    var base := sector * SECTOR_SIZE;
    forall i | 0 <= i < SECTOR_SIZE
      ensures Resolve(p, image', base + i) == Some(data[i])
    {
      ResolveIsBaseThenDiffs(p, image', base + i);
    }
    assert Readable(p, image', base, SECTOR_SIZE) by {
      forall i: nat | base <= i < base + SECTOR_SIZE
        ensures Resolve(p, image', i).Some?
      {
        assert Resolve(p, image', base + (i - base)) == Some(data[i - base]);
      }
    }
    var r := CopyBlock(p, image', base, SECTOR_SIZE);
    assert r.Some?;
    assert r.value == data;
  }

  /** Storing one sector changes what no other sector reads. */
  lemma StoreKeepsOtherSectors(p: Patch, image: seq<byte>, sector: nat, data: seq<byte>, image': seq<byte>, other: nat)
    requires |data| == SECTOR_SIZE
    requires StoreSector(image, sector, data) == Some(image')
    requires other != sector
    ensures CopyBlock(p, image', other * SECTOR_SIZE, SECTOR_SIZE) == CopyBlock(p, image, other * SECTOR_SIZE, SECTOR_SIZE)
  {
    var base := other * SECTOR_SIZE;
    forall i | base <= i < base + SECTOR_SIZE
      ensures Resolve(p, image', i) == Resolve(p, image, i)
    {
      ResolveIsBaseThenDiffs(p, image', i);
      ResolveIsBaseThenDiffs(p, image, i);
    }
    var a := CopyBlock(p, image', base, SECTOR_SIZE);
    var b := CopyBlock(p, image, base, SECTOR_SIZE);
    if a.Some? {
      assert b.Some?;
      assert a.value == b.value;
    }
  }
}
