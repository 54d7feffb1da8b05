/** A concrete disk on which a write shows the guest bytes it never wrote. */
module Qcow2Examples {
  import opened Common
  import opened HostFile
  import opened Qcow2Layout
  import opened Qcow2Meta
  import opened Qcow2State
  import opened Qcow2Disk
  import opened Qcow2Search
  import opened Qcow2Guest
  import opened Qcow2Transfer
  import opened Qcow2Overlay
  import opened Qcow2Image

  /** 64 clusters of 512 bytes, laid out like a new image. */
  function SmallDisk(): Header {
    Header(0x8000, 512, 64, 256, 1, 3, 1, 1, 1, 64, _ => [])
  }

  lemma SmallDiskFacts()
    ensures var h := SmallDisk();
      && h.Valid() && h.TablesSized() && h.L1CoversDisk() && StandardLayout(h) && h.HostLimit() == 64 && Reachable(h) == 64
  {
    var h := SmallDisk();
    QuotRemUnique(0x8000, 512, 64, 0);
    TimesIsMul(1, 64);
    TimesIsMul(64, 512);
    TimesIsMul(64, 256);
  }

  /** Free host clusters hold sevens, as a discarded cluster may. */
  function Sevens(): File {
    (c: nat, o: nat) => if c < FIRST_FREE then 0 else 7
  }

  lemma SmallDiskOpens()
    ensures SmallDisk().Valid()
    ensures var h := SmallDisk();
      var s := Opened(h, FreshFile(h, Sevens()));
      && Holds(Idle(h, s)) && View(h, s).room == 60 && View(h, s).data(0) == 0
      && FlatByte(h, s, [], 0) == FlatByte(h, s, [], 1) == 0
      && (forall c: nat :: !View(h, s).inUse(c) ==> s.file(c, 1) == 7)
  {
    SmallDiskFacts();
    var h := SmallDisk();
    FreshOverlay(h, Sevens(), []);
    OpenFlatByte(h, Opened(h, FreshFile(h, Sevens())), [], 0);
    OpenFlatByte(h, Opened(h, FreshFile(h, Sevens())), [], 1);
  }

  /** One byte is written at position 0; position 1, which read as 0, then reads as 7. */
  lemma SevenShows(h: Header, s: Img, t: Img, stale: Option<nat>)
    requires h == SmallDisk() && s == Opened(h, FreshFile(h, Sevens()))
    requires Done(Wrote(h, s, t, [], 0, 0, [1], stale, 4)) && stale.Some?
    ensures Holds(Idle(h, t)) && FlatByte(h, t, [], 0) == 1 && FlatByte(h, t, [], 1) == 7
  {
    SmallDiskOpens();
    OpenDeed(Wrote(h, s, t, [], 0, 0, [1], stale, 4));
    OpenFlatByte(h, t, [], 0);
    OpenFlatByte(h, t, [], 1);
  }

  /** The disk with sevens, opened. */
  method OpenSmallDisk() returns (image: Qcow2Image)
    ensures fresh(image) && fresh(image.Repr) && image.Serves() && image.h == SmallDisk() && !image.readonly && image.backing == null
    ensures image.h.Valid() && image.S() == Opened(image.h, FreshFile(image.h, Sevens()))
  {
    SmallDiskFacts();
    SmallDiskOpens();
    var h := SmallDisk();
    image := new Qcow2Image(h, FreshFile(h, Sevens()), null, false, 1);
  }

  lemma TwoBytes(h: Header, s: Img, data: seq<Byte>, a: Byte, b: Byte)
    requires h.Valid() && h.size >= 2 && |data| == Moved(h, 0, 2) && ReadsAs(h, s, [], 0, data)
    requires FlatByte(h, s, [], 0) == a && FlatByte(h, s, [], 1) == b
    ensures data == [a, b]
  {
    MovedInside(h, 0, 2);
    assert data[0] == FlatByte(h, s, [], 0 + 0);
    assert data[1] == FlatByte(h, s, [], 0 + 1);
  }

  method ReadTwo(image: Qcow2Image, ghost a: Byte, ghost b: Byte) returns (data: seq<Byte>)
    requires image.Serves() && image.h.size >= 2 && image.backing == null
    requires FlatByte(image.h, image.S(), [], 0) == a && FlatByte(image.h, image.S(), [], 1) == b
    modifies image.Repr
    ensures data == [a, b]
  {
    ghost var s := image.S();
    data := image.BlockRead(0, 2);
    assert image.Below() == [];
    TwoBytes(image.h, s, data, a, b);
  }

  method StaleByteShows() returns (before: seq<Byte>, after: seq<Byte>)
    ensures before == [0, 0] && after == [1, 7]
  {
    SmallDiskFacts();
    SmallDiskOpens();
    var untouched := OpenSmallDisk();
    before := ReadTwo(untouched, 0, 0);
    var image := OpenSmallDisk();
    ghost var s, stale := image.S(), None;
    var r;
    r, stale := image.WriteCluster(0, [1]);
    assert [1][..1] == [1];
    SevenShows(image.h, s, image.S(), stale);
    after := ReadTwo(image, 1, 7);
  }
}
