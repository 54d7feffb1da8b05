/** The senders and readers of lists of descriptors and bodies, over the migration stream. */
module MigrationSteps {
  import opened Common
  import opened MigrationStream
  import opened Handshake
  import opened MigrationProtocol

  /** Descriptors and bodies in turn, then the closing descriptor: SaveDirtyMemory, and the inner loop
      of SaveBackingDiskImage. */
  method SaveBlock(w: NetworkWriter, b: Block, d: string, t: string)
    requires w.Valid() && |d| < TAG_SIZE && |t| < TAG_SIZE && b.close.tag == d
    requires forall i :: 0 <= i < |b.items| ==> b.items[i].descriptor.tag == d && b.items[i].body.tag == t
    modifies w
    ensures w.Valid() && w.sent == old(w.sent) + BlockMessages(b.items, b.close)
  {
    var i := 0;
    while i < |b.items|
      invariant i <= |b.items| && w.Valid()
      invariant w.sent + BlockMessages(b.items[i..], b.close) == old(w.sent) + BlockMessages(b.items, b.close)
    {
      ghost var before := w.sent;
      w.WriteRaw(d, b.items[i].descriptor.body);
      w.WriteRaw(t, b.items[i].body.body);
      NextItem(before, b.items, i, b.close);
      assert w.sent == before + [b.items[i].descriptor] + [b.items[i].body];
      i := i + 1;
    }
    assert b.items[i..] == [];
    w.WriteRaw(d, b.close.body);
  }

  lemma NextItem(before: seq<Message>, items: seq<Item>, i: nat, close: Message)
    requires i < |items|
    ensures before + [items[i].descriptor] + [items[i].body] + BlockMessages(items[i + 1..], close) == before + BlockMessages(items[i..], close)
  {
    assert items[i..][1..] == items[i + 1..];
  }

  method SaveBackingDiskImage(w: NetworkWriter, images: seq<Image>)
    requires w.Valid()
    requires forall i :: 0 <= i < |images| ==> Tagged(images[i].backing, IMAGE_DESCRIPTOR, BACKING_IMAGE)
    modifies w
    ensures w.Valid() && w.sent == old(w.sent) + BackingMessages(images)
  {
    var i := 0;
    while i < |images|
      invariant i <= |images| && w.Valid()
      invariant w.sent + BackingMessages(images[i..]) == old(w.sent) + BackingMessages(images)
    {
      ghost var before := w.sent;
      assert images[i..][1..] == images[i + 1..];
      assert Tagged(images[i].backing, IMAGE_DESCRIPTOR, BACKING_IMAGE);
      SaveBlock(w, images[i].backing, IMAGE_DESCRIPTOR, BACKING_IMAGE);
      Regroup(before, BlockMessages(images[i].backing.items, images[i].backing.close), BackingMessages(images[i + 1..]));
      i := i + 1;
    }
    assert images[i..] == [];
  }

  ghost predicate Tagged(b: Block, d: string, t: string) {
    b.close.tag == d && forall i :: 0 <= i < |b.items| ==> b.items[i].descriptor.tag == d && b.items[i].body.tag == t
  }

  method SaveDiskImage(w: NetworkWriter, images: seq<Image>)
    requires w.Valid() && forall i :: 0 <= i < |images| ==> images[i].data.tag == IMAGE
    modifies w
    ensures w.Valid() && w.sent == old(w.sent) + ImageMessages(images)
  {
    var i := 0;
    while i < |images|
      invariant i <= |images| && w.Valid()
      invariant w.sent + ImageMessages(images[i..]) == old(w.sent) + ImageMessages(images)
    {
      assert images[i..][1..] == images[i + 1..];
      if Travels(images[i]) {
        ghost var before := w.sent;
        w.WriteRaw(IMAGE, images[i].data.body);
        Regroup(before, [images[i].data], ImageMessages(images[i + 1..]));
      }
      i := i + 1;
    }
    assert images[i..] == [];
  }

  // ---------------------------------------------------------------- the reader's side

  /** Everything read from `r` since the cache was `c` and the wire `ms`: the items, tag by tag. */
  ghost predicate ReadOff(c: Cache, ms: seq<Message>, c': Cache, ms': seq<Message>, items: seq<Item>, d: string, t: string) {
    && Pending(c, ms, d) == Descriptors(items) + Pending(c', ms', d)
    && Pending(c, ms, t) == Bodies(items) + Pending(c', ms', t)
    && forall u :: u != d && u != t ==> Pending(c', ms', u) == Pending(c, ms, u)
  }

  /** LoadDirtyMemory, and the inner loop of LoadBackingDiskImage: descriptors, each with its body, up to
      one that closes. None: a message is missing and the reader waits. */
  method LoadBlock(r: NetworkReader, closes: Closing, d: string, t: string) returns (b: Option<Block>)
    requires r.Valid() && d != t
    modifies r
    ensures r.Valid() && (b.Some? ==> closes(b.value.close) && b.value.close.tag == d)
    ensures b.Some? ==> AllOpen(closes, b.value.items, d, t)
    ensures b.Some? ==>
      && Pending(old(r.cache), old(r.coming), d) == Descriptors(b.value.items) + [b.value.close] + Pending(r.cache, r.coming, d)
      && Pending(old(r.cache), old(r.coming), t) == Bodies(b.value.items) + Pending(r.cache, r.coming, t)
    ensures forall u :: u != d && u != t ==> Pending(r.cache, r.coming, u) == Pending(old(r.cache), old(r.coming), u)
    ensures b == None ==> Pending(r.cache, r.coming, d) == [] || Pending(r.cache, r.coming, t) == []
  {
    var items: seq<Item> := [];
    while true
      invariant r.Valid() && ReadOff(old(r.cache), old(r.coming), r.cache, r.coming, items, d, t)
      invariant AllOpen(closes, items, d, t)
      decreases |Pending(r.cache, r.coming, d)|
    {
      ghost var c, ms := r.cache, r.coming;
      var x := LoadItem(r, closes, d, t);
      match x {
        case Waits =>
          return None;
        case Closed(m) =>
          ReadOffEnds(old(r.cache), old(r.coming), c, ms, r.cache, r.coming, items, m, d, t);
          return Some(Block(items, m));
        case Got(i) =>
          ReadOffMore(old(r.cache), old(r.coming), c, ms, r.cache, r.coming, items, i, d, t);
          items := items + [i];
      }
    }
  }

  ghost predicate AllOpen(closes: Closing, items: seq<Item>, d: string, t: string) {
    forall i :: 0 <= i < |items| ==>
      items[i].descriptor.tag == d && items[i].body.tag == t && !closes(items[i].descriptor)
  }

  datatype Turn = Waits | Closed(m: Message) | Got(i: Item)

  /** One turn of that loop. */
  method LoadItem(r: NetworkReader, closes: Closing, d: string, t: string) returns (x: Turn)
    requires r.Valid() && d != t
    modifies r
    ensures r.Valid()
    ensures x.Got? ==> AllOpen(closes, [x.i], d, t) && ReadOff(old(r.cache), old(r.coming), r.cache, r.coming, [x.i], d, t)
    ensures x.Closed? ==> closes(x.m) && x.m.tag == d && Pending(old(r.cache), old(r.coming), d) == [x.m] + Pending(r.cache, r.coming, d)
    ensures x.Closed? ==> Pending(r.cache, r.coming, t) == Pending(old(r.cache), old(r.coming), t)
    ensures x.Waits? ==> Pending(r.cache, r.coming, d) == [] || Pending(r.cache, r.coming, t) == []
    ensures forall u :: u != d && u != t ==> Pending(r.cache, r.coming, u) == Pending(old(r.cache), old(r.coming), u)
  {
    var head := r.ReadMessage(d);
    if !head.Ok? {
      return Waits;
    }
    var m := Message(d, head.value);
    if closes(m) {
      return Closed(m);
    }
    var body := r.ReadMessage(t);
    if !body.Ok? {
      return Waits;
    }
    var i := Item(m, Message(t, body.value));
    assert Descriptors([i]) == [i.descriptor] && Bodies([i]) == [i.body];
    return Got(i);
  }

  /** The closing descriptor was taken. */
  lemma ReadOffEnds(c: Cache, ms: seq<Message>, c0: Cache, m0: seq<Message>, c1: Cache, m1: seq<Message>,
                    items: seq<Item>, m: Message, d: string, t: string)
    requires ReadOff(c, ms, c0, m0, items, d, t)
    requires Pending(c0, m0, d) == [m] + Pending(c1, m1, d) && Pending(c1, m1, t) == Pending(c0, m0, t)
    requires forall u :: u != d && u != t ==> Pending(c1, m1, u) == Pending(c0, m0, u)
    ensures Pending(c, ms, d) == Descriptors(items) + [m] + Pending(c1, m1, d)
    ensures Pending(c, ms, t) == Bodies(items) + Pending(c1, m1, t)
    ensures forall u :: u != d && u != t ==> Pending(c1, m1, u) == Pending(c, ms, u)
  {
    Regroup(Descriptors(items), [m], Pending(c1, m1, d));
  }

  lemma ReadOffMore(c: Cache, ms: seq<Message>, c0: Cache, m0: seq<Message>, c1: Cache, m1: seq<Message>,
                 items: seq<Item>, i: Item, d: string, t: string)
    requires ReadOff(c, ms, c0, m0, items, d, t) && ReadOff(c0, m0, c1, m1, [i], d, t)
    ensures ReadOff(c, ms, c1, m1, items + [i], d, t) && |Pending(c1, m1, d)| < |Pending(c0, m0, d)|
  {
    assert Descriptors(items + [i]) == Descriptors(items) + Descriptors([i]);
    assert Bodies(items + [i]) == Bodies(items) + Bodies([i]);
    Regroup(Descriptors(items), Descriptors([i]), Pending(c1, m1, d));
    Regroup(Bodies(items), Bodies([i]), Pending(c1, m1, t));
  }
}
