/** The nine-signal migration protocol: what Save and PostSave send and wait for, what Load reads and
    signals, and how all their runs end.
 */
module MigrationProtocol {
  import opened Common
  import opened MigrationStream
  import opened Handshake
  import Confluence

  const IMAGE_DESCRIPTOR: string := "IMAGE_DESCRIPTOR"
  const BACKING_IMAGE: string := "BACKING_IMAGE"
  const IMAGE: string := "IMAGE"
  const BIOS: string := "BIOS"
  const RAM: string := "RAM"
  const DIRTY_DESCRIPTOR: string := "DIRTY_MEMORY_DESCRIPTOR"
  const DIRTY_MEMORY: string := "DIRTY_MEMORY"
  const CURRENT: string := "CURRENT"
  const DEFAULT: string := "DEFAULT"

  /** A descriptor and the body that follows it. */
  datatype Item = Item(descriptor: Message, body: Message)

  /** Items, and the descriptor that closes the list. */
  datatype Block = Block(items: seq<Item>, close: Message)

  /** A disk image: the backing files that migration made of it, and its current data. */
  datatype Image = Image(backing: Block, data: Message, readonly: bool, snapshot: bool)

  /** SaveDiskImage sends an image unless it is read-only or no snapshot. */
  predicate Travels(i: Image) {
    !i.readonly && i.snapshot
  }

  datatype Vcpu = Vcpu(current: Message, default_: Message)

  /** What the source has to send. */
  datatype Setup = Setup(
    images: seq<Image>,
    bios: Message,
    ram: seq<Message>,
    kvm: Block,
    listener: Block,
    dma: Block,
    devices: seq<Message>,
    vcpus: seq<Vcpu>)

  // ---------------------------------------------------------------- what is sent

  function BlockMessages(items: seq<Item>, close: Message): seq<Message> {
    if items == [] then [close]
    else [items[0].descriptor, items[0].body] + BlockMessages(items[1..], close)
  }

  function BackingMessages(images: seq<Image>): seq<Message> {
    if images == [] then []
    else BlockMessages(images[0].backing.items, images[0].backing.close) + BackingMessages(images[1..])
  }

  function ImageMessages(images: seq<Image>): seq<Message> {
    if images == [] then []
    else (if Travels(images[0]) then [images[0].data] else []) + ImageMessages(images[1..])
  }

  function DirtyMessages(b: Block): seq<Message> {
    BlockMessages(b.items, b.close)
  }

  function VcpuMessages(vcpus: seq<Vcpu>): seq<Message> {
    if vcpus == [] then [] else [vcpus[0].current, vcpus[0].default_] + VcpuMessages(vcpus[1..])
  }

  /** The source, from each phase on. Save ends with RamComplete; PostSave begins with the images. */
  function SaveScript(u: Setup): seq<SourceOp> {
    Sends(BackingMessages(u.images)) + ([Await(BackingImageComplete)] + SaveRam(u))
  }

  function SaveRam(u: Setup): seq<SourceOp> {
    Sends([u.bios] + u.ram) + ([Await(RamComplete)] + PostSaveScript(u))
  }

  function PostSaveScript(u: Setup): seq<SourceOp> {
    Sends(ImageMessages(u.images)) + ([Await(ImageComplete)] + SaveKvm(u))
  }

  function SaveKvm(u: Setup): seq<SourceOp> {
    Sends(DirtyMessages(u.kvm)) + ([Await(DirtyMemoryFromKvmComplete)] + SaveListener(u))
  }

  function SaveListener(u: Setup): seq<SourceOp> {
    Sends(DirtyMessages(u.listener)) + ([Await(DirtyMemoryFromListenerComplete)] + SaveDevices(u))
  }

  function SaveDevices(u: Setup): seq<SourceOp> {
    Sends(u.devices + DirtyMessages(u.dma)) + ([Await(DirtyMemoryFromDmaComplete)] + ([Await(DeviceComplete)] + SaveVcpus(u)))
  }

  function SaveVcpus(u: Setup): seq<SourceOp> {
    Sends(VcpuMessages(u.vcpus)) + ([Await(VcpuComplete)] + [Await(Complete)])
  }

  // ---------------------------------------------------------------- what is read

  function RecvAll(tags: seq<string>): seq<TargetOp> {
    seq(|tags|, i requires 0 <= i < |tags| => Recv(tags[i]))
  }

  function Repeat(tag: string, n: nat): seq<string> {
    seq(n, _ => tag)
  }

  function BackingLoops(n: nat): seq<TargetOp> {
    seq(n, _ => Loop(IMAGE_DESCRIPTOR, BACKING_IMAGE))
  }

  /** The default state is read first, though the current state is sent first. */
  function VcpuTags(n: nat): seq<string> {
    if n == 0 then [] else [DEFAULT, CURRENT] + VcpuTags(n - 1)
  }

  /** What the target was set up with: images, pages of RAM, the reads of its devices, vCPUs. */
  datatype Plan = Plan(images: nat, pages: nat, devices: seq<string>, vcpus: nat)

  function LoadProgram(q: Plan): seq<TargetOp> {
    BackingLoops(q.images) + ([Tell(BackingImageComplete)] + LoadRam(q))
  }

  function LoadRam(q: Plan): seq<TargetOp> {
    RecvAll([BIOS] + Repeat(RAM, q.pages)) + ([Tell(RamComplete)] + LoadImages(q))
  }

  /** LoadDiskImage reads for every image. */
  function LoadImages(q: Plan): seq<TargetOp> {
    RecvAll(Repeat(IMAGE, q.images)) + ([Tell(ImageComplete)] + LoadKvm(q))
  }

  function DirtyLoop(): seq<TargetOp> {
    [Loop(DIRTY_DESCRIPTOR, DIRTY_MEMORY)]
  }

  function LoadKvm(q: Plan): seq<TargetOp> {
    DirtyLoop() + ([Tell(DirtyMemoryFromKvmComplete)] + LoadListener(q))
  }

  function LoadListener(q: Plan): seq<TargetOp> {
    DirtyLoop() + ([Tell(DirtyMemoryFromListenerComplete)] + LoadDma(q))
  }

  function LoadDma(q: Plan): seq<TargetOp> {
    DirtyLoop() + ([Tell(DirtyMemoryFromDmaComplete)] + LoadDevices(q))
  }

  function LoadDevices(q: Plan): seq<TargetOp> {
    RecvAll(q.devices) + ([Tell(DeviceComplete)] + LoadVcpus(q))
  }

  function LoadVcpus(q: Plan): seq<TargetOp> {
    RecvAll(VcpuTags(q.vcpus)) + ([Tell(VcpuComplete)] + [Tell(Complete)])
  }

  // ---------------------------------------------------------------- reading by tag, message by message

  function Count(tags: seq<string>, t: string): nat {
    if tags == [] then 0 else (if tags[0] == t then 1 else 0) + Count(tags[1..], t)
  }

  /** No tag is read more often than it was sent. */
  ghost predicate Enough(tags: seq<string>, pend: seq<Message>) {
    forall t :: Count(tags, t) <= |Only(pend, t)|
  }

  ghost predicate Balanced(tags: seq<string>, pend: seq<Message>) {
    forall t :: Count(tags, t) == |Only(pend, t)|
  }

  lemma OneReadLess(tags: seq<string>, pend: seq<Message>)
    requires tags != [] && Only(pend, tags[0]) != []
    ensures Enough(tags, pend) <==> Enough(tags[1..], Without(pend, tags[0]))
    ensures Balanced(tags, pend) <==> Balanced(tags[1..], Without(pend, tags[0]))
  {
    var rest := Without(pend, tags[0]);
    forall u
      ensures Count(tags, u) - |Only(pend, u)| == Count(tags[1..], u) - |Only(rest, u)|
    {
      OnlyWithout(pend, tags[0], u);
    }
    if Enough(tags[1..], rest) {
      forall u
        ensures Count(tags, u) <= |Only(pend, u)|
      {
        assert Count(tags[1..], u) <= |Only(rest, u)|;
      }
    }
    if Balanced(tags[1..], rest) {
      forall u
        ensures Count(tags, u) == |Only(pend, u)|
      {
        assert Count(tags[1..], u) == |Only(rest, u)|;
      }
    }
  }

  /** Reads by tag succeed exactly if no tag is read more often than it was sent, whatever the order. */
  lemma {:induction false} ReadsSucceedIff(closes: Closing, tags: seq<string>, pend: seq<Message>)
    ensures Silent(RecvAll(tags))
    ensures Eat(closes, RecvAll(tags), pend).Some? <==> Enough(tags, pend)
    ensures Balanced(tags, pend) ==> Eat(closes, RecvAll(tags), pend) == Some([])
    decreases |tags|
  {
    if tags == [] {
      if Balanced(tags, pend) {
        assert forall t :: |Only(pend, t)| == Count(tags, t);
        NothingPending(pend);
      }
    } else {
      var t := tags[0];
      assert RecvAll(tags)[0] == Recv(t) && RecvAll(tags)[1..] == RecvAll(tags[1..]);
      if Only(pend, t) == [] {
        assert Count(tags, t) > 0 && |Only(pend, t)| == 0;
      } else {
        OneReadLess(tags, pend);
        ReadsSucceedIff(closes, tags[1..], Without(pend, t));
      }
    }
  }

  lemma NothingPending(pend: seq<Message>)
    requires forall t :: |Only(pend, t)| == 0
    ensures pend == []
  {
    if pend != [] {
      FirstIsPending(pend);
    }
  }

  function TagsOf(ms: seq<Message>): seq<string> {
    seq(|ms|, i requires 0 <= i < |ms| => ms[i].tag)
  }

  lemma {:induction false} CountOfTags(ms: seq<Message>, t: string)
    ensures Count(TagsOf(ms), t) == |Only(ms, t)|
  {
    if ms != [] {
      assert TagsOf(ms)[1..] == TagsOf(ms[1..]);
      CountOfTags(ms[1..], t);
    }
  }

  lemma ReadsInOrder(closes: Closing, ms: seq<Message>)
    ensures Silent(RecvAll(TagsOf(ms))) && Eat(closes, RecvAll(TagsOf(ms)), ms) == Some([])
  {
    forall t
      ensures Count(TagsOf(ms), t) == |Only(ms, t)|
    {
      CountOfTags(ms, t);
    }
    assert Balanced(TagsOf(ms), ms);
    ReadsSucceedIff(closes, TagsOf(ms), ms);
  }

  // ---------------------------------------------------------------- loops

  ghost predicate BlockOk(closes: Closing, b: Block, d: string, t: string) {
    && (forall i :: 0 <= i < |b.items| ==>
          b.items[i].descriptor.tag == d && b.items[i].body.tag == t && !closes(b.items[i].descriptor))
    && b.close.tag == d && closes(b.close)
  }

  lemma {:induction false} NoneOfTag(ms: seq<Message>, t: string, i: nat)
    requires Only(ms, t) == [] && i < |ms|
    ensures ms[i].tag != t
  {
    if i > 0 {
      NoneOfTag(ms[1..], t, i - 1);
    }
  }

  /** The first message of a tag is at `n`. */
  lemma {:induction false} FirstAt(pend: seq<Message>, n: nat)
    requires n < |pend| && forall i :: 0 <= i < n ==> pend[i].tag != pend[n].tag
    ensures Only(pend, pend[n].tag) != [] && Only(pend, pend[n].tag)[0] == pend[n]
    ensures Without(pend, pend[n].tag) == pend[..n] + pend[n + 1..]
  {
    if n > 0 {
      var rest := pend[1..];
      assert forall i :: 0 <= i < n - 1 ==> rest[i].tag != rest[n - 1].tag;
      FirstAt(rest, n - 1);
      assert [pend[0]] + (rest[..n - 1] + rest[n..]) == pend[..n] + pend[n + 1..];
    }
  }

  lemma FirstAfter(front: seq<Message>, m: Message, tail: seq<Message>)
    requires Only(front, m.tag) == []
    ensures var pend := front + ([m] + tail);
      Only(pend, m.tag) != [] && Only(pend, m.tag)[0] == m && Without(pend, m.tag) == front + tail
  {
    var pend, n := front + ([m] + tail), |front|;
    forall i | 0 <= i < n
      ensures pend[i].tag != m.tag
    {
      NoneOfTag(front, m.tag, i);
    }
    FirstAt(pend, n);
    assert pend[..n] == front && pend[n + 1..] == tail;
  }

  /** A loop eats its block, whatever messages of other tags stand before it. */
  lemma {:induction false} LoopEatsBlock(closes: Closing, items: seq<Item>, close: Message, d: string, t: string,
                                        front: seq<Message>, tail: seq<Message>, ops: seq<TargetOp>)
    requires BlockOk(closes, Block(items, close), d, t) && d != t && Silent(ops)
    requires Only(front, d) == [] && Only(front, t) == []
    ensures Silent([Loop(d, t)] + ops)
    ensures Eat(closes, [Loop(d, t)] + ops, front + (BlockMessages(items, close) + tail)) == Eat(closes, ops, front + tail)
    decreases |items|
  {
    var all := [Loop(d, t)] + ops;
    assert all[1..] == ops;
    if items == [] {
      FirstAfter(front, close, tail);
    } else {
      var i := items[0];
      var more := BlockMessages(items[1..], close) + tail;
      assert BlockMessages(items, close) + tail == [i.descriptor] + ([i.body] + more);
      FirstAfter(front, i.descriptor, [i.body] + more);
      FirstAfter(front, i.body, more);
      assert ([Recv(t)] + all)[1..] == all;
      LoopEatsBlock(closes, items[1..], close, d, t, front, tail, ops);
    }
  }

  lemma {:induction false} BackingIsEaten(closes: Closing, images: seq<Image>)
    requires forall i :: 0 <= i < |images| ==> BlockOk(closes, images[i].backing, IMAGE_DESCRIPTOR, BACKING_IMAGE)
    ensures Silent(BackingLoops(|images|)) && Eat(closes, BackingLoops(|images|), BackingMessages(images)) == Some([])
  {
    if images != [] {
      var b := images[0].backing;
      BackingIsEaten(closes, images[1..]);
      assert BackingLoops(|images|) == [Loop(IMAGE_DESCRIPTOR, BACKING_IMAGE)] + BackingLoops(|images| - 1);
      LoopEatsBlock(closes, b.items, b.close, IMAGE_DESCRIPTOR, BACKING_IMAGE, [], BackingMessages(images[1..]), BackingLoops(|images| - 1));
      assert BackingMessages(images) == [] + (BlockMessages(b.items, b.close) + BackingMessages(images[1..]));
      assert [] + BackingMessages(images[1..]) == BackingMessages(images[1..]);
    }
  }

  lemma DirtyIsEaten(closes: Closing, b: Block, front: seq<Message>)
    requires BlockOk(closes, b, DIRTY_DESCRIPTOR, DIRTY_MEMORY)
    requires Only(front, DIRTY_DESCRIPTOR) == [] && Only(front, DIRTY_MEMORY) == []
    ensures Silent(DirtyLoop()) && Eat(closes, DirtyLoop(), front + DirtyMessages(b)) == Some(front)
  {
    LoopEatsBlock(closes, b.items, b.close, DIRTY_DESCRIPTOR, DIRTY_MEMORY, front, [], []);
    assert DirtyLoop() == [Loop(DIRTY_DESCRIPTOR, DIRTY_MEMORY)] + [];
    assert BlockMessages(b.items, b.close) + [] == DirtyMessages(b);
    assert front + [] == front;
  }

  lemma {:induction false} VcpusBalance(vcpus: seq<Vcpu>, t: string)
    requires forall i :: 0 <= i < |vcpus| ==> vcpus[i].current.tag == CURRENT && vcpus[i].default_.tag == DEFAULT
    ensures Count(VcpuTags(|vcpus|), t) == |Only(VcpuMessages(vcpus), t)|
  {
    if vcpus != [] {
      var v, more := vcpus[0], VcpuMessages(vcpus[1..]);
      VcpusBalance(vcpus[1..], t);
      OnlyJoin([v.current, v.default_], more, t);
      assert [v.current, v.default_][1..] == [v.default_] && [v.default_][1..] == [];
      var tags := VcpuTags(|vcpus|);
      assert tags[1..][1..] == VcpuTags(|vcpus| - 1) && tags[0] == DEFAULT && tags[1..][0] == CURRENT;
    }
  }

  lemma VcpusAreEaten(closes: Closing, vcpus: seq<Vcpu>)
    requires forall i :: 0 <= i < |vcpus| ==> vcpus[i].current.tag == CURRENT && vcpus[i].default_.tag == DEFAULT
    ensures Silent(RecvAll(VcpuTags(|vcpus|))) && Eat(closes, RecvAll(VcpuTags(|vcpus|)), VcpuMessages(vcpus)) == Some([])
  {
    forall t
      ensures Count(VcpuTags(|vcpus|), t) == |Only(VcpuMessages(vcpus), t)|
    {
      VcpusBalance(vcpus, t);
    }
    assert Balanced(VcpuTags(|vcpus|), VcpuMessages(vcpus));
    ReadsSucceedIff(closes, VcpuTags(|vcpus|), VcpuMessages(vcpus));
  }

  // ---------------------------------------------------------------- what arrives

  /** The items of a block as messages of the two tags. */
  function Descriptors(items: seq<Item>): seq<Message> {
    seq(|items|, i requires 0 <= i < |items| => items[i].descriptor)
  }

  function Bodies(items: seq<Item>): seq<Message> {
    seq(|items|, i requires 0 <= i < |items| => items[i].body)
  }

  /** With the descriptor that closes the block. */
  function Listing(b: Block): seq<Message> {
    Descriptors(b.items) + [b.close]
  }

  /** One part after the other. */
  function Flat(parts: seq<seq<Message>>): seq<Message> {
    if parts == [] then [] else parts[0] + Flat(parts[1..])
  }

  /** Part `k` begins where the parts before it end. */
  lemma {:induction false} FlatAt(parts: seq<seq<Message>>, k: nat)
    requires k < |parts|
    ensures Flat(parts[..k]) + parts[k] <= Flat(parts)
  {
    if k > 0 {
      FlatAt(parts[1..], k - 1);
      assert parts[..k][1..] == parts[1..][..k - 1];
      var a, b := Flat(parts[1..][..k - 1]) + parts[k], Flat(parts[1..]);
      assert a <= b;
      assert Flat(parts[..k]) + parts[k] == parts[0] + a;
    }
  }

  function AllListings(images: seq<Image>): seq<Message> {
    Flat(seq(|images|, k requires 0 <= k < |images| => Listing(images[k].backing)))
  }

  function AllBodies(images: seq<Image>): seq<Message> {
    Flat(seq(|images|, k requires 0 <= k < |images| => Bodies(images[k].backing.items)))
  }

  /** What arrives with tag `t` of the single parts of a machine. */
  ghost function OfBlock(b: Block, d: string, body: string, t: string): seq<Message> {
    if t == d then Listing(b) else if t == body then Bodies(b.items) else []
  }

  ghost function OfBacking(images: seq<Image>, t: string): seq<Message> {
    if t == IMAGE_DESCRIPTOR then AllListings(images) else if t == BACKING_IMAGE then AllBodies(images) else []
  }

  ghost function OfMemory(u: Setup, t: string): seq<Message> {
    if t == BIOS then [u.bios] else if t == RAM then u.ram else []
  }

  ghost function OfImages(images: seq<Image>, t: string): seq<Message> {
    if t == IMAGE then seq(|images|, i requires 0 <= i < |images| => images[i].data) else []
  }

  ghost function OfDirty(b: Block, t: string): seq<Message> {
    OfBlock(b, DIRTY_DESCRIPTOR, DIRTY_MEMORY, t)
  }

  ghost function OfVcpus(vcpus: seq<Vcpu>, t: string): seq<Message> {
    if t == CURRENT then seq(|vcpus|, i requires 0 <= i < |vcpus| => vcpus[i].current)
    else if t == DEFAULT then seq(|vcpus|, i requires 0 <= i < |vcpus| => vcpus[i].default_)
    else []
  }

  /** What arrives with tag `t` of the whole machine: its parts in order, each index by index. */
  ghost function Expected(u: Setup, t: string): seq<Message> {
    OfBacking(u.images, t) + (OfMemory(u, t) + (OfImages(u.images, t)
    + (OfDirty(u.kvm, t) + (OfDirty(u.listener, t)
    + (Only(u.devices, t) + OfDirty(u.dma, t) + OfVcpus(u.vcpus, t))))))
  }

  lemma {:induction false} BlockOnly(closes: Closing, items: seq<Item>, close: Message, d: string, t: string, x: string)
    requires BlockOk(closes, Block(items, close), d, t) && d != t
    ensures var ms, b := BlockMessages(items, close), Block(items, close);
      Only(ms, x) == OfBlock(b, d, t, x)
  {
    if items == [] {
      assert [close][1..] == [];
    } else {
      var i, more := items[0], BlockMessages(items[1..], close);
      BlockOnly(closes, items[1..], close, d, t, x);
      OnlyJoin([i.descriptor, i.body], more, x);
      OnlyTwo(i.descriptor, i.body, x);
      FirstItem(items, close);
    }
  }

  lemma OnlyTwo(a: Message, b: Message, t: string)
    ensures Only([a, b], t) == (if a.tag == t then [a] else []) + (if b.tag == t then [b] else [])
  {
    assert [a, b][1..] == [b] && [b][1..] == [];
    assert Only([b], t) == if b.tag == t then [b] else [];
  }

  lemma FirstItem(items: seq<Item>, close: Message)
    requires items != []
    ensures Listing(Block(items, close)) == [items[0].descriptor] + Listing(Block(items[1..], close))
    ensures Bodies(items) == [items[0].body] + Bodies(items[1..])
  {
  }

  lemma {:induction false} BackingOnly(closes: Closing, images: seq<Image>, x: string)
    requires forall i :: 0 <= i < |images| ==> BlockOk(closes, images[i].backing, IMAGE_DESCRIPTOR, BACKING_IMAGE)
    ensures Only(BackingMessages(images), x) == OfBacking(images, x)
  {
    if images != [] {
      var b := images[0].backing;
      BackingOnly(closes, images[1..], x);
      BlockOnly(closes, b.items, b.close, IMAGE_DESCRIPTOR, BACKING_IMAGE, x);
      OnlyJoin(BlockMessages(b.items, b.close), BackingMessages(images[1..]), x);
      AllNext(images);
    }
  }

  lemma AllNext(images: seq<Image>)
    requires images != []
    ensures AllListings(images) == Listing(images[0].backing) + AllListings(images[1..])
    ensures AllBodies(images) == Bodies(images[0].backing.items) + AllBodies(images[1..])
  {
    var ds := seq(|images|, k requires 0 <= k < |images| => Listing(images[k].backing));
    var bs := seq(|images|, k requires 0 <= k < |images| => Bodies(images[k].backing.items));
    assert ds[1..] == seq(|images[1..]|, k requires 0 <= k < |images[1..]| => Listing(images[1..][k].backing));
    assert bs[1..] == seq(|images[1..]|, k requires 0 <= k < |images[1..]| => Bodies(images[1..][k].backing.items));
  }

  lemma {:induction false} ImageOnly(images: seq<Image>)
    requires AllTravel(images)
    ensures ImageMessages(images) == seq(|images|, i requires 0 <= i < |images| => images[i].data)
  {
    if images != [] {
      assert Travels(images[0]);
      assert forall i :: 0 <= i < |images[1..]| ==> images[1..][i] == images[i + 1];
      ImageOnly(images[1..]);
    }
  }

  lemma {:induction false} VcpuOnly(vcpus: seq<Vcpu>, x: string)
    requires forall i :: 0 <= i < |vcpus| ==> vcpus[i].current.tag == CURRENT && vcpus[i].default_.tag == DEFAULT
    ensures Only(VcpuMessages(vcpus), x) == OfVcpus(vcpus, x)
  {
    if vcpus != [] {
      var v := vcpus[0];
      VcpuOnly(vcpus[1..], x);
      OnlyJoin([v.current, v.default_], VcpuMessages(vcpus[1..]), x);
      OnlyTwo(v.current, v.default_, x);
    }
  }

  /** What the source sends with a tag from the devices on, from the images on, and in all. */
  function LateSent(u: Setup, t: string): seq<Message> {
    Only(u.devices, t) + Only(DirtyMessages(u.dma), t) + Only(VcpuMessages(u.vcpus), t)
  }

  function PostSent(u: Setup, t: string): seq<Message> {
    Only(ImageMessages(u.images), t) + (Only(DirtyMessages(u.kvm), t) + (Only(DirtyMessages(u.listener), t) + LateSent(u, t)))
  }

  function Sent(u: Setup, t: string): seq<Message> {
    Only(BackingMessages(u.images), t) + (Only([u.bios] + u.ram, t) + PostSent(u, t))
  }

  lemma DevicesSend(u: Setup, t: string)
    ensures Only(SentBy(SaveDevices(u)), t) == LateSent(u, t)
  {
    PhaseSends(VcpuMessages(u.vcpus), VcpuComplete, [Await(Complete)], t);
    SentByFirst([Await(Complete)], Await(Complete), []);
    PhaseSends(u.devices + DirtyMessages(u.dma), DirtyMemoryFromDmaComplete, [Await(DeviceComplete)] + SaveVcpus(u), t);
    SentByFirst([Await(DeviceComplete)] + SaveVcpus(u), Await(DeviceComplete), SaveVcpus(u));
    OnlyJoin(u.devices, DirtyMessages(u.dma), t);
  }

  lemma PostSaveSends(u: Setup, t: string)
    ensures Only(SentBy(PostSaveScript(u)), t) == PostSent(u, t)
  {
    DevicesSend(u, t);
    PhaseSends(DirtyMessages(u.listener), DirtyMemoryFromListenerComplete, SaveDevices(u), t);
    PhaseSends(DirtyMessages(u.kvm), DirtyMemoryFromKvmComplete, SaveListener(u), t);
    PhaseSends(ImageMessages(u.images), ImageComplete, SaveKvm(u), t);
  }

  lemma SaveSends(u: Setup, t: string)
    ensures Only(SentBy(SaveScript(u)), t) == Sent(u, t)
  {
    PostSaveSends(u, t);
    PhaseSends([u.bios] + u.ram, RamComplete, PostSaveScript(u), t);
    PhaseSends(BackingMessages(u.images), BackingImageComplete, SaveRam(u), t);
  }

  lemma MemoryOnly(u: Setup, t: string)
    requires u.bios.tag == BIOS && forall i :: 0 <= i < |u.ram| ==> u.ram[i].tag == RAM
    ensures Only([u.bios] + u.ram, t) == OfMemory(u, t)
  {
    OnlyJoin([u.bios], u.ram, t);
    assert [u.bios][1..] == [];
    if t == RAM {
      OnlyOfTag(u.ram, t);
    } else {
      OnlyOfOthers(u.ram, t);
    }
  }

  lemma ImagesOnly(u: Setup, t: string)
    requires AllTravel(u.images) && forall i :: 0 <= i < |u.images| ==> u.images[i].data.tag == IMAGE
    ensures Only(ImageMessages(u.images), t) == OfImages(u.images, t)
  {
    ImageOnly(u.images);
    if t == IMAGE {
      OnlyOfTag(ImageMessages(u.images), t);
    } else {
      OnlyOfOthers(ImageMessages(u.images), t);
    }
  }

  /** The script sends the state of the machine. */
  lemma ScriptCarries(closes: Closing, u: Setup, t: string)
    requires WellTagged(closes, u) && AllTravel(u.images)
    ensures Only(SentBy(SaveScript(u)), t) == Expected(u, t)
  {
    SaveSends(u, t);
    BackingOnly(closes, u.images, t);
    MemoryOnly(u, t);
    ImagesOnly(u, t);
    BlockOnly(closes, u.kvm.items, u.kvm.close, DIRTY_DESCRIPTOR, DIRTY_MEMORY, t);
    BlockOnly(closes, u.listener.items, u.listener.close, DIRTY_DESCRIPTOR, DIRTY_MEMORY, t);
    BlockOnly(closes, u.dma.items, u.dma.close, DIRTY_DESCRIPTOR, DIRTY_MEMORY, t);
    VcpuOnly(u.vcpus, t);
  }

  lemma TagLengths()
    ensures |BIOS| == 4 && |RAM| == 3 && |IMAGE| == 5 && |CURRENT| == 7 && |DEFAULT| == 7 && CURRENT != DEFAULT
    ensures |IMAGE_DESCRIPTOR| == 16 && |BACKING_IMAGE| == 13 && |DIRTY_DESCRIPTOR| == 23 && |DIRTY_MEMORY| == 12
  {
    assert CURRENT[0] == 'C' && DEFAULT[0] == 'D';
  }

  /** No two tags are the same, so each has its own part; a device that used such a tag would come after
      the memory and the images and before the vCPUs. */
  lemma ExpectedByTag(u: Setup)
    ensures Expected(u, IMAGE_DESCRIPTOR) == AllListings(u.images) + Only(u.devices, IMAGE_DESCRIPTOR)
    ensures Expected(u, BACKING_IMAGE) == AllBodies(u.images) + Only(u.devices, BACKING_IMAGE)
    ensures Expected(u, BIOS) == [u.bios] + Only(u.devices, BIOS)
    ensures Expected(u, RAM) == u.ram + Only(u.devices, RAM)
    ensures Expected(u, IMAGE) == seq(|u.images|, i requires 0 <= i < |u.images| => u.images[i].data) + Only(u.devices, IMAGE)
    ensures Expected(u, CURRENT) == Only(u.devices, CURRENT) + seq(|u.vcpus|, i requires 0 <= i < |u.vcpus| => u.vcpus[i].current)
    ensures Expected(u, DEFAULT) == Only(u.devices, DEFAULT) + seq(|u.vcpus|, i requires 0 <= i < |u.vcpus| => u.vcpus[i].default_)
    ensures Only(u.devices, DIRTY_DESCRIPTOR) == [] ==>
      Expected(u, DIRTY_DESCRIPTOR) == Listing(u.kvm) + (Listing(u.listener) + Listing(u.dma))
    ensures Only(u.devices, DIRTY_MEMORY) == [] ==>
      Expected(u, DIRTY_MEMORY) == Bodies(u.kvm.items) + (Bodies(u.listener.items) + Bodies(u.dma.items))
  {
    TagLengths();
  }

  // ---------------------------------------------------------------- the whole migration

  /** Both machines at the start. */
  function Start(u: Setup, q: Plan): State {
    State(SaveScript(u), false, LoadProgram(q), [], map[], [], [])
  }

  /** Messages carry the tags their senders give them. */
  ghost predicate WellTagged(closes: Closing, u: Setup) {
    && (forall i :: 0 <= i < |u.images| ==>
          BlockOk(closes, u.images[i].backing, IMAGE_DESCRIPTOR, BACKING_IMAGE) && u.images[i].data.tag == IMAGE)
    && u.bios.tag == BIOS && (forall i :: 0 <= i < |u.ram| ==> u.ram[i].tag == RAM)
    && BlockOk(closes, u.kvm, DIRTY_DESCRIPTOR, DIRTY_MEMORY)
    && BlockOk(closes, u.listener, DIRTY_DESCRIPTOR, DIRTY_MEMORY)
    && BlockOk(closes, u.dma, DIRTY_DESCRIPTOR, DIRTY_MEMORY)
    && Only(u.devices, DIRTY_DESCRIPTOR) == [] && Only(u.devices, DIRTY_MEMORY) == []
    && (forall i :: 0 <= i < |u.vcpus| ==> u.vcpus[i].current.tag == CURRENT && u.vcpus[i].default_.tag == DEFAULT)
  }

  /** The target is built like the source, and per tag its devices read as many messages as are sent. */
  ghost predicate Alike(u: Setup, q: Plan) {
    && q.images == |u.images| && q.pages == |u.ram| && q.vcpus == |u.vcpus| && Balanced(q.devices, u.devices)
  }

  ghost predicate AllTravel(images: seq<Image>) {
    forall i :: 0 <= i < |images| ==> !images[i].readonly && images[i].snapshot
  }

  lemma {:induction false} ImageTags(images: seq<Image>)
    requires forall i :: 0 <= i < |images| ==> images[i].data.tag == IMAGE
    ensures |ImageMessages(images)| <= |images| && TagsOf(ImageMessages(images)) == Repeat(IMAGE, |ImageMessages(images)|)
    ensures |ImageMessages(images)| == |images| <==> AllTravel(images)
  {
    if images != [] {
      ImageTags(images[1..]);
      var ms := ImageMessages(images[1..]);
      assert forall i :: 0 <= i < |ms| ==> ms[i].tag == TagsOf(ms)[i] == IMAGE;
      if AllTravel(images[1..]) && Travels(images[0]) {
        forall i | 0 <= i < |images|
          ensures Travels(images[i])
        {
          assert i == 0 || images[i] == images[1..][i - 1];
        }
      }
      if AllTravel(images) {
        assert forall i :: 0 <= i < |images[1..]| ==> images[1..][i] == images[i + 1];
      }
    }
  }

  lemma {:induction false} CountOfRepeat(t: string, n: nat)
    ensures Count(Repeat(t, n), t) == n
  {
    if n > 0 {
      assert Repeat(t, n)[1..] == Repeat(t, n - 1);
      CountOfRepeat(t, n - 1);
    }
  }

  /** The images are all read exactly if none is passed over. */
  lemma ImagesAreEatenIff(closes: Closing, images: seq<Image>)
    requires forall i :: 0 <= i < |images| ==> images[i].data.tag == IMAGE
    ensures Silent(RecvAll(Repeat(IMAGE, |images|)))
    ensures Eat(closes, RecvAll(Repeat(IMAGE, |images|)), ImageMessages(images)) == if AllTravel(images) then Some([]) else None
  {
    var ms := ImageMessages(images);
    ImageTags(images);
    ReadsInOrder(closes, ms);
    if !AllTravel(images) {
      ReadsSucceedIff(closes, Repeat(IMAGE, |images|), ms);
      CountOfTags(ms, IMAGE);
      CountOfRepeat(IMAGE, |images|);
      CountOfRepeat(IMAGE, |ms|);
      assert Count(Repeat(IMAGE, |images|), IMAGE) > |Only(ms, IMAGE)|;
    }
  }

  /** Save: up to RamComplete. */
  lemma SaveRuns(closes: Closing, u: Setup, q: Plan) returns (r: State)
    requires WellTagged(closes, u) && Alike(u, q)
    ensures Leads(closes, Start(u, q), r) && Quiet(r) && r.script == PostSaveScript(u) && r.prog == LoadImages(q)
  {
    var s := Start(u, q);
    BackingIsEaten(closes, u.images);
    var a := Phase(closes, s, BackingMessages(u.images), BackingLoops(q.images), BackingImageComplete, SaveRam(u), LoadRam(q));
    var ms := [u.bios] + u.ram;
    assert TagsOf(ms) == [BIOS] + Repeat(RAM, q.pages);
    ReadsInOrder(closes, ms);
    r := Phase(closes, a, ms, RecvAll([BIOS] + Repeat(RAM, q.pages)), RamComplete, PostSaveScript(u), LoadImages(q));
    LeadsOn(closes, s, a, r);
  }

  /** PostSave, up to the memory that devices do not touch. */
  lemma PostSaveRuns(closes: Closing, u: Setup, q: Plan, s: State) returns (r: State)
    requires WellTagged(closes, u) && Alike(u, q) && AllTravel(u.images)
    requires Quiet(s) && s.script == PostSaveScript(u) && s.prog == LoadImages(q)
    ensures Leads(closes, s, r) && Quiet(r) && r.script == SaveDevices(u) && r.prog == LoadDma(q)
  {
    ImagesAreEatenIff(closes, u.images);
    var a := Phase(closes, s, ImageMessages(u.images), RecvAll(Repeat(IMAGE, q.images)), ImageComplete, SaveKvm(u), LoadKvm(q));
    DirtyIsEaten(closes, u.kvm, []);
    assert [] + DirtyMessages(u.kvm) == DirtyMessages(u.kvm);
    var b := Phase(closes, a, DirtyMessages(u.kvm), DirtyLoop(), DirtyMemoryFromKvmComplete, SaveListener(u), LoadListener(q));
    LeadsOn(closes, s, a, b);
    DirtyIsEaten(closes, u.listener, []);
    assert [] + DirtyMessages(u.listener) == DirtyMessages(u.listener);
    r := Phase(closes, b, DirtyMessages(u.listener), DirtyLoop(), DirtyMemoryFromListenerComplete, SaveDevices(u), LoadDma(q));
    LeadsOn(closes, s, b, r);
  }

  /** Device states are sent before the DMA memory and read after it, out of the cache. */
  lemma DevicesRun(closes: Closing, u: Setup, q: Plan, s: State) returns (r: State)
    requires WellTagged(closes, u) && Alike(u, q) && Quiet(s) && s.script == SaveDevices(u) && s.prog == LoadDma(q)
    ensures Leads(closes, s, r) && Quiet(r) && r.script == SaveVcpus(u) && r.prog == LoadVcpus(q)
  {
    var ms := u.devices + DirtyMessages(u.dma);
    var script := [Await(DeviceComplete)] + SaveVcpus(u);
    DirtyIsEaten(closes, u.dma, u.devices);
    var a := Delivered(closes, s, ms, [Await(DirtyMemoryFromDmaComplete)] + script);
    var b := TargetEats(closes, a, DirtyLoop(), [Tell(DirtyMemoryFromDmaComplete)] + LoadDevices(q), ms);
    LeadsOn(closes, s, a, b);
    var c := Signalled(closes, b, DirtyMemoryFromDmaComplete, script, LoadDevices(q));
    LeadsOn(closes, s, b, c);
    ReadsSucceedIff(closes, q.devices, u.devices);
    var d := TargetEats(closes, c, RecvAll(q.devices), [Tell(DeviceComplete)] + LoadVcpus(q), u.devices);
    LeadsOn(closes, s, c, d);
    StoredNothing(d);
    r := Signalled(closes, d, DeviceComplete, SaveVcpus(u), LoadVcpus(q));
    LeadsOn(closes, s, d, r);
  }

  lemma VcpusRun(closes: Closing, u: Setup, q: Plan, s: State) returns (r: State)
    requires WellTagged(closes, u) && Alike(u, q) && Quiet(s) && s.script == SaveVcpus(u) && s.prog == LoadVcpus(q)
    ensures Leads(closes, s, r) && Quiet(r) && r.script == [] && r.prog == []
  {
    VcpusAreEaten(closes, u.vcpus);
    var a := Phase(closes, s, VcpuMessages(u.vcpus), RecvAll(VcpuTags(q.vcpus)), VcpuComplete, [Await(Complete)], [Tell(Complete)]);
    assert a.script == [Await(Complete)] + [] && a.prog == [Tell(Complete)] + [];
    r := Signalled(closes, a, Complete, [], []);
    LeadsOn(closes, s, a, r);
  }

  /** Both sides came to their end, and nothing is left in the channels or in the cache. */
  ghost predicate Completed(s: State) {
    Quiet(s) && s.script == [] && s.prog == []
  }

  lemma SomeRunCompletes(closes: Closing, u: Setup, q: Plan) returns (f: State)
    requires WellTagged(closes, u) && Alike(u, q) && AllTravel(u.images)
    ensures Leads(closes, Start(u, q), f) && Completed(f)
  {
    var s := Start(u, q);
    var a := SaveRuns(closes, u, q);
    var b := PostSaveRuns(closes, u, q, a);
    LeadsOn(closes, s, a, b);
    var c := DevicesRun(closes, u, q, b);
    LeadsOn(closes, s, b, c);
    f := VcpusRun(closes, u, q, c);
    LeadsOn(closes, s, c, f);
  }

  lemma SomeRunHangs(closes: Closing, u: Setup, q: Plan) returns (f: State)
    requires WellTagged(closes, u) && Alike(u, q) && !AllTravel(u.images)
    ensures Leads(closes, Start(u, q), f) && Stuck(closes, f) && f.script == [Await(ImageComplete)] + SaveKvm(u) && f.prog != []
  {
    var a := SaveRuns(closes, u, q);
    ImagesAreEatenIff(closes, u.images);
    f := PhaseHangs(closes, a, ImageMessages(u.images), RecvAll(Repeat(IMAGE, q.images)), ImageComplete, SaveKvm(u), [Tell(ImageComplete)] + LoadKvm(q));
    LeadsOn(closes, Start(u, q), a, f);
  }

  /** A run of the two machines, step by step in any interleaving. */
  ghost predicate Migration(closes: Closing, u: Setup, q: Plan, states: seq<State>) {
    Confluence.Run(SourceNext, Target(closes), states) && states[0] == Start(u, q)
  }

  /** Between machines built alike, no image being passed over, every interleaving completes: no run is
      longer than a bound, a run that cannot go on has both sides at their end, no signal mismatched,
      nothing left in the channels or the cache, and the target read, tag by tag and in this order, the
      state of the machine: backing files, BIOS, RAM, images, dirty memory, devices and vCPUs. */
  lemma EveryMigrationCompletes(closes: Closing, u: Setup, q: Plan) returns (bound: nat)
    requires WellTagged(closes, u) && Alike(u, q) && AllTravel(u.images)
    ensures forall states: seq<State> :: Migration(closes, u, q, states) ==> |states| - 1 <= bound
    ensures forall states: seq<State> :: Migration(closes, u, q, states) && Stuck(closes, states[|states| - 1]) ==>
      && Completed(states[|states| - 1])
      && forall t :: Only(states[|states| - 1].log, t) == Expected(u, t)
  {
    var f := SomeRunCompletes(closes, u, q);
    bound :| Confluence.Reaches(SourceNext, Target(closes), Start(u, q), bound, f);
    SidesCommute(closes);
    assert Stuck(closes, f);
    forall states: seq<State> | Migration(closes, u, q, states)
      ensures |states| - 1 <= bound
      ensures Stuck(closes, states[|states| - 1]) ==> states[|states| - 1] == f
      ensures Stuck(closes, states[|states| - 1]) ==> forall t :: Only(f.log, t) == Expected(u, t)
    {
      Confluence.EveryRunEndsTheSame(SourceNext, Target(closes), states, bound, f);
      forall t | Stuck(closes, states[|states| - 1])
        ensures Only(f.log, t) == Expected(u, t)
      {
        ScriptCarries(closes, u, t);
        RunConserves(closes, states, |states| - 1, t);
        NothingPendingAtStart(u, q, t);
        NothingPendingAtEnd(f, t);
      }
    }
  }

  /** Both sides go through the same nine signals. */
  lemma NineSignals(u: Setup, q: Plan)
    ensures Awaits(SaveScript(u)) == Tells(LoadProgram(q)) ==
      [BackingImageComplete, RamComplete, ImageComplete, DirtyMemoryFromKvmComplete, DirtyMemoryFromListenerComplete,
       DirtyMemoryFromDmaComplete, DeviceComplete, VcpuComplete, Complete]
  {
    NineAwaited(u);
    NineTold(q);
  }

  lemma NineAwaited(u: Setup)
    ensures Awaits(SaveScript(u)) ==
      [BackingImageComplete, RamComplete, ImageComplete, DirtyMemoryFromKvmComplete, DirtyMemoryFromListenerComplete,
       DirtyMemoryFromDmaComplete, DeviceComplete, VcpuComplete, Complete]
  {
    KvmAwaits(u);
    AwaitsOfSends(ImageMessages(u.images), ImageComplete, SaveKvm(u));
    AwaitsOfSends([u.bios] + u.ram, RamComplete, PostSaveScript(u));
    AwaitsOfSends(BackingMessages(u.images), BackingImageComplete, SaveRam(u));
  }

  lemma KvmAwaits(u: Setup)
    ensures Awaits(SaveKvm(u)) ==
      [DirtyMemoryFromKvmComplete, DirtyMemoryFromListenerComplete, DirtyMemoryFromDmaComplete, DeviceComplete, VcpuComplete, Complete]
  {
    DevicesAwait(u);
    AwaitsOfSends(DirtyMessages(u.listener), DirtyMemoryFromListenerComplete, SaveDevices(u));
    AwaitsOfSends(DirtyMessages(u.kvm), DirtyMemoryFromKvmComplete, SaveListener(u));
  }

  lemma DevicesAwait(u: Setup)
    ensures Awaits(SaveDevices(u)) == [DirtyMemoryFromDmaComplete, DeviceComplete, VcpuComplete, Complete]
  {
    AwaitsFirst(Complete, []);
    AwaitsOfSends(VcpuMessages(u.vcpus), VcpuComplete, [Await(Complete)]);
    AwaitsFirst(DeviceComplete, SaveVcpus(u));
    AwaitsOfSends(u.devices + DirtyMessages(u.dma), DirtyMemoryFromDmaComplete, [Await(DeviceComplete)] + SaveVcpus(u));
  }

  lemma AwaitsFirst(g: Signal, more: seq<SourceOp>)
    ensures Awaits([Await(g)] + more) == [g] + Awaits(more)
  {
    assert ([Await(g)] + more)[1..] == more;
  }

  lemma NineTold(q: Plan)
    ensures Tells(LoadProgram(q)) ==
      [BackingImageComplete, RamComplete, ImageComplete, DirtyMemoryFromKvmComplete, DirtyMemoryFromListenerComplete,
       DirtyMemoryFromDmaComplete, DeviceComplete, VcpuComplete, Complete]
  {
    KvmTells(q);
    TellsOfPhase(RecvAll(Repeat(IMAGE, q.images)), ImageComplete, LoadKvm(q));
    TellsOfPhase(RecvAll([BIOS] + Repeat(RAM, q.pages)), RamComplete, LoadImages(q));
    TellsOfPhase(BackingLoops(q.images), BackingImageComplete, LoadRam(q));
  }

  lemma KvmTells(q: Plan)
    ensures Tells(LoadKvm(q)) ==
      [DirtyMemoryFromKvmComplete, DirtyMemoryFromListenerComplete, DirtyMemoryFromDmaComplete, DeviceComplete, VcpuComplete, Complete]
  {
    DevicesTell(q);
    TellsOfPhase(DirtyLoop(), DirtyMemoryFromDmaComplete, LoadDevices(q));
    TellsOfPhase(DirtyLoop(), DirtyMemoryFromListenerComplete, LoadDma(q));
    TellsOfPhase(DirtyLoop(), DirtyMemoryFromKvmComplete, LoadListener(q));
  }

  lemma DevicesTell(q: Plan)
    ensures Tells(LoadDevices(q)) == [DeviceComplete, VcpuComplete, Complete]
  {
    assert [Tell(Complete)][1..] == [];
    TellsOfPhase(RecvAll(VcpuTags(q.vcpus)), VcpuComplete, [Tell(Complete)]);
    TellsOfPhase(RecvAll(q.devices), DeviceComplete, LoadVcpus(q));
  }

  lemma NothingPendingAtStart(u: Setup, q: Plan, t: string)
    ensures Account(Start(u, q), t) == Only(SentBy(SaveScript(u)), t) && Tidy(Start(u, q).cache)
  {
  }

  lemma NothingPendingAtEnd(f: State, t: string)
    requires Completed(f)
    ensures Account(f, t) == Only(f.log, t)
  {
  }

  /** With a read-only image, or one that is no snapshot, which the source does not send but the target
      reads, no interleaving completes: no run is longer than a bound, and every run that cannot go on
      has the source waiting for ImageComplete. */
  lemma SkippedImageHangs(closes: Closing, u: Setup, q: Plan) returns (bound: nat)
    requires WellTagged(closes, u) && Alike(u, q) && !AllTravel(u.images)
    ensures forall states: seq<State> :: Migration(closes, u, q, states) ==> |states| - 1 <= bound
    ensures forall states: seq<State> :: Migration(closes, u, q, states) && Stuck(closes, states[|states| - 1]) ==>
      states[|states| - 1].script == [Await(ImageComplete)] + SaveKvm(u) && !Completed(states[|states| - 1])
  {
    var f := SomeRunHangs(closes, u, q);
    bound :| Confluence.Reaches(SourceNext, Target(closes), Start(u, q), bound, f);
    SidesCommute(closes);
    forall states: seq<State> | Migration(closes, u, q, states)
      ensures |states| - 1 <= bound
      ensures Stuck(closes, states[|states| - 1]) ==> states[|states| - 1] == f
    {
      Confluence.EveryRunEndsTheSame(SourceNext, Target(closes), states, bound, f);
    }
  }
}
