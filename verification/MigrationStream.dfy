/** The migration stream: tagged messages over one socket, with a cache for messages that arrive
    before they are asked for.
 */
module MigrationStream {
  import opened Common

  type Byte = bv8

  datatype Message = Message(tag: string, body: seq<Byte>)

  /** What goes over the wire: a header struct, or one byte of a body. */
  datatype Cell = Hdr(tag: string, size: nat) | Dat(b: Byte)

  const TAG_SIZE: nat := 24
  const PAGE_SIZE: nat := 4096

  function Data(body: seq<Byte>): seq<Cell> {
    seq(|body|, i requires 0 <= i < |body| => Dat(body[i]))
  }

  function Frame(m: Message): seq<Cell> {
    [Hdr(m.tag, |m.body|)] + Data(m.body)
  }

  function Encode(ms: seq<Message>): seq<Cell> {
    if ms == [] then [] else Frame(ms[0]) + Encode(ms[1..])
  }

  lemma {:induction false} EncodeJoin(a: seq<Message>, b: seq<Message>)
    ensures Encode(a + b) == Encode(a) + Encode(b)
  {
    if a == [] {
      assert a + b == b;
    } else {
      assert (a + b)[1..] == a[1..] + b;
      EncodeJoin(a[1..], b);
    }
  }

  // ---------------------------------------------------------------- what is still to be read

  type Cache = map<string, seq<Message>>

  /** The messages with tag `t`, in order. */
  function Only(ms: seq<Message>, t: string): seq<Message> {
    if ms == [] then []
    else (if ms[0].tag == t then [ms[0]] else []) + Only(ms[1..], t)
  }

  lemma {:induction false} OnlyJoin(a: seq<Message>, b: seq<Message>, t: string)
    ensures Only(a + b, t) == Only(a, t) + Only(b, t)
  {
    if a == [] {
      assert a + b == b;
    } else {
      assert (a + b)[1..] == a[1..] + b;
      OnlyJoin(a[1..], b, t);
    }
  }

  /** The messages of a tag, in order, and no others. */
  lemma {:induction false} OnlyNext(ms: seq<Message>, t: string, i: nat)
    requires i < |ms|
    ensures Only(ms[..i + 1], t) == if ms[i].tag == t then Only(ms[..i], t) + [ms[i]] else Only(ms[..i], t)
  {
    assert ms[..i + 1] == ms[..i] + [ms[i]];
    OnlyJoin(ms[..i], [ms[i]], t);
    assert [ms[i]][1..] == [];
  }

  lemma {:induction false} OnlyOfTag(ms: seq<Message>, t: string)
    requires forall i :: 0 <= i < |ms| ==> ms[i].tag == t
    ensures Only(ms, t) == ms
  {
    if ms != [] {
      OnlyOfTag(ms[1..], t);
    }
  }

  lemma {:induction false} OnlyOfOthers(ms: seq<Message>, t: string)
    requires forall i :: 0 <= i < |ms| ==> ms[i].tag != t
    ensures Only(ms, t) == []
  {
    if ms != [] {
      OnlyOfOthers(ms[1..], t);
    }
  }

  function Cached(c: Cache, t: string): seq<Message> {
    if t in c then c[t] else []
  }

  /** Messages with tag `t` not read yet: those cached, then those on the wire. */
  function Pending(c: Cache, ms: seq<Message>, t: string): seq<Message> {
    Cached(c, t) + Only(ms, t)
  }

  /** No queue is empty, and each holds messages of its own tag. */
  ghost predicate Tidy(c: Cache) {
    forall t :: t in c ==> c[t] != [] && forall i :: 0 <= i < |c[t]| ==> c[t][i].tag == t
  }

  /** cache_map_[tag].push. */
  function Push(c: Cache, m: Message): Cache {
    c[m.tag := Cached(c, m.tag) + [m]]
  }

  /** Caching the next message of the wire changes nothing of what is pending. */
  lemma PushKeepsPending(c: Cache, ms: seq<Message>, t: string)
    requires ms != []
    ensures Pending(Push(c, ms[0]), ms[1..], t) == Pending(c, ms, t)
  {
  }

  lemma PushIsTidy(c: Cache, m: Message)
    requires Tidy(c)
    ensures Tidy(Push(c, m))
  {
  }

  // ---------------------------------------------------------------- the writer

  class NetworkWriter {
    var wire: seq<Cell>
    ghost var sent: seq<Message>

    ghost predicate Valid()
      reads this
    {
      wire == Encode(sent)
    }

    constructor ()
      ensures Valid() && sent == []
    {
      wire, sent := [], [];
    }

    /** The tag must fit its field, as the original asserts. */
    method WriteRaw(tag: string, data: seq<Byte>)
      requires Valid() && |tag| < TAG_SIZE
      modifies this
      ensures Valid() && sent == old(sent) + [Message(tag, data)]
    {
      ghost var m := Message(tag, data);
      EncodeJoin(sent, [m]);
      assert [m][1..] == [];
      wire := wire + [Hdr(tag, |data|)];
      if |data| > 0 {
        wire := wire + Data(data);
      }
      sent := sent + [m];
      assert wire == old(wire) + Frame(m);
      assert Encode([m]) == Frame(m);
    }

    /** Pages of zeros are sent without a body. */
    method WriteMemoryPages(tag: string, pages: seq<Byte>)
      requires Valid() && |tag| < TAG_SIZE && |pages| % PAGE_SIZE == 0
      modifies this
      ensures Valid() && sent == old(sent) + PageMessages(tag, pages)
    {
      var pos := 0;
      while pos < |pages|
        invariant pos <= |pages| && pos % PAGE_SIZE == 0 && Valid()
        invariant sent + PageMessages(tag, pages[pos..]) == old(sent) + PageMessages(tag, pages)
      {
        var page := pages[pos..pos + PAGE_SIZE];
        var zero := TestZero(page);
        ghost var before, m := sent, PageMessage(tag, page);
        if zero {
          WriteRaw(tag, []);
        } else {
          WriteRaw(tag, page);
        }
        NextPage(tag, pages, pos, before, m);
        pos := pos + PAGE_SIZE;
      }
      assert pages[pos..] == [];
    }
  }

  // ---------------------------------------------------------------- pages

  ghost predicate AllZero(s: seq<Byte>) {
    forall i :: 0 <= i < |s| ==> s[i] == 0
  }

  ghost function PageMessage(tag: string, page: seq<Byte>): Message {
    Message(tag, if AllZero(page) then [] else page)
  }

  ghost function PageMessages(tag: string, pages: seq<Byte>): seq<Message>
    requires |pages| % PAGE_SIZE == 0
  {
    if pages == [] then []
    else [PageMessage(tag, pages[..PAGE_SIZE])] + PageMessages(tag, pages[PAGE_SIZE..])
  }

  lemma NextPage(tag: string, pages: seq<Byte>, pos: nat, before: seq<Message>, m: Message)
    requires |pages| % PAGE_SIZE == 0 && pos % PAGE_SIZE == 0 && pos < |pages|
    ensures pos + PAGE_SIZE <= |pages| && (pos + PAGE_SIZE) % PAGE_SIZE == 0
    ensures m == PageMessage(tag, pages[pos..pos + PAGE_SIZE]) ==>
      (before + [m]) + PageMessages(tag, pages[pos + PAGE_SIZE..]) == before + PageMessages(tag, pages[pos..])
  {
    var rest := pages[pos..];
    assert rest[..PAGE_SIZE] == pages[pos..pos + PAGE_SIZE];
    assert rest[PAGE_SIZE..] == pages[pos + PAGE_SIZE..];
  }

  const BLOCK: nat := 256
  const LANES: nat := 32

  /** Lane `i` of the eight vectors of the block at `b`, or-ed together. */
  function Lane(s: seq<Byte>, b: nat, i: nat): Byte
    requires b + BLOCK <= |s| && i < LANES
  {
    s[b + i] | s[b + 32 + i] | s[b + 64 + i] | s[b + 96 + i] | s[b + 128 + i] | s[b + 160 + i] | s[b + 192 + i] | s[b + 224 + i]
  }

  lemma OrIsZero(a: Byte, b: Byte, c: Byte, d: Byte, e: Byte, f: Byte, g: Byte, h: Byte)
    ensures a | b | c | d | e | f | g | h == 0 <==>
      a == 0 && b == 0 && c == 0 && d == 0 && e == 0 && f == 0 && g == 0 && h == 0
  {
  }

  /** Byte `i` of vector `j` of the block at `b`. */
  function VectorByte(s: seq<Byte>, b: nat, j: nat, i: nat): Byte
    requires b + BLOCK <= |s| && j < 8 && i < LANES
  {
    s[b + LANES * j + i]
  }

  lemma LaneIsZero(s: seq<Byte>, b: nat, i: nat)
    requires b + BLOCK <= |s| && i < LANES
    ensures Lane(s, b, i) == 0 <==> forall j: nat :: j < 8 ==> VectorByte(s, b, j, i) == 0
  {
    OrIsZero(s[b + i], s[b + 32 + i], s[b + 64 + i], s[b + 96 + i], s[b + 128 + i], s[b + 160 + i], s[b + 192 + i], s[b + 224 + i]);
    assert VectorByte(s, b, 0, i) == s[b + i] && VectorByte(s, b, 1, i) == s[b + 32 + i];
    assert VectorByte(s, b, 2, i) == s[b + 64 + i] && VectorByte(s, b, 3, i) == s[b + 96 + i];
    assert VectorByte(s, b, 4, i) == s[b + 128 + i] && VectorByte(s, b, 5, i) == s[b + 160 + i];
    assert VectorByte(s, b, 6, i) == s[b + 192 + i] && VectorByte(s, b, 7, i) == s[b + 224 + i];
  }

  /** _mm256_testz_si256 of the or of the block's eight vectors. */
  predicate BlockTest(s: seq<Byte>, b: nat)
    requires b + BLOCK <= |s|
  {
    forall i: nat :: i < LANES ==> Lane(s, b, i) == 0
  }

  lemma BlockIsZero(s: seq<Byte>, b: nat)
    requires b + BLOCK <= |s|
    ensures BlockTest(s, b) <==> AllZero(s[b..b + BLOCK])
  {
    var block := s[b..b + BLOCK];
    forall i: nat | i < LANES
      ensures Lane(s, b, i) == 0 <==> forall j: nat :: j < 8 ==> VectorByte(s, b, j, i) == 0
    {
      LaneIsZero(s, b, i);
    }
    if BlockTest(s, b) {
      forall k | 0 <= k < |block|
        ensures block[k] == 0
      {
        assert Lane(s, b, k % LANES) == 0;
        assert VectorByte(s, b, k / LANES, k % LANES) == 0;
      }
    }
    if AllZero(block) {
      forall j: nat, i: nat | j < 8 && i < LANES
        ensures VectorByte(s, b, j, i) == 0
      {
        assert block[LANES * j + i] == 0;
      }
    }
  }

  /** The block-wise test of a buffer of whole blocks: true exactly if every byte is zero. */
  method TestZero(s: seq<Byte>) returns (zero: bool)
    requires |s| % BLOCK == 0
    ensures zero <==> AllZero(s)
  {
    var p := 0;
    while p < |s|
      invariant p <= |s| && p % BLOCK == 0 && AllZero(s[..p])
    {
      BlockIsZero(s, p);
      if !BlockTest(s, p) {
        NotAllZero(s, p);
        return false;
      }
      assert s[..p + BLOCK] == s[..p] + s[p..p + BLOCK];
      p := p + BLOCK;
    }
    assert s[..p] == s;
    return true;
  }

  lemma NotAllZero(s: seq<Byte>, p: nat)
    requires p + BLOCK <= |s| && !AllZero(s[p..p + BLOCK])
    ensures !AllZero(s)
  {
    var i :| 0 <= i < BLOCK && s[p..p + BLOCK][i] != 0;
    assert s[p + i] != 0;
  }

  // ---------------------------------------------------------------- the reader

  /** The result of a read. `Blocked`: everything sent was taken from the wire and the message is not
      among it, so the reader waits. `Panic`: an assertion of the original fails. */
  datatype Outcome<T> = Ok(value: T) | Blocked | Panic

  class NetworkReader {
    var wire: seq<Cell>
    var cache: Cache
    /** The messages still on the wire. */
    ghost var coming: seq<Message>

    /** The reader is at a message boundary and its cache is tidy. */
    ghost predicate Valid()
      reads this
    {
      wire == Encode(coming) && Tidy(cache)
    }

    constructor (ghost sent: seq<Message>, wire: seq<Cell>)
      requires wire == Encode(sent)
      ensures Valid() && cache == map[] && coming == sent
    {
      this.wire, cache, coming := wire, map[], sent;
    }

    method ReadFromCache(tag: string) returns (r: Option<Message>)
      requires Valid()
      modifies this`cache
      ensures Valid() && (r == None <==> tag !in old(cache)) && (r == None ==> cache == old(cache))
      ensures r.Some? ==> Cached(old(cache), tag) == [r.value] + Cached(cache, tag) && r.value.tag == tag
      ensures forall t :: t != tag ==> Cached(cache, t) == Cached(old(cache), t)
    {
      if tag !in cache {
        return None;
      }
      r := Some(cache[tag][0]);
      if |cache[tag]| == 1 {
        cache := cache - {tag};
      } else {
        cache := cache[tag := cache[tag][1..]];
      }
    }

    /** The next header with the given tag, everything before it cached. The body follows on the wire. */
    method WaitForDataHeader(tag: string) returns (r: Option<nat>, ghost m: Message)
      requires Valid() && tag !in cache
      modifies this
      ensures Tidy(cache) && tag !in cache
      ensures forall t :: t != tag ==> Pending(cache, coming, t) == Pending(old(cache), old(coming), t)
      ensures r == None ==> wire == [] && coming == [] && Only(old(coming), tag) == []
      ensures r.Some? ==> r.value == |m.body| && m.tag == tag && wire == Data(m.body) + Encode(coming)
      ensures r.Some? ==> Only(old(coming), tag) == [m] + Only(coming, tag)
    {
      m := Message("", []);
      while wire != []
        invariant Valid() && tag !in cache && Only(coming, tag) == Only(old(coming), tag)
        invariant forall t :: t != tag ==> Pending(cache, coming, t) == Pending(old(cache), old(coming), t)
        decreases |wire|
      {
        m := coming[0];
        assert wire == Frame(m) + Encode(coming[1..]);
        assert wire[1..] == Data(m.body) + Encode(coming[1..]);
        var header := wire[0];
        wire := wire[1..];
        if header.tag == tag {
          coming := coming[1..];
          return Some(header.size), m;
        }
        CacheNext(header, m);
      }
      return None, m;
    }

    /** The body of a message that is not wanted yet goes to the cache. */
    method CacheNext(header: Cell, ghost m: Message)
      requires coming != [] && m == coming[0] && header == Hdr(m.tag, |m.body|)
      requires wire == Data(m.body) + Encode(coming[1..]) && Tidy(cache)
      modifies this
      ensures Valid() && coming == old(coming)[1..] && cache == Push(old(cache), m) && |wire| <= |old(wire)|
      ensures forall t :: Pending(cache, coming, t) == Pending(old(cache), old(coming), t)
      ensures forall t :: t != m.tag ==> Only(coming, t) == Only(old(coming), t)
    {
      var body := TakeBody(header.size, m.body, coming[1..]);
      assert body == m.body && Data(m.body[|m.body|..]) == [];
      PushIsTidy(cache, m);
      forall t
        ensures Pending(Push(cache, m), coming[1..], t) == Pending(cache, coming, t)
      {
        PushKeepsPending(cache, coming, t);
      }
      cache := Push(cache, Message(header.tag, body));
      coming := coming[1..];
    }

    /** Read of `size` bytes. */
    method TakeBody(size: nat, ghost body: seq<Byte>, ghost rest: seq<Message>) returns (data: seq<Byte>)
      requires wire == Data(body) + Encode(rest) && size <= |body|
      modifies this`wire
      ensures data == body[..size] && wire == Data(body[size..]) + Encode(rest) && |wire| <= |old(wire)|
    {
      assert forall i :: 0 <= i < size ==> wire[i] == Dat(body[i]);
      data := seq(size, i requires 0 <= i < size && i < |wire| && wire[i].Dat? reads this => wire[i].b);
      wire := wire[size..];
      assert wire == Data(body[size..]) + Encode(rest);
    }

    /** The next message of a tag: the first one pending. */
    method ReadMessage(tag: string) returns (r: Outcome<seq<Byte>>)
      requires Valid()
      modifies this
      ensures Valid() && !r.Panic?
      ensures r.Blocked? <==> Pending(old(cache), old(coming), tag) == []
      ensures r.Ok? ==> Pending(old(cache), old(coming), tag) == [Message(tag, r.value)] + Pending(cache, coming, tag)
      ensures r.Blocked? ==> Pending(cache, coming, tag) == []
      ensures forall t :: t != tag ==> Pending(cache, coming, t) == Pending(old(cache), old(coming), t)
    {
      var hit := ReadFromCache(tag);
      if hit.Some? {
        return Ok(hit.value.body);
      }
      var size;
      ghost var m;
      size, m := WaitForDataHeader(tag);
      if size == None {
        return Blocked;
      }
      var data := TakeBody(size.value, m.body, coming);
      assert data == m.body && Data(m.body[|m.body|..]) == [];
      return Ok(data);
    }

    /** ReadRaw: the size must be the one that was sent. */
    method ReadRaw(tag: string, size: nat) returns (r: Outcome<seq<Byte>>)
      requires Valid()
      modifies this
      ensures r.Blocked? <==> Pending(old(cache), old(coming), tag) == []
      ensures r.Panic? <==> Pending(old(cache), old(coming), tag) != [] && |Pending(old(cache), old(coming), tag)[0].body| != size
      ensures Valid()
      ensures r.Ok? ==> Pending(old(cache), old(coming), tag) == [Message(tag, r.value)] + Pending(cache, coming, tag)
      ensures forall t :: t != tag ==> Pending(cache, coming, t) == Pending(old(cache), old(coming), t)
    {
      r := ReadMessage(tag);
      if r.Ok? && |r.value| != size {
        r := Panic;
      }
    }
  
    /** ReadRawWithLimit: at most `limit` bytes. What is left of a body on the wire is never skipped. */
    method ReadRawWithLimit(tag: string, limit: nat) returns (r: Outcome<seq<Byte>>)
      requires Valid() && limit > 0
      modifies this
      ensures r.Blocked? <==> Pending(old(cache), old(coming), tag) == []
      ensures r.Ok? ==> r.value == Cut(Pending(old(cache), old(coming), tag)[0].body, limit)
      ensures r.Ok? ==> (InSync(wire) <==> tag in old(cache) || |Pending(old(cache), old(coming), tag)[0].body| <= limit)
      ensures r.Ok? && InSync(wire) ==> Valid() && Pending(cache, coming, tag) == Pending(old(cache), old(coming), tag)[1..]
      ensures forall t :: t != tag ==> Pending(cache, coming, t) == Pending(old(cache), old(coming), t)
      ensures !r.Panic?
    {
      var hit := ReadFromCache(tag);
      if hit.Some? {
        assert wire == Encode(coming);
        return Ok(Cut(hit.value.body, limit));
      }
      assert Pending(cache, coming, tag) == Only(coming, tag);
      r := LimitedFromWire(tag, limit);
    }

    method LimitedFromWire(tag: string, limit: nat) returns (r: Outcome<seq<Byte>>)
      requires Valid() && limit > 0 && tag !in cache
      modifies this
      ensures if Only(old(coming), tag) == [] then r.Blocked? else r.Ok?
      ensures r.Ok? ==> r.value == Cut(Only(old(coming), tag)[0].body, limit)
      ensures r.Ok? ==> (InSync(wire) <==> |Only(old(coming), tag)[0].body| <= limit)
      ensures r.Ok? && InSync(wire) ==> Valid() && Pending(cache, coming, tag) == Only(old(coming), tag)[1..]
      ensures forall t :: t != tag ==> Pending(cache, coming, t) == Pending(old(cache), old(coming), t)
    {
      var size;
      ghost var m;
      size, m := WaitForDataHeader(tag);
      if size == None {
        return Blocked;
      }
      var data := TakeBody(if size.value < limit then size.value else limit, m.body, coming);
      LeftOver(m.body, limit, coming);
      return Ok(data);
    }

    /** ReadMemoryPages into fresh zeroed memory: all pages from the cache, or all from the wire. */
    method ReadMemoryPages(tag: string, count: nat) returns (r: Outcome<seq<Byte>>)
      requires Valid() && PageSized(Pending(cache, coming, tag))
      modifies this
      ensures r.Ok? ==> count <= |Pending(old(cache), old(coming), tag)|
      ensures r.Ok? ==> Valid() && r.value == Pages(Pending(old(cache), old(coming), tag)[..count])
      ensures r.Ok? ==> Pending(cache, coming, tag) == Pending(old(cache), old(coming), tag)[count..]
      ensures forall t :: t != tag ==> Pending(cache, coming, t) == Pending(old(cache), old(coming), t)
      ensures tag in old(cache) ==> if 0 < count <= |old(cache)[tag]| then r.Ok? else r.Panic?
      ensures tag !in old(cache) ==> if count <= |Only(old(coming), tag)| then r.Ok? else r.Blocked?
    {
      if tag in cache {
        r := PagesFromCache(tag, count);
      } else {
        assert Pending(cache, coming, tag) == Only(coming, tag);
        r := PagesFromWire(tag, count);
      }
    }

    method PagesFromCache(tag: string, count: nat) returns (r: Outcome<seq<Byte>>)
      requires Valid() && tag in cache
      modifies this`cache
      ensures if 0 < count <= |old(cache)[tag]| then r.Ok? else r.Panic?
      ensures r.Ok? ==> Valid() && r.value == Pages(Pending(old(cache), coming, tag)[..count])
      ensures r.Ok? ==> Pending(cache, coming, tag) == Pending(old(cache), coming, tag)[count..]
      ensures forall t :: t != tag ==> Cached(cache, t) == Cached(old(cache), t)
    {
      ghost var queue := cache[tag];
      ghost var taken := [];
      var pages, remain: int := [], count;
      var hit := ReadFromCache(tag);
      while true
        invariant Valid() && hit.Some? && remain == count - |taken| && (count == 0 || |taken| < count)
        invariant queue == taken + ([hit.value] + Cached(cache, tag)) && pages == Pages(taken)
        invariant forall t :: t != tag ==> Cached(cache, t) == Cached(old(cache), t)
        decreases |queue| - |taken|
      {
        PageTaken(queue, taken, hit.value, Cached(cache, tag));
        pages, taken := pages + Page(hit.value), taken + [hit.value];
        assert queue == taken + Cached(cache, tag) && pages == Pages(taken);
        remain := remain - 1;
        if remain == 0 {
          break;
        }
        hit := ReadFromCache(tag);
        if hit == None {
          assert |queue| == |taken|;
          return Panic;
        }
      }
      assert count == |taken| <= |queue|;
      Split(taken, Cached(cache, tag), Only(coming, tag));
      return Ok(pages);
    }

    /** A page after its header was read: fresh memory, overwritten if there is a body. */
    method TakePage(size: nat, ghost m: Message, ghost rest: seq<Message>) returns (page: seq<Byte>)
      requires size == |m.body| && (size == 0 || size == PAGE_SIZE) && wire == Data(m.body) + Encode(rest)
      modifies this`wire
      ensures page == Page(m) && wire == Encode(rest)
    {
      page := Zeros(PAGE_SIZE);
      if size > 0 {
        page := TakeBody(PAGE_SIZE, m.body, rest);
        assert m.body[..|m.body|] == m.body;
      }
      assert Data(m.body[|m.body|..]) == [] && Data([]) == [];
    }

    /** One turn of the loop that reads pages from the wire. */
    method WirePage(tag: string) returns (page: Option<seq<Byte>>, ghost m: Message)
      requires Valid() && tag !in cache && PageSized(Only(coming, tag))
      modifies this
      ensures Valid() && tag !in cache
      ensures forall t :: t != tag ==> Pending(cache, coming, t) == Pending(old(cache), old(coming), t)
      ensures page == None ==> Only(old(coming), tag) == []
      ensures page.Some? ==> Only(old(coming), tag) == [m] + Only(coming, tag) && page.value == Page(m)
    {
      var size;
      size, m := WaitForDataHeader(tag);
      if size == None {
        return None, m;
      }
      assert Only(old(coming), tag)[0] == m;
      var data := TakePage(size.value, m, coming);
      return Some(data), m;
    }

    method PagesFromWire(tag: string, count: nat) returns (r: Outcome<seq<Byte>>)
      requires Valid() && PageSized(Only(coming, tag)) && tag !in cache
      modifies this
      ensures if count <= |Only(old(coming), tag)| then r.Ok? else r.Blocked?
      ensures r.Ok? ==> Valid() && r.value == Pages(Only(old(coming), tag)[..count])
      ensures r.Ok? ==> Pending(cache, coming, tag) == Only(old(coming), tag)[count..]
      ensures forall t :: t != tag ==> Pending(cache, coming, t) == Pending(old(cache), old(coming), t)
    {
      ghost var queue := Only(coming, tag);
      ghost var taken := [];
      var pages, k := [], 0;
      while k < count
        invariant k == |taken| <= count && Valid() && tag !in cache && PageSized(queue)
        invariant queue == taken + Only(coming, tag) && pages == Pages(taken)
        invariant forall t :: t != tag ==> Pending(cache, coming, t) == Pending(old(cache), old(coming), t)
      {
        PageSizedTail(taken, Only(coming, tag));
        var page;
        ghost var m;
        page, m := WirePage(tag);
        if page == None {
          return Blocked;
        }
        PageTaken(queue, taken, m, Only(coming, tag));
        pages, taken, k := pages + page.value, taken + [m], k + 1;
      }
      Split(taken, Only(coming, tag), []);
      return Ok(pages);
    }
  }

  function Cut(body: seq<Byte>, limit: nat): seq<Byte> {
    if |body| <= limit then body else body[..limit]
  }

  /** The wire is at a message boundary. */
  ghost predicate InSync(wire: seq<Cell>) {
    exists ms :: wire == Encode(ms)
  }

  lemma LeftOver(body: seq<Byte>, limit: nat, rest: seq<Message>)
    ensures var n := if |body| < limit then |body| else limit;
      InSync(Data(body[n..]) + Encode(rest)) <==> |body| <= limit
    ensures |body| <= limit ==> Data(body[|body|..]) + Encode(rest) == Encode(rest)
  {
    if |body| <= limit {
      assert Data(body[|body|..]) + Encode(rest) == Encode(rest);
    } else {
      assert (Data(body[limit..]) + Encode(rest))[0].Dat?;
      assert forall ms :: Encode(ms) != [] ==> Encode(ms)[0].Hdr?;
    }
  }

  // ---------------------------------------------------------------- pages read back

  ghost predicate PageSized(ms: seq<Message>) {
    forall i :: 0 <= i < |ms| ==> |ms[i].body| == 0 || |ms[i].body| == PAGE_SIZE
  }

  function Zeros(n: nat): seq<Byte> {
    seq(n, _ => 0)
  }

  /** A page of fresh memory after the message was copied to it. */
  function Page(m: Message): seq<Byte> {
    if m.body == [] then Zeros(PAGE_SIZE) else m.body
  }

  function Pages(ms: seq<Message>): seq<Byte> {
    if ms == [] then [] else Pages(ms[..|ms| - 1]) + Page(ms[|ms| - 1])
  }

  lemma PageSizedTail(a: seq<Message>, b: seq<Message>)
    requires PageSized(a + b)
    ensures PageSized(b)
  {
    assert forall i :: 0 <= i < |b| ==> b[i] == (a + b)[|a| + i];
  }

  lemma Split(a: seq<Message>, b: seq<Message>, c: seq<Message>)
    ensures (a + b + c)[..|a|] == a && (a + b + c)[|a|..] == b + c
    ensures (a + b)[..|a|] == a && (a + b)[|a|..] == b
  {
  }

  lemma PageTaken(queue: seq<Message>, taken: seq<Message>, m: Message, rest: seq<Message>)
    requires queue == taken + ([m] + rest)
    ensures queue == (taken + [m]) + rest && Pages(taken + [m]) == Pages(taken) + Page(m)
  {
    assert (taken + [m])[..|taken|] == taken;
  }

  lemma {:induction false} PagesFirst(ms: seq<Message>)
    requires ms != []
    ensures Pages(ms) == Page(ms[0]) + Pages(ms[1..])
  {
    if |ms| > 1 {
      PagesFirst(ms[..|ms| - 1]);
      assert ms[..|ms| - 1][1..] == ms[1..][..|ms| - 2];
    }
  }

  lemma PageReadBack(tag: string, page: seq<Byte>)
    requires |page| == PAGE_SIZE
    ensures Page(PageMessage(tag, page)) == page && PageSized([PageMessage(tag, page)])
  {
  }

  lemma OnePageLess(n: nat)
    requires n >= PAGE_SIZE && n % PAGE_SIZE == 0
    ensures (n - PAGE_SIZE) % PAGE_SIZE == 0 && n / PAGE_SIZE == (n - PAGE_SIZE) / PAGE_SIZE + 1
  {
  }

  /** Sending memory page by page without the zero pages, and reading the messages into zeroed memory,
      reproduces the memory. */
  lemma {:induction false} PagesRoundTrip(tag: string, pages: seq<Byte>)
    requires |pages| % PAGE_SIZE == 0
    ensures var ms := PageMessages(tag, pages);
      |ms| == |pages| / PAGE_SIZE && PageSized(ms) && Pages(ms) == pages && Only(ms, tag) == ms
  {
    if pages != [] {
      var page, rest := pages[..PAGE_SIZE], pages[PAGE_SIZE..];
      OnePageLess(|pages|);
      PagesRoundTrip(tag, rest);
      PageReadBack(tag, page);
      var m, ms := PageMessage(tag, page), PageMessages(tag, rest);
      assert PageMessages(tag, pages) == [m] + ms;
      PagesFirst([m] + ms);
      assert ([m] + ms)[1..] == ms;
      assert pages == page + rest;
    }
  }

  /** The pages of a transfer stand first among what is pending: reading as many gives the memory. */
  lemma SentPagesReadBack(tag: string, pages: seq<Byte>, more: seq<Message>, pending: seq<Message>)
    requires |pages| % PAGE_SIZE == 0 && pending == PageMessages(tag, pages) + more
    ensures |pages| / PAGE_SIZE <= |pending| && Pages(pending[..|pages| / PAGE_SIZE]) == pages
    ensures PageSized(more) ==> PageSized(pending)
  {
    PagesRoundTrip(tag, pages);
    Split(PageMessages(tag, pages), more, []);
  }

  /** Memory sent page by page and read at the other end. */
  method SendMemory(tag: string, pages: seq<Byte>) returns (copy: seq<Byte>)
    requires |tag| < TAG_SIZE && |pages| % PAGE_SIZE == 0
    ensures copy == pages
  {
    var w := new NetworkWriter();
    w.WriteMemoryPages(tag, pages);
    PagesRoundTrip(tag, pages);
    assert w.sent == PageMessages(tag, pages);
    SentPagesReadBack(tag, pages, [], w.sent);
    var r := new NetworkReader(w.sent, w.wire);
    assert Pending(r.cache, r.coming, tag) == w.sent;
    var x := r.ReadMemoryPages(tag, |pages| / PAGE_SIZE);
    copy := x.value;
  }

  // ---------------------------------------------------------------- whole runs

  datatype Reading = Reading(cache: Cache, coming: seq<Message>)

  /** One successful read: message `m` was returned. */
  ghost predicate Reads(s: Reading, t: Reading, m: Message) {
    && Pending(s.cache, s.coming, m.tag) == [m] + Pending(t.cache, t.coming, m.tag)
    && forall u :: u != m.tag ==> Pending(t.cache, t.coming, u) == Pending(s.cache, s.coming, u)
  }

  ghost predicate ReadRun(states: seq<Reading>, got: seq<Message>) {
    |states| == |got| + 1 && forall i :: 0 <= i < |got| ==> Reads(states[i], states[i + 1], got[i])
  }

  lemma ReadsOne(s: Reading, t: Reading, m: Message, u: string)
    requires Reads(s, t, m)
    ensures Only([m], u) + Pending(t.cache, t.coming, u) == Pending(s.cache, s.coming, u)
  {
    assert [m][1..] == [];
  }

  lemma Regroup(a: seq<Message>, b: seq<Message>, c: seq<Message>)
    ensures (a + b) + c == a + (b + c)
  {
  }

  lemma {:induction false} ReadSoFar(states: seq<Reading>, got: seq<Message>, n: nat, t: string)
    requires ReadRun(states, got) && n <= |got|
    ensures Only(got[..n], t) + Pending(states[n].cache, states[n].coming, t) == Pending(states[0].cache, states[0].coming, t)
  {
    if n > 0 {
      var m := got[n - 1];
      ReadSoFar(states, got, n - 1, t);
      ReadsOne(states[n - 1], states[n], m, t);
      assert got[..n] == got[..n - 1] + [m];
      ReadJoins(got[..n - 1], m, t, Pending(states[n].cache, states[n].coming, t), Pending(states[0].cache, states[0].coming, t));
    }
  }

  lemma ReadJoins(before: seq<Message>, m: Message, t: string, left: seq<Message>, all: seq<Message>)
    requires Only(before, t) + (Only([m], t) + left) == all
    ensures Only(before + [m], t) + left == all
  {
    OnlyJoin(before, [m], t);
    Regroup(Only(before, t), Only([m], t), left);
  }

  /** Whatever the order of tags on the two sides, the messages read with a tag are the first ones
      sent with it, in order, and the others are all still pending: none is lost or read twice. */
  lemma PerTagFifo(states: seq<Reading>, got: seq<Message>, sent: seq<Message>, t: string)
    requires ReadRun(states, got) && states[0] == Reading(map[], sent)
    ensures Only(sent, t) == Only(got, t) + Pending(states[|got|].cache, states[|got|].coming, t)
  {
    ReadSoFar(states, got, |got|, t);
    assert got[..|got|] == got;
  }

  lemma FirstIsPending(ms: seq<Message>)
    requires ms != []
    ensures Only(ms, ms[0].tag) != []
  {
  }

  /** When as many messages were read with each tag as were sent, nothing is left anywhere. */
  lemma AllReadLeavesNothing(states: seq<Reading>, got: seq<Message>, sent: seq<Message>)
    requires ReadRun(states, got) && states[0] == Reading(map[], sent) && Tidy(states[|got|].cache)
    requires forall t :: |Only(got, t)| == |Only(sent, t)|
    ensures states[|got|].cache == map[] && states[|got|].coming == []
  {
    var last := states[|got|];
    forall t
      ensures Pending(last.cache, last.coming, t) == []
    {
      PerTagFifo(states, got, sent, t);
    }
    forall t
      ensures t !in last.cache && Only(last.coming, t) == []
    {
      assert Pending(last.cache, last.coming, t) == [];
    }
    if last.coming != [] {
      FirstIsPending(last.coming);
    }
    assert last.cache.Keys == {};
  }
}
