/**
  The buffer cache (bio.c) over the in-memory disk (memide.c).

  `View` is the logical disk: what the cache holds for a sector, or the disk's own
  contents where the cache holds nothing.  The cache never looks inside a block, so
  block contents are a type parameter.
 */
module Bcache {
  import opened LruList

  const NODEV: int := 0xFFFF_FFFF
  const DISKDEV: int := 1

  datatype Buf<D> = Buf(busy: bool, valid: bool, dirty: bool, dev: int, sector: int, data: D)

  /** Outcome of bget: a busy buffer, a wait on a buffer someone else holds, or the panic. */
  datatype Got = Found(b: int) | MustSleep(b: int) | NoBuffers

  /** Outcome of bread. */
  datatype Read = Ok(b: int) | Wait(b: int) | Panic

  // --------------------------------------------------- what the cache stands for

  predicate Holds<D>(x: Buf<D>, dev: int, sector: int) { x.dev == dev && x.sector == sector }

  predicate Free<D>(x: Buf<D>) { !x.busy && !x.dirty }

  /** A buffer with valid contents is a buffer of the disk, in range; a dirty one is valid;
      one that is neither busy nor dirty agrees with the disk. */
  ghost predicate Good<D>(x: Buf<D>, disk: seq<D>) {
    && 0 <= x.sector
    && (x.valid ==> x.dev == DISKDEV && x.sector < |disk|)
    && (x.dirty ==> x.valid)
    && (x.valid && Free(x) ==> x.data == disk[x.sector])
  }

  /** On a real device no two buffers hold the same sector. */
  ghost predicate Distinct<D>(bs: seq<Buf<D>>) {
    forall i, j :: 0 <= i < j < |bs| ==> Apart(bs, i, j)
  }

  ghost predicate Apart<D>(bs: seq<Buf<D>>, i: int, j: int)
    requires 0 <= i < |bs| && 0 <= j < |bs|
  {
    bs[i].dev == bs[j].dev != NODEV ==> bs[i].sector != bs[j].sector
  }

  /** The buffer that holds a sector of a real device is the only one. */
  lemma OnlyHolder<D>(bs: seq<Buf<D>>, dev: int, sector: int, i: int, j: int)
    requires Distinct(bs) && 0 <= i < |bs| && 0 <= j < |bs| && dev != NODEV
    requires Holds(bs[i], dev, sector) && Holds(bs[j], dev, sector)
    ensures i == j
  {
    assert i < j ==> Apart(bs, i, j);
    assert j < i ==> Apart(bs, j, i);
  }

  lemma DistinctAfter<D>(bs: seq<Buf<D>>, b: int, x: Buf<D>)
    requires Distinct(bs) && 0 <= b < |bs|
    requires Holds(bs[b], x.dev, x.sector) || forall i :: 0 <= i < |bs| ==> !Holds(bs[i], x.dev, x.sector)
    ensures Distinct(bs[b := x])
  {
    var cs := bs[b := x];
    forall i, j | 0 <= i < j < |cs|
      ensures Apart(cs, i, j)
    {
      assert Apart(bs, i, j);
    }
  }

  ghost predicate Sound<D>(bs: seq<Buf<D>>, disk: seq<D>) {
    |bs| == NBUF && Distinct(bs) && forall i :: 0 <= i < NBUF ==> Good(bs[i], disk)
  }

  predicate Caches<D>(x: Buf<D>, s: int) { x.valid && x.dev == DISKDEV && x.sector == s }

  /** The logical contents of sector s. */
  ghost function View<D>(bs: seq<Buf<D>>, disk: seq<D>, s: int): D
    requires 0 <= s < |disk|
  {
    if i :| 0 <= i < |bs| && Caches(bs[i], s) then bs[i].data else disk[s]
  }

  lemma ViewCached<D>(bs: seq<Buf<D>>, disk: seq<D>, i: int)
    requires Sound(bs, disk) && 0 <= i < NBUF && bs[i].valid
    ensures Caches(bs[i], bs[i].sector) && View(bs, disk, bs[i].sector) == bs[i].data
  {
    assert Good(bs[i], disk);
    assert Caches(bs[i], bs[i].sector);
    forall j | 0 <= j < NBUF && Caches(bs[j], bs[i].sector)
      ensures j == i
    {
      OnlyHolder(bs, DISKDEV, bs[i].sector, i, j);
    }
  }

  /** How the logical disk changes when one buffer, and perhaps the disk sector under it, change. */
  lemma ViewAfter<D>(bs: seq<Buf<D>>, disk: seq<D>, b: int, x: Buf<D>, disk': seq<D>, s: int)
    requires Sound(bs, disk) && 0 <= b < NBUF && Sound(bs[b := x], disk')
    requires 0 <= s < |disk| == |disk'|
    requires disk'[s] == disk[s] || Caches(x, s)
    ensures View(bs[b := x], disk', s) ==
              if Caches(x, s) then x.data else if Caches(bs[b], s) then disk'[s] else View(bs, disk, s)
  {
    var cs := bs[b := x];
    if Caches(x, s) {
      ViewCached(cs, disk', b);
    } else if i :| 0 <= i < NBUF && i != b && Caches(bs[i], s) {
      ViewCached(bs, disk, i);
      assert cs[i] == bs[i];
      ViewCached(cs, disk', i);
      if Caches(bs[b], s) {
        OnlyHolder(bs, DISKDEV, s, b, i);
      }
    }
  }

  ghost predicate SameView<D>(bs: seq<Buf<D>>, disk: seq<D>, cs: seq<Buf<D>>, disk': seq<D>) {
    |disk| == |disk'| && forall s :: 0 <= s < |disk| ==> View(bs, disk, s) == View(cs, disk', s)
  }

  /** A change to one buffer, and to no disk sector but its own, keeps the cache sound. */
  lemma SoundAfter<D>(bs: seq<Buf<D>>, disk: seq<D>, b: int, x: Buf<D>, disk': seq<D>)
    requires Sound(bs, disk) && 0 <= b < NBUF && Good(x, disk')
    requires x.dev == bs[b].dev && x.sector == bs[b].sector
    requires |disk'| == |disk| && forall s :: 0 <= s < |disk| && !(x.dev == DISKDEV && s == x.sector) ==>
               disk'[s] == disk[s]
    ensures Sound(bs[b := x], disk')
  {
    var cs := bs[b := x];
    DistinctAfter(bs, b, x);
    forall i | 0 <= i < NBUF
      ensures Good(cs[i], disk')
    {
      assert Good(bs[i], disk);
      if i != b && bs[i].valid && x.dev == DISKDEV && bs[i].sector == x.sector {
        OnlyHolder(bs, DISKDEV, x.sector, b, i);
      }
    }
  }

  /** As long as the logical contents of that sector are unchanged, so is the logical disk. */
  lemma SameViewAfter<D>(bs: seq<Buf<D>>, disk: seq<D>, b: int, x: Buf<D>, disk': seq<D>)
    requires Sound(bs, disk) && 0 <= b < NBUF && Good(x, disk')
    requires x.dev == bs[b].dev && x.sector == bs[b].sector
    requires |disk'| == |disk| && forall s :: 0 <= s < |disk| && !(x.dev == DISKDEV && s == x.sector) ==>
               disk'[s] == disk[s]
    requires x.valid && x.data == View(bs, disk, x.sector)
    ensures Sound(bs[b := x], disk') && SameView(bs, disk, bs[b := x], disk')
  {
    SoundAfter(bs, disk, b, x, disk');
    forall s | 0 <= s < |disk|
      ensures View(bs, disk, s) == View(bs[b := x], disk', s)
    {
      ViewAfter(bs, disk, b, x, disk', s);
    }
  }

  /** The release rule.  Letting go of a busy buffer leaves the cache sound exactly when the holder
      has either left the data as the disk has it or marked the buffer dirty. */
  lemma ReleaseRule<D>(bs: seq<Buf<D>>, disk: seq<D>, b: int)
    requires Sound(bs, disk) && 0 <= b < NBUF && bs[b].busy
    ensures Sound(bs[b := bs[b].(busy := false)], disk) <==>
              (bs[b].valid && !bs[b].dirty ==> bs[b].data == disk[bs[b].sector])
  {
    var x := bs[b].(busy := false);
    assert Good(bs[b], disk);
    if Good(x, disk) {
      SoundAfter(bs, disk, b, x, disk);
    } else {
      assert bs[b := x][b] == x;
    }
  }

  // ------------------------------------------------------------------- bget

  /** The buffer bget hands out for a sector that no buffer holds. */
  function Recycled<D>(x: Buf<D>, dev: int, sector: int): Buf<D> {
    x.(dev := dev, sector := sector, busy := true, valid := false, dirty := false)
  }

  /** b is the first buffer of the list that holds the sector. */
  ghost predicate FirstHolder<D>(bs: seq<Buf<D>>, order: seq<int>, dev: int, sector: int, b: int)
    requires |bs| == NBUF && forall i :: 0 <= i < |order| ==> 0 <= order[i] < NBUF
  {
    exists k :: 0 <= k < |order| && order[k] == b && Holds(bs[b], dev, sector)
                && forall j :: 0 <= j < k ==> !Holds(bs[order[j]], dev, sector)
  }

  /** b is the free buffer nearest the least-recently-released end of the list. */
  ghost predicate LastFree<D>(bs: seq<Buf<D>>, order: seq<int>, b: int)
    requires |bs| == NBUF && forall i :: 0 <= i < |order| ==> 0 <= order[i] < NBUF
  {
    exists k :: 0 <= k < |order| && order[k] == b && Free(bs[b])
                && forall j :: k < j < |order| ==> !Free(bs[order[j]])
  }

  ghost predicate Held<D>(bs: seq<Buf<D>>, dev: int, sector: int) {
    exists i :: 0 <= i < |bs| && Holds(bs[i], dev, sector)
  }

  ghost predicate BgetPost<D>(bs: seq<Buf<D>>, order: seq<int>, dev: int, sector: int, r: Got, cs: seq<Buf<D>>)
    requires |bs| == NBUF && forall i :: 0 <= i < |order| ==> 0 <= order[i] < NBUF
  {
    match r
    case Found(b) =>
      && 0 <= b < NBUF && !bs[b].busy
      && if Held(bs, dev, sector) then
           FirstHolder(bs, order, dev, sector, b) && cs == bs[b := bs[b].(busy := true)]
         else
           LastFree(bs, order, b) && cs == bs[b := Recycled(bs[b], dev, sector)]
    case MustSleep(b) =>
      0 <= b < NBUF && bs[b].busy && FirstHolder(bs, order, dev, sector, b) && cs == bs
    case NoBuffers =>
      !Held(bs, dev, sector) && (forall i :: 0 <= i < NBUF ==> !Free(bs[i])) && cs == bs
  }

  /** On a miss bget recycles the free buffer whose last release is longest ago. */
  lemma RecyclesOldest<D>(bs: seq<Buf<D>>, order: seq<int>, rs: seq<int>, dev: int, sector: int, b: int,
                          cs: seq<Buf<D>>, c: int)
    requires |bs| == NBUF == |order| && Unique(order) && forall i :: 0 <= i < NBUF ==> 0 <= order[i] < NBUF
    requires forall k :: 0 <= k < |rs| ==> rs[k] in order
    requires var now := Afterwards(order, rs);
             && (forall i :: 0 <= i < NBUF ==> 0 <= now[i] < NBUF)
             && BgetPost(bs, now, dev, sector, Found(b), cs) && !Held(bs, dev, sector)
             && c in now && Free(bs[c])
    ensures Free(bs[b]) && LastRelease(rs, b) <= LastRelease(rs, c)
  {
    var now := Afterwards(order, rs);
    var k :| 0 <= k < |now| && now[k] == b && Free(bs[b]) && forall j :: k < j < |now| ==> !Free(bs[now[j]]);
    var j :| 0 <= j < |now| && now[j] == c;
    if j < k {
      LatestFirst(order, rs, j, k);
    }
  }

  /** Whatever bget does, the cache stays sound and the logical disk stays what it was:
      a buffer is recycled only when the disk already has its contents. */
  lemma BgetKeepsView<D>(bs: seq<Buf<D>>, order: seq<int>, disk: seq<D>, dev: int, sector: int, r: Got, cs: seq<Buf<D>>)
    requires Sound(bs, disk) && forall i :: 0 <= i < |order| ==> 0 <= order[i] < NBUF
    requires 0 <= sector && BgetPost(bs, order, dev, sector, r, cs)
    ensures Sound(cs, disk) && SameView(bs, disk, cs, disk)
  {
    if r.Found? {
      var b := r.b;
      assert Good(bs[b], disk);
      DistinctAfter(bs, b, cs[b]);
      assert Sound(cs, disk);
      forall s | 0 <= s < |disk|
        ensures View(bs, disk, s) == View(cs, disk, s)
      {
        ViewAfter(bs, disk, b, cs[b], disk, s);
        if Caches(bs[b], s) {
          ViewCached(bs, disk, b);
        }
      }
    }
  }

  // ------------------------------------------------------------------ bread

  /** The busy, valid buffer bread hands out: the holder of the sector, or a recycled buffer freshly read. */
  function ReadIn<D>(x: Buf<D>, disk: seq<D>, sector: int): Buf<D>
    requires 0 <= sector < |disk|
  {
    if Holds(x, DISKDEV, sector) && x.valid then x.(busy := true)
    else Buf(true, true, Holds(x, DISKDEV, sector) && x.dirty, DISKDEV, sector, disk[sector])
  }

  ghost predicate BreadPost<D>(bs: seq<Buf<D>>, order: seq<int>, disk: seq<D>, dev: int, sector: int, r: Read,
                               cs: seq<Buf<D>>)
    requires |bs| == NBUF && forall i :: 0 <= i < |order| ==> 0 <= order[i] < NBUF
  {
    match r
    case Ok(b) =>
      && dev == DISKDEV && 0 <= sector < |disk| && 0 <= b < NBUF && !bs[b].busy
      && (if Held(bs, dev, sector) then Holds(bs[b], dev, sector) else LastFree(bs, order, b))
      && cs == bs[b := ReadIn(bs[b], disk, sector)]
    case Wait(b) =>
      0 <= b < NBUF && bs[b].busy && Holds(bs[b], dev, sector) && cs == bs
    case Panic =>
      || (!Held(bs, dev, sector) && forall i :: 0 <= i < NBUF ==> !Free(bs[i]))
      || dev != DISKDEV || sector >= |disk|
  }

  /** Reading a sector in from the disk makes the buffer stand for what the sector already stood for. */
  lemma FillKeepsView<D>(bs: seq<Buf<D>>, disk: seq<D>, b: int, x: Buf<D>)
    requires Sound(bs, disk) && 0 <= b < NBUF && bs[b].busy && !bs[b].valid
    requires bs[b].dev == DISKDEV && 0 <= bs[b].sector < |disk|
    requires x == bs[b].(data := disk[bs[b].sector], valid := true)
    ensures Sound(bs[b := x], disk) && SameView(bs, disk, bs[b := x], disk)
    ensures View(bs, disk, bs[b].sector) == x.data
  {
    if i :| 0 <= i < NBUF && Caches(bs[i], bs[b].sector) {
      OnlyHolder(bs, DISKDEV, bs[b].sector, i, b);
    }
    assert Good(bs[b], disk);
    SameViewAfter(bs, disk, b, x, disk);
  }

  lemma SameViewTransitive<D>(bs: seq<Buf<D>>, cs: seq<Buf<D>>, ds: seq<Buf<D>>, disk: seq<D>)
    requires SameView(bs, disk, cs, disk) && SameView(cs, disk, ds, disk)
    ensures SameView(bs, disk, ds, disk)
  {
  }

  // ----------------------------------------------------------------- the cache

  class BufferCache<D> {
    var buf: array<Buf<D>>
    const list: List
    /** The disk image, one entry a sector. */
    var disk: seq<D>
    /** Every state the disk has been in, oldest first; the last is the present one. */
    ghost var trace: seq<seq<D>>

    ghost predicate Valid()
      reads this, buf, list, list.next, list.prev
    {
      && list.Valid()
      && Sound(buf[..], disk)
      && |trace| > 0 && trace[|trace| - 1] == disk
    }

    ghost function Logical(s: int): D
      requires 0 <= s < |disk|
      reads this, buf
    {
      View(buf[..], disk, s)
    }

    /** binit */
    constructor (image: seq<D>, junk: D)
      ensures Valid() && fresh(buf) && fresh(list) && fresh(list.next) && fresh(list.prev)
      ensures disk == image && trace == [image]
      ensures forall i :: 0 <= i < NBUF ==> Free(buf[i]) && !buf[i].valid && buf[i].dev == NODEV
      ensures forall s :: 0 <= s < |image| ==> Logical(s) == image[s]
    {
      disk := image;
      trace := [image];
      var blank := Buf(false, false, false, NODEV, 0, junk);
      buf := new Buf<D>[NBUF](_ => blank);
      list := new List();
      new;
      assert forall i, j :: 0 <= i < j < NBUF ==> Apart(buf[..], i, j);
    }

    /** bget, from taking bcache.lock to releasing it or going to sleep. */
    method Bget(dev: int, sector: int) returns (r: Got)
      requires Valid() && 0 <= sector
      modifies buf
      ensures Valid()
      ensures BgetPost(old(buf[..]), list.order, dev, sector, r, buf[..])
      ensures SameView(old(buf[..]), disk, buf[..], disk)
    {
      ghost var bs := buf[..];
      r := Scan(dev, sector);
      BgetKeepsView(bs, list.order, disk, dev, sector, r, buf[..]);
    }

    method Scan(dev: int, sector: int) returns (r: Got)
      requires list.Valid() && buf.Length == NBUF
      modifies buf
      ensures BgetPost(old(buf[..]), list.order, dev, sector, r, buf[..])
    {
      var b := FindHolder(dev, sector);
      if b != HEAD {
        if !buf[b].busy {
          buf[b] := buf[b].(busy := true);
          return Found(b);
        }
        return MustSleep(b);
      }
      b := FindFree();
      if b != HEAD {
        buf[b] := Recycled(buf[b], dev, sector);
        return Found(b);
      }
      return NoBuffers;
    }

    /** Is the sector already cached?  The scan from the front of the list. */
    method FindHolder(dev: int, sector: int) returns (b: int)
      requires list.Valid() && buf.Length == NBUF
      ensures if Held(buf[..], dev, sector)
              then 0 <= b < NBUF && FirstHolder(buf[..], list.order, dev, sector, b)
              else b == HEAD
    {
      ghost var bs, order := buf[..], list.order;
      b := list.next[HEAD];
      ghost var k := 0;
      while b != HEAD
        invariant 0 <= k <= |order| && b == Nth(order, k)
        invariant forall j :: 0 <= j < k ==> !Holds(bs[order[j]], dev, sector)
        decreases |order| - k
      {
        if Holds(buf[b], dev, sector) {
          assert order[k] == b && Holds(bs[b], dev, sector);
          return;
        }
        assert LinkAt(list.next[..], list.prev[..], order, k);
        b := list.next[b];
        k := k + 1;
      }
      forall i | 0 <= i < NBUF
        ensures !Holds(bs[i], dev, sector)
      {
        assert i in order;
      }
    }

    /** The scan for a clean, non-busy buffer from the back of the list. */
    method FindFree() returns (b: int)
      requires list.Valid() && buf.Length == NBUF
      ensures if exists i :: 0 <= i < NBUF && Free(buf[i])
              then 0 <= b < NBUF && LastFree(buf[..], list.order, b)
              else b == HEAD
    {
      ghost var bs, order := buf[..], list.order;
      b := list.prev[HEAD];
      ghost var k := |order|;
      while b != HEAD
        invariant 0 <= k <= |order| && b == Nth(order, k - 1)
        invariant forall j :: k <= j < |order| ==> !Free(bs[order[j]])
        decreases k
      {
        if !buf[b].busy && !buf[b].dirty {
          assert order[k - 1] == b && Free(bs[b]);
          return;
        }
        assert LinkAt(list.next[..], list.prev[..], order, k - 1);
        b := list.prev[b];
        k := k - 1;
      }
      forall i | 0 <= i < NBUF
        ensures !Free(bs[i])
      {
        assert i in order;
      }
    }

    /** iderw on the in-memory disk: false is one of its four panics. */
    method Iderw(b: int) returns (ok: bool)
      requires buf.Length == NBUF && 0 <= b < NBUF && 0 <= buf[b].sector
      modifies this`disk, this`trace, buf
      ensures var x := old(buf[b]);
              ok <==> x.busy && !(x.valid && !x.dirty) && x.dev == DISKDEV && x.sector < |old(disk)|
      ensures !ok ==> unchanged(this) && unchanged(buf)
      ensures var x := old(buf[b]);
              ok && x.dirty ==>
                && disk == old(disk)[x.sector := x.data]
                && trace == old(trace) + [disk]
                && buf[..] == old(buf[..])[b := x.(dirty := false, valid := true)]
      ensures var x := old(buf[b]);
              ok && !x.dirty ==>
                && unchanged(this)
                && buf[..] == old(buf[..])[b := x.(data := disk[x.sector], valid := true)]
    {
      if !buf[b].busy {
        return false;
      }
      if buf[b].valid && !buf[b].dirty {
        return false;
      }
      if buf[b].dev != DISKDEV {
        return false;
      }
      if buf[b].sector >= |disk| {
        return false;
      }
      if buf[b].dirty {
        buf[b] := buf[b].(dirty := false);
        disk := disk[buf[b].sector := buf[b].data];
        trace := trace + [disk];
      } else {
        buf[b] := buf[b].(data := disk[buf[b].sector]);
      }
      buf[b] := buf[b].(valid := true);
      return true;
    }

    /** bread: a busy buffer with the logical contents of the sector. */
    method Bread(dev: int, sector: int) returns (r: Read)
      requires Valid() && 0 <= sector
      modifies this`disk, this`trace, buf
      ensures Valid() && unchanged(this)
      ensures BreadPost(old(buf[..]), list.order, disk, dev, sector, r, buf[..])
      ensures SameView(old(buf[..]), disk, buf[..], disk)
      ensures r.Ok? ==> buf[r.b].data == old(Logical(sector))
    {
      ghost var bs := buf[..];
      var got := Bget(dev, sector);
      if got.NoBuffers? {
        return Panic;
      }
      if got.MustSleep? {
        return Wait(got.b);
      }
      var b := got.b;
      ghost var cs := buf[..];
      assert Good(cs[b], disk) && Good(bs[b], disk);
      if buf[b].valid {
        ViewCached(cs, disk, b);
        return Ok(b);
      }
      var ok := Iderw(b);
      if !ok {
        assert buf[..] == cs;
        return Panic;
      }
      FillKeepsView(cs, disk, b, buf[b]);
      SameViewTransitive(bs, cs, buf[..], disk);
      return Ok(b);
    }

    /** bwrite: false is its panic or one of iderw's. */
    method Bwrite(b: int) returns (ok: bool)
      requires Valid() && 0 <= b < NBUF
      modifies this`disk, this`trace, buf
      ensures var x := old(buf[b]);
              ok <==> x.busy && x.dev == DISKDEV && x.sector < |old(disk)|
      ensures ok ==>
                var x := old(buf[b]);
                && Valid() && 0 <= x.sector < |old(disk)|
                && disk == old(disk)[x.sector := x.data]
                && trace == old(trace) + [disk]
                && buf[..] == old(buf[..])[b := x.(dirty := false, valid := true)]
      ensures ok && old(buf[b].valid) ==> SameView(old(buf[..]), old(disk), buf[..], disk)
    {
      ghost var bs := buf[..];
      assert Good(bs[b], disk);
      if !buf[b].busy {
        return false;
      }
      buf[b] := buf[b].(dirty := true);
      ok := Iderw(b);
      if ok {
        ghost var x := bs[b].(dirty := false, valid := true);
        assert buf[..] == bs[b := x];
        SoundAfter(bs, old(disk), b, x, disk);
        if bs[b].valid {
          ViewCached(bs, old(disk), b);
          SameViewAfter(bs, old(disk), b, x, disk);
        }
      }
    }

    /** brelse.  Its callers owe it the rule stated above bget: a buffer whose data was changed has been
        written or marked dirty. */
    method Brelse(b: int) returns (ok: bool)
      requires Valid() && 0 <= b < NBUF
      requires buf[b].busy && buf[b].valid && !buf[b].dirty ==> buf[b].data == disk[buf[b].sector]
      modifies buf, list`order, list.next, list.prev
      ensures Valid()
      ensures ok <==> old(buf[b].busy)
      ensures ok ==>
                && buf[..] == old(buf[..])[b := old(buf[b]).(busy := false)]
                && list.order == MoveToFront(old(list.order), b)
      ensures !ok ==> unchanged(buf) && unchanged(list)
      ensures SameView(old(buf[..]), disk, buf[..], disk)
    {
      ghost var bs := buf[..];
      if !buf[b].busy {
        return false;
      }
      list.Release(b);
      buf[b] := buf[b].(busy := false);
      ghost var x := bs[b].(busy := false);
      assert buf[..] == bs[b := x];
      ReleaseRule(bs, disk, b);
      forall s | 0 <= s < |disk|
        ensures View(bs, disk, s) == View(buf[..], disk, s)
      {
        ViewAfter(bs, disk, b, x, disk, s);
        if Caches(x, s) {
          ViewCached(bs, disk, b);
        }
      }
      return true;
    }

    /** The holder of a buffer replaces its data. */
    method SetData(b: int, data: D)
      requires Valid() && 0 <= b < NBUF && buf[b].busy && buf[b].valid
      modifies buf
      ensures Valid()
      ensures buf[..] == old(buf[..])[b := old(buf[b]).(data := data)]
      ensures forall s :: 0 <= s < |disk| ==> Logical(s) == if s == buf[b].sector then data else old(Logical(s))
    {
      ghost var bs := buf[..];
      assert Good(bs[b], disk);
      buf[b] := buf[b].(data := data);
      ghost var x := bs[b].(data := data);
      assert buf[..] == bs[b := x];
      SoundAfter(bs, disk, b, x, disk);
      forall s | 0 <= s < |disk|
        ensures Logical(s) == if s == buf[b].sector then data else View(bs, disk, s)
      {
        ViewAfter(bs, disk, b, x, disk, s);
      }
    }

    /** b->flags |= B_DIRTY */
    method MarkDirty(b: int)
      requires Valid() && 0 <= b < NBUF && buf[b].valid
      modifies buf
      ensures Valid()
      ensures buf[..] == old(buf[..])[b := old(buf[b]).(dirty := true)]
      ensures SameView(old(buf[..]), disk, buf[..], disk)
    {
      ghost var bs := buf[..];
      assert Good(bs[b], disk);
      buf[b] := buf[b].(dirty := true);
      ghost var x := bs[b].(dirty := true);
      assert buf[..] == bs[b := x];
      ViewCached(bs, disk, b);
      SameViewAfter(bs, disk, b, x, disk);
    }
  }
}
