/**
  The bodies of the two copying loops of log.c: read two sectors through the cache, copy one
  buffer's data to the other, write that one to disk, release both.
 */
module BlockCopy {
  import opened LruList
  import opened Bcache

  /** No one holds a buffer of sector s. */
  ghost predicate Idle<D>(bs: seq<Buf<D>>, s: int) {
    forall i :: 0 <= i < |bs| && Holds(bs[i], DISKDEV, s) ==> !bs[i].busy
  }

  /** Sector s is in the cache, in a buffer that cannot be recycled. */
  ghost predicate Pinned<D>(bs: seq<Buf<D>>, s: int) {
    exists i :: 0 <= i < |bs| && bs[i].dirty && Holds(bs[i], DISKDEV, s)
  }

  ghost predicate FreeBuffer<D>(bs: seq<Buf<D>>) {
    exists i :: 0 <= i < |bs| && Free(bs[i])
  }

  ghost predicate TwoFreeBuffers<D>(bs: seq<Buf<D>>) {
    exists i, j :: 0 <= i < j < |bs| && Free(bs[i]) && Free(bs[j])
  }

  /** After one read there is still a buffer for the second: its own, if pinned, or a free one. */
  lemma SecondRead<D>(bs: seq<Buf<D>>, disk: seq<D>, order: seq<int>, x: int, y: int, p: int, cs: seq<Buf<D>>, r: Read,
                      ds: seq<Buf<D>>)
    requires Sound(bs, disk) && (forall i :: 0 <= i < |order| ==> 0 <= order[i] < NBUF)
    requires 0 <= x < |disk| && 0 <= y < |disk| && x != y && Idle(bs, y)
    requires BreadPost(bs, order, disk, DISKDEV, x, Ok(p), cs)
    requires BreadPost(cs, order, disk, DISKDEV, y, r, ds)
    requires (FreeBuffer(bs) && (Pinned(bs, x) || Pinned(bs, y))) || TwoFreeBuffers(bs)
    ensures r.Ok?
  {
    if Pinned(bs, x) {
      var i :| 0 <= i < |bs| && bs[i].dirty && Holds(bs[i], DISKDEV, x);
      OnlyHolder(bs, DISKDEV, x, i, p);
    }
    if Pinned(bs, y) {
      var i :| 0 <= i < |bs| && bs[i].dirty && Holds(bs[i], DISKDEV, y);
      assert cs[i] == bs[i];
    }
    if FreeBuffer(bs) && !Pinned(bs, y) {
      var f :| 0 <= f < |bs| && f != p && Free(bs[f]);
      assert cs[f] == bs[f];
    }
  }

  /** bread of sector x, which may lie past the end of the disk, then bread of sector y. */
  method ReadPair<D>(bc: BufferCache<D>, x: int, y: int) returns (ok: bool, p: int, q: int)
    requires bc.Valid()
    requires 0 <= x && 0 <= y < |bc.disk| && x != y
    requires Idle(bc.buf[..], x) && Idle(bc.buf[..], y)
    modifies bc`disk, bc`trace, bc.buf
    ensures bc.Valid() && unchanged(bc)
    ensures x < |bc.disk| && FreeBuffer(old(bc.buf[..])) ==>
              (Pinned(old(bc.buf[..]), x) || Pinned(old(bc.buf[..]), y) ==> ok)
    ensures x < |bc.disk| && TwoFreeBuffers(old(bc.buf[..])) ==> ok
    ensures !FreeBuffer(old(bc.buf[..])) && !Held(old(bc.buf[..]), DISKDEV, x) ==> !ok
    ensures x >= |bc.disk| ==> !ok
    ensures SameView(old(bc.buf[..]), bc.disk, bc.buf[..], bc.disk)
    ensures ok ==>
              && 0 <= p < NBUF && 0 <= q < NBUF && p != q
              && bc.buf[p].data == old(bc.Logical(x)) && bc.buf[q].data == old(bc.Logical(y))
              && (Holds(old(bc.buf[p]), DISKDEV, x) || Free(old(bc.buf[p])))
              && (Holds(old(bc.buf[q]), DISKDEV, y) || Free(old(bc.buf[q])))
              && var fst, snd := ReadIn(old(bc.buf[p]), bc.disk, x), ReadIn(old(bc.buf[q]), bc.disk, y);
                 bc.buf[..] == old(bc.buf[..])[p := fst][q := snd]
  {
    ghost var bs := bc.buf[..];
    p, q := 0, 1;
    var r := bc.Bread(DISKDEV, x);
    if !r.Ok? {
      return false, p, q;
    }
    p := r.b;
    ghost var cs := bc.buf[..];
    assert cs == bs[p := ReadIn(bs[p], bc.disk, x)];
    r := bc.Bread(DISKDEV, y);
    if (FreeBuffer(bs) && (Pinned(bs, x) || Pinned(bs, y))) || TwoFreeBuffers(bs) {
      SecondRead(bs, bc.disk, bc.list.order, x, y, p, cs, r, bc.buf[..]);
    }
    SameViewTransitive(bs, cs, bc.buf[..], bc.disk);
    if !r.Ok? {
      return false, p, q;
    }
    q := r.b;
    return true, p, q;
  }

  /** memmove(to->data, from->data, BSIZE); bwrite(to) */
  method CopyAndWrite<D>(bc: BufferCache<D>, to: int, from: int)
    requires bc.Valid() && 0 <= to < NBUF && 0 <= from < NBUF && to != from
    requires bc.buf[to].busy && bc.buf[to].valid
    modifies bc`disk, bc`trace, bc.buf
    ensures bc.Valid() && 0 <= bc.buf[to].sector < |old(bc.disk)|
    ensures bc.disk == old(bc.disk)[bc.buf[to].sector := old(bc.buf[from].data)]
    ensures bc.trace == old(bc.trace) + [bc.disk]
    ensures bc.buf[..] == old(bc.buf[..])[to := old(bc.buf[to]).(data := old(bc.buf[from].data), dirty := false)]
  {
    assert Good(bc.buf[..][to], bc.disk);
    bc.SetData(to, bc.buf[from].data);
    var ok := bc.Bwrite(to);
  }

  /** brelse(a); brelse(b) */
  method ReleaseBoth<D>(bc: BufferCache<D>, a: int, b: int)
    requires bc.Valid() && 0 <= a < NBUF && 0 <= b < NBUF && a != b
    requires bc.buf[a].busy && bc.buf[b].busy
    requires bc.buf[a].valid && !bc.buf[a].dirty ==> bc.buf[a].data == bc.disk[bc.buf[a].sector]
    requires bc.buf[b].valid && !bc.buf[b].dirty ==> bc.buf[b].data == bc.disk[bc.buf[b].sector]
    modifies bc.buf, bc.list`order, bc.list.next, bc.list.prev
    ensures bc.Valid()
    ensures bc.buf[..] == old(bc.buf[..])[a := old(bc.buf[a]).(busy := false)][b := old(bc.buf[b]).(busy := false)]
  {
    var ok := bc.Brelse(a);
    ok := bc.Brelse(b);
  }

  /** memmove(to->data, from->data, BSIZE); bwrite(to); brelse(from); brelse(to) */
  method CopyAndRelease<D>(bc: BufferCache<D>, to: int, from: int)
    requires bc.Valid() && 0 <= to < NBUF && 0 <= from < NBUF && to != from
    requires bc.buf[to].busy && bc.buf[to].valid && bc.buf[from].busy && bc.buf[from].valid
    requires !bc.buf[from].dirty ==> bc.buf[from].data == bc.disk[bc.buf[from].sector]
    modifies bc`disk, bc`trace, bc.buf, bc.list`order, bc.list.next, bc.list.prev
    ensures bc.Valid() && 0 <= bc.buf[to].sector < |old(bc.disk)|
    ensures bc.disk == old(bc.disk)[bc.buf[to].sector := old(bc.buf[from].data)]
    ensures bc.trace == old(bc.trace) + [bc.disk]
    ensures var x, y := old(bc.buf[from]), old(bc.buf[to]);
            var stored := y.(data := x.data, dirty := false, busy := false);
            bc.buf[..] == old(bc.buf[..])[to := stored][from := x.(busy := false)]
  {
    ghost var bs := bc.buf[..];
    assert Good(bs[to], bc.disk) && Good(bs[from], bc.disk);
    if bs[to].sector == bs[from].sector {
      OnlyHolder(bs, DISKDEV, bs[to].sector, to, from);
    }
    CopyAndWrite(bc, to, from);
    ReleaseBoth(bc, from, to);
  }

  predicate Kept<D>(x: Buf<D>) { x.busy || x.dirty }

  /** What storing data in sector s through the cache amounts to: one disk write; the logical disk changes
      at s only; buffers that are busy or dirty stay as they are, but for the one of s, which ends up clean. */
  ghost predicate StoreEffect<D>(bs: seq<Buf<D>>, disk: seq<D>, s: int, data: D, cs: seq<Buf<D>>, disk': seq<D>)
    requires 0 <= s < |disk|
  {
    && |bs| == |cs| == NBUF
    && disk' == disk[s := data]
    && (forall t :: 0 <= t < |disk| ==> View(cs, disk', t) == if t == s then data else View(bs, disk, t))
    && (forall i :: 0 <= i < NBUF && Kept(cs[i]) ==> cs[i] == bs[i] && !Holds(cs[i], DISKDEV, s))
    && (forall i :: 0 <= i < NBUF && Kept(bs[i]) && !Holds(bs[i], DISKDEV, s) ==> cs[i] == bs[i])
    && FreeBuffer(cs)
  }

  /** When the buffer of a sector is neither busy nor dirty, no busy or dirty buffer holds the sector. */
  lemma NoKeptTwin<D>(bs: seq<Buf<D>>, b: int)
    requires Distinct(bs) && 0 <= b < |bs| && bs[b].dev == DISKDEV && !Kept(bs[b])
    ensures forall i :: 0 <= i < |bs| && Kept(bs[i]) ==> !Holds(bs[i], DISKDEV, bs[b].sector)
  {
    forall i | 0 <= i < |bs| && Holds(bs[i], DISKDEV, bs[b].sector)
      ensures i == b
    {
      OnlyHolder(bs, DISKDEV, bs[b].sector, i, b);
    }
  }

  /** A sector whose buffer is neither busy nor dirty, or is not there, stands for what is on disk. */
  lemma ViewOnDisk<D>(bs: seq<Buf<D>>, disk: seq<D>, s: int)
    requires Sound(bs, disk) && 0 <= s < |disk|
    requires forall i :: 0 <= i < NBUF && Kept(bs[i]) ==> !Holds(bs[i], DISKDEV, s)
    ensures View(bs, disk, s) == disk[s]
  {
  }

  /** Sector s, other than dst, stands for the same contents after the copy as before. */
  lemma CopyView<D>(bs: seq<Buf<D>>, disk: seq<D>, dst: int, src: int, to: int, from: int, cs: seq<Buf<D>>,
                    disk': seq<D>, s: int)
    requires Sound(bs, disk) && Sound(cs, disk') && 0 <= dst < |disk| && 0 <= src < |disk| && dst != src
    requires 0 <= to < NBUF && 0 <= from < NBUF && to != from
    requires Holds(bs[to], DISKDEV, dst) || Free(bs[to])
    requires Holds(bs[from], DISKDEV, src) || Free(bs[from])
    requires disk' == disk[dst := View(bs, disk, src)]
    requires cs == bs[to := Buf(false, true, false, DISKDEV, dst, View(bs, disk, src))]
                     [from := ReadIn(bs[from], disk, src).(busy := false)]
    requires 0 <= s < |disk| && s != dst
    ensures View(cs, disk', s) == View(bs, disk, s)
  {
    assert Good(bs[from], disk) && Good(bs[to], disk);
    if i :| 0 <= i < NBUF && Caches(bs[i], s) {
      ViewCached(bs, disk, i);
      if i != to && (i != from || s == src) {
        assert Caches(cs[i], s);
        ViewCached(cs, disk', i);
      } else if j :| 0 <= j < NBUF && Caches(cs[j], s) {
        if j == from {
          ViewCached(cs, disk', j);
          if Holds(bs[from], DISKDEV, src) {
            OnlyHolder(bs, DISKDEV, s, i, from);
          }
        } else {
          OnlyHolder(bs, DISKDEV, s, i, j);
        }
      }
    } else if s == src {
      ViewCached(cs, disk', from);
    }
  }

  lemma CopyEffectOf<D>(bs: seq<Buf<D>>, disk: seq<D>, dst: int, src: int, to: int, from: int, cs: seq<Buf<D>>,
                        disk': seq<D>)
    requires Sound(bs, disk) && Sound(cs, disk') && 0 <= dst < |disk| && 0 <= src < |disk| && dst != src
    requires Idle(bs, dst) && Idle(bs, src)
    requires 0 <= to < NBUF && 0 <= from < NBUF && to != from
    requires Holds(bs[to], DISKDEV, dst) || Free(bs[to])
    requires Holds(bs[from], DISKDEV, src) || Free(bs[from])
    requires disk' == disk[dst := View(bs, disk, src)]
    requires cs == bs[to := Buf(false, true, false, DISKDEV, dst, View(bs, disk, src))]
                     [from := ReadIn(bs[from], disk, src).(busy := false)]
    ensures StoreEffect(bs, disk, dst, View(bs, disk, src), cs, disk')
  {
    assert Good(bs[from], disk);
    ViewCached(cs, disk', to);
    forall s | 0 <= s < |disk| && s != dst
      ensures View(cs, disk', s) == View(bs, disk, s)
    {
      CopyView(bs, disk, dst, src, to, from, cs, disk', s);
    }
    assert Free(cs[to]);
    NoKeptTwin(cs, to);
    if Holds(bs[from], DISKDEV, src) && bs[from].dirty {
      assert cs[from] == bs[from];
    }
  }

  /** The body of write_log's loop: copy cached sector src to log sector dst.  False is a panic, for want of a
      buffer or because dst lies past the end of the disk. */
  method LogBlock<D>(bc: BufferCache<D>, dst: int, src: int) returns (ok: bool)
    requires bc.Valid()
    requires 0 <= dst && 0 <= src < |bc.disk| && dst != src
    requires Idle(bc.buf[..], dst) && Idle(bc.buf[..], src)
    modifies bc`disk, bc`trace, bc.buf, bc.list`order, bc.list.next, bc.list.prev
    ensures dst < |old(bc.disk)| && FreeBuffer(old(bc.buf[..])) && Pinned(old(bc.buf[..]), src) ==> ok
    ensures !FreeBuffer(old(bc.buf[..])) && !Held(old(bc.buf[..]), DISKDEV, dst) ==> !ok
    ensures dst >= |old(bc.disk)| ==> !ok
    ensures ok ==>
              && bc.Valid()
              && StoreEffect(old(bc.buf[..]), old(bc.disk), dst, old(bc.Logical(src)), bc.buf[..], bc.disk)
              && bc.trace == old(bc.trace) + [bc.disk]
  {
    ghost var bs, disk := bc.buf[..], bc.disk;
    var to, from;
    ok, to, from := ReadPair(bc, dst, src);
    if ok {
      assert Good(bs[from], disk);
      CopyAndRelease(bc, to, from);
      CopyEffectOf(bs, disk, dst, src, to, from, bc.buf[..], bc.disk);
    }
  }

  /** The body of install_trans's loop: copy log sector src to home sector dst. */
  method InstallBlock<D>(bc: BufferCache<D>, dst: int, src: int) returns (ok: bool)
    requires bc.Valid()
    requires 0 <= dst < |bc.disk| && 0 <= src < |bc.disk| && dst != src
    requires Idle(bc.buf[..], dst) && Idle(bc.buf[..], src)
    modifies bc`disk, bc`trace, bc.buf, bc.list`order, bc.list.next, bc.list.prev
    ensures FreeBuffer(old(bc.buf[..])) && Pinned(old(bc.buf[..]), dst) ==> ok
    ensures TwoFreeBuffers(old(bc.buf[..])) ==> ok
    ensures ok ==>
              && bc.Valid()
              && StoreEffect(old(bc.buf[..]), old(bc.disk), dst, old(bc.Logical(src)), bc.buf[..], bc.disk)
              && bc.trace == old(bc.trace) + [bc.disk]
  {
    ghost var bs, disk := bc.buf[..], bc.disk;
    var from, to;
    ok, from, to := ReadPair(bc, src, dst);
    if ok {
      assert Good(bs[from], disk);
      CopyAndRelease(bc, to, from);
      assert bc.buf[..] == bs[to := bc.buf[to]][from := bc.buf[from]];
      CopyEffectOf(bs, disk, dst, src, to, from, bc.buf[..], bc.disk);
    }
  }

  lemma StoreEffectOf<D>(bs: seq<Buf<D>>, disk: seq<D>, s: int, data: D, b: int, cs: seq<Buf<D>>, disk': seq<D>)
    requires Sound(bs, disk) && Sound(cs, disk') && 0 <= s < |disk| && 0 <= b < NBUF
    requires !bs[b].busy && (Holds(bs[b], DISKDEV, s) || Free(bs[b])) && Idle(bs, s)
    requires disk' == disk[s := data]
    requires cs == bs[b := Buf(false, true, false, DISKDEV, s, data)]
    ensures StoreEffect(bs, disk, s, data, cs, disk')
  {
    assert Good(bs[b], disk);
    NoKeptTwin(cs, b);
    forall t | 0 <= t < |disk|
      ensures View(cs, disk', t) == if t == s then data else View(bs, disk, t)
    {
      ViewAfter(bs, disk, b, cs[b], disk', t);
      if Caches(bs[b], t) {
        ViewCached(bs, disk, b);
      }
    }
    assert Free(cs[b]);
  }

  /** The holder replaces a buffer's data, then bwrite, then brelse. */
  method StoreAndRelease<D>(bc: BufferCache<D>, b: int, data: D)
    requires bc.Valid() && 0 <= b < NBUF && bc.buf[b].busy && bc.buf[b].valid
    modifies bc`disk, bc`trace, bc.buf, bc.list`order, bc.list.next, bc.list.prev
    ensures bc.Valid() && 0 <= bc.buf[b].sector < |old(bc.disk)|
    ensures bc.disk == old(bc.disk)[bc.buf[b].sector := data]
    ensures bc.trace == old(bc.trace) + [bc.disk]
    ensures bc.buf[..] == old(bc.buf[..])[b := old(bc.buf[b]).(data := data, dirty := false, busy := false)]
  {
    assert Good(bc.buf[..][b], bc.disk);
    bc.SetData(b, data);
    var ok := bc.Bwrite(b);
    ok := bc.Brelse(b);
  }

  /** bread of a sector no one else holds. */
  method ReadOne<D>(bc: BufferCache<D>, s: int) returns (ok: bool, b: int)
    requires bc.Valid() && 0 <= s < |bc.disk| && Idle(bc.buf[..], s)
    modifies bc`disk, bc`trace, bc.buf
    ensures bc.Valid() && unchanged(bc)
    ensures FreeBuffer(old(bc.buf[..])) ==> ok
    ensures ok ==>
              && 0 <= b < NBUF && !old(bc.buf[b].busy) && (Holds(old(bc.buf[b]), DISKDEV, s) || Free(old(bc.buf[b])))
              && bc.buf[..] == old(bc.buf[..])[b := ReadIn(old(bc.buf[b]), bc.disk, s)]
              && bc.buf[b].data == old(bc.Logical(s))
  {
    var r := bc.Bread(DISKDEV, s);
    ok := r.Ok?;
    b := if ok then r.b else 0;
  }
}
