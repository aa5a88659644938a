/**
  How the buffers of the cache stand for a state of the logging protocol: dirty ones for logged sectors, busy ones
  for sectors in use.  Counting them gives bget's panic.
 */
module LogCache {
  import opened Ranges
  import opened Blocks
  import opened LruList
  import opened Bcache
  import opened BlockCopy
  import opened LogDisk
  import P = LogProtocol

  /** The sectors that are dirty in the cache are exactly those of lh. */
  ghost predicate DirtyExactly(bs: seq<Buf<Block>>, lh: seq<int>) {
    && (forall i :: 0 <= i < |bs| && bs[i].dirty ==> bs[i].sector in lh)
    && (forall i {:trigger Pinned(bs, lh[i])} :: 0 <= i < |lh| ==> Pinned(bs, lh[i]))
  }

  // -------------------------------------------------------------------- counting buffers

  ghost function Sectors(bs: seq<Buf<Block>>, which: set<int>): set<int> {
    set i | i in which && 0 <= i < |bs| :: bs[i].sector
  }

  /** Buffers of the disk are as many as their sectors. */
  lemma {:induction false} SectorsSize(bs: seq<Buf<Block>>, which: set<int>)
    requires Distinct(bs) && forall i :: i in which ==> 0 <= i < |bs| && bs[i].dev == DISKDEV
    ensures |Sectors(bs, which)| == |which|
  {
    if which != {} {
      var b := Member(which);
      var rest := which - {b};
      SectorsSize(bs, rest);
      assert Sectors(bs, which) == Sectors(bs, rest) + {bs[b].sector};
      if i :| i in rest && bs[i].sector == bs[b].sector {
        OnlyHolder(bs, DISKDEV, bs[b].sector, i, b);
      }
    }
  }

  ghost function Dirty(bs: seq<Buf<Block>>): set<int> { set i | 0 <= i < |bs| && bs[i].dirty }

  lemma DirtySectors(bs: seq<Buf<Block>>, disk: Disk, lh: seq<int>)
    requires Sound(bs, disk) && DirtyExactly(bs, lh)
    ensures Sectors(bs, Dirty(bs)) == P.Listing(lh) && |Dirty(bs)| == |P.Listing(lh)|
  {
    forall x | x in P.Listing(lh)
      ensures x in Sectors(bs, Dirty(bs))
    {
      var k :| 0 <= k < |lh| && lh[k] == x;
      assert Pinned(bs, lh[k]);
      var i :| 0 <= i < |bs| && bs[i].dirty && Holds(bs[i], DISKDEV, x);
      assert i in Dirty(bs);
    }
    forall i | i in Dirty(bs)
      ensures bs[i].dev == DISKDEV
    {
      assert Good(bs[i], disk);
    }
    SectorsSize(bs, Dirty(bs));
  }

  /** A buffer in use whose sector is not logged leaves the header a place: each logged sector has a buffer of its
      own, and there are no more buffers than places. */
  lemma RoomForHeld(bs: seq<Buf<Block>>, disk: Disk, lh: seq<int>, b: int)
    requires Sound(bs, disk) && NoRepeats(lh) && DirtyExactly(bs, lh) && 0 <= b < NBUF && bs[b].sector !in lh
    ensures |lh| < LOGSIZE
  {
    hide Sectors, Distinct, Good, NoRepeats, Pinned, P.Listing;
    DirtySectors(bs, disk, lh);
    P.ListingSize(lh);
    Fewer(Dirty(bs), b, NBUF);
  }

  ghost function Keeping(bs: seq<Buf<Block>>): set<int> { set i | 0 <= i < |bs| && Kept(bs[i]) }

  /** The sectors x are those of the buffers that are busy or dirty. */
  ghost predicate KeptExactly(bs: seq<Buf<Block>>, xs: set<int>) {
    && (forall i :: 0 <= i < |bs| && Kept(bs[i]) ==> bs[i].dev == DISKDEV && bs[i].sector in xs)
    && (forall x :: x in xs ==> KeptFor(bs, x))
  }

  ghost predicate KeptFor(bs: seq<Buf<Block>>, x: int) {
    exists i :: 0 <= i < |bs| && Kept(bs[i]) && Holds(bs[i], DISKDEV, x)
  }

  lemma KeptSectors(bs: seq<Buf<Block>>, disk: Disk, xs: set<int>)
    requires Sound(bs, disk) && KeptExactly(bs, xs)
    ensures |Keeping(bs)| == |xs|
  {
    forall x | x in xs
      ensures x in Sectors(bs, Keeping(bs))
    {
      assert KeptFor(bs, x);
      var i :| 0 <= i < |bs| && Kept(bs[i]) && Holds(bs[i], DISKDEV, x);
      assert i in Keeping(bs);
    }
    assert Sectors(bs, Keeping(bs)) == xs;
    SectorsSize(bs, Keeping(bs));
  }

  /** bget can recycle a buffer exactly when fewer than NBUF sectors are logged or in use. */
  lemma FreeExactly(bs: seq<Buf<Block>>, disk: Disk, xs: set<int>)
    requires Sound(bs, disk) && KeptExactly(bs, xs)
    ensures FreeBuffer(bs) <==> |xs| < NBUF
  {
    hide Sectors, Distinct, Good, KeptExactly, Range;
    var all := Range(0, NBUF);
    KeptSectors(bs, disk, xs);
    SubsetSize(Keeping(bs), all);
    if FreeBuffer(bs) {
      var i :| 0 <= i < |bs| && Free(bs[i]);
      assert i in all && i !in Keeping(bs);
    } else {
      forall i | i in all
        ensures i in Keeping(bs)
      {
        assert !Free(bs[i]);
      }
      assert Keeping(bs) == all;
    }
  }

  /** Every logged block is pinned in the cache, so with no buffer in use the cache has room for a commit
      exactly when fewer than NBUF blocks are logged. */
  lemma CommitFits(bs: seq<Buf<Block>>, disk: Disk, lh: seq<int>)
    requires Sound(bs, disk) && NoRepeats(lh) && DirtyExactly(bs, lh)
    requires forall i :: 0 <= i < NBUF ==> !bs[i].busy
    ensures FreeBuffer(bs) <==> |lh| < NBUF
  {
    forall x | x in P.Listing(lh)
      ensures KeptFor(bs, x)
    {
      PinnedKept(bs, lh, x);
    }
    forall i | 0 <= i < |bs| && Kept(bs[i])
      ensures bs[i].dev == DISKDEV && bs[i].sector in P.Listing(lh)
    {
      assert Good(bs[i], disk);
    }
    hide NoRepeats, Sound, DirtyExactly;
    P.ListingSize(lh);
    FreeExactly(bs, disk, P.Listing(lh));
  }

  lemma PinnedKept(bs: seq<Buf<Block>>, lh: seq<int>, x: int)
    requires DirtyExactly(bs, lh) && x in lh
    ensures KeptFor(bs, x)
  {
    var k :| 0 <= k < |lh| && lh[k] == x;
    assert Pinned(bs, lh[k]);
  }

  /** Marking the buffer of sector s dirty keeps the dirty sectors those of the list. */
  lemma DirtyAfter(bs: seq<Buf<Block>>, disk: Disk, lh: seq<int>, b: int, x: Buf<Block>, lh': seq<int>)
    requires Sound(bs, disk) && DirtyExactly(bs, lh) && 0 <= b < NBUF && bs[b].valid && x == bs[b].(dirty := true)
    requires lh' == Absorbed(lh, bs[b].sector)
    ensures DirtyExactly(bs[b := x], lh')
  {
    var cs := bs[b := x];
    assert Good(bs[b], disk);
    forall i | 0 <= i < |lh'|
      ensures Pinned(cs, lh'[i])
    {
      if lh'[i] == x.sector {
        assert cs[b].dirty && Holds(cs[b], DISKDEV, lh'[i]);
      } else {
        assert Pinned(bs, lh[i]);
        var j :| 0 <= j < |bs| && bs[j].dirty && Holds(bs[j], DISKDEV, lh[i]);
        assert cs[j].dirty && Holds(cs[j], DISKDEV, lh'[i]);
      }
    }
  }

  /** A change to one buffer that is dirty before and after, or neither, and keeps a dirty one's sector. */
  lemma DirtySame(bs: seq<Buf<Block>>, lh: seq<int>, b: int, x: Buf<Block>)
    requires DirtyExactly(bs, lh) && 0 <= b < |bs| && x.dirty == bs[b].dirty
    requires x.dirty ==> Holds(x, bs[b].dev, bs[b].sector)
    ensures DirtyExactly(bs[b := x], lh)
  {
    forall i | 0 <= i < |lh|
      ensures Pinned(bs[b := x], lh[i])
    {
      assert Pinned(bs, lh[i]);
      var j :| 0 <= j < |bs| && bs[j].dirty && Holds(bs[j], DISKDEV, lh[i]);
      assert bs[b := x][j].dirty && Holds(bs[b := x][j], DISKDEV, lh[i]);
    }
  }

  // ------------------------------------------------------- states of the protocol

  ghost predicate BusyFor(bs: seq<Buf<Block>>, x: int) {
    exists i :: 0 <= i < |bs| && bs[i].busy && Holds(bs[i], DISKDEV, x)
  }

  /** The busy buffers are those of the sectors that operations hold in state s. */
  ghost predicate Uses(bs: seq<Buf<Block>>, s: P.State) {
    && (forall i :: 0 <= i < |bs| && bs[i].busy ==> bs[i].dev == DISKDEV && bs[i].sector in s.busy)
    && (forall x :: x in s.busy ==> BusyFor(bs, x))
  }

  /** State s of the protocol has this cache's logical contents for every home sector but one, and its dirty and busy
      buffers. */
  ghost predicate Pictures(s: P.State, bs: seq<Buf<Block>>, disk: Disk, start: nat, but: int) {
    && s.disk == disk && |s.view| == |s.disk| && Uses(bs, s) && DirtyExactly(bs, s.lh)
    && forall x :: 0 <= x < start && x < |disk| && x != but ==> s.view[x] == View(bs, disk, x)
  }

  lemma KeptInUse(bs: seq<Buf<Block>>, disk: Disk, s: P.State)
    requires Sound(bs, disk) && Uses(bs, s) && DirtyExactly(bs, s.lh)
    ensures KeptExactly(bs, P.InUse(s))
  {
    forall x | x in P.InUse(s)
      ensures KeptFor(bs, x)
    {
      if x in s.lh {
        PinnedKept(bs, s.lh, x);
      } else {
        assert BusyFor(bs, x);
      }
    }
    forall i | 0 <= i < |bs| && Kept(bs[i])
      ensures bs[i].dev == DISKDEV && bs[i].sector in P.InUse(s)
    {
      assert Good(bs[i], disk);
    }
  }

  /** bread's three outcomes are those of the protocol's step. */
  lemma ReadOutcomes(bs: seq<Buf<Block>>, order: seq<int>, disk: Disk, s: P.State, x: int, r: Read,
                     cs: seq<Buf<Block>>)
    requires Sound(bs, disk) && Uses(bs, s) && DirtyExactly(bs, s.lh) && 0 <= x < |disk|
    requires forall i :: 0 <= i < |order| ==> 0 <= order[i] < NBUF
    requires BreadPost(bs, order, disk, DISKDEV, x, r, cs)
    ensures r.Wait? <==> x in s.busy
    ensures r.Panic? <==> P.NoneLeft(s, x)
  {
    KeptInUse(bs, disk, s);
    FreeExactly(bs, disk, P.InUse(s));
    if x in s.busy {
      assert BusyFor(bs, x);
      var j :| 0 <= j < |bs| && bs[j].busy && Holds(bs[j], DISKDEV, x);
      if r.Ok? {
        OnlyHolder(bs, DISKDEV, x, j, r.b);
      }
    }
    if x in P.InUse(s) {
      assert KeptFor(bs, x);
    }
    hide DirtyExactly, Distinct, Good, P.InUse;
  }

  lemma ReadPictured(s: P.State, g: Geometry, bs: seq<Buf<Block>>, order: seq<int>, disk: Disk, x: int, b: int,
                     cs: seq<Buf<Block>>, i: nat)
    requires Sound(bs, disk) && Pictures(s, bs, disk, g.start, -1) && 0 <= x < |disk|
    requires forall k :: 0 <= k < |order| ==> 0 <= order[k] < NBUF
    requires BreadPost(bs, order, disk, DISKDEV, x, Ok(b), cs) && SameView(bs, disk, cs, disk)
    ensures Pictures(s.(busy := s.busy[x := i]), cs, disk, g.start, -1)
  {
    hide View, Distinct;
    assert Good(bs[b], disk);
    DirtySame(bs, s.lh, b, cs[b]);
    var t := s.(busy := s.busy[x := i]);
    forall y | y in t.busy
      ensures BusyFor(cs, y)
    {
      if y == x {
        assert cs[b].busy && Holds(cs[b], DISKDEV, x);
      } else {
        assert BusyFor(bs, y);
        var j :| 0 <= j < |bs| && bs[j].busy && Holds(bs[j], DISKDEV, y);
        assert cs[j] == bs[j];
      }
    }
  }

  lemma ReleasePictured(s: P.State, g: Geometry, bs: seq<Buf<Block>>, disk: Disk, b: int, cs: seq<Buf<Block>>)
    requires Sound(bs, disk) && Pictures(s, bs, disk, g.start, -1) && 0 <= b < NBUF && bs[b].busy
    requires cs == bs[b := bs[b].(busy := false)] && SameView(bs, disk, cs, disk)
    ensures Pictures(s.(busy := s.busy - {bs[b].sector}), cs, disk, g.start, -1)
  {
    hide View;
    DirtySame(bs, s.lh, b, cs[b]);
    var t := s.(busy := s.busy - {bs[b].sector});
    forall i | 0 <= i < |cs| && cs[i].busy
      ensures cs[i].dev == DISKDEV && cs[i].sector in t.busy
    {
      if cs[i].sector == bs[b].sector {
        OnlyHolder(bs, DISKDEV, bs[b].sector, i, b);
      }
    }
    forall y | y in t.busy
      ensures BusyFor(cs, y)
    {
      assert BusyFor(bs, y);
      var j :| 0 <= j < |bs| && bs[j].busy && Holds(bs[j], DISKDEV, y);
      assert cs[j] == bs[j];
    }
  }

  /** When log_write appends, the protocol's state comes to show the change the caller made to its buffer. */
  lemma AppendPictured(s: P.State, g: Geometry, bs: seq<Buf<Block>>, disk: Disk, b: int, cs: seq<Buf<Block>>, i: nat)
    requires Fits(g, disk) && Sound(bs, disk) && Sound(cs, disk) && 0 <= b < NBUF && bs[b].valid
             && 0 <= bs[b].sector < g.start
    requires cs == bs[b := bs[b].(dirty := true)] && SameView(bs, disk, cs, disk)
    requires Pictures(s, bs, disk, g.start, bs[b].sector)
    requires P.Enabled(s, g, P.Append(i, bs[b].sector, bs[b].data))
    ensures Pictures(P.Do(s, g, P.Append(i, bs[b].sector, bs[b].data)), cs, disk, g.start, -1)
  {
    DirtyAfter(bs, disk, s.lh, b, cs[b], Absorbed(s.lh, bs[b].sector));
    UsesSame(bs, s, b, cs[b]);
    hide Distinct, Good, Listable, View, DirtyExactly, Uses, Absorbed, P.InUse;
    ViewHeld(cs, disk, b);
    UsesOnly(cs, s, P.Do(s, g, P.Append(i, bs[b].sector, bs[b].data)));
  }

  lemma UsesOnly(bs: seq<Buf<Block>>, s: P.State, t: P.State)
    requires Uses(bs, s) && t.busy == s.busy
    ensures Uses(bs, t)
  {
  }

  lemma UsesSame(bs: seq<Buf<Block>>, s: P.State, b: int, x: Buf<Block>)
    requires Uses(bs, s) && 0 <= b < |bs| && x.busy == bs[b].busy && Holds(x, bs[b].dev, bs[b].sector)
    ensures Uses(bs[b := x], s)
  {
    forall y | y in s.busy
      ensures BusyFor(bs[b := x], y)
    {
      assert BusyFor(bs, y);
      var j :| 0 <= j < |bs| && bs[j].busy && Holds(bs[j], DISKDEV, y);
      assert bs[b := x][j].busy && Holds(bs[b := x][j], DISKDEV, y);
    }
  }

  lemma ViewHeld(bs: seq<Buf<Block>>, disk: Disk, b: int)
    requires Sound(bs, disk) && 0 <= b < NBUF && bs[b].valid
    ensures |bs| == NBUF && 0 <= bs[b].sector < |disk| && View(bs, disk, bs[b].sector) == bs[b].data
  {
    ViewCached(bs, disk, b);
  }
}
