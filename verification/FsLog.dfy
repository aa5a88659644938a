/**
  The blocks that writing to a file and emptying it give to log_write, as a function of the volume
  before: balloc takes the lowest free blocks, so they can be told beforehand.
 */
module FsLog {
  import opened Ranges
  import opened Blocks
  import opened FsLayout
  import opened FsFiles
  import opened FsGrow
  import LogDisk

  /** log_write panics when so many blocks are logged. */
  function LogLimit(g: Geometry): int {
    if g.nlog - 1 < LogDisk.LOGSIZE then g.nlog - 1 else LogDisk.LOGSIZE
  }

  /** The log after more blocks. */
  ghost function Plus(was: set<int>, more: set<int>): set<int> { was + more }

  lemma PlusTwice(was: set<int>, a: set<int>, b: set<int>)
    ensures Plus(Plus(was, a), b) == Plus(was, a + b)
  {
  }

  lemma PlusNothing(was: set<int>)
    ensures Plus(was, {}) == was
  {
  }

  lemma PlusMore(was: set<int>, a: set<int>, b: set<int>)
    requires a <= b
    ensures |Plus(was, a)| <= |Plus(was, b)| && |was| <= |Plus(was, a)|
  {
    SubsetSize(Plus(was, a), Plus(was, b));
    SubsetSize(was, Plus(was, a));
  }

  /** The bitmap block for b. */
  ghost function BitOf(g: Geometry, b: nat): set<int> { {BBlock(g, b)} }

  /** What balloc logs when it takes block b. */
  ghost function Taking(g: Geometry, b: nat): set<int> { {BBlock(g, b), b} }

  lemma TakingSteps(g: Geometry, was: set<int>, b: nat)
    ensures Plus(Plus(was, BitOf(g, b)), {b}) == Plus(was, Taking(g, b))
    ensures |was| <= |Plus(was, BitOf(g, b))| <= |Plus(was, Taking(g, b))|
  {
    PlusMore(was, BitOf(g, b), Taking(g, b));
  }

  // ----------------------------------------------------------------- the lowest free blocks

  /** The first block from b on that is not in s, or n. */
  function Least(s: set<int>, b: nat, n: nat): (r: int)
    requires b <= n
    ensures b <= r <= n && (forall c :: b <= c < r ==> c in s) && (r < n ==> r !in s)
    decreases n - b
  {
    if b < n && b in s then Least(s, b + 1, n) else b
  }

  /** The block balloc finds when the blocks s are in use. */
  ghost function Next(g: Geometry, s: set<int>): (r: int)
    ensures 0 <= r <= g.size
  {
    Least(s, 0, g.size)
  }

  lemma NextIs(g: Geometry, s: set<int>, b: int)
    requires 0 <= b < g.size && b !in s && forall c :: 0 <= c < b ==> c in s
    ensures Next(g, s) == b
  {
  }

  /** The k blocks balloc takes one after the other. */
  ghost function Lowest(g: Geometry, s: set<int>, k: nat): set<int> {
    if k == 0 then {} else var t := Lowest(g, s, k - 1); t + {Next(g, s + t)}
  }

  lemma {:induction false} LowestSplit(g: Geometry, s: set<int>, a: nat, b: nat)
    ensures Lowest(g, s, a + b) == Lowest(g, s, a) + Lowest(g, s + Lowest(g, s, a), b)
  {
    if b > 0 {
      LowestSplit(g, s, a, b - 1);
      var t := Lowest(g, s, a);
      assert s + t + Lowest(g, s + t, b - 1) == s + Lowest(g, s, a + (b - 1));
    }
  }

  /** While there is room, the blocks taken are free ones, each taken once. */
  lemma {:induction false} LowestFree(g: Geometry, s: set<int>, k: nat)
    requires |s| + k <= g.size && forall c :: c in s ==> 0 <= c < g.size
    ensures var t := Lowest(g, s, k); |t| == k && t !! s && forall c :: c in t ==> 0 <= c < g.size
  {
    hide Next;
    if k > 0 {
      LowestFree(g, s, k - 1);
      var u := s + Lowest(g, s, k - 1);
      assert |u| == |s| + k - 1;
      NextFree(g, u);
    }
  }

  lemma NextFree(g: Geometry, s: set<int>)
    requires |s| < g.size
    ensures Next(g, s) < g.size && Next(g, s) !in s
  {
    if Next(g, s) == g.size {
      assert Range(0, g.size) <= s;
      SubsetSize(Range(0, g.size), s);
    }
  }

  /** The bitmap blocks that hold the bits of the blocks t. */
  ghost function Maps(g: Geometry, t: set<int>): set<int> {
    set b | b in t && 0 <= b :: BBlock(g, b) as int
  }

  lemma MapsUnion(g: Geometry, t: set<int>, u: set<int>)
    ensures Maps(g, t + u) == Maps(g, t) + Maps(g, u)
  {
    hide BBlock;
  }

  lemma {:induction false} MapsSize(g: Geometry, t: set<int>)
    ensures |Maps(g, t)| <= |t|
  {
    if t != {} {
      var b := Member(t);
      MapsSize(g, t - {b});
      MapsUnion(g, t - {b}, {b});
      assert t == t - {b} + {b};
      assert Maps(g, {b}) <= {if b >= 0 then BBlock(g, b) else 0};
      SubsetSize(Maps(g, {b}), {if b >= 0 then BBlock(g, b) else 0});
    }
  }

  // ------------------------------------------------------------------------------ writing

  ghost predicate HasFile(v: Volume, i: int) {
    0 <= i < |v.files| == |v.inodes| && GoodInode(v.inodes[i])
  }

  /** The blocks taken for file i to grow to m blocks. */
  ghost function New(g: Geometry, v: Volume, i: int, m: int): set<int>
    requires HasFile(v, i)
  {
    if m <= |v.files[i]| then {} else Lowest(g, v.owner.Keys, Needed(|v.files[i]|, m))
  }

  /** The blocks logged for that: those taken, the bitmap blocks for them, and the indirect block
      the file has already. */
  ghost function LogNew(g: Geometry, v: Volume, i: int, m: int): set<int>
    requires HasFile(v, i)
  {
    var t := New(g, v, i, m);
    t + Maps(g, t) + OldIndirect(v, i, m)
  }

  ghost function OldIndirect(v: Volume, i: int, m: int): set<int>
    requires HasFile(v, i)
  {
    if NDIRECT < |v.files[i]| < m then {v.inodes[i].addrs[NDIRECT] as int} else {}
  }

  lemma NothingNew(g: Geometry, v: Volume, i: int, m: int)
    requires HasFile(v, i) && m <= |v.files[i]|
    ensures LogNew(g, v, i, m) == {}
  {
  }

  ghost function Part(list: seq<int>, lo: int, hi: int): set<int> {
    set k | 0 <= k < |list| && lo <= k < hi :: list[k]
  }

  /** The blocks writei's loop logs when it writes to blocks lo to hi of file i. */
  ghost function LoopLog(g: Geometry, v: Volume, i: int, lo: int, hi: int): set<int>
    requires HasFile(v, i)
  {
    Part(v.files[i], lo, hi) + LogNew(g, v, i, hi)
  }

  /** From v to w file i has grown by the lowest free blocks; its indirect block, if it had none, is one of them. */
  ghost predicate Grown(g: Geometry, v: Volume, w: Volume, i: int) {
    && HasFile(v, i) && HasFile(w, i) && |v.files[i]| <= |w.files[i]|
    && w.owner.Keys == v.owner.Keys + New(g, v, i, |w.files[i]|)
    && (|w.files[i]| > NDIRECT ==>
          if |v.files[i]| > NDIRECT then w.inodes[i].addrs[NDIRECT] == v.inodes[i].addrs[NDIRECT]
          else w.inodes[i].addrs[NDIRECT] in New(g, v, i, |w.files[i]|))
  }

  lemma GrownSelf(g: Geometry, v: Volume, i: int)
    requires HasFile(v, i)
    ensures Grown(g, v, v, i)
  {
  }

  lemma NewSplit(g: Geometry, v: Volume, w: Volume, i: int, m: int)
    requires Grown(g, v, w, i) && |w.files[i]| <= m
    ensures New(g, v, i, m) == New(g, v, i, |w.files[i]|) + New(g, w, i, m)
  {
    hide Lowest, Next;
    var a, b := |v.files[i]|, |w.files[i]|;
    if a < b < m {
      LowestSplit(g, v.owner.Keys, Needed(a, b), Needed(b, m));
    } else if a == b {
      assert w.owner.Keys == v.owner.Keys;
    }
  }

  lemma GrownTwice(g: Geometry, u: Volume, v: Volume, w: Volume, i: int)
    requires Grown(g, u, v, i) && Grown(g, v, w, i)
    ensures Grown(g, u, w, i)
  {
    NewSplit(g, u, v, i, |w.files[i]|);
    hide New;
  }

  lemma LogNewSplit(g: Geometry, v: Volume, w: Volume, i: int, m: int)
    requires Grown(g, v, w, i) && |w.files[i]| <= m
    ensures LogNew(g, v, i, m) == LogNew(g, v, i, |w.files[i]|) + LogNew(g, w, i, m)
  {
    NewSplit(g, v, w, i, m);
    MapsUnion(g, New(g, v, i, |w.files[i]|), New(g, w, i, m));
    hide New, Maps;
  }

  lemma LoopLogMore(g: Geometry, v: Volume, i: int, lo: int, a: int, b: int)
    requires HasFile(v, i) && a <= b
    ensures LoopLog(g, v, i, lo, a) <= LoopLog(g, v, i, lo, b)
  {
    hide Lowest, Maps;
    var n := |v.files[i]|;
    if n < a {
      LowestSplit(g, v.owner.Keys, Needed(n, a), Needed(n, b) - Needed(n, a));
      MapsUnion(g, New(g, v, i, a), Lowest(g, v.owner.Keys + New(g, v, i, a), Needed(n, b) - Needed(n, a)));
    } else {
      NothingNew(g, v, i, a);
    }
  }

  /** What one more turn of the loop adds. */
  lemma LoopLogStep(g: Geometry, v: Volume, w: Volume, i: int, lo: int, bn: int)
    requires Grown(g, v, w, i) && 0 <= lo <= bn && |w.files[i]| == if bn < |v.files[i]| then |v.files[i]| else bn
    ensures LoopLog(g, v, i, lo, bn + 1) == LoopLog(g, v, i, lo, bn) +
              if bn < |v.files[i]| then {v.files[i][bn]} else LogNew(g, w, i, bn + 1)
  {
    hide Maps, Lowest;
    var list := v.files[i];
    if bn < |list| {
      assert Part(list, lo, bn + 1) == Part(list, lo, bn) + {list[bn]};
      NothingNew(g, v, i, bn + 1);
      NothingNew(g, v, i, bn);
    } else {
      assert Part(list, lo, bn + 1) == Part(list, lo, bn);
      LogNewSplit(g, v, w, i, bn + 1);
    }
  }

  /** The blocks writei's loop logs before its last log_write. */
  ghost function LoopPrior(g: Geometry, v: Volume, i: int, lo: int, hi: int): set<int>
    requires HasFile(v, i)
  {
    LoopLog(g, v, i, lo, if hi > |v.files[i]| then hi else hi - 1)
  }

  /** The blocks writei logs, of which the inode, if it is one, is the last. */
  ghost function WriteLog(g: Geometry, v: Volume, i: int, off: nat, n: nat): set<int>
    requires HasFile(v, i)
  {
    if n == 0 then {}
    else LoopLog(g, v, i, off / BSIZE, Ceil(off + n)) + if off + n > v.inodes[i].size then {IBlock(i) as int} else {}
  }

  /** The blocks writei logs before its last log_write. */
  ghost function WritePrior(g: Geometry, v: Volume, i: int, off: nat, n: nat): set<int>
    requires HasFile(v, i)
  {
    if n == 0 then {}
    else LoopLog(g, v, i, off / BSIZE, if off + n > v.inodes[i].size then Ceil(off + n) else Ceil(off + n) - 1)
  }

  /** No log_write of a writei that writes n bytes at off panics when the blocks `was` are logged already. */
  ghost predicate LogRoom(g: Geometry, v: Volume, i: int, off: nat, n: nat, was: set<int>)
    requires HasFile(v, i)
  {
    n == 0 || |Plus(was, WritePrior(g, v, i, off, n))| < LogLimit(g)
  }

  /** The blocks bmap logs before its last log_write, when it adds the next block to file i. */
  ghost function MapPrior(g: Geometry, v: Volume, i: int): set<int>
    requires HasFile(v, i)
  {
    var t := New(g, v, i, |v.files[i]| + 1);
    Maps(g, t) + if |v.files[i]| < NDIRECT then {} else t
  }

  lemma NewOne(g: Geometry, v: Volume, i: int)
    requires HasFile(v, i) && |v.files[i]| != NDIRECT
    ensures var b := Next(g, v.owner.Keys);
            New(g, v, i, |v.files[i]| + 1) == {b} && Maps(g, {b}) == {BBlock(g, b) as int}
  {
    hide BBlock;
    assert Lowest(g, v.owner.Keys, 1) == {Next(g, v.owner.Keys + {})};
    assert v.owner.Keys + {} == v.owner.Keys;
  }

  lemma NewTwo(g: Geometry, v: Volume, i: int)
    requires HasFile(v, i) && |v.files[i]| == NDIRECT
    ensures var x := Next(g, v.owner.Keys);
            var b := Next(g, v.owner.Keys + {x});
            New(g, v, i, |v.files[i]| + 1) == {x, b} && Maps(g, {x, b}) == {BBlock(g, x) as int, BBlock(g, b) as int}
  {
    hide BBlock;
    var s := v.owner.Keys;
    assert Lowest(g, s, 1) == {Next(g, s + {})};
    assert s + {} == s;
    assert Lowest(g, s, 2) == Lowest(g, s, 1) + {Next(g, s + Lowest(g, s, 1))};
  }

  // ------------------------------------------------------------------------- how many they are

  lemma {:induction false} PartSize(g: Geometry, v: Volume, i: int, lo: int, hi: int)
    requires Sound(g, v) && 0 <= i < |v.files| && 0 <= lo <= hi <= |v.files[i]|
    ensures |Part(v.files[i], lo, hi)| == hi - lo
    decreases hi
  {
    var list := v.files[i];
    if lo < hi {
      PartSize(g, v, i, lo, hi - 1);
      hide Sound;
      assert Part(list, lo, hi) == Part(list, lo, hi - 1) + {list[hi - 1]};
      if k :| lo <= k < hi - 1 && list[k] == list[hi - 1] {
        NoSharing(g, v, i, k, i, hi - 1);
      }
    } else {
      assert Part(list, lo, hi) == {};
    }
  }

  /** The blocks of a file and free blocks lie in the data area, bitmap blocks in front of it. */
  lemma Places(g: Geometry, v: Volume, b: int)
    requires Sound(g, v) && 0 <= b < g.size
    ensures b in v.owner && (v.owner[b].Data? || v.owner[b].Indirect?) ==> InData(g, b)
    ensures b !in v.owner && b < g.size - g.nlog ==> InData(g, b)
    ensures !InData(g, BBlock(g, b))
  {
    hide Mapped, Used;
    assert b in v.owner && v.owner[b] == Meta ==> !InData(g, b);
  }

  lemma MapsApart(g: Geometry, v: Volume, t: set<int>, d: set<int>)
    requires Sound(g, v) && (forall b :: b in t ==> 0 <= b < g.size) && (forall b :: b in d ==> InData(g, b))
    ensures Maps(g, t) !! d
  {
    forall b | b in t
      ensures !InData(g, BBlock(g, b))
    {
      Places(g, v, b);
    }
    hide BBlock, InData, Sound;
  }

  lemma PartOwned(g: Geometry, v: Volume, i: int, lo: int, hi: int)
    requires Sound(g, v) && 0 <= i < |v.files|
    ensures forall b :: b in Part(v.files[i], lo, hi) ==> b in v.owner && v.owner[b].Data? && InData(g, b)
  {
    forall k | 0 <= k < |v.files[i]|
      ensures var b := v.files[i][k]; b in v.owner && v.owner[b].Data? && InData(g, b)
    {
      assert OwnsData(v, i, k);
    }
    hide Sound;
  }

  /** Old blocks written, blocks taken, bitmap blocks for them, the old indirect block: these are all different. */
  lemma LoopLogSize(g: Geometry, v: Volume, i: int, lo: int, hi: int)
    requires Sound(g, v) && 0 <= i < |v.files| && 0 <= lo <= hi && lo <= |v.files[i]|
    requires hi > |v.files[i]| ==> Fill(g, v.owner) + Needed(|v.files[i]|, hi) <= g.size
    ensures HasFile(v, i)
    ensures |LoopLog(g, v, i, lo, hi)| ==
              Min(hi, |v.files[i]|) - lo + (if hi > |v.files[i]| then Needed(|v.files[i]|, hi) else 0)
              + |Maps(g, New(g, v, i, hi))| + if NDIRECT < |v.files[i]| < hi then 1 else 0
  {
    hide Sound, Maps, New, Part, InData, Needed, OldIndirect;
    FileThere(g, v, i);
    var p, t, x := Part(v.files[i], lo, hi), New(g, v, i, hi), OldIndirect(v, i, hi);
    PartSize(g, v, i, lo, Min(hi, |v.files[i]|));
    PartClipped(v.files[i], lo, hi);
    NewFree(g, v, i, hi);
    LogApart(g, v, i, lo, hi);
    MapsApart(g, v, t, p + t + x);
    FourApart(p, t, x, Maps(g, t));
  }

  lemma LogApart(g: Geometry, v: Volume, i: int, lo: int, hi: int)
    requires Sound(g, v) && HasFile(v, i)
    requires hi > |v.files[i]| ==> Fill(g, v.owner) + Needed(|v.files[i]|, hi) <= g.size
    ensures var p, t, x := Part(v.files[i], lo, hi), New(g, v, i, hi), OldIndirect(v, i, hi);
            && p !! t && (p + t) !! x && (forall b :: b in p + t + x ==> InData(g, b))
            && |x| == if NDIRECT < |v.files[i]| < hi then 1 else 0
  {
    hide Sound, New, Part, InData, Needed, OldIndirect;
    PartOwned(g, v, i, lo, hi);
    NewFree(g, v, i, hi);
    OldIndirectIs(g, v, i, hi);
    ThreeApart(g, v.owner, Part(v.files[i], lo, hi), New(g, v, i, hi), OldIndirect(v, i, hi));
  }

  lemma OldIndirectIs(g: Geometry, v: Volume, i: int, m: int)
    requires Sound(g, v) && HasFile(v, i)
    ensures var x := OldIndirect(v, i, m);
            && |x| == (if NDIRECT < |v.files[i]| < m then 1 else 0)
            && forall b :: b in x ==> b in v.owner && v.owner[b].Indirect? && InData(g, b)
  {
    hide Sound, InData;
    if NDIRECT < |v.files[i]| {
      IndirectIs(g, v, i);
    }
  }

  lemma ThreeApart(g: Geometry, owner: map<int, Owner>, p: set<int>, t: set<int>, x: set<int>)
    requires forall b :: b in p ==> b in owner && owner[b].Data? && InData(g, b)
    requires forall b :: b in t ==> b !in owner && InData(g, b)
    requires forall b :: b in x ==> b in owner && owner[b].Indirect? && InData(g, b)
    ensures p !! t && (p + t) !! x && forall b :: b in p + t + x ==> InData(g, b)
  {
    forall b | b in p
      ensures b !in t && b !in x
    {
    }
    forall b | b in t
      ensures b !in x
    {
    }
  }

  lemma FileThere(g: Geometry, v: Volume, i: int)
    requires Sound(g, v) && 0 <= i < |v.files|
    ensures HasFile(v, i)
  {
  }

  lemma PartClipped(list: seq<int>, lo: int, hi: int)
    ensures Part(list, lo, hi) == Part(list, lo, Min(hi, |list|))
  {
  }

  lemma FourApart(p: set<int>, t: set<int>, x: set<int>, m: set<int>)
    requires p !! t && (p + t) !! x && m !! (p + t + x)
    ensures |p + (t + m + x)| == |p| + |t| + |m| + |x|
  {
    assert p + (t + m + x) == p + t + x + m;
  }

  /** While there is room in front of the log, the log does not matter for what balloc takes. */
  lemma {:induction false} LowestData(g: Geometry, s: set<int>, k: nat)
    requires GoodGeometry(g) && |s + LogArea(g)| + k <= g.size && forall c :: c in s ==> 0 <= c < g.size
    ensures Lowest(g, s, k) == Lowest(g, s + LogArea(g), k)
  {
    hide Next, LogArea;
    if k > 0 {
      LowestData(g, s, k - 1);
      NextBoth(g, s, LogArea(g), k - 1);
    }
  }

  lemma NextBoth(g: Geometry, s: set<int>, l: set<int>, k: nat)
    requires l == LogArea(g) && |s + l| + k < g.size && (forall c :: c in s + l ==> 0 <= c < g.size)
    requires Lowest(g, s, k) == Lowest(g, s + l, k)
    ensures Next(g, s + Lowest(g, s, k)) == Next(g, s + l + Lowest(g, s, k))
  {
    hide Next, LogArea, Lowest;
    var t := Lowest(g, s, k);
    LowestFree(g, s + l, k);
    Sizes(s + l, t);
    NextFree(g, s + l + t);
    assert s + t + l == s + l + t;
    NextData(g, s + t, l);
  }

  lemma Sizes(a: set<int>, b: set<int>)
    requires a !! b
    ensures |a + b| == |a| + |b|
  {
  }

  lemma NextData(g: Geometry, s: set<int>, l: set<int>)
    requires l == LogArea(g) && Next(g, s + l) < g.size
    ensures Next(g, s) == Next(g, s + l)
  {
    hide LogArea;
    var b := Next(g, s + l);
    assert b !in l;
    forall c | 0 <= c < b
      ensures c in s
    {
      assert c in s + l;
    }
    NextIs(g, s, b);
  }

  lemma NewFree(g: Geometry, v: Volume, i: int, m: int)
    requires Sound(g, v) && HasFile(v, i)
    requires m > |v.files[i]| ==> Fill(g, v.owner) + Needed(|v.files[i]|, m) <= g.size
    ensures var t := New(g, v, i, m);
            && |t| == (if m > |v.files[i]| then Needed(|v.files[i]|, m) else 0)
            && forall b :: b in t ==> b !in v.owner && 0 <= b < g.size && InData(g, b)
  {
    if m > |v.files[i]| {
      var s, l, k := v.owner.Keys, LogArea(g), Needed(|v.files[i]|, m);
      OwnerPlaces(g, v);
      hide Sound, Lowest, InData;
      LowestData(g, s, k);
      LowestFree(g, s + l, k);
      forall b | b in New(g, v, i, m)
        ensures b !in v.owner && 0 <= b < g.size && InData(g, b)
      {
        assert b !in s + l;
        Places(g, v, b);
      }
    }
  }

  lemma OwnerPlaces(g: Geometry, v: Volume)
    requires Sound(g, v)
    ensures GoodGeometry(g) && forall c :: c in v.owner.Keys ==> 0 <= c < g.size
  {
  }
}
