/**
  How bmap and the turns of writei's loop end.  Besides a panic, for want of blocks on the disk, of room in the log or
  of a buffer, balloc can hand out a block of the log itself, whose bits mkfs leaves clear, and the code goes on.
 */
module FsFate {
  import opened Ranges
  import opened FsLayout
  import opened FsFiles
  import opened FsGrow
  import opened FsLog
  import opened FsMap
  import LruList

  datatype Fate = Fine | Panics | IntoLog

  // ---------------------------------------------------------------------- balloc

  /** balloc takes block b, with the blocks `held` in use, without a panic: its readsb needs a buffer, the bitmap block
      and b go into the log, and b needs a buffer too. */
  ghost predicate TakeRoom(g: Geometry, was: set<int>, held: set<int>, b: nat) {
    && |Plus(was, BitOf(g, b))| < LogLimit(g)
    && |Plus(was, held)| < LruList.NBUF && |Plus(Plus(was, Taking(g, b)), held)| <= LruList.NBUF
  }

  /** Where nothing is in use the log is full first. */
  lemma NoneHeld(g: Geometry, was: set<int>, held: set<int>, b: nat)
    requires held <= was
    ensures TakeRoom(g, was, held, b) <==> |Plus(was, BitOf(g, b))| < LogLimit(g)
  {
    hide LogLimit;
    LimitBuffers(g);
    PlusMore(was, {}, BitOf(g, b));
    PlusNothing(was);
    assert Plus(was, held) == was;
    assert Plus(Plus(was, Taking(g, b)), held) == Plus(was, BitOf(g, b)) + {b};
  }

  lemma LimitBuffers(g: Geometry)
    ensures LogLimit(g) <= LruList.NBUF
  {
  }

  /** The last step of TakeRoom, as bread of b sees it. */
  lemma BufferForBlock(g: Geometry, was: set<int>, held: set<int>, b: nat)
    requires |Plus(was, held)| < LruList.NBUF
    ensures var now := Plus(was, BitOf(g, b));
            |Plus(Plus(was, Taking(g, b)), held)| <= LruList.NBUF <==>
            b in now + held || |Plus(now, held)| < LruList.NBUF
  {
    var now := Plus(was, BitOf(g, b));
    assert Plus(Plus(was, Taking(g, b)), held) == Plus(now, held) + {b};
    assert Plus(now, held) == Plus(was, held) + BitOf(g, b);
  }

  // --------------------------------------------------------------- the log's own blocks

  /** The free blocks in front of the log. */
  ghost function Spare(g: Geometry, owner: map<int, Owner>): nat { Max(g.size - Fill(g, owner), 0) }

  /** Some bit of the log is clear. */
  ghost predicate LogClear(g: Geometry, owner: map<int, Owner>) { |owner| < Fill(g, owner) }

  ghost function Indirects(v: Volume, i: int): set<int>
    requires HasFile(v, i)
  {
    if |v.files[i]| > NDIRECT then {v.inodes[i].addrs[NDIRECT] as int} else {}
  }

  /** A write to blocks lo and following of file i gets to where every block in front of the log is in use, and takes
      the first one of the log, without a panic.  It has logged the old blocks it wrote, every block that was free, the
      bitmap blocks for these and for the one of the log, and the indirect block, unless this is the first block it
      takes, while the indirect block is in use. */
  ghost predicate TakesRoom(g: Geometry, v: Volume, i: int, lo: int, was: set<int>)
    requires HasFile(v, i)
  {
    var d, e := Lowest(g, v.owner.Keys, Spare(g, v.owner)), Lowest(g, v.owner.Keys, Spare(g, v.owner) + 1);
    TakesAfter(g, Part(v.files[i], lo, |v.files[i]|), d, e, Indirects(v, i), Spare(g, v.owner) > 0, was)
  }

  ghost predicate TakesAfter(g: Geometry, p: set<int>, d: set<int>, e: set<int>, x: set<int>, taken: bool,
                             was: set<int>) {
    && |Plus(was, p + d + Maps(g, e) + if taken then x else {})| < LogLimit(g)
    && |Plus(was, p + d + Maps(g, d) + x)| < LruList.NBUF
    && |Plus(was, p + e + Maps(g, e) + x)| <= LruList.NBUF
  }

  /** How a write that is short of blocks in front of the log ends. */
  ghost function ShortFate(g: Geometry, v: Volume, i: int, lo: int, was: set<int>): Fate
    requires HasFile(v, i)
  {
    if LogClear(g, v.owner) && TakesRoom(g, v, i, lo, was) then IntoLog else Panics
  }

  lemma MapsNone(g: Geometry)
    ensures Maps(g, {}) == {}
  {
  }

  lemma LowestOne(g: Geometry, s: set<int>)
    ensures Lowest(g, s, 0) == {} && Lowest(g, s, 1) == {Next(g, s)}
  {
    assert s + {} == s;
  }

  lemma PartNone(list: seq<int>)
    ensures Part(list, |list|, |list|) == {}
  {
  }

  lemma MapsSingle(g: Geometry, b: nat)
    ensures Maps(g, {b as int}) == BitOf(g, b)
  {
    hide BBlock;
  }

  /** With no block left in front of the log, the next one taken is the log's. */
  lemma TakesNow(g: Geometry, v: Volume, i: int, was: set<int>)
    requires HasFile(v, i) && Spare(g, v.owner) == 0
    ensures TakesRoom(g, v, i, |v.files[i]|, was) <==> TakeRoom(g, was, Indirects(v, i), Next(g, v.owner.Keys))
  {
    hide Lowest, Maps, Part, Next, LogLimit, BBlock, Fill;
    var s, b, x := v.owner.Keys, Next(g, v.owner.Keys), Indirects(v, i);
    LowestOne(g, s);
    PartNone(v.files[i]);
    MapsNone(g);
    MapsSingle(g, b);
    assert {} + {} + BitOf(g, b) + {} == BitOf(g, b);
    assert {} + {} + {} + x == x;
    assert Plus(was, {} + {b as int} + BitOf(g, b) + x) == Plus(Plus(was, Taking(g, b)), x);
  }

  /** With one left it becomes the indirect block, and the next one taken is the log's. */
  lemma TakesNext(g: Geometry, v: Volume, i: int, was: set<int>)
    requires HasFile(v, i) && Spare(g, v.owner) == 1 && |v.files[i]| == NDIRECT
    ensures var x := Next(g, v.owner.Keys);
            var b := Next(g, v.owner.Keys + {x});
            && (TakesRoom(g, v, i, |v.files[i]|, was) <==>
                |Plus(Plus(was, Taking(g, x)), BitOf(g, b))| < LogLimit(g))
            && |Plus(was, BitOf(g, x))| <= |Plus(Plus(was, Taking(g, x)), BitOf(g, b))|
  {
    hide Maps, Part, Next, LogLimit, Fill, Lowest, Plus, BitOf, Taking;
    var s := v.owner.Keys;
    var x := Next(g, s);
    var b := Next(g, s + {x});
    LowestOne(g, s);
    LowestTwo(g, s);
    PartNone(v.files[i]);
    MapsSingle(g, x);
    MapsSingle(g, b);
    MapsUnion(g, {x as int}, {b as int});
    LimitBuffers(g);
    TwoTaken(g, was, x, b);
  }

  lemma LowestTwo(g: Geometry, s: set<int>)
    ensures Lowest(g, s, 2) == {Next(g, s)} + {Next(g, s + {Next(g, s)})}
  {
    hide Next;
    LowestOne(g, s);
    assert Lowest(g, s, 2) == Lowest(g, s, 1) + {Next(g, s + Lowest(g, s, 1))};
  }

  lemma TwoTaken(g: Geometry, was: set<int>, x: nat, b: nat)
    ensures var now := Plus(Plus(was, Taking(g, x)), BitOf(g, b));
            && Plus(was, {} + {x as int} + (BitOf(g, x) + BitOf(g, b)) + {}) == now
            && Plus(was, {} + {x as int} + BitOf(g, x) + {}) == Plus(was, Taking(g, x))
            && Plus(was, {} + ({x as int} + {b as int}) + (BitOf(g, x) + BitOf(g, b)) + {}) == now + {b as int}
            && |now + {b as int}| <= |now| + 1
            && |Plus(was, BitOf(g, x))| <= |Plus(was, Taking(g, x))| <= |now|
  {
    TwoSets(g, was, x, b);
    hide Plus, BitOf, Taking;
    TakingSteps(g, was, x);
    PlusMore(Plus(was, Taking(g, x)), {}, BitOf(g, b));
    PlusNothing(Plus(was, Taking(g, x)));
  }

  lemma TwoSets(g: Geometry, was: set<int>, x: nat, b: nat)
    ensures var now := Plus(Plus(was, Taking(g, x)), BitOf(g, b));
            && Plus(was, {} + {x as int} + (BitOf(g, x) + BitOf(g, b)) + {}) == now
            && Plus(was, {} + {x as int} + BitOf(g, x) + {}) == Plus(was, Taking(g, x))
            && Plus(was, {} + ({x as int} + {b as int}) + (BitOf(g, x) + BitOf(g, b)) + {}) == now + {b as int}
  {
    hide BBlock;
  }

  // --------------------------------------------------------------------------- bmap

  /** A block that is logged has a buffer; any other one needs one that can be recycled. */
  ghost predicate Cached(was: set<int>, b: int) { b in was || |was| < LruList.NBUF }

  /** How bmap of block bn of file i ends. */
  ghost function MapFate(g: Geometry, v: Volume, i: int, bn: int, was: set<int>): Fate
    requires HasFile(v, i)
  {
    if bn < |v.files[i]| then
      (if bn < NDIRECT || Cached(was, v.inodes[i].addrs[NDIRECT] as int) then Fine else Panics)
    else if bn >= MAXFILE then Panics
    else if Fill(g, v.owner) + Needed(bn, bn + 1) <= g.size then (if MapRoom(g, v, i, was) then Fine else Panics)
    else ShortFate(g, v, i, bn, was)
  }

  /** How balloc ends with no block in use, given the disk and the log. */
  ghost function BallocFate(g: Geometry, owner: map<int, Owner>, was: set<int>, held: set<int>): Fate {
    if |owner| >= g.size || !TakeRoom(g, was, held, Next(g, owner.Keys)) then Panics
    else if Fill(g, owner) < g.size then Fine
    else IntoLog
  }

  lemma DirectFate(g: Geometry, v: Volume, i: int, was: set<int>)
    requires HasFile(v, i) && |v.files[i]| < NDIRECT && |v.owner| <= Fill(g, v.owner) <= g.size
    ensures MapFate(g, v, i, |v.files[i]|, was) == BallocFate(g, v.owner, was, {})
  {
    hide TakesRoom, TakeRoom, MapRoom, Next, Fill;
    NoneHeld(g, was, {}, Next(g, v.owner.Keys));
    DirectRoom(g, v, i, was);
    if Spare(g, v.owner) == 0 {
      TakesNow(g, v, i, was);
    }
  }

  /** When the indirect block is to be taken first. */
  lemma FirstFate(g: Geometry, v: Volume, i: int, was: set<int>)
    requires HasFile(v, i) && |v.files[i]| == NDIRECT && |v.owner| <= Fill(g, v.owner) <= g.size
    ensures BallocFate(g, v.owner, was, {}) != Fine ==>
              MapFate(g, v, i, NDIRECT, was) == BallocFate(g, v.owner, was, {})
  {
    hide TakesRoom, TakeRoom, MapRoom, Next, Fill, LogLimit, BitOf, Taking, Plus;
    NoneHeld(g, was, {}, Next(g, v.owner.Keys));
    FirstFails(g, v, i, was);
    if Spare(g, v.owner) == 0 {
      TakesNow(g, v, i, was);
    } else if Spare(g, v.owner) == 1 {
      TakesNext(g, v, i, was);
    }
  }

  /** When the data block is to be taken and entered in the indirect block x, which is in use meanwhile. */
  ghost function EntryFate(g: Geometry, v: Volume, half: Volume, i: int, x: int, was: set<int>, had: set<int>): Fate {
    var f := BallocFate(g, half.owner, had, {x});
    if f != Fine || MapRoom(g, v, i, was) then f else Panics
  }

  lemma SecondFate(g: Geometry, v: Volume, half: Volume, i: int, x: int, was: set<int>, had: set<int>)
    requires Ready(g, v, half, i, x) && FirstEntry(g, v, i, x, was, had) && NDIRECT <= |v.files[i]| < MAXFILE
    requires |v.owner| <= Fill(g, v.owner) && Fill(g, half.owner) <= g.size
    requires |half.owner| - |v.owner| == Fill(g, half.owner) - Fill(g, v.owner)
                                      == if |v.files[i]| == NDIRECT then 1 else 0
    ensures HasFile(v, i) && MapFate(g, v, i, |v.files[i]|, was) == EntryFate(g, v, half, i, x, was, had)
    ensures MapRoom(g, v, i, was) ==> TakeRoom(g, had, {x}, Next(g, half.owner.Keys)) && Cached(had, x)
    ensures MapFate(g, v, i, |v.files[i]|, was) == IntoLog ==> Cached(had, x)
  {
    hide TakesRoom, TakeRoom, Next, Fill, LogLimit, BitOf, Taking, Plus, New, LogNew, Halfway, MapRoom;
    var b := Next(g, half.owner.Keys);
    SecondEntry(g, v, half, i, x, was, had);
    EntryRoom(g, had, x, b);
    if Spare(g, v.owner) == 0 {
      TakesNow(g, v, i, was);
    } else if |v.files[i]| == NDIRECT && Spare(g, v.owner) == 1 {
      ReadyKeys(g, v, half, i, x, was, had);
      TakesNext(g, v, i, was);
      NoneHeld(g, had, {x}, b);
    }
  }

  lemma ReadyKeys(g: Geometry, v: Volume, half: Volume, i: int, x: int, was: set<int>, had: set<int>)
    requires Ready(g, v, half, i, x) && FirstEntry(g, v, i, x, was, had) && |v.files[i]| == NDIRECT
    ensures x == Next(g, v.owner.Keys) && half.owner.Keys == v.owner.Keys + {x} && had == Plus(was, Taking(g, x))
    ensures {x} <= had
  {
    hide Taken, BitmapOk, Used, InData, Next;
  }

  /** Room for the entry's last log_write, and for readsb, is room for all of balloc. */
  lemma EntryRoom(g: Geometry, had: set<int>, x: int, b: nat)
    ensures |Plus(had, Taking(g, b))| < LogLimit(g) && |Plus(had, {x})| < LruList.NBUF ==> TakeRoom(g, had, {x}, b)
    ensures TakeRoom(g, had, {x}, b) ==> Cached(had, x)
    ensures |Plus(had, {x})| < LruList.NBUF ==> Cached(had, x)
  {
    hide LogLimit, BBlock;
    LimitBuffers(g);
    TakingSteps(g, had, b);
    PlusMore(had, {x}, {x});
    assert Plus(Plus(had, Taking(g, b)), {x}) == Plus(had, Taking(g, b)) + {x};
  }

  lemma OwnersFit(g: Geometry, v: Volume)
    requires Sound(g, v)
    ensures |v.owner| <= Fill(g, v.owner) <= g.size
  {
    hide Fill;
    VolumeOwners(g, v);
    DataRoom(g, v.owner);
  }

  /** Whether the indirect block that bmap has found or taken can be read, and how bmap ends then. */
  lemma IndirectRead(g: Geometry, v: Volume, half: Volume, i: int, x: int, bn: int, was: set<int>, had: set<int>)
    requires Sound(g, v) && Ready(g, v, half, i, x) && FirstEntry(g, v, i, x, was, had)
    requires 0 <= bn < NINDIRECT && NDIRECT + bn <= |v.files[i]|
    requires BitmapOk(g, half.disk, half.owner)
    ensures HasFile(v, i) && Plus(had, {}) == had
    ensures !Cached(had, x) ==> MapFate(g, v, i, NDIRECT + bn, was) == Panics
    ensures Cached(had, x) && NDIRECT + bn < |v.files[i]| ==> MapFate(g, v, i, NDIRECT + bn, was) == Fine
    ensures NDIRECT + bn == |v.files[i]| ==>
              MapFate(g, v, i, NDIRECT + bn, was) == EntryFate(g, v, half, i, x, was, had)
  {
    hide Sound, Fill, TakeRoom, TakesRoom, MapRoom, BitmapOk, LogClear, Taken, Used, InData, BallocFate, EntryFate;
    FileThere(g, v, i);
    OwnersFit(g, v);
    PlusNothing(had);
    if NDIRECT + bn == |v.files[i]| {
      HalfFilled(g, v, half, i, x);
      SecondFate(g, v, half, i, x, was, had);
    }
  }

  lemma HalfFilled(g: Geometry, v: Volume, half: Volume, i: int, x: int)
    requires Sound(g, v) && Ready(g, v, half, i, x) && BitmapOk(g, half.disk, half.owner)
    ensures Fill(g, half.owner) <= g.size
    ensures |half.owner| - |v.owner| == Fill(g, half.owner) - Fill(g, v.owner)
                                      == if |v.files[i]| == NDIRECT then 1 else 0
  {
    hide Fill, Taken, Used, InData;
    VolumeShape(g, v, i);
    BitmapShape(g, half.disk, half.owner);
    DataRoom(g, half.owner);
    if |v.files[i]| == NDIRECT {
      FillAdds(g, v.owner, x, Indirect(i));
      KeysAdded(v.owner, half.owner, {x});
    }
  }

  /** Where balloc has room and so has the log_write of the indirect block, so has all of bmap. */
  lemma EntryTaken(g: Geometry, had: set<int>, x: int, b: nat)
    ensures TakeRoom(g, had, {x}, b) ==> |Plus(had, {x})| < LruList.NBUF
    ensures |Plus(had, Taking(g, b))| < LogLimit(g) && |Plus(had, {x})| < LruList.NBUF ==> TakeRoom(g, had, {x}, b)
  {
    EntryRoom(g, had, x, b);
  }

  // ------------------------------------------------------------------ writei's loop

  /** The blocks of a write that takes one of the log's, split where a turn starts. */
  lemma TakesParts(g: Geometry, p: set<int>, t: set<int>, d: set<int>, e: set<int>, x: set<int>, taken: bool,
                   y: set<int>, left: bool, was: set<int>, had: set<int>)
    requires had == Plus(was, p + (t + Maps(g, t) + if taken then x else {}))
    requires x <= y + t && y <= x + t && (left ==> y == {})
    ensures TakesAfter(g, p, t + d, t + e, x, taken, was) <==> TakesAfter(g, {}, d, e, y, left, had)
  {
    hide Maps, LogLimit;
    MapsUnion(g, t, d);
    MapsUnion(g, t, e);
    var mt, md, me := Maps(g, t), Maps(g, d), Maps(g, e);
    var o := if taken then x else {};
    hide Plus;
    Regrouped(was, p, t, mt, o, d, me, o, if left then y else {});
    Regrouped(was, p, t, mt, o, d, md, x, y);
    Regrouped(was, p, t, mt, o, e, me, x, y);
  }

  lemma Regrouped(was: set<int>, p: set<int>, t: set<int>, mt: set<int>, o: set<int>, d: set<int>, md: set<int>,
                  x: set<int>, y: set<int>)
    requires o + y + t == x + t
    ensures Plus(was, p + (t + d) + (mt + md) + x) == Plus(Plus(was, p + (t + mt + o)), {} + d + md + y)
  {
    var a, b := Plus(was, p + (t + d) + (mt + md) + x), Plus(Plus(was, p + (t + mt + o)), {} + d + md + y);
    forall c
      ensures c in a <==> c in b
    {
      assert c in o + y + t <==> c in x + t;
    }
  }

  /** Blocks taken in front of the log leave its bits as they are. */
  lemma ClearKept(g: Geometry, v: Volume, w: Volume, i: int)
    requires Sound(g, v) && Grown(g, v, w, i) && Fill(g, w.owner) <= g.size
    requires Fill(g, w.owner) == Fill(g, v.owner) + Needed(|v.files[i]|, |w.files[i]|)
    ensures LogClear(g, v.owner) <==> LogClear(g, w.owner)
  {
    hide Sound, New, Fill, InData, Needed;
    var t := New(g, v, i, |w.files[i]|);
    NewFree(g, v, i, |w.files[i]|);
    NeededNone(|v.files[i]|);
    KeysAdded(v.owner, w.owner, t);
  }

  lemma NeededNone(a: int)
    ensures Needed(a, a) == 0
  {
  }

  lemma KeysAdded(a: map<int, Owner>, b: map<int, Owner>, t: set<int>)
    requires b.Keys == a.Keys + t && forall x :: x in t ==> x !in a
    ensures |b| == |a| + |t|
  {
    forall x | x in a.Keys
      ensures x !in t
    {
    }
    assert |b| == |b.Keys| && |a| == |a.Keys|;
  }

  /** A turn that is short of blocks ends as the write does. */
  lemma TakesSplit(g: Geometry, v: Volume, w: Volume, i: int, lo: int, was: set<int>, had: set<int>)
    requires Grown(g, v, w, i) && v.files[i] <= w.files[i]
    requires had == Plus(was, LoopLog(g, v, i, lo, |w.files[i]|))
    requires var a, b := |v.files[i]|, |w.files[i]|;
             && Spare(g, v.owner) == Spare(g, w.owner) + (if a < b then Needed(a, b) else 0)
             && Spare(g, w.owner) < Needed(b, b + 1)
    ensures TakesRoom(g, v, i, lo, was) <==> TakesRoom(g, w, i, |w.files[i]|, had)
  {
    hide Maps, Lowest, Next, LogLimit, Fill, TakesAfter, Plus;
    var a, b, s := |v.files[i]|, |w.files[i]|, v.owner.Keys;
    var k, m := if a < b then Needed(a, b) else 0, Spare(g, w.owner);
    var t := New(g, v, i, b);
    LowestNone(g, s);
    assert t == Lowest(g, s, k);
    LowestSplit(g, s, k, m);
    LowestSplit(g, s, k, m + 1);
    assert w.owner.Keys == s + t;
    PartNone(w.files[i]);
    PartAll(v.files[i], lo, b);
    var x, y := Indirects(v, i), Indirects(w, i);
    TakesParts(g, Part(v.files[i], lo, a), t, Lowest(g, s + t, m), Lowest(g, s + t, m + 1), x, Spare(g, v.owner) > 0,
               y, m > 0, was, had);
  }

  lemma LowestNone(g: Geometry, s: set<int>)
    ensures Lowest(g, s, 0) == {}
  {
  }

  lemma PartAll(list: seq<int>, lo: int, hi: int)
    requires hi >= |list|
    ensures Part(list, lo, hi) == Part(list, lo, |list|)
  {
  }

  lemma LoopLogIs(g: Geometry, v: Volume, i: int, lo: int, h: int)
    requires HasFile(v, i)
    ensures Part(v.files[i], lo, h) <= Part(v.files[i], lo, |v.files[i]|)
    ensures OldIndirect(v, i, h) <= if h > |v.files[i]| then Indirects(v, i) else {}
    ensures var t := New(g, v, i, h);
            LoopLog(g, v, i, lo, h) == Part(v.files[i], lo, h) + (t + Maps(g, t) + OldIndirect(v, i, h))
  {
    hide New, Maps;
  }

  /** A write that gets to the log's blocks has logged what the turns before it log. */
  lemma TakesAfterTurn(g: Geometry, v: Volume, i: int, lo: int, bn: int, was: set<int>)
    requires HasFile(v, i) && (bn < |v.files[i]| || Needed(|v.files[i]|, bn + 1) <= Spare(g, v.owner))
    ensures TakesRoom(g, v, i, lo, was) ==> |Plus(was, LoopPrior(g, v, i, lo, bn + 1))| < LogLimit(g)
  {
    hide Maps, Lowest, Next, LogLimit, Fill, Part, LoopLog, Indirects, OldIndirect, Plus, New;
    var n, s, m := |v.files[i]|, v.owner.Keys, Spare(g, v.owner);
    var h := if bn + 1 > n then bn + 1 else bn;
    var x := if m > 0 then Indirects(v, i) else {};
    NewWithin(g, v, i, h, m);
    LoopLogIs(g, v, i, lo, h);
    assert h > n ==> m > 0;
    var all := Part(v.files[i], lo, n) + Lowest(g, s, m) + Maps(g, Lowest(g, s, m + 1)) + x;
    assert LoopLog(g, v, i, lo, h) <= all;
    PlusMore(was, LoopLog(g, v, i, lo, h), all);
  }

  lemma NewWithin(g: Geometry, v: Volume, i: int, h: int, m: nat)
    requires HasFile(v, i) && (h <= |v.files[i]| || Needed(|v.files[i]|, h) <= m)
    ensures var t, s := New(g, v, i, h), v.owner.Keys;
            t <= Lowest(g, s, m) && Maps(g, t) <= Maps(g, Lowest(g, s, m + 1))
  {
    hide Maps, Lowest, Next;
    var n, s := |v.files[i]|, v.owner.Keys;
    MapsNone(g);
    if h > n {
      var k, t := Needed(n, h), New(g, v, i, h);
      LowestSplit(g, s, k, m - k);
      LowestSplit(g, s, k, m + 1 - k);
      MapsUnion(g, t, Lowest(g, s + t, m + 1 - k));
    }
  }
}
