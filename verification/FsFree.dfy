/**
  The bitmap blocks itrunc logs.
 */
module FsFree {
  import opened Ranges
  import opened FsLayout
  import opened FsFiles
  import opened FsTrunc
  import opened FsLog
  import LruList

  /** bfree of the blocks from lo to m of a list does not find the log full. */
  ghost predicate FreeRoom(g: Geometry, list: seq<int>, lo: int, m: int, was: set<int>) {
    m <= lo || |was + Maps(g, Part(list, lo, m - 1))| < LogLimit(g)
  }

  /** Nor does it find every buffer taken, with the block x in use. */
  ghost predicate HeldRoom(g: Geometry, list: seq<int>, lo: int, m: int, was: set<int>, x: int) {
    m <= lo || |was + Maps(g, Part(list, lo, m - 1)) + {x}| < LruList.NBUF
  }

  lemma FreeStart(g: Geometry, list: seq<int>, lo: int, was: set<int>)
    ensures was + Maps(g, Part(list, lo, lo)) == was && FreeRoom(g, list, lo, lo, was)
  {
  }

  /** While the entries of the indirect block x are freed, x is in use. */
  lemma HeldMore(g: Geometry, list: seq<int>, lo: int, j: int, m: int, was: set<int>, x: int)
    requires 0 <= lo <= j < m <= |list|
    ensures HeldRoom(g, list, lo, j + 1, was, x) <==> |Plus(was + Maps(g, Part(list, lo, j)), {x})| < LruList.NBUF
    ensures !HeldRoom(g, list, lo, j + 1, was, x) ==> !HeldRoom(g, list, lo, m, was, x)
  {
    MapsMore(g, list, lo, j, m - 1);
    hide Maps, Part;
    SubsetSize(was + Maps(g, Part(list, lo, j)) + {x}, was + Maps(g, Part(list, lo, m - 1)) + {x});
  }

  lemma HeldFirst(g: Geometry, list: seq<int>, lo: int, m: int, was: set<int>, x: int)
    requires lo < m
    ensures HeldRoom(g, list, lo, m, was, x) ==> |was + {x}| < LruList.NBUF && |was| < LruList.NBUF
  {
    hide Maps, Part;
    SubsetSize(was + {x}, was + Maps(g, Part(list, lo, m - 1)) + {x});
    SubsetSize(was, was + {x});
  }

  /** itrunc panics for want of room in the log, or of a buffer while it frees the entries of the indirect block. */
  ghost predicate TruncRoom(g: Geometry, v: Volume, i: int, was: set<int>)
    requires HasFile(v, i)
  {
    && |was + Maps(g, BlocksOf(v, i))| < LogLimit(g)
    && (|v.files[i]| > NDIRECT ==>
          HeldRoom(g, v.files[i], 0, |v.files[i]|, was, v.inodes[i].addrs[NDIRECT] as int))
  }

  lemma HeldWhole(g: Geometry, list: seq<int>, n: int, m: int, was: set<int>, x: int)
    requires 0 <= n < m <= |list|
    ensures HeldRoom(g, list, n, m, was + Maps(g, Part(list, 0, n)), x) <==> HeldRoom(g, list, 0, m, was, x)
  {
    assert Part(list, 0, m - 1) == Part(list, 0, n) + Part(list, n, m - 1);
    MapsUnion(g, Part(list, 0, n), Part(list, n, m - 1));
    hide Maps, Part;
    var a, b := Maps(g, Part(list, 0, n)), Maps(g, Part(list, n, m - 1));
    assert was + a + b + {x} == was + (a + b) + {x};
  }

  lemma FreeMore(g: Geometry, list: seq<int>, lo: int, j: int, m: int, was: set<int>)
    requires 0 <= lo <= j < m <= |list|
    ensures Maps(g, Part(list, lo, j + 1)) == Maps(g, Part(list, lo, j)) + Maps(g, {list[j]})
    ensures FreeRoom(g, list, lo, j + 1, was) <==> |was + Maps(g, Part(list, lo, j))| < LogLimit(g)
    ensures |was + Maps(g, Part(list, lo, j))| >= LogLimit(g) ==>
              !FreeRoom(g, list, lo, m, was) && |was + Maps(g, Part(list, lo, m))| >= LogLimit(g)
  {
    assert Part(list, lo, j + 1) == Part(list, lo, j) + {list[j]};
    MapsUnion(g, Part(list, lo, j), {list[j]});
    MapsMore(g, list, lo, j, m - 1);
    MapsMore(g, list, lo, j, m);
    hide Maps, Part, LogLimit;
    SubsetSize(was + Maps(g, Part(list, lo, j)), was + Maps(g, Part(list, lo, m - 1)));
    SubsetSize(was + Maps(g, Part(list, lo, j)), was + Maps(g, Part(list, lo, m)));
  }

  lemma FreeAll(g: Geometry, list: seq<int>, lo: int, was: set<int>)
    ensures |was + Maps(g, Part(list, lo, |list|))| < LogLimit(g) ==> FreeRoom(g, list, lo, |list|, was)
  {
    MapsMore(g, list, lo, |list| - 1, |list|);
    hide Maps, Part;
    SubsetSize(was + Maps(g, Part(list, lo, |list| - 1)), was + Maps(g, Part(list, lo, |list|)));
  }

  lemma MapsMore(g: Geometry, list: seq<int>, lo: int, j: int, m: int)
    requires j <= m
    ensures Maps(g, Part(list, lo, j)) <= Maps(g, Part(list, lo, m))
  {
    assert Part(list, lo, m) == Part(list, lo, j) + Part(list, lo, m);
    MapsUnion(g, Part(list, lo, j), Part(list, lo, m));
    hide Maps;
  }

  lemma MapsOne(g: Geometry, x: int)
    requires 0 <= x
    ensures Maps(g, {x}) == BitOf(g, x)
  {
    hide BBlock;
  }

  /** The bitmap blocks for a file's blocks, in the order in which itrunc comes to them. */
  lemma MapsOfFile(g: Geometry, v: Volume, i: int, was: set<int>)
    requires HasFile(v, i)
    ensures var list, n := v.files[i], Min(NDIRECT, |v.files[i]|);
            var direct, all := Maps(g, Part(list, 0, n)), Maps(g, BlocksOf(v, i));
            && (if |list| > NDIRECT
                then var x := v.inodes[i].addrs[NDIRECT] as int;
                     was + all == was + direct + Maps(g, Part(list, NDIRECT, |list|)) + Maps(g, {x})
                else all == direct)
            && (!FreeRoom(g, list, 0, n, was) ==> |was + all| >= LogLimit(g))
            && (|list| > NDIRECT && |was + direct + Maps(g, Part(list, NDIRECT, |list|))| >= LogLimit(g) ==>
                |was + all| >= LogLimit(g))
  {
    hide Maps, Part, LogLimit, BlocksOf;
    var list, n := v.files[i], Min(NDIRECT, |v.files[i]|);
    var direct, all := Maps(g, Part(list, 0, n)), Maps(g, BlocksOf(v, i));
    MapsParts(g, v, i);
    MapsMore(g, list, 0, n - 1, n);
    SubsetSize(was + Maps(g, Part(list, 0, n - 1)), was + all);
    if |list| > NDIRECT {
      SubsetSize(was + direct + Maps(g, Part(list, NDIRECT, |list|)), was + all);
    }
  }

  lemma MapsParts(g: Geometry, v: Volume, i: int)
    requires HasFile(v, i)
    ensures var list, n := v.files[i], Min(NDIRECT, |v.files[i]|);
            Maps(g, BlocksOf(v, i)) ==
              if |list| > NDIRECT
              then var x := v.inodes[i].addrs[NDIRECT] as int;
                   Maps(g, Part(list, 0, n)) + Maps(g, Part(list, n, |list|)) + Maps(g, {x})
              else Maps(g, Part(list, 0, n))
  {
    hide Maps, Firsts;
    var list, n := v.files[i], Min(NDIRECT, |v.files[i]|);
    FirstsArePart(list);
    PartSplit(list, n);
    MapsUnion(g, Part(list, 0, n), Part(list, n, |list|));
    if |list| > NDIRECT {
      MapsUnion(g, Part(list, 0, |list|), {v.inodes[i].addrs[NDIRECT] as int});
    } else {
      assert Part(list, 0, n) + {} == Part(list, 0, n);
    }
  }

  lemma PartSplit(list: seq<int>, n: int)
    requires 0 <= n <= |list|
    ensures Part(list, 0, |list|) == Part(list, 0, n) + Part(list, n, |list|)
  {
  }

  lemma FirstsArePart(list: seq<int>)
    ensures Firsts(list, |list|) == Part(list, 0, |list|)
  {
  }
}
