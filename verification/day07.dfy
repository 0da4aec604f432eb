/**
 * Day 7: the directory tree rebuilt from a terminal session (`cd` and `ls`
 * commands with their listings), directory sizes with a per-directory
 * cache, a pre-order walk over the tree, and the two questions asked about
 * it: the total of the small directories, and the smallest directory whose
 * deletion frees enough space for the update.
 *
 * The source links directories through reference-counted cells with a
 * parent back-pointer. Here the tree lives in an arena: node `j` of a
 * `Tree` is described by `parent[j]`, `name[j]`, `children[j]` (node
 * indices, in insertion order), `files[j]` (file sizes, in insertion order)
 * and `cache[j]` (the memoised size). Node 0 is the root `/`. `Arena` is
 * the same tree as a value, and `Replay` says which tree a session builds.
 */
module Day07 {
  import opened Wrappers
  import opened Text

  const SMALL_LIMIT: nat := 100000
  const DISK_SIZE: nat := 70000000
  const UPDATE_SIZE: nat := 30000000

  /** `after` keeps every entry that `before` has filled in. */
  predicate KeepsCached(before: seq<Option<nat>>, after: seq<Option<nat>>) {
    |after| == |before| && forall j :: 0 <= j < |before| && before[j].Some? ==> after[j] == before[j]
  }

  /** `after` has an entry wherever `before` has one. */
  predicate StillFilled(before: seq<Option<nat>>, after: seq<Option<nat>>) {
    |after| == |before| && forall j :: 0 <= j < |before| && before[j].Some? ==> after[j].Some?
  }

  /** The total of a list of file sizes. */
  function FileTotal(fs: seq<nat>): nat {
    if fs == [] then 0 else FileTotal(fs[..|fs| - 1]) + fs[|fs| - 1]
  }

  /**
   * The shape of the tree as a value: the arena fields of a `Tree` without
   * its cache.
   */
  datatype Arena = Arena(parent: seq<int>, name: seq<string>, children: seq<seq<nat>>, files: seq<seq<nat>>) {

    /**
     * The arena describes a tree rooted at node 0: every other node has an
     * older parent, and a node's children name it as their parent.
     */
    ghost predicate Valid() {
      |parent| >= 1 && |name| == |parent| && |children| == |parent| && |files| == |parent|
      && parent[0] == -1 && name[0] == "/"
      && (forall j :: 1 <= j < |parent| ==> 0 <= parent[j] < j)
      && (forall i, k :: 0 <= i < |children| && 0 <= k < |children[i]| ==>
            i < children[i][k] < |parent| && parent[children[i][k]] == i)
    }

    /** `Directory::new` pushed onto `dirs` of `at`: a new last node, empty, named `nm`. */
    ghost function AddDir(at: nat, nm: string): (a: Arena)
      requires Valid() && at < |parent|
      ensures a.Valid() && |a.parent| == |parent| + 1
    {
      Arena(parent + [at], name + [nm], children[at := children[at] + [|parent|]] + [[]], files + [[]])
    }

    /** A file of the given size pushed onto `files` of `at`. */
    ghost function AddFile(at: nat, size: nat): (a: Arena)
      requires Valid() && at < |parent|
      ensures a.Valid() && |a.parent| == |parent|
    {
      Arena(parent, name, children, files[at := files[at] + [size]])
    }

    /** Every list of subdirectories is in creation order, none twice. */
    ghost predicate Ordered() {
      forall i, a, b :: 0 <= i < |children| && 0 <= a < b < |children[i]| ==> children[i][a] < children[i][b]
    }
  }

  /** The tree holding only the empty root directory. */
  const ROOT_ONLY := Arena([-1], ["/"], [[]], [[]])

  class Tree {
    var parent: seq<int>
    var name: seq<string>
    var children: seq<seq<nat>>
    var files: seq<seq<nat>>
    var cache: seq<Option<nat>>

    /** The tree's directories, without the cache. */
    ghost function State(): Arena
      reads this`parent, this`name, this`children, this`files
    {
      Arena(parent, name, children, files)
    }

    /** The arena describes a tree rooted at node 0 (see `Arena.Valid`). */
    ghost predicate Valid()
      reads this`parent, this`name, this`children, this`files
    {
      |parent| >= 1 && |name| == |parent| && |children| == |parent| && |files| == |parent|
      && parent[0] == -1 && name[0] == "/"
      && (forall j :: 1 <= j < |parent| ==> 0 <= parent[j] < j)
      && (forall i, k :: 0 <= i < |children| && 0 <= k < |children[i]| ==>
            i < children[i][k] < |parent| && parent[children[i][k]] == i)
    }

    /** Each directory but the root is listed among its parent's subdirectories. */
    ghost predicate Linked()
      reads this`parent, this`name, this`children, this`files
      requires Valid()
    {
      forall j :: 1 <= j < |parent| ==> j in children[parent[j]]
    }

    /** Every cached size is the true size of its directory. */
    ghost predicate CacheOk()
      reads this
    {
      Valid() && |cache| == |parent| &&
      forall j :: 0 <= j < |cache| && cache[j].Some? ==> cache[j].value == Size(j)
    }

    /** `Directory::root`: a tree holding only the empty root directory. */
    constructor Root()
      ensures Valid() && CacheOk() && Linked()
      ensures parent == [-1] && name == ["/"] && children == [[]] && files == [[]] && cache == [None]
    {
      parent, name, children, files, cache := [-1], ["/"], [[]], [[]], [None];
    }

    /** The size of directory `i`: its subdirectories' sizes plus its own files' sizes. */
    ghost function Size(i: nat): nat
      reads this`parent, this`name, this`children, this`files
      requires Valid() && i < |parent|
      decreases |parent| - i, |children[i]| + 1
    {
      SizeOfChildren(i, |children[i]|) + FileTotal(files[i])
    }

    /** The sizes of the first `k` subdirectories of `i`, added up. */
    ghost function SizeOfChildren(i: nat, k: nat): nat
      reads this`parent, this`name, this`children, this`files
      requires Valid() && i < |parent| && k <= |children[i]|
      decreases |parent| - i, k
    {
      if k == 0 then 0 else SizeOfChildren(i, k - 1) + Size(children[i][k - 1])
    }

    /**
     * `Directory::size`: returns the cached size when there is one;
     * otherwise adds up the subdirectories (recursively) and the files, and
     * caches the result. Only the cache changes, and no cached entry is
     * overwritten with a different value.
     */
    method ComputeSize(i: nat) returns (s: nat)
      requires CacheOk() && i < |parent|
      modifies this`cache
      ensures CacheOk() && s == Size(i) && cache[i] == Some(s)
      ensures KeepsCached(old(cache), cache)
      decreases |parent| - i, 1
    {
      if cache[i].Some? {
        return cache[i].value;
      }
      var dirs := SizeOfSubdirectories(i);
      s := AddFileSizes(dirs, files[i]);
      FilledStaysCached(old(cache), cache);
      cache := cache[i := Some(s)];
    }

    /** The first loop of `Directory::size`: the sizes of the subdirectories of `i`, added up. */
    method SizeOfSubdirectories(i: nat) returns (s: nat)
      requires CacheOk() && i < |parent|
      modifies this`cache
      ensures CacheOk() && s == SizeOfChildren(i, |children[i]|)
      ensures StillFilled(old(cache), cache)
      decreases |parent| - i, 0
    {
      s := 0;
      var k := 0;
      while k < |children[i]|
        invariant CacheOk() && k <= |children[i]|
        invariant s == SizeOfChildren(i, k)
        invariant StillFilled(old(cache), cache)
      {
        ghost var before := cache;
        var c := ComputeSize(children[i][k]);
        assert StillFilled(before, cache);
        s := s + c;
        k := k + 1;
      }
    }

    /** The second loop of `Directory::size`: the sizes of the files added to `s0`. */
    static method AddFileSizes(s0: nat, fs: seq<nat>) returns (s: nat)
      ensures s == s0 + FileTotal(fs)
    {
      s := s0;
      var k := 0;
      while k < |fs|
        invariant k <= |fs|
        invariant s == s0 + FileTotal(fs[..k])
      {
        assert fs[..k + 1][..k] == fs[..k];
        s := s + fs[k];
        k := k + 1;
      }
      assert fs[..k] == fs;
    }

    /** Two caches that both hold true sizes agree wherever the first one is filled and the second one still is. */
    lemma FilledStaysCached(before: seq<Option<nat>>, after: seq<Option<nat>>)
      requires CacheOk() && |before| == |parent|
      requires forall j :: 0 <= j < |before| && before[j].Some? ==> before[j].value == Size(j)
      requires StillFilled(before, after) && after == cache
      ensures KeepsCached(before, after)
    {
    }

    /** The directories that `visit` hands to the visitor from `i`: `i` first, then each subtree in order. */
    ghost function PreOrder(i: nat): (r: seq<nat>)
      reads this`parent, this`name, this`children, this`files
      requires Valid() && i < |parent|
      ensures |r| >= 1 && r[0] == i
      decreases |parent| - i, |children[i]| + 1
    {
      [i] + SubtreesOrder(i, |children[i]|)
    }

    /** The pre-orders of the first `k` subdirectories of `i`, one after the other. */
    ghost function SubtreesOrder(i: nat, k: nat): (r: seq<nat>)
      reads this`parent, this`name, this`children, this`files
      requires Valid() && i < |parent| && k <= |children[i]|
      decreases |parent| - i, k
    {
      if k == 0 then [] else SubtreesOrder(i, k - 1) + PreOrder(children[i][k - 1])
    }

    /** `Directory::visit`: the order in which the visitor sees the directories below `i`. */
    method Visit(i: nat) returns (order: seq<nat>)
      requires Valid() && i < |parent|
      ensures order == PreOrder(i)
      decreases |parent| - i
    {
      order := [i];
      var k := 0;
      while k < |children[i]|
        invariant k <= |children[i]|
        invariant order == [i] + SubtreesOrder(i, k)
      {
        var sub := Visit(children[i][k]);
        order := order + sub;
        k := k + 1;
      }
    }

    /** The walk below `i` only meets `i` and directories created after it. */
    lemma {:induction false} PreOrderNodes(i: nat)
      requires Valid() && i < |parent|
      ensures forall k :: 0 <= k < |PreOrder(i)| ==> i <= PreOrder(i)[k] < |parent|
      decreases |parent| - i, |children[i]| + 1
    {
      SubtreesNodes(i, |children[i]|);
    }

    lemma {:induction false} SubtreesNodes(i: nat, n: nat)
      requires Valid() && i < |parent| && n <= |children[i]|
      ensures forall k :: 0 <= k < |SubtreesOrder(i, n)| ==> i < SubtreesOrder(i, n)[k] < |parent|
      decreases |parent| - i, n
    {
      if n > 0 {
        SubtreesNodes(i, n - 1);
        PreOrderNodes(children[i][n - 1]);
      }
    }

    /** The walk from the root, which meets only directories of the tree. */
    ghost function Walk(): (r: seq<nat>)
      reads this`parent, this`name, this`children, this`files
      requires Valid()
      ensures Nodes(r) && r == PreOrder(0)
    {
      PreOrderNodes(0);
      PreOrder(0)
    }

    /** A directory's subtree is part of every subtree that contains it. */
    lemma {:induction false} SubtreeClosed(i: nat, x: nat)
      requires Valid() && i < |parent| && x in PreOrder(i)
      ensures x < |parent| && forall y :: y in PreOrder(x) ==> y in PreOrder(i)
      decreases |parent| - i, |children[i]| + 1
    {
      if x != i {
        assert x in SubtreesOrder(i, |children[i]|);
        SubtreesClosed(i, |children[i]|, x);
      }
    }

    lemma {:induction false} SubtreesClosed(i: nat, k: nat, x: nat)
      requires Valid() && i < |parent| && k <= |children[i]| && x in SubtreesOrder(i, k)
      ensures x < |parent| && forall y :: y in PreOrder(x) ==> y in SubtreesOrder(i, k)
      decreases |parent| - i, k
    {
      var c := children[i][k - 1];
      if x in SubtreesOrder(i, k - 1) {
        SubtreesClosed(i, k - 1, x);
      } else {
        SubtreeClosed(c, x);
      }
    }

    /** The walk from the root reaches every directory of the tree. */
    lemma {:induction false} PreOrderCovers(j: nat)
      requires Valid() && Linked() && j < |parent|
      ensures j in PreOrder(0)
    {
      if j > 0 {
        var p := parent[j] as nat;
        PreOrderCovers(p);
        var k :| 0 <= k < |children[p]| && children[p][k] == j;
        ChildInPreOrder(p, |children[p]|, k);
        SubtreeClosed(0, p);
      }
    }

    lemma {:induction false} ChildInPreOrder(i: nat, n: nat, k: nat)
      requires Valid() && i < |parent| && k < n <= |children[i]|
      ensures children[i][k] in SubtreesOrder(i, n)
      decreases n
    {
      var c := children[i][n - 1];
      assert SubtreesOrder(i, n) == SubtreesOrder(i, n - 1) + PreOrder(c);
      if k < n - 1 {
        ChildInPreOrder(i, n - 1, k);
      } else {
        assert PreOrder(c)[0] == c;
      }
    }

    /** No directory is larger than one that contains it. */
    lemma {:induction false} SizeBound(i: nat, x: nat)
      requires Valid() && i < |parent| && x in PreOrder(i)
      ensures x < |parent| && Size(x) <= Size(i)
      decreases |parent| - i, |children[i]| + 1
    {
      if x != i {
        SubtreesBound(i, |children[i]|, x);
      }
    }

    lemma {:induction false} SubtreesBound(i: nat, k: nat, x: nat)
      requires Valid() && i < |parent| && k <= |children[i]| && x in SubtreesOrder(i, k)
      ensures x < |parent| && Size(x) <= SizeOfChildren(i, k)
      decreases |parent| - i, k
    {
      var c := children[i][k - 1];
      if x in SubtreesOrder(i, k - 1) {
        SubtreesBound(i, k - 1, x);
      } else {
        SizeBound(c, x);
      }
    }

    /** Every entry of `order` names a directory of the tree. */
    ghost predicate Nodes(order: seq<nat>)
      reads this`parent
    {
      forall k :: 0 <= k < |order| ==> order[k] < |parent|
    }

    /** The sum over `order` of the sizes below the limit. */
    ghost function SmallTotal(order: seq<nat>): nat
      reads this`parent, this`name, this`children, this`files
      requires Valid() && Nodes(order)
    {
      if order == [] then 0
      else
        var x := order[|order| - 1];
        SmallTotal(order[..|order| - 1]) + if Size(x) < SMALL_LIMIT then Size(x) else 0
    }

    /** A small directory contributes its size to the total. */
    lemma {:induction false} SmallTotalCounts(order: seq<nat>, x: nat)
      requires Valid() && Nodes(order)
      requires x in order && Size(x) < SMALL_LIMIT
      ensures Size(x) <= SmallTotal(order)
    {
      var last := order[|order| - 1];
      if x != last {
        SmallTotalCounts(order[..|order| - 1], x);
      }
    }

    /**
     * `part1`: visits the tree from the root and adds up the sizes below
     * 100000, computing (and caching) sizes on the way.
     */
    method Part1() returns (sum: nat)
      requires CacheOk()
      modifies this`cache
      ensures CacheOk() && sum == SmallTotal(Walk())
    {
      var order := Visit(0);
      assert order == Walk();
      sum := SmallSizesTotal(order);
    }

    /** The visitor of `part1` run over `order`: adds up the sizes below the limit. */
    method SmallSizesTotal(order: seq<nat>) returns (sum: nat)
      requires CacheOk() && Nodes(order)
      modifies this`cache
      ensures CacheOk() && sum == SmallTotal(order)
    {
      sum := 0;
      var k := 0;
      while k < |order|
        invariant CacheOk() && k <= |order|
        invariant sum == SmallTotal(order[..k])
      {
        assert order[..k + 1][..k] == order[..k];
        var size := ComputeSize(order[k]);
        if size < SMALL_LIMIT {
          sum := sum + size;
        }
        k := k + 1;
      }
      assert order[..k] == order;
    }

    /**
     * The smallest size among the directories of `order` that reach
     * `needed`, starting from `least`.
     */
    ghost function Smallest(order: seq<nat>, needed: nat, least: nat): nat
      reads this`parent, this`name, this`children, this`files
      requires Valid() && Nodes(order)
    {
      if order == [] then least
      else
        var x := order[|order| - 1];
        var before := Smallest(order[..|order| - 1], needed, least);
        if Size(x) >= needed && Size(x) < before then Size(x) else before
    }

    /**
     * The smallest candidate is either the starting value or the size of a
     * directory of `order` that reaches `needed`, and no directory of
     * `order` that reaches `needed` is smaller.
     */
    lemma {:induction false} SmallestIsLeast(order: seq<nat>, needed: nat, least: nat)
      requires Valid() && Nodes(order)
      ensures var r := Smallest(order, needed, least);
        r <= least && (r == least || exists x :: x in order && Size(x) == r && r >= needed)
      ensures forall x :: x in order && Size(x) >= needed ==> Smallest(order, needed, least) <= Size(x)
    {
      if order != [] {
        var init := order[..|order| - 1];
        SmallestIsLeast(init, needed, least);
        var before := Smallest(init, needed, least);
        var last := order[|order| - 1];
        assert last in order;
        if before != least {
          var y :| y in init && Size(y) == before && before >= needed;
          assert y in order;
        }
        forall x | x in order && Size(x) >= needed ensures Smallest(order, needed, least) <= Size(x) {
          if x != order[|order| - 1] {
            assert x in init;
          }
        }
      }
    }

    /** The space still missing for the update once the tree is on the disk. */
    ghost function Needed(): nat
      reads this`parent, this`name, this`children, this`files
      requires Valid() && Size(0) <= DISK_SIZE && DISK_SIZE - Size(0) <= UPDATE_SIZE
    {
      UPDATE_SIZE - (DISK_SIZE - Size(0))
    }

    /**
     * `part2`: the space still missing for the update is worked out from
     * the root's size (unsigned subtractions, so the disk must not be over
     * full and the free space must fall short of the update); then the
     * walk keeps the smallest directory size that covers it, starting from
     * the root's size.
     */
    method Part2() returns (least: nat)
      requires CacheOk()
      requires Size(0) <= DISK_SIZE && DISK_SIZE - Size(0) <= UPDATE_SIZE
      modifies this`cache
      ensures CacheOk()
      ensures least == Smallest(Walk(), Needed(), Size(0))
    {
      var root := ComputeSize(0);
      var unused := DISK_SIZE - root;
      var needed := UPDATE_SIZE - unused;
      var start := ComputeSize(0);
      var order := Visit(0);
      assert order == Walk();
      assert needed == Needed();
      least := SmallestCovering(order, needed, start);
      assert order == Walk() && Size(0) == start && Needed() == needed;
    }

    /** The visitor of `part2` run over `order`: keeps the smallest size that reaches `needed`. */
    method SmallestCovering(order: seq<nat>, needed: nat, start: nat) returns (least: nat)
      requires CacheOk() && Nodes(order)
      modifies this`cache
      ensures CacheOk() && least == Smallest(order, needed, start)
    {
      least := start;
      var k := 0;
      while k < |order|
        invariant CacheOk() && k <= |order|
        invariant least == Smallest(order[..k], needed, start)
      {
        assert order[..k + 1][..k] == order[..k];
        var size := ComputeSize(order[k]);
        if size >= needed && size < least {
          least := size;
        }
        k := k + 1;
      }
      assert order[..k] == order;
    }

    /**
     * What part 2 answers: the size of a directory whose deletion frees
     * enough space (the root qualifies), and no directory that would do is
     * smaller.
     */
    lemma Part2Meaning()
      requires Valid() && Linked() && Size(0) <= DISK_SIZE && DISK_SIZE - Size(0) <= UPDATE_SIZE
      ensures var needed := Needed();
        var r := Smallest(Walk(), needed, Size(0));
        r >= needed && (exists x :: 0 <= x < |parent| && Size(x) == r) &&
        forall x :: 0 <= x < |parent| && Size(x) >= needed ==> r <= Size(x)
    {
      var needed := Needed();
      var order := Walk();
      SmallestIsLeast(order, needed, Size(0));
      forall x | 0 <= x < |parent| && Size(x) >= needed ensures Smallest(order, needed, Size(0)) <= Size(x) {
        PreOrderCovers(x);
      }
      assert Size(0) == Size(order[0]);
    }

    /**
     * What part 1 answers: every directory of the tree below the limit is
     * counted, so the total is at least the size of each.
     */
    lemma Part1Counts(x: nat)
      requires Valid() && Linked() && x < |parent| && Size(x) < SMALL_LIMIT
      ensures Size(x) <= SmallTotal(Walk())
    {
      PreOrderCovers(x);
      SmallTotalCounts(Walk(), x);
    }

    /** `x` is `c` or lies in the subtree of `c`: following parents from `x` reaches `c`. */
    ghost predicate Below(x: nat, c: nat)
      reads this`parent, this`name, this`children, this`files
      requires Valid() && x < |parent|
      decreases x
    {
      x == c || (c < x && Below(parent[x] as nat, c))
    }

    /** Whatever lies below a subdirectory `c` lies below the directory holding `c` too. */
    lemma {:induction false} BelowParent(y: nat, c: nat)
      requires Valid() && y < |parent| && 1 <= c < |parent| && Below(y, c)
      ensures Below(y, parent[c] as nat)
      decreases y
    {
      if y != c {
        BelowParent(parent[y] as nat, c);
      }
    }

    /** No directory lies below two different subdirectories of the same directory. */
    lemma {:induction false} BelowOneChild(y: nat, c1: nat, c2: nat)
      requires Valid() && y < |parent| && 1 <= c1 < |parent| && 1 <= c2 < |parent|
      requires c1 != c2 && parent[c1] == parent[c2]
      ensures !(Below(y, c1) && Below(y, c2))
      decreases y
    {
      if y != c1 && y != c2 && c1 < y && c2 < y {
        BelowOneChild(parent[y] as nat, c1, c2);
      }
    }

    /** The walk from `i` stays in the subtree of `i`. */
    lemma {:induction false} PreOrderBelow(i: nat)
      requires Valid() && i < |parent|
      ensures forall y :: y in PreOrder(i) ==> y < |parent| && Below(y, i)
      decreases |parent| - i, |children[i]| + 1
    {
      SubtreesBelow(i, |children[i]|);
    }

    lemma {:induction false} SubtreesBelow(i: nat, k: nat)
      requires Valid() && i < |parent| && k <= |children[i]|
      ensures forall y :: y in SubtreesOrder(i, k) ==> y < |parent| && Below(y, i)
      decreases |parent| - i, k
    {
      if k > 0 {
        var c := children[i][k - 1];
        SubtreesBelow(i, k - 1);
        PreOrderBelow(c);
        forall y | y in PreOrder(c)
          ensures Below(y, i)
        {
          BelowParent(y, c);
        }
      }
    }

    /** The walks below the first `k` subdirectories of `i` avoid the subtree of a later one. */
    lemma {:induction false} SubtreesAvoid(i: nat, k: nat, m: nat)
      requires Valid() && State().Ordered() && i < |parent| && k <= m < |children[i]|
      ensures forall y :: y in SubtreesOrder(i, k) ==> y < |parent| && !Below(y, children[i][m])
      decreases k
    {
      if k > 0 {
        var c := children[i][k - 1];
        SubtreesAvoid(i, k - 1, m);
        PreOrderBelow(c);
        forall y | y in PreOrder(c)
          ensures !Below(y, children[i][m])
        {
          BelowOneChild(y, c, children[i][m]);
        }
      }
    }

    /** No entry of `s` occurs twice. */
    static predicate Distinct(s: seq<nat>) {
      forall a, b :: 0 <= a < b < |s| ==> s[a] != s[b]
    }

    static lemma DistinctAppend(u: seq<nat>, v: seq<nat>)
      requires Distinct(u) && Distinct(v) && forall y :: y in u ==> y !in v
      ensures Distinct(u + v)
    {
      forall a, b | 0 <= a < b < |u + v|
        ensures (u + v)[a] != (u + v)[b]
      {
        if a < |u| && b >= |u| {
          assert (u + v)[a] in u && (u + v)[b] == v[b - |u|];
        }
      }
    }

    /** The walk from `i` visits no directory twice. */
    lemma {:induction false} PreOrderDistinct(i: nat)
      requires Valid() && State().Ordered() && i < |parent|
      ensures Distinct(PreOrder(i))
      decreases |parent| - i, |children[i]| + 1
    {
      SubtreesDistinct(i, |children[i]|);
      SubtreesNodes(i, |children[i]|);
      DistinctAppend([i], SubtreesOrder(i, |children[i]|));
    }

    lemma {:induction false} SubtreesDistinct(i: nat, k: nat)
      requires Valid() && State().Ordered() && i < |parent| && k <= |children[i]|
      ensures Distinct(SubtreesOrder(i, k))
      decreases |parent| - i, k
    {
      if k > 0 {
        var c := children[i][k - 1];
        SubtreesDistinct(i, k - 1);
        PreOrderDistinct(c);
        SubtreesAvoid(i, k - 1, k - 1);
        PreOrderBelow(c);
        DistinctAppend(SubtreesOrder(i, k - 1), PreOrder(c));
      }
    }

    /** The directories in creation order. */
    ghost function AllDirs(): (r: seq<nat>)
      reads this`parent
      ensures Nodes(r)
    {
      var n := |parent|;
      seq(n, j requires 0 <= j < n => j)
    }

    /** A sequence without repeats holds each of its entries exactly once. */
    static lemma {:induction false} DistinctCount(s: seq<nat>, x: nat)
      requires Distinct(s)
      ensures multiset(s)[x] == if x in s then 1 else 0
    {
      if s != [] {
        var n := |s|;
        assert s == s[..n - 1] + [s[n - 1]];
        assert Distinct(s[..n - 1]);
        DistinctCount(s[..n - 1], x);
      }
    }

    /** The walk from the root visits every directory exactly once: it is a permutation of them. */
    lemma WalkIsPermutation()
      requires Valid() && Linked() && State().Ordered()
      ensures multiset(Walk()) == multiset(AllDirs()) && |Walk()| == |parent|
    {
      var w: seq<nat>, d: seq<nat> := Walk(), AllDirs();
      PreOrderDistinct(0);
      assert Distinct(d);
      forall x: nat
        ensures multiset(w)[x] == multiset(d)[x]
      {
        DistinctCount(w, x);
        DistinctCount(d, x);
        if x < |parent| {
          PreOrderCovers(x);
          assert d[x] == x;
        }
      }
      assert multiset(w) == multiset(d);
      assert |w| == |multiset(w)| == |multiset(d)| == |d|;
    }

    lemma {:induction false} SmallTotalAppend(u: seq<nat>, v: seq<nat>)
      requires Valid() && Nodes(u) && Nodes(v)
      ensures Nodes(u + v) && SmallTotal(u + v) == SmallTotal(u) + SmallTotal(v)
      decreases |v|
    {
      if v == [] {
        assert u + v == u;
      } else {
        var n := |v|;
        assert (u + v)[..|u + v| - 1] == u + v[..n - 1];
        SmallTotalAppend(u, v[..n - 1]);
      }
    }

    /** Taking out the entry at `k` leaves the other entries. */
    static lemma MultisetRemove(v: seq<nat>, k: nat)
      requires k < |v|
      ensures multiset(v[..k] + v[k + 1..]) == multiset(v) - multiset{v[k]}
    {
      assert v == v[..k] + [v[k]] + v[k + 1..];
      assert multiset(v) == multiset(v[..k]) + multiset{v[k]} + multiset(v[k + 1..]);
    }

    /** Taking out the entry at `k` takes its contribution out of the total. */
    lemma SmallTotalRemove(v: seq<nat>, k: nat)
      requires Valid() && Nodes(v) && k < |v|
      ensures Nodes(v[..k] + v[k + 1..]) && Nodes([v[k]])
      ensures SmallTotal(v) == SmallTotal(v[..k] + v[k + 1..]) + SmallTotal([v[k]])
    {
      assert v == v[..k] + [v[k]] + v[k + 1..];
      SmallTotalAppend(v[..k] + [v[k]], v[k + 1..]);
      SmallTotalAppend(v[..k], [v[k]]);
      SmallTotalAppend(v[..k], v[k + 1..]);
    }

    /** Two permutations of each other stay so once a common entry is taken out of each. */
    static lemma PermutationRest(u: seq<nat>, v: seq<nat>, k: nat)
      requires multiset(u) == multiset(v) && u != [] && k < |v| && v[k] == u[|u| - 1]
      ensures multiset(u[..|u| - 1]) == multiset(v[..k] + v[k + 1..])
    {
      var n := |u|;
      MultisetRemove(u, n - 1);
      MultisetRemove(v, k);
      assert u[..n - 1] + u[n..] == u[..n - 1];
    }

    /** The total does not depend on the order in which the directories are visited. */
    lemma {:induction false} SmallTotalPermutation(u: seq<nat>, v: seq<nat>)
      requires Valid() && Nodes(u) && Nodes(v) && multiset(u) == multiset(v)
      ensures SmallTotal(u) == SmallTotal(v)
      decreases |u|
    {
      if u != [] {
        var n := |u|;
        assert u[n - 1] in multiset(v);
        var k :| 0 <= k < |v| && v[k] == u[n - 1];
        PermutationRest(u, v, k);
        SmallTotalRemove(v, k);
        SmallTotalRemove(u, n - 1);
        assert u[..n - 1] + u[n..] == u[..n - 1];
        SmallTotalPermutation(u[..n - 1], v[..k] + v[k + 1..]);
      }
    }

    /**
     * What part 1 answers: the sum of the sizes below 100000 over all the
     * directories of the tree, each counted once.
     */
    lemma Part1Sum()
      requires Valid() && Linked() && State().Ordered()
      ensures SmallTotal(Walk()) == SmallTotal(AllDirs())
    {
      WalkIsPermutation();
      SmallTotalPermutation(Walk(), AllDirs());
    }

    /** `Directory::new` pushed onto `dirs` of `at`: an empty subdirectory named `nm`. */
    method AddDir(at: nat, nm: string) returns (idx: nat)
      requires Valid() && Linked() && at < |parent| && |cache| == |parent|
      modifies this`parent, this`name, this`children, this`files, this`cache
      ensures Valid() && Linked() && |cache| == |parent|
      ensures idx == old(|parent|)
      ensures parent == old(parent) + [at] && name == old(name) + [nm]
      ensures children == old(children)[at := old(children[at]) + [idx]] + [[]]
      ensures files == old(files) + [[]] && cache == old(cache) + [None]
    {
      idx := |parent|;
      children := children[at := children[at] + [idx]] + [[]];
      parent := parent + [at];
      name := name + [nm];
      files := files + [[]];
      cache := cache + [None];
    }

    /** A file of the given size pushed onto `files` of `at`. */
    method AddFile(at: nat, size: nat)
      requires Valid() && Linked() && at < |parent|
      modifies this`files
      ensures Valid() && Linked()
      ensures files == old(files)[at := old(files[at]) + [size]]
    {
      files := files[at := files[at] + [size]];
    }

    /** The position of the first subdirectory of `at` named `nm`, as `iter().enumerate().find` gives it. */
    method FindChild(at: nat, nm: string) returns (r: Option<nat>)
      requires Valid() && at < |parent|
      ensures r.Some? ==> r.value < |children[at]| && name[children[at][r.value]] == nm
      ensures forall k :: 0 <= k < r.GetOr(|children[at]|) ==> name[children[at][k]] != nm
    {
      var k := 0;
      while k < |children[at]|
        invariant k <= |children[at]|
        invariant forall k' :: 0 <= k' < k ==> name[children[at][k']] != nm
      {
        if name[children[at][k]] == nm {
          return Some(k);
        }
        k := k + 1;
      }
      return None;
    }

    /**
     * One line of the session replayed from the current directory `curr`,
     * as `Step` describes it; new directories start with nothing cached.
     */
    method Apply(cmd: Command, curr: nat) returns (next: nat)
      requires Valid() && Linked() && curr < |parent| && |cache| == |parent|
      modifies this`parent, this`name, this`children, this`files, this`cache
      ensures Valid() && Linked() && next < |parent| && |cache| == |parent|
      ensures forall j :: 0 <= j < |cache| ==> cache[j] == if j < old(|cache|) then old(cache[j]) else None
      ensures (State(), next) == Step(old(State()), cmd, curr)
    {
      match cmd
      case CdRoot =>
        next := 0;
      case CdUp =>
        next := if curr == 0 then 0 else parent[curr] as nat;
      case Cd(nm) =>
        next := Enter(curr, nm);
      case Ls =>
        next := curr;
      case Dir(nm) =>
        var _ := AddDir(curr, nm);
        next := curr;
      case File(size, _) =>
        AddFile(curr, size);
        next := curr;
    }

    /**
     * `cd name`: the first subdirectory of `curr` called `name`, with
     * nothing changed; when there is none, a new one is added to `curr`
     * exactly as `dir name` adds it, and entered.
     */
    method Enter(curr: nat, nm: string) returns (next: nat)
      requires Valid() && Linked() && curr < |parent| && |cache| == |parent|
      modifies this`parent, this`name, this`children, this`files, this`cache
      ensures Valid() && Linked() && next < |parent| && |cache| == |parent|
      ensures curr == parent[next] && name[next] == nm
      ensures var k := FirstNamed(old(children[curr]), old(name), nm);
        if k < old(|children[curr]|) then
          next == old(children[curr][k]) && unchanged(this)
        else
          next == old(|parent|) && parent == old(parent) + [curr] && name == old(name) + [nm]
          && children == old(children)[curr := old(children[curr]) + [next]] + [[]]
          && files == old(files) + [[]] && cache == old(cache) + [None]
    {
      var found := FindChild(curr, nm);
      ghost var k := FirstNamed(children[curr], name, nm);
      if found.Some? {
        assert found.value == k;
        next := children[curr][found.value];
      } else {
        assert k == |children[curr]|;
        next := AddDir(curr, nm);
      }
    }
  }

  /**
   * The position among `kids` of the first one called `nm`, as
   * `iter().enumerate().find` looks for it, or `|kids|` when none is.
   */
  function FirstNamed(kids: seq<nat>, name: seq<string>, nm: string): (k: nat)
    requires forall j :: 0 <= j < |kids| ==> kids[j] < |name|
    ensures k <= |kids|
    ensures k < |kids| ==> name[kids[k]] == nm
    ensures forall j :: 0 <= j < k ==> name[kids[j]] != nm
  {
    if kids == [] then 0
    else if name[kids[0]] == nm then 0
    else 1 + FirstNamed(kids[1..], name, nm)
  }

  /**
   * One line of the session replayed on the tree `a` from the current
   * directory `curr`: the new tree and the new current directory. `cd /`
   * returns to the root, `cd ..` goes up (and stays at the root), `cd name`
   * enters the first subdirectory with that name, creating it when there is
   * none, `ls` does nothing, `dir name` always adds a subdirectory, and a
   * size line adds a file.
   */
  ghost function Step(a: Arena, cmd: Command, curr: nat): (r: (Arena, nat))
    requires a.Valid() && curr < |a.parent|
    ensures r.0.Valid() && r.1 < |r.0.parent|
    ensures |a.parent| <= |r.0.parent|
  {
    match cmd
    case CdRoot => (a, 0)
    case CdUp => (a, if curr == 0 then 0 else a.parent[curr] as nat)
    case Cd(nm) =>
      var k := FirstNamed(a.children[curr], a.name, nm);
      if k < |a.children[curr]| then (a, a.children[curr][k])
      else (a.AddDir(curr, nm), |a.parent|)
    case Ls => (a, curr)
    case Dir(nm) => (a.AddDir(curr, nm), curr)
    case File(size, _) => (a.AddFile(curr, size), curr)
  }

  /** The tree and the current directory after replaying `cmds` from the root alone. */
  ghost function Replay(cmds: seq<Command>): (r: (Arena, nat))
    ensures r.0.Valid() && r.1 < |r.0.parent|
  {
    if cmds == [] then (ROOT_ONLY, 0)
    else
      var before := Replay(cmds[..|cmds| - 1]);
      Step(before.0, cmds[|cmds| - 1], before.1)
  }

  lemma AddDirOrdered(a: Arena, at: nat, nm: string)
    requires a.Valid() && a.Ordered() && at < |a.parent|
    ensures a.AddDir(at, nm).Ordered()
  {
    var b := a.AddDir(at, nm);
    forall i, x, y | 0 <= i < |b.children| && 0 <= x < y < |b.children[i]|
      ensures b.children[i][x] < b.children[i][y]
    {
      if i == at && y == |a.children[at]| {
        assert b.children[i][x] == a.children[at][x] && b.children[i][y] == |a.parent|;
      }
    }
  }

  /** Every tree a session builds lists subdirectories in creation order, none twice. */
  lemma {:induction false} ReplayOrdered(cmds: seq<Command>)
    ensures Replay(cmds).0.Ordered()
    decreases |cmds|
  {
    if cmds != [] {
      var n := |cmds| - 1;
      ReplayOrdered(cmds[..n]);
      var before := Replay(cmds[..n]);
      var a, curr := before.0, before.1;
      match cmds[n]
      case Cd(nm) =>
        if FirstNamed(a.children[curr], a.name, nm) == |a.children[curr]| {
          AddDirOrdered(a, curr, nm);
        }
      case Dir(nm) =>
        AddDirOrdered(a, curr, nm);
      case _ =>
    }
  }

  /** The total of every file in every directory. */
  function AllFiles(fss: seq<seq<nat>>): nat {
    if fss == [] then 0 else AllFiles(fss[..|fss| - 1]) + FileTotal(fss[|fss| - 1])
  }

  /** The size a line lists: a size line's file size, nothing for the other lines. */
  function LineSize(c: Command): nat {
    match c case File(size, _) => size case _ => 0
  }

  /** The total of the sizes on the size lines of a session. */
  function SizeLines(cmds: seq<Command>): nat {
    if cmds == [] then 0 else SizeLines(cmds[..|cmds| - 1]) + LineSize(cmds[|cmds| - 1])
  }

  /** Adding a file to one directory adds its size to the total. */
  lemma {:induction false} AllFilesAdd(fss: seq<seq<nat>>, at: nat, size: nat)
    requires at < |fss|
    ensures AllFiles(fss[at := fss[at] + [size]]) == AllFiles(fss) + size
    decreases |fss|
  {
    var gss := fss[at := fss[at] + [size]];
    var n := |fss| - 1;
    assert gss[..n] == if at < n then fss[..n][at := fss[at] + [size]] else fss[..n];
    if at < n {
      AllFilesAdd(fss[..n], at, size);
    } else {
      var fs := fss[at];
      assert fs + [size] != [] && (fs + [size])[..|fs|] == fs;
    }
  }

  /** A new directory holds no files: the total stays. */
  lemma AddDirKeepsFiles(a: Arena, at: nat, nm: string)
    requires a.Valid() && at < |a.parent|
    ensures AllFiles(a.AddDir(at, nm).files) == AllFiles(a.files)
  {
    assert a.AddDir(at, nm).files == a.files + [[]];
    assert (a.files + [[]])[..|a.files|] == a.files;
  }

  /** One line adds to the files of the tree exactly the size it lists. */
  lemma StepKeepsFiles(a: Arena, cmd: Command, curr: nat)
    requires a.Valid() && curr < |a.parent|
    ensures AllFiles(Step(a, cmd, curr).0.files) == AllFiles(a.files) + LineSize(cmd)
  {
    match cmd
    case File(size, _) =>
      AllFilesAdd(a.files, curr, size);
    case Dir(nm) =>
      AddDirKeepsFiles(a, curr, nm);
    case Cd(nm) =>
      if FirstNamed(a.children[curr], a.name, nm) == |a.children[curr]| {
        AddDirKeepsFiles(a, curr, nm);
      }
    case _ =>
  }

  /**
   * Every file a session lists ends up in exactly one directory: the files
   * of the tree it builds add up to the sizes on its size lines.
   */
  lemma {:induction false} ReplayKeepsFiles(cmds: seq<Command>)
    ensures AllFiles(Replay(cmds).0.files) == SizeLines(cmds)
    decreases |cmds|
  {
    if cmds != [] {
      var n := |cmds| - 1;
      ReplayKeepsFiles(cmds[..n]);
      var before := Replay(cmds[..n]);
      StepKeepsFiles(before.0, cmds[n], before.1);
    }
  }

  /** A line of the terminal session. */
  datatype Command =
    | CdRoot
    | CdUp
    | Cd(dir: string)
    | Ls
    | Dir(dir: string)
    | File(size: nat, file: string)

  /**
   * The `match` on a line's whitespace-separated words, in the order of its
   * arms; a size that is not a `u32` and any other shape are errors.
   */
  function ParseCommand(line: string): (r: Result<Command>)
    ensures r.Ok? && r.value.File? ==> r.value.size <= U32_MAX
  {
    var parts := Words(line);
    if |parts| == 3 && parts[0] == "$" && parts[1] == "cd" && parts[2] == "/" then Ok(CdRoot)
    else if |parts| == 3 && parts[0] == "$" && parts[1] == "cd" && parts[2] == ".." then Ok(CdUp)
    else if |parts| == 3 && parts[0] == "$" && parts[1] == "cd" then Ok(Cd(parts[2]))
    else if |parts| == 2 && parts[0] == "$" && parts[1] == "ls" then Ok(Ls)
    else if |parts| == 2 && parts[0] == "dir" then Ok(Dir(parts[1]))
    else if |parts| == 2 then
      match ParseUnsigned(parts[0], U32_MAX)
      case Some(size) => Ok(File(size, parts[1]))
      case None => Err("invalid digit found in string")
    else Err("Unhandled")
  }

  /** The commands a session can hold, with names that are single words. */
  predicate Printable(c: Command) {
    match c
    case Cd(d) => IsWord(d) && d != "/" && d != ".."
    case Dir(d) => IsWord(d)
    case File(size, f) => IsWord(f) && size <= U32_MAX
    case _ => true
  }

  /** The line of the session that holds a command. */
  function RenderCommand(c: Command): seq<string> {
    match c
    case CdRoot => ["$", "cd", "/"]
    case CdUp => ["$", "cd", ".."]
    case Cd(d) => ["$", "cd", d]
    case Ls => ["$", "ls"]
    case Dir(d) => ["dir", d]
    case File(size, f) => [Decimal(size), f]
  }

  /** Reading back a written command gives the command. */
  lemma CommandRoundTrip(c: Command)
    requires Printable(c)
    ensures ParseCommand(Join(RenderCommand(c), " ")) == Ok(c)
  {
    var ws := RenderCommand(c);
    if c.File? {
      DecimalIsWord(c.size);
    }
    WordsOfSpaced(ws);
    if c.File? {
      ParseDecimal(c.size, U32_MAX);
      assert Decimal(c.size) != "dir" by {
        assert IsDigit(Decimal(c.size)[0]);
      }
      assert Decimal(c.size) != "$" by {
        assert IsDigit(Decimal(c.size)[0]);
      }
    }
  }

  /** Lines of any other shape are rejected. */
  lemma ParseRejects(line: string)
    requires |Words(line)| != 2 && |Words(line)| != 3
    ensures ParseCommand(line).Err?
  {
  }

  /** Every line of the session parses. */
  predicate AllParse(lines: seq<string>) {
    forall k :: 0 <= k < |lines| ==> ParseCommand(lines[k]).Ok?
  }

  /** The commands of a session whose every line parses. */
  function Commands(lines: seq<string>): (cmds: seq<Command>)
    requires AllParse(lines)
    ensures |cmds| == |lines|
    ensures forall k :: 0 <= k < |lines| ==> ParseCommand(lines[k]) == Ok(cmds[k])
  {
    if lines == [] then []
    else Commands(lines[..|lines| - 1]) + [ParseCommand(lines[|lines| - 1]).value]
  }

  lemma CommandsNext(lines: seq<string>, k: nat, cmd: Command)
    requires k < |lines| && ParseCommand(lines[k]) == Ok(cmd) && AllParse(lines[..k])
    ensures AllParse(lines[..k + 1])
    ensures Replay(Commands(lines[..k + 1])) ==
              Step(Replay(Commands(lines[..k])).0, cmd, Replay(Commands(lines[..k])).1)
  {
    assert lines[..k + 1][..k] == lines[..k];
    var cmds := Commands(lines[..k]);
    assert Commands(lines[..k + 1]) == cmds + [cmd];
    assert (cmds + [cmd])[..|cmds|] == cmds;
  }

  /** One parsed line of `read_input` replayed on a tree with nothing cached yet. */
  method ReplayLine(tree: Tree, curr: nat, cmd: Command) returns (next: nat)
    requires tree.Valid() && tree.Linked() && curr < |tree.parent| && |tree.cache| == |tree.parent|
    requires forall j :: 0 <= j < |tree.cache| ==> tree.cache[j].None?
    modifies tree`parent, tree`name, tree`children, tree`files, tree`cache
    ensures tree.Valid() && tree.Linked() && |tree.cache| == |tree.parent|
    ensures forall j :: 0 <= j < |tree.cache| ==> tree.cache[j].None?
    ensures (tree.State(), next) == Step(old(tree.State()), cmd, curr)
  {
    next := tree.Apply(cmd, curr);
  }

  /**
   * `read_input`: replays the session line by line from the root and
   * returns the root, or the first line's error. The tree is the one the
   * parsed commands build, with nothing cached.
   */
  method ReadInput(lines: seq<string>) returns (r: Result<Tree>)
    ensures r.Ok? <==> AllParse(lines)
    ensures r.Ok? ==> fresh(r.value) && r.value.CacheOk() && r.value.Linked()
    ensures r.Ok? ==> forall j :: 0 <= j < |r.value.cache| ==> r.value.cache[j].None?
    ensures r.Ok? ==> r.value.State() == Replay(Commands(lines)).0
  {
    var tree := new Tree.Root();
    var curr: nat := 0;
    var k := 0;
    while k < |lines|
      invariant k <= |lines| && AllParse(lines[..k])
      invariant (tree.State(), curr) == Replay(Commands(lines[..k]))
      invariant tree.Valid() && tree.Linked() && |tree.cache| == |tree.parent|
      invariant forall j :: 0 <= j < |tree.cache| ==> tree.cache[j].None?
      invariant fresh(tree)
    {
      match ParseCommand(lines[k])
      case Err(msg) =>
        assert !AllParse(lines);
        return Err(msg);
      case Ok(cmd) =>
        CommandsNext(lines, k, cmd);
        curr := ReplayLine(tree, curr, cmd);
        k := k + 1;
    }
    assert lines[..k] == lines;
    return Ok(tree);
  }
}
