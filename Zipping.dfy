/**
 * Packaging of compressed submissions into size-bounded ZIP archives
 * (ithenticate/zipping.py): the enumerated files are ordered by path,
 * descending; a single pass groups them greedily so that no group exceeds
 * MAX_ZIP_SIZE bytes unless it holds one oversized file; group i (from 1) is
 * written to zipped/submissions_<i>.zip with every member stored under its
 * basename.
 */
module Zipping {
  import Lexicographic
  import Paths

  /** 190 MiB, the most bytes of PDF the script puts into one archive. */
  const MAX_ZIP_SIZE: nat := 190 * 1024 * 1024

  const OUTPUT_DIR: string := "zipped"

  /** One enumerated PDF: its path and its size in bytes. */
  datatype FileRecord = FileRecord(path: string, size: nat)

  // ---------------------------------------------------------------------------
  // Ordering: sorted(pdf_files, key=lambda x: x[0], reverse=True)
  // ---------------------------------------------------------------------------

  /** Paths never increase from left to right. */
  predicate SortedByPathDesc(s: seq<FileRecord>)
  {
    forall i, j :: 0 <= i < j < |s| ==> Lexicographic.LessEq(s[j].path, s[i].path)
  }

  lemma PrependSorted(x: FileRecord, s: seq<FileRecord>)
    requires SortedByPathDesc(s)
    requires s == [] || Lexicographic.LessEq(s[0].path, x.path)
    ensures SortedByPathDesc([x] + s)
  {
    forall j | 0 <= j < |s|
      ensures Lexicographic.LessEq(s[j].path, x.path)
    {
      if j > 0 {
        Lexicographic.Transitive(s[j].path, s[0].path, x.path);
      }
    }
  }

  /**
   * Places `x` after every record whose path is strictly greater and before
   * the rest. `x` comes from earlier in the input than the records of `s`, so
   * records with equal paths keep their input order, as Python's stable sort
   * keeps them with reverse=True.
   */
  function Insert(x: FileRecord, s: seq<FileRecord>): (r: seq<FileRecord>)
    requires SortedByPathDesc(s)
    ensures SortedByPathDesc(r)
    ensures multiset(r) == multiset(s) + multiset{x}
  {
    if s == [] || Lexicographic.LessEq(s[0].path, x.path) then
      PrependSorted(x, s);
      [x] + s
    else
      var t := Insert(x, s[1..]);
      assert s == [s[0]] + s[1..];
      InsertBelowHead(x, s, t);
      [s[0]] + t
  }

  lemma InsertBelowHead(x: FileRecord, s: seq<FileRecord>, t: seq<FileRecord>)
    requires SortedByPathDesc(s) && s != [] && !Lexicographic.LessEq(s[0].path, x.path)
    requires SortedByPathDesc(t) && multiset(t) == multiset(s[1..]) + multiset{x}
    ensures SortedByPathDesc([s[0]] + t)
  {
    assert t != [] by { assert x in multiset(t); }
    assert t[0] in multiset(t);
    Lexicographic.Total(s[0].path, x.path);
    if t[0] != x {
      assert t[0] in multiset(s[1..]);
      var k :| 0 <= k < |s[1..]| && s[1..][k] == t[0];
      assert s[k + 1] == t[0];
    }
    PrependSorted(s[0], t);
  }

  /** The list the script groups: the enumerated files ordered by path, descending. */
  function SortByPathDesc(files: seq<FileRecord>): (r: seq<FileRecord>)
    ensures SortedByPathDesc(r)
    ensures multiset(r) == multiset(files)
  {
    if files == [] then []
    else
      assert files == [files[0]] + files[1..];
      Insert(files[0], SortByPathDesc(files[1..]))
  }

  predicate DistinctPaths(s: seq<FileRecord>)
  {
    forall i, j :: 0 <= i < j < |s| ==> s[i].path != s[j].path
  }

  lemma SortedPermutationsHeads(a: seq<FileRecord>, b: seq<FileRecord>)
    requires SortedByPathDesc(a) && SortedByPathDesc(b) && DistinctPaths(b)
    requires multiset(a) == multiset(b) && a != []
    ensures b != [] && a[0] == b[0]
  {
    assert a[0] in multiset(b);
    assert b != [];
    assert b[0] in multiset(a);
    var i :| 0 <= i < |a| && a[i] == b[0];
    var j :| 0 <= j < |b| && b[j] == a[0];
    if i == 0 {
      Lexicographic.Reflexive(a[0].path);
    }
    if j == 0 {
      Lexicographic.Reflexive(b[0].path);
    }
    assert Lexicographic.LessEq(b[0].path, a[0].path);
    assert Lexicographic.LessEq(a[0].path, b[0].path);
    Lexicographic.Antisymmetric(a[0].path, b[0].path);
  }

  lemma {:induction false} SortedPermutationsAgree(a: seq<FileRecord>, b: seq<FileRecord>)
    requires SortedByPathDesc(a) && SortedByPathDesc(b) && DistinctPaths(b)
    requires multiset(a) == multiset(b)
    ensures a == b
    decreases |a|
  {
    if a == [] {
      assert |b| == |multiset(b)| == 0;
    } else {
      SortedPermutationsHeads(a, b);
      DropEqualHeads(a, b);
      SortedTail(a);
      SortedTail(b);
      assert DistinctPaths(b[1..]) by {
        forall i, j | 0 <= i < j < |b| - 1
          ensures b[1..][i].path != b[1..][j].path
        {
          assert b[1..][i] == b[i + 1] && b[1..][j] == b[j + 1];
        }
      }
      SortedPermutationsAgree(a[1..], b[1..]);
      assert a == [a[0]] + a[1..] && b == [b[0]] + b[1..];
    }
  }

  lemma SortedTail(a: seq<FileRecord>)
    requires SortedByPathDesc(a) && a != []
    ensures SortedByPathDesc(a[1..])
  {
    forall i, j | 0 <= i < j < |a| - 1
      ensures Lexicographic.LessEq(a[1..][j].path, a[1..][i].path)
    {
      assert a[1..][i] == a[i + 1] && a[1..][j] == a[j + 1];
    }
  }

  lemma DropEqualHeads(a: seq<FileRecord>, b: seq<FileRecord>)
    requires a != [] && b != [] && a[0] == b[0] && multiset(a) == multiset(b)
    ensures multiset(a[1..]) == multiset(b[1..])
  {
    assert a == [a[0]] + a[1..];
    assert b == [b[0]] + b[1..];
    assert multiset(a[1..]) == multiset(a) - multiset{a[0]};
    assert multiset(b[1..]) == multiset(b) - multiset{b[0]};
  }

  /**
   * When the paths are distinct, as the paths of one directory listing are,
   * any ordering of the files by path, descending, is the one SortByPathDesc
   * gives: the sort is determined by its two properties.
   */
  lemma SortUnique(files: seq<FileRecord>, r: seq<FileRecord>)
    requires SortedByPathDesc(r) && DistinctPaths(r) && multiset(r) == multiset(files)
    ensures r == SortByPathDesc(files)
  {
    SortedPermutationsAgree(SortByPathDesc(files), r);
  }

  // ---------------------------------------------------------------------------
  // Grouping: the loop at lines 17-30, as a specification
  // ---------------------------------------------------------------------------

  /** `current_size`: the bytes of a group, which include those of each of its files. */
  function TotalSize(g: seq<FileRecord>): (n: nat)
    ensures forall i :: 0 <= i < |g| ==> g[i].size <= n
  {
    if g == [] then 0
    else
      var init := g[..|g| - 1];
      assert forall i :: 0 <= i < |init| ==> init[i] == g[i];
      TotalSize(init) + g[|g| - 1].size
  }

  /** The groups already emitted and the group being filled. */
  datatype PackState = PackState(closed: seq<seq<FileRecord>>, current: seq<FileRecord>)

  /**
   * One iteration: close a non-empty current group that `f` would overflow,
   * then add `f`. The file always ends the current group, groups already
   * emitted are never changed, and at most one group is emitted.
   */
  function Step(st: PackState, f: FileRecord, limit: nat): (r: PackState)
    ensures r.current != [] && r.current[|r.current| - 1] == f
    ensures |st.closed| <= |r.closed| <= |st.closed| + 1 && r.closed[..|st.closed|] == st.closed
    ensures |r.closed| + |r.current| <= |st.closed| + |st.current| + 1
  {
    if TotalSize(st.current) + f.size > limit && st.current != [] then
      PackState(st.closed + [st.current], [f])
    else
      PackState(st.closed, st.current + [f])
  }

  /**
   * The state after the loop has visited every record of `files`, in order:
   * the last record visited ends the current group, and there are no more
   * groups, closed or current, than records.
   */
  function Scan(files: seq<FileRecord>, limit: nat): (r: PackState)
    ensures files != [] ==> r.current != [] && r.current[|r.current| - 1] == files[|files| - 1]
    ensures |r.closed| + |r.current| <= |files|
  {
    if files == [] then PackState([], [])
    else Step(Scan(files[..|files| - 1], limit), files[|files| - 1], limit)
  }

  /** The groups the script emits: the closed ones, then the leftover group if it is non-empty. */
  function Pack(files: seq<FileRecord>, limit: nat): (r: seq<seq<FileRecord>>)
    ensures |r| <= |files|
  {
    var st := Scan(files, limit);
    if st.current != [] then st.closed + [st.current] else st.closed
  }

  // ---------------------------------------------------------------------------
  // What a grouping must satisfy
  // ---------------------------------------------------------------------------

  /** The groups, concatenated in order. */
  function Flatten(gs: seq<seq<FileRecord>>): seq<FileRecord>
  {
    if gs == [] then [] else Flatten(gs[..|gs| - 1]) + gs[|gs| - 1]
  }

  predicate NoEmptyGroup(gs: seq<seq<FileRecord>>)
  {
    forall k :: 0 <= k < |gs| ==> gs[k] != []
  }

  /** A group fits when its total is within the limit or it is a lone (possibly oversized) file. */
  predicate Fits(g: seq<FileRecord>, limit: nat)
  {
    TotalSize(g) <= limit || |g| == 1
  }

  predicate AllFit(gs: seq<seq<FileRecord>>, limit: nat)
  {
    forall k :: 0 <= k < |gs| ==> Fits(gs[k], limit)
  }

  /** `prev` could not have taken the first file of `next` without exceeding the limit. */
  predicate Overflows(prev: seq<FileRecord>, next: seq<FileRecord>, limit: nat)
  {
    next != [] && TotalSize(prev) + next[0].size > limit
  }

  /** No group could have taken the first file of the next one. */
  predicate Greedy(gs: seq<seq<FileRecord>>, limit: nat)
  {
    forall k :: 0 < k < |gs| ==> Overflows(gs[k - 1], gs[k], limit)
  }

  lemma GreedyPrefix(gs: seq<seq<FileRecord>>, n: nat, limit: nat)
    requires Greedy(gs, limit) && n <= |gs|
    ensures Greedy(gs[..n], limit)
  {
    var p := gs[..n];
    forall k | 0 < k < |p|
      ensures Overflows(p[k - 1], p[k], limit)
    {
      assert p[k] == gs[k] && p[k - 1] == gs[k - 1];
    }
  }

  lemma GreedyAppend(gs: seq<seq<FileRecord>>, g: seq<FileRecord>, limit: nat)
    requires Greedy(gs, limit)
    requires gs != [] ==> Overflows(gs[|gs| - 1], g, limit)
    ensures Greedy(gs + [g], limit)
  {
    var all := gs + [g];
    forall k | 0 < k < |all|
      ensures Overflows(all[k - 1], all[k], limit)
    {
      if k < |gs| {
        assert all[k] == gs[k] && all[k - 1] == gs[k - 1];
      } else {
        assert all[k - 1] == gs[|gs| - 1];
      }
    }
  }

  /** The conditions the loop keeps after each iteration. */
  ghost predicate ScanInvariant(files: seq<FileRecord>, st: PackState, limit: nat)
  {
    && Flatten(st.closed) + st.current == files
    && NoEmptyGroup(st.closed)
    && AllFit(st.closed, limit)
    && Fits(st.current, limit)
    && Greedy(st.closed + [st.current], limit)
    && (st.current == [] ==> files == [] && st.closed == [])
  }

  lemma TotalSizeAppend(g: seq<FileRecord>, f: FileRecord)
    ensures TotalSize(g + [f]) == TotalSize(g) + f.size
  {
    assert (g + [f])[..|g|] == g;
  }

  lemma {:induction false} TotalSizePrefix(g: seq<FileRecord>, j: nat)
    requires j <= |g|
    ensures TotalSize(g[..j]) <= TotalSize(g)
    decreases |g|
  {
    if j < |g| {
      assert g[..|g| - 1][..j] == g[..j];
      TotalSizePrefix(g[..|g| - 1], j);
    } else {
      assert g[..j] == g;
    }
  }

  lemma StepKeepsInvariant(files: seq<FileRecord>, st: PackState, f: FileRecord, limit: nat)
    requires ScanInvariant(files, st, limit)
    ensures ScanInvariant(files + [f], Step(st, f, limit), limit)
  {
    var all: seq<seq<FileRecord>> := st.closed + [st.current];
    assert all[..|all| - 1] == st.closed;
    GreedyPrefix(all, |st.closed|, limit);
    if TotalSize(st.current) + f.size > limit && st.current != [] {
      assert Flatten(all) == files;
      assert TotalSize([f]) == f.size by { assert [f][..0] == []; }
      GreedyAppend(all, [f], limit);
      assert st.closed + [st.current] + [[f]] == all + [[f]];
    } else {
      TotalSizeAppend(st.current, f);
      assert Flatten(st.closed) + (st.current + [f]) == files + [f];
      if st.current != [] {
        assert (st.current + [f])[0] == st.current[0];
        assert st.closed != [] ==> st.closed[|st.closed| - 1] == all[|all| - 2];
      }
      GreedyAppend(st.closed, st.current + [f], limit);
    }
  }

  lemma {:induction false} ScanKeepsInvariant(files: seq<FileRecord>, limit: nat)
    ensures ScanInvariant(files, Scan(files, limit), limit)
    decreases |files|
  {
    if files != [] {
      var init := files[..|files| - 1];
      ScanKeepsInvariant(init, limit);
      StepKeepsInvariant(init, Scan(init, limit), files[|files| - 1], limit);
      assert init + [files[|files| - 1]] == files;
    }
  }

  /** Concatenating the emitted groups gives back the list being grouped: nothing lost, duplicated or reordered. */
  lemma PackPartitions(files: seq<FileRecord>, limit: nat)
    ensures Flatten(Pack(files, limit)) == files
  {
    var st := Scan(files, limit);
    ScanKeepsInvariant(files, limit);
    if st.current != [] {
      var gs := st.closed + [st.current];
      assert gs[..|gs| - 1] == st.closed;
    }
  }

  /** No emitted group is empty, and there are no groups exactly when there are no files. */
  lemma PackNonEmpty(files: seq<FileRecord>, limit: nat)
    ensures NoEmptyGroup(Pack(files, limit))
    ensures Pack(files, limit) == [] <==> files == []
  {
    ScanKeepsInvariant(files, limit);
  }

  /** Every emitted group is within the limit, unless it is a single oversized file. */
  lemma PackWithinLimit(files: seq<FileRecord>, limit: nat)
    ensures AllFit(Pack(files, limit), limit)
  {
    ScanKeepsInvariant(files, limit);
  }

  /** Each group plus the first file of the next one would have exceeded the limit. */
  lemma PackIsGreedy(files: seq<FileRecord>, limit: nat)
    ensures Greedy(Pack(files, limit), limit)
  {
    var st := Scan(files, limit);
    ScanKeepsInvariant(files, limit);
    if st.current == [] {
      assert Pack(files, limit) == [];
    }
  }

  lemma ScanAtGroupStart(before: seq<FileRecord>, init: seq<seq<FileRecord>>, f: FileRecord, limit: nat)
    requires init == Pack(before, limit)
    requires init != [] ==> TotalSize(init[|init| - 1]) + f.size > limit
    ensures Scan(before + [f], limit) == PackState(init, [f])
  {
    assert (before + [f])[..|before|] == before;
    var st := Scan(before, limit);
    if st.current != [] {
      assert init == st.closed + [st.current];
      assert init[..|init| - 1] == st.closed;
    }
  }

  /** Scanning on from the first file of a fitting group `g`, the group is built up whole. */
  lemma {:induction false} ScanFillsGroup(before: seq<FileRecord>, init: seq<seq<FileRecord>>, g: seq<FileRecord>, j: nat, limit: nat)
    requires 1 <= j <= |g| && Fits(g, limit)
    requires Scan(before + g[..1], limit) == PackState(init, g[..1])
    ensures Scan(before + g[..j], limit) == PackState(init, g[..j])
    decreases j
  {
    if j > 1 {
      var prefix, f := g[..j - 1], g[j - 1];
      ScanFillsGroup(before, init, g, j - 1, limit);
      SnocSlice(before, g, j);
      ScanSnoc(before + prefix, f, limit);
      TotalSizeAppend(prefix, f);
      TotalSizePrefix(g, j);
      StepExtends(PackState(init, prefix), f, limit);
    }
  }

  lemma StepCloses(st: PackState, f: FileRecord, limit: nat)
    requires TotalSize(st.current) + f.size > limit && st.current != []
    ensures Step(st, f, limit) == PackState(st.closed + [st.current], [f])
  {
  }

  lemma StepExtends(st: PackState, f: FileRecord, limit: nat)
    requires TotalSize(st.current) + f.size <= limit || st.current == []
    ensures Step(st, f, limit) == PackState(st.closed, st.current + [f])
  {
  }

  lemma SnocSlice(before: seq<FileRecord>, g: seq<FileRecord>, j: nat)
    requires 1 <= j <= |g|
    ensures before + g[..j] == (before + g[..j - 1]) + [g[j - 1]]
    ensures g[..j] == g[..j - 1] + [g[j - 1]]
  {
    assert g[..j] == g[..j - 1] + [g[j - 1]];
  }

  lemma ScanSnoc(files: seq<FileRecord>, f: FileRecord, limit: nat)
    ensures Scan(files + [f], limit) == Step(Scan(files, limit), f, limit)
  {
    assert (files + [f])[..|files|] == files;
  }

  /**
   * Pack is the only grouping of `files` that is a partition into non-empty,
   * fitting, greedy groups: the four properties above determine it.
   */
  lemma {:induction false} PackUnique(files: seq<FileRecord>, gs: seq<seq<FileRecord>>, limit: nat)
    requires Flatten(gs) == files
    requires NoEmptyGroup(gs) && AllFit(gs, limit) && Greedy(gs, limit)
    ensures gs == Pack(files, limit)
    decreases |gs|
  {
    if gs != [] {
      var init, g := gs[..|gs| - 1], gs[|gs| - 1];
      var before := Flatten(init);
      assert Greedy(init, limit) by {
        GreedyPrefix(gs, |gs| - 1, limit);
      }
      PackUnique(before, init, limit);
      if init != [] {
        assert TotalSize(gs[|gs| - 2]) + gs[|gs| - 1][0].size > limit;
      }
      ScanAtGroupStart(before, init, g[0], limit);
      assert g[..1] == [g[0]];
      ScanFillsGroup(before, init, g, |g|, limit);
      assert g[..|g|] == g;
      assert init + [g] == gs;
    }
  }

  /**
   * Sizes 6, 5, 4, 1 at paths a, b, c, d under a limit of 10: ordered by
   * path (d, c, b, a) rather than by size, the files group as [d, c, b] and
   * [a], not [a] and [b, c, d].
   */
  lemma PathOrderExample()
    ensures var files := [FileRecord("a", 6), FileRecord("b", 5), FileRecord("c", 4), FileRecord("d", 1)];
            Pack(SortByPathDesc(files), 10)
            == [[FileRecord("d", 1), FileRecord("c", 4), FileRecord("b", 5)], [FileRecord("a", 6)]]
  {
    var a, b, c, d := FileRecord("a", 6), FileRecord("b", 5), FileRecord("c", 4), FileRecord("d", 1);
    ExampleSorted(a, b, c, d);
    ExampleScan(a, b, c, d);
  }

  lemma ExampleSorted(a: FileRecord, b: FileRecord, c: FileRecord, d: FileRecord)
    requires a == FileRecord("a", 6) && b == FileRecord("b", 5) && c == FileRecord("c", 4) && d == FileRecord("d", 1)
    ensures SortByPathDesc([a, b, c, d]) == [d, c, b, a]
  {
    ExampleSortedTail(b, c, d);
    assert [a, b, c, d][1..] == [b, c, d];
    ExampleInsertLast(a, b, c, d);
  }

  lemma ExampleInsertLast(a: FileRecord, b: FileRecord, c: FileRecord, d: FileRecord)
    requires a == FileRecord("a", 6) && b == FileRecord("b", 5) && c == FileRecord("c", 4) && d == FileRecord("d", 1)
    requires SortedByPathDesc([d, c, b])
    ensures Insert(a, [d, c, b]) == [d, c, b, a]
  {
    assert [d, c, b][1..] == [c, b] && [c, b][1..] == [b];
    assert !Lexicographic.LessEq("b", "a") && !Lexicographic.LessEq("c", "a") && !Lexicographic.LessEq("d", "a");
    assert Insert(a, [b]) == [b] + Insert(a, []);
    assert Insert(a, [c, b]) == [c] + Insert(a, [b]);
    assert Insert(a, [d, c, b]) == [d] + Insert(a, [c, b]);
  }

  lemma ExampleSortedTail(b: FileRecord, c: FileRecord, d: FileRecord)
    requires b == FileRecord("b", 5) && c == FileRecord("c", 4) && d == FileRecord("d", 1)
    ensures SortByPathDesc([b, c, d]) == [d, c, b]
  {
    ExampleSortedPair(c, d);
    assert [b, c, d][1..] == [c, d];
    assert !Lexicographic.LessEq("d", "b") && !Lexicographic.LessEq("c", "b");
    assert [d, c][1..] == [c] && [c][1..] == [];
    assert Insert(b, [c]) == [c, b];
    assert Insert(b, [d, c]) == [d] + Insert(b, [c]);
  }

  lemma ExampleSortedPair(c: FileRecord, d: FileRecord)
    requires c == FileRecord("c", 4) && d == FileRecord("d", 1)
    ensures SortByPathDesc([c, d]) == [d, c]
  {
    assert !Lexicographic.LessEq("d", "c");
    assert [d][1..] == [] && [c, d][1..] == [d];
    assert SortByPathDesc([d]) == [d];
    assert Insert(c, [d]) == [d, c];
  }

  lemma ExampleScan(a: FileRecord, b: FileRecord, c: FileRecord, d: FileRecord)
    requires a == FileRecord("a", 6) && b == FileRecord("b", 5) && c == FileRecord("c", 4) && d == FileRecord("d", 1)
    ensures Pack([d, c, b, a], 10) == [[d, c, b], [a]]
  {
    assert [d, c, b, a][..3] == [d, c, b] && [d, c, b][..2] == [d, c] && [d, c][..1] == [d] && [d][..0] == [];
    assert TotalSize([d]) == 1;
    assert TotalSize([d, c]) == 5;
    assert TotalSize([d, c, b]) == 10;
    assert Scan([d], 10) == PackState([], [d]);
    assert Scan([d, c], 10) == PackState([], [d, c]);
    assert Scan([d, c, b], 10) == PackState([], [d, c, b]);
    assert Scan([d, c, b, a], 10) == PackState([[d, c, b]], [a]);
  }

  /** The oversized-singleton example: one 9-byte file under a limit of 5 still gets its own group. */
  lemma OversizedSingletonExample()
    ensures Pack([FileRecord("x", 9)], 5) == [[FileRecord("x", 9)]]
  {
    var x := FileRecord("x", 9);
    assert [x][..0] == [];
    assert Scan([x], 5) == Step(PackState([], []), x, 5);
    assert [] + [x] == [x];
    assert Scan([x], 5) == PackState([], [x]);
    assert [] + [[x]] == [[x]];
  }

  // ---------------------------------------------------------------------------
  // The loop itself
  // ---------------------------------------------------------------------------

  function PathsOf(g: seq<FileRecord>): (r: seq<string>)
    ensures |r| == |g| && forall i :: 0 <= i < |g| ==> r[i] == g[i].path
  {
    seq(|g|, i requires 0 <= i < |g| => g[i].path)
  }

  lemma PathsOfAppend(g: seq<FileRecord>, f: FileRecord)
    ensures PathsOf(g + [f]) == PathsOf(g) + [f.path]
  {
  }

  function PathGroups(gs: seq<seq<FileRecord>>): (r: seq<seq<string>>)
    ensures |r| == |gs| && forall k :: 0 <= k < |gs| ==> r[k] == PathsOf(gs[k])
  {
    seq(|gs|, k requires 0 <= k < |gs| => PathsOf(gs[k]))
  }

  lemma PathGroupsAppend(gs: seq<seq<FileRecord>>, g: seq<FileRecord>)
    ensures PathGroups(gs + [g]) == PathGroups(gs) + [PathsOf(g)]
  {
  }

  /**
   * Lines 17-30: one pass over `files` keeping the current group (its paths)
   * and its running size; the paths of the groups emitted are those of Pack.
   */
  method GroupFiles(files: seq<FileRecord>, limit: nat) returns (groups: seq<seq<string>>)
    ensures groups == PathGroups(Pack(files, limit))
  {
    groups := [];
    var currentGroup: seq<string> := [];
    var currentSize: nat := 0;
    ghost var st := PackState([], []);
    for i := 0 to |files|
      invariant st == Scan(files[..i], limit)
      invariant groups == PathGroups(st.closed)
      invariant currentGroup == PathsOf(st.current)
      invariant currentSize == TotalSize(st.current)
    {
      var f := files[i];
      PrefixSnoc(files, i);
      ScanSnoc(files[..i], f, limit);
      LoopStep(st, f, limit, groups, currentGroup, currentSize);
      if currentSize + f.size > limit && currentGroup != [] {
        groups := groups + [currentGroup];
        currentGroup := [];
        currentSize := 0;
      }
      currentGroup := currentGroup + [f.path];
      currentSize := currentSize + f.size;
      st := Step(st, f, limit);
    }
    assert files[..|files|] == files;
    LoopEnd(st, groups, currentGroup);
    if currentGroup != [] {
      groups := groups + [currentGroup];
    }
  }

  /** After the loop, emitting a non-empty leftover group gives the paths of the groups of Pack. */
  lemma LoopEnd(st: PackState, groups: seq<seq<string>>, currentGroup: seq<string>)
    requires groups == PathGroups(st.closed) && currentGroup == PathsOf(st.current)
    ensures (if currentGroup != [] then groups + [currentGroup] else groups)
            == PathGroups(if st.current != [] then st.closed + [st.current] else st.closed)
  {
    if st.current != [] {
      PathGroupsAppend(st.closed, st.current);
    }
  }

  /** One iteration of the loop body keeps the concrete variables in step with Step. */
  lemma LoopStep(st: PackState, f: FileRecord, limit: nat, groups: seq<seq<string>>, currentGroup: seq<string>, currentSize: nat)
    requires groups == PathGroups(st.closed)
    requires currentGroup == PathsOf(st.current) && currentSize == TotalSize(st.current)
    ensures var close := currentSize + f.size > limit && currentGroup != [];
            var next := Step(st, f, limit);
            && (if close then groups + [currentGroup] else groups) == PathGroups(next.closed)
            && (if close then [] else currentGroup) + [f.path] == PathsOf(next.current)
            && (if close then 0 else currentSize) + f.size == TotalSize(next.current)
  {
    if currentSize + f.size > limit && currentGroup != [] {
      StepCloses(st, f, limit);
      PathGroupsAppend(st.closed, st.current);
      SingletonGroup(f);
    } else {
      StepExtends(st, f, limit);
      TotalSizeAppend(st.current, f);
      PathsOfAppend(st.current, f);
    }
  }

  lemma SingletonGroup(f: FileRecord)
    ensures TotalSize([f]) == f.size && PathsOf([f]) == [f.path]
  {
    assert [f][..0] == [];
  }

  lemma PrefixSnoc(s: seq<FileRecord>, i: nat)
    requires i < |s|
    ensures s[..i + 1] == s[..i] + [s[i]]
  {
  }

  // ---------------------------------------------------------------------------
  // Archive and member names: lines 33-37
  // ---------------------------------------------------------------------------

  function Digit(d: nat): (c: char)
    requires d < 10
    ensures '0' <= c <= '9' && c as int - '0' as int == d
  {
    (48 + d) as char
  }

  /** `f"{n}"` for a non-negative integer: its decimal digits, without leading zeros. */
  function DecimalString(n: nat): (r: string)
    ensures |r| >= 1 && (n < 10 <==> |r| == 1)
    ensures forall k :: 0 <= k < |r| ==> '0' <= r[k] <= '9'
    ensures r[0] == '0' ==> n == 0
    ensures DigitsValue(r) == n
  {
    if n < 10 then
      assert [Digit(n)][..0] == [];
      [Digit(n)]
    else
      var p := DecimalString(n / 10);
      assert (p + [Digit(n % 10)])[..|p|] == p;
      p + [Digit(n % 10)]
  }

  /** The number a string of decimal digits denotes, most significant digit first. */
  function DigitsValue(s: string): int
  {
    if s == [] then 0 else 10 * DigitsValue(s[..|s| - 1]) + (s[|s| - 1] as int - '0' as int)
  }

  /** Different numbers have different decimal strings. */
  lemma DecimalStringInjective(a: nat, b: nat)
    requires DecimalString(a) == DecimalString(b)
    ensures a == b
  {
    assert DigitsValue(DecimalString(a)) == DigitsValue(DecimalString(b));
  }

  /** `submissions_<i>.zip` */
  function ArchiveName(i: nat): string
  {
    "submissions_" + DecimalString(i) + ".zip"
  }

  /** `os.path.join(OUTPUT_DIR, f"submissions_{i}.zip")` */
  function ArchivePath(i: nat): (r: string)
    ensures r == OUTPUT_DIR + "/" + ArchiveName(i)
  {
    Paths.Join(OUTPUT_DIR, ArchiveName(i))
  }

  /** Different group numbers are written to different archives: no archive is overwritten. */
  lemma ArchivePathsDistinct(i: nat, j: nat)
    requires i != j
    ensures ArchivePath(i) != ArchivePath(j)
  {
    var prefix := OUTPUT_DIR + "/" + "submissions_";
    var di, dj := DecimalString(i), DecimalString(j);
    var s, t := prefix + di + ".zip", prefix + dj + ".zip";
    assert ArchivePath(i) == s && ArchivePath(j) == t;
    if |di| == |dj| {
      assert s[|prefix|..|prefix| + |di|] == di;
      assert t[|prefix|..|prefix| + |dj|] == dj;
    } else {
      assert |s| != |t|;
    }
  }

  /** One member of an archive: the file read and the name it is stored under. */
  datatype Member = Member(source: string, arcname: string)

  /** One archive to write: its path and its members in order. */
  datatype Archive = Archive(zipPath: string, members: seq<Member>)

  /** `a` is the archive for the `i`-th group (from 1): its path, and each file stored under its basename. */
  predicate ArchiveFor(a: Archive, i: nat, group: seq<string>)
  {
    && a.zipPath == ArchivePath(i)
    && |a.members| == |group|
    && forall j :: 0 <= j < |group| ==> a.members[j] == Member(group[j], Paths.Basename(group[j]))
  }

  /**
   * The loop at lines 33-37 with the ZIP writing replaced by the list of
   * archives it writes: the i-th group (from 1) goes to ArchivePath(i), and
   * each file of the group is stored under its basename.
   */
  method PlanArchives(groups: seq<seq<string>>) returns (plan: seq<Archive>)
    ensures |plan| == |groups|
    ensures forall k :: 0 <= k < |groups| ==> ArchiveFor(plan[k], k + 1, groups[k])
  {
    plan := [];
    for i := 1 to |groups| + 1
      invariant |plan| == i - 1
      invariant forall k :: 0 <= k < i - 1 ==> ArchiveFor(plan[k], k + 1, groups[k])
    {
      var group := groups[i - 1];
      var zipFilename := ArchivePath(i);
      var members: seq<Member> := [];
      for j := 0 to |group|
        invariant NamesPrefix(members, group, j)
      {
        var filepath := group[j];
        MembersSnoc(members, group, j);
        members := members + [Member(filepath, Paths.Basename(filepath))];
      }
      assert ArchiveFor(Archive(zipFilename, members), i, group);
      plan := plan + [Archive(zipFilename, members)];
    }
  }

  /** `members` names the first `j` files of `group`, each under its basename. */
  predicate NamesPrefix(members: seq<Member>, group: seq<string>, j: nat)
  {
    && j <= |group| && |members| == j
    && forall m :: 0 <= m < j ==> members[m] == Member(group[m], Paths.Basename(group[m]))
  }

  lemma MembersSnoc(members: seq<Member>, group: seq<string>, j: nat)
    requires NamesPrefix(members, group, j) && j < |group|
    ensures NamesPrefix(members + [Member(group[j], Paths.Basename(group[j]))], group, j + 1)
  {
  }

  /**
   * The whole script on the enumerated files: sort by path (line 14), group
   * under MAX_ZIP_SIZE (lines 17-30), name the archives and members (33-37).
   */
  method PackageSubmissions(found: seq<FileRecord>) returns (plan: seq<Archive>)
    ensures var gs := Pack(SortByPathDesc(found), MAX_ZIP_SIZE);
            && |plan| == |gs|
            && forall k :: 0 <= k < |gs| ==> ArchiveFor(plan[k], k + 1, PathsOf(gs[k]))
  {
    var pdfFiles := SortByPathDesc(found);
    var groups := GroupFiles(pdfFiles, MAX_ZIP_SIZE);
    plan := PlanArchives(groups);
  }

  /** Every enumerated file lands in exactly one archive slot: the groups are a permutation of the input. */
  lemma PackagedFilesArePermutation(found: seq<FileRecord>)
    ensures multiset(Flatten(Pack(SortByPathDesc(found), MAX_ZIP_SIZE))) == multiset(found)
  {
    PackPartitions(SortByPathDesc(found), MAX_ZIP_SIZE);
  }
}
