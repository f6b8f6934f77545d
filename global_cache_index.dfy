/** The aggregate of the indexes built for several files: a combined counting
    index plus, per path, the index that path contributed. */
module GlobalIndex {
  import opened Primitives
  import opened AssetIndex

  /** Some element of a non-empty set, always the same one for the same set. */
  ghost function Pick(paths: set<string>): (p: string)
    requires paths != {}
    ensures p in paths
  {
    var p :| p in paths; p
  }

  function IdTable(ix: Index): map<Anchor, int> {
    ix.idUsages
  }

  function GuidTable(ix: Index): map<string, int> {
    ix.guidUsages
  }

  /** The sum, over every registered file, of the count that file's index
      holds for key `k` in the table `table` selects. */
  ghost function Total<K>(files: map<string, Index>, table: Index -> map<K, int>, k: K): int
    decreases |files|
  {
    if |files| == 0 then 0
    else
      assert files.Keys != {} by { assert |files.Keys| == |files|; }
      var p := Pick(files.Keys);
      assert |files - {p}| < |files| by { assert (files - {p}).Keys == files.Keys - {p}; }
      Total(files - {p}, table, k) + Count(table(files[p]), k)
  }

  /** The total does not depend on which file the definition picks first:
      any registered file can be split off. */
  lemma {:induction false} TotalWithout<K>(files: map<string, Index>, table: Index -> map<K, int>, p: string, k: K)
    requires p in files
    ensures Total(files, table, k) == Total(files - {p}, table, k) + Count(table(files[p]), k)
    decreases |files|
  {
    assert |files.Keys| == |files|;
    var q := Pick(files.Keys);
    if q != p {
      assert (files - {q}).Keys == files.Keys - {q};
      assert (files - {p}).Keys == files.Keys - {p};
      TotalWithout(files - {q}, table, p, k);
      TotalWithout(files - {p}, table, q, k);
      assert files - {q} - {p} == files - {p} - {q};
    }
  }

  /** `c` holds, for every key, the sum of the counts the indexes in `files` hold. */
  ghost predicate Accounts(c: Index, files: map<string, Index>) {
    && (forall id: Anchor :: Count(c.idUsages, id) == Total(files, IdTable, id))
    && (forall g: string :: Count(c.guidUsages, g) == Total(files, GuidTable, g))
  }

  /** Adding the table of a newly registered file to a table that holds the
      totals over the registered files gives the totals over the enlarged set. */
  lemma {:induction false} StoreKeepsTotal<K>(c: map<K, int>, files: map<string, Index>, table: Index -> map<K, int>,
                                               path: string, x: Index)
    requires forall k :: Count(c, k) == Total(files, table, k)
    requires path !in files
    ensures forall k :: Count(AddCounts(c, table(x)), k) == Total(files[path := x], table, k)
  {
    var stored := files[path := x];
    assert stored - {path} == files;
    forall k ensures Count(AddCounts(c, table(x)), k) == Total(stored, table, k) {
      TotalWithout(stored, table, path, k);
      AddCountsReads(c, table(x), k);
    }
  }

  /** Subtracting the table of a registered file from a table that holds the
      totals over the registered files gives the totals over the other files. */
  lemma {:induction false} RemoveKeepsTotal<K>(c: map<K, int>, files: map<string, Index>, table: Index -> map<K, int>,
                                                path: string)
    requires forall k :: Count(c, k) == Total(files, table, k)
    requires path in files
    ensures forall k :: Count(AddCounts(c, Negated(table(files[path]))), k) == Total(files - {path}, table, k)
  {
    forall k ensures Count(AddCounts(c, Negated(table(files[path]))), k) == Total(files - {path}, table, k) {
      TotalWithout(files, table, path, k);
      AddCountsReads(c, Negated(table(files[path])), k);
      AddCountsReads(c, table(files[path]), k);
    }
  }

  /** Merging the index of a newly registered path keeps the combined counts
      equal to the sums over the registered files. */
  lemma MergeKeepsAccounts(c: Index, files: map<string, Index>, path: string, x: Index)
    requires Accounts(c, files) && path !in files
    ensures Accounts(Merged(c, x), files[path := x])
  {
    StoreKeepsTotal(c.idUsages, files, IdTable, path, x);
    StoreKeepsTotal(c.guidUsages, files, GuidTable, path, x);
    assert Merged(c, x).idUsages == AddCounts(c.idUsages, IdTable(x));
    assert Merged(c, x).guidUsages == AddCounts(c.guidUsages, GuidTable(x));
  }

  /** Taking out the index of a registered path and unregistering it keeps the
      combined counts equal to the sums over the remaining files. */
  lemma SubtractKeepsAccounts(c: Index, files: map<string, Index>, path: string)
    requires Accounts(c, files) && path in files
    ensures Accounts(Subtracted(c, files[path]), files - {path})
  {
    RemoveKeepsTotal(c.idUsages, files, IdTable, path);
    RemoveKeepsTotal(c.guidUsages, files, GuidTable, path);
  }

  /** The combined index once the contribution registered under `path`, if
      any, has been taken out. */
  function Withdrawn(c: Index, files: map<string, Index>, path: string): Index {
    if path in files then Subtracted(c, files[path]) else c
  }

  /** The combined index after registering `x` under `path`. */
  function AfterAdd(c: Index, files: map<string, Index>, path: string, x: Index): Index {
    Merged(Withdrawn(c, files, path), x)
  }

  /** Adding the same index again under the same path reads exactly like
      adding it once, provided no other registered file attached components
      to the anchors it names. */
  lemma AddSameIndexTwice(c: Index, files: map<string, Index>, path: string, x: Index)
    requires forall id :: id in x.attachedComponents ==> ListOf(Withdrawn(c, files, path).attachedComponents, id) == []
    ensures SameCounts(AfterAdd(AfterAdd(c, files, path, x), files[path := x], path, x), AfterAdd(c, files, path, x))
    ensures forall id :: ListOf(AfterAdd(AfterAdd(c, files, path, x), files[path := x], path, x).attachedComponents, id)
                         == ListOf(AfterAdd(c, files, path, x).attachedComponents, id)
  {
    ReplaceBySameIndex(Withdrawn(c, files, path), x);
  }

  /** Starting from an empty cache, adding one file twice leaves every count
      and component list as a single add does, which is `x` itself. */
  lemma AddSameFileTwiceToEmpty(path: string, x: Index)
    ensures SameCounts(AfterAdd(AfterAdd(EmptyIndex, map[], path, x), map[path := x], path, x), x)
    ensures forall id :: ListOf(AfterAdd(AfterAdd(EmptyIndex, map[], path, x), map[path := x], path, x).attachedComponents, id)
                         == ListOf(x.attachedComponents, id)
  {
    MergeIntoEmpty(x);
    assert map[][path := x] == map[path := x];
    AddSameIndexTwice(EmptyIndex, map[], path, x);
  }

  /** Starting from an empty cache, adding `x` under `p` and then `y` under a
      different `q` sums the counts and concatenates the component lists in
      the order of the adds. */
  lemma AddTwoFiles(p: string, x: Index, q: string, y: Index, id: Anchor, g: string)
    requires p != q
    ensures var c := AfterAdd(AfterAdd(EmptyIndex, map[], p, x), map[p := x], q, y);
            && Count(c.idUsages, id) == Count(x.idUsages, id) + Count(y.idUsages, id)
            && Count(c.guidUsages, g) == Count(x.guidUsages, g) + Count(y.guidUsages, g)
            && ListOf(c.attachedComponents, id) == ListOf(x.attachedComponents, id) + ListOf(y.attachedComponents, id)
  {
    MergeIntoEmpty(x);
    MergedReads(x, y, id, g);
  }

  class GlobalCacheIndex {
    /** The combined index (the part a `GlobalCacheIndex` inherits from `CacheIndex`). */
    const combined: CacheIndex
    /** The index each registered path contributed, kept as a value copy. */
    var fileIndexes: map<string, Index>

    /** Every combined count is the sum of that key's count over all registered files. */
    ghost predicate Valid()
      reads this, combined
    {
      Accounts(combined.Value(), fileIndexes)
    }

    constructor ()
      ensures Valid() && fresh(combined)
      ensures fileIndexes == map[] && combined.Value() == EmptyIndex
    {
      combined := new CacheIndex();
      fileIndexes := map[];
    }

    /** Merges `index` into the combined index under `path`; if `path` was
        already registered, its previous contribution is replaced. */
    method AddIndex(path: string, index: CacheIndex)
      requires Valid() && index != combined
      modifies this, combined
      ensures Valid()
      ensures fileIndexes == old(fileIndexes)[path := index.Value()]
      ensures combined.Value() == AfterAdd(old(combined.Value()), old(fileIndexes), path, index.Value())
    {
      Invalidate(path);
      ghost var files, before := fileIndexes, combined.Value();
      fileIndexes := fileIndexes[path := index.Value()];
      combined.Merge(index);
      MergeKeepsAccounts(before, files, path, index.Value());
      assert (old(fileIndexes) - {path})[path := index.Value()] == old(fileIndexes)[path := index.Value()];
    }

    /** Takes the contribution of `path` (if any) out of the combined index and
        unregisters the path. */
    method Invalidate(path: string)
      requires Valid()
      modifies this, combined
      ensures Valid()
      ensures fileIndexes == old(fileIndexes) - {path}
      ensures combined.Value() == Withdrawn(old(combined.Value()), old(fileIndexes), path)
    {
      if path !in fileIndexes {
        assert fileIndexes - {path} == fileIndexes;
        return;
      }
      SubtractKeepsAccounts(combined.Value(), fileIndexes, path);
      combined.RemoveDataFromAnother(fileIndexes[path]);
      fileIndexes := fileIndexes - {path};
    }
  }
}
