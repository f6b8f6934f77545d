/** The counting index of one scope (one file, or the global aggregate):
    anchor usage counts, guid usage counts, and the ordered component list
    attached to each anchor. */
module AssetIndex {
  import opened Primitives

  /** The value held by a `CacheIndex`: its three dictionaries. */
  datatype Index = Index(
    idUsages: map<Anchor, int>,
    guidUsages: map<string, int>,
    attachedComponents: map<Anchor, seq<Anchor>>)

  const EmptyIndex: Index := Index(map[], map[], map[])

  /** Pointwise sum of two count tables; a key of either side is a key of the result. */
  function AddCounts<K>(a: map<K, int>, b: map<K, int>): map<K, int> {
    map k | k in a.Keys + b.Keys :: Count(a, k) + Count(b, k)
  }

  /** The same table with every count negated. */
  function Negated<K>(b: map<K, int>): map<K, int> {
    map k | k in b :: -b[k]
  }

  lemma AddCountsReads<K>(a: map<K, int>, b: map<K, int>, k: K)
    ensures Count(AddCounts(a, b), k) == Count(a, k) + Count(b, k)
    ensures Count(Negated(b), k) == -Count(b, k)
  {
  }

  /** Per key, the list of `a` followed by the list of `b`. */
  function AppendLists<K, V>(a: map<K, seq<V>>, b: map<K, seq<V>>): map<K, seq<V>> {
    map k | k in a.Keys + b.Keys :: ListOf(a, k) + ListOf(b, k)
  }

  /** The index that `Merge` leaves in `self` after absorbing `other`. */
  function Merged(self: Index, other: Index): Index {
    Index(AddCounts(self.idUsages, other.idUsages),
          AddCounts(self.guidUsages, other.guidUsages),
          AppendLists(self.attachedComponents, other.attachedComponents))
  }

  /** The index that `RemoveDataFromAnother` leaves in `self`: the counts of
      `other` taken back out, and the component entry of every anchor that
      `other` names dropped as a whole. */
  function Subtracted(self: Index, other: Index): Index {
    Index(AddCounts(self.idUsages, Negated(other.idUsages)),
          AddCounts(self.guidUsages, Negated(other.guidUsages)),
          self.attachedComponents - other.attachedComponents.Keys)
  }

  /** After a merge every count is the sum of both sides' counts (a key present
      only in `self` keeps its count), and every anchor's list is the list of
      `self` followed by the list of `other`. */
  lemma MergedReads(self: Index, other: Index, id: Anchor, g: string)
    ensures Count(Merged(self, other).idUsages, id) == Count(self.idUsages, id) + Count(other.idUsages, id)
    ensures Count(Merged(self, other).guidUsages, g) == Count(self.guidUsages, g) + Count(other.guidUsages, g)
    ensures ListOf(Merged(self, other).attachedComponents, id)
            == ListOf(self.attachedComponents, id) + ListOf(other.attachedComponents, id)
    ensures id in Merged(self, other).idUsages <==> id in self.idUsages || id in other.idUsages
    ensures g in Merged(self, other).guidUsages <==> g in self.guidUsages || g in other.guidUsages
  {
  }

  /** After a subtraction every count is the difference of the two sides'
      counts; anchors named by `other` have no list left, all others keep theirs. */
  lemma SubtractedReads(self: Index, other: Index, id: Anchor, g: string)
    ensures Count(Subtracted(self, other).idUsages, id) == Count(self.idUsages, id) - Count(other.idUsages, id)
    ensures Count(Subtracted(self, other).guidUsages, g) == Count(self.guidUsages, g) - Count(other.guidUsages, g)
    ensures id in other.attachedComponents ==> id !in Subtracted(self, other).attachedComponents
    ensures id !in other.attachedComponents ==>
              ListOf(Subtracted(self, other).attachedComponents, id) == ListOf(self.attachedComponents, id)
  {
  }

  /** Two indexes hold the same counts when every key reads the same, even if
      one of them stores an explicit 0 where the other has no entry. */
  ghost predicate SameCounts(a: Index, b: Index) {
    && (forall id :: Count(a.idUsages, id) == Count(b.idUsages, id))
    && (forall g :: Count(a.guidUsages, g) == Count(b.guidUsages, g))
  }

  /** Merging into an empty index copies the other index exactly. */
  lemma MergeIntoEmpty(x: Index)
    ensures Merged(EmptyIndex, x) == x
  {
    assert Merged(EmptyIndex, x).idUsages == x.idUsages;
    assert Merged(EmptyIndex, x).guidUsages == x.guidUsages;
    forall id | id in x.attachedComponents
      ensures Merged(EmptyIndex, x).attachedComponents[id] == x.attachedComponents[id]
    {
      assert [] + x.attachedComponents[id] == x.attachedComponents[id];
    }
    assert Merged(EmptyIndex, x).attachedComponents == x.attachedComponents;
  }

  /** Merging A then B yields counts that do not depend on the order, and
      component lists concatenated in merge order. */
  lemma MergeOrder(x: Index, a: Index, b: Index)
    ensures SameCounts(Merged(Merged(x, a), b), Merged(Merged(x, b), a))
    ensures forall id :: ListOf(Merged(Merged(x, a), b).attachedComponents, id)
                         == ListOf(x.attachedComponents, id) + ListOf(a.attachedComponents, id)
                            + ListOf(b.attachedComponents, id)
  {
    var ab, ba := Merged(Merged(x, a), b), Merged(Merged(x, b), a);
    forall id ensures Count(ab.idUsages, id) == Count(ba.idUsages, id)
      && ListOf(ab.attachedComponents, id)
         == ListOf(x.attachedComponents, id) + ListOf(a.attachedComponents, id) + ListOf(b.attachedComponents, id)
    {
      MergedReads(x, a, id, "");
      MergedReads(x, b, id, "");
      MergedReads(Merged(x, a), b, id, "");
      MergedReads(Merged(x, b), a, id, "");
    }
    forall g ensures Count(ab.guidUsages, g) == Count(ba.guidUsages, g) {
      MergedReads(x, a, 0, g);
      MergedReads(x, b, 0, g);
      MergedReads(Merged(x, a), b, 0, g);
      MergedReads(Merged(x, b), a, 0, g);
    }
  }

  /** Taking an index back out after merging it restores every count; each
      anchor the index names ends with no component list, and every other
      anchor keeps its list. */
  lemma SubtractUndoesMerge(x: Index, o: Index)
    ensures SameCounts(Subtracted(Merged(x, o), o), x)
    ensures forall id :: id in o.attachedComponents ==>
                           ListOf(Subtracted(Merged(x, o), o).attachedComponents, id) == []
    ensures forall id :: id !in o.attachedComponents ==>
                           ListOf(Subtracted(Merged(x, o), o).attachedComponents, id) == ListOf(x.attachedComponents, id)
  {
    var back := Subtracted(Merged(x, o), o);
    forall id
      ensures Count(back.idUsages, id) == Count(x.idUsages, id)
      ensures id in o.attachedComponents ==> ListOf(back.attachedComponents, id) == []
      ensures id !in o.attachedComponents ==> ListOf(back.attachedComponents, id) == ListOf(x.attachedComponents, id)
    {
      MergedReads(x, o, id, "");
      SubtractedReads(Merged(x, o), o, id, "");
    }
    forall g ensures Count(back.guidUsages, g) == Count(x.guidUsages, g) {
      MergedReads(x, o, 0, g);
      SubtractedReads(Merged(x, o), o, 0, g);
    }
  }

  /** Replacing a contribution by itself: taking `o` out of `Merged(x, o)` and
      merging it again reads exactly like merging it once, provided no other
      contribution has attached components to the anchors `o` names. */
  lemma ReplaceBySameIndex(x: Index, o: Index)
    requires forall id :: id in o.attachedComponents ==> ListOf(x.attachedComponents, id) == []
    ensures SameCounts(Merged(Subtracted(Merged(x, o), o), o), Merged(x, o))
    ensures forall id :: ListOf(Merged(Subtracted(Merged(x, o), o), o).attachedComponents, id)
                         == ListOf(Merged(x, o).attachedComponents, id)
  {
    var once := Merged(x, o);
    var twice := Merged(Subtracted(once, o), o);
    forall id
      ensures Count(twice.idUsages, id) == Count(once.idUsages, id)
      ensures ListOf(twice.attachedComponents, id) == ListOf(once.attachedComponents, id)
    {
      MergedReads(x, o, id, "");
      SubtractedReads(once, o, id, "");
      MergedReads(Subtracted(once, o), o, id, "");
      if id in o.attachedComponents {
        assert ListOf(x.attachedComponents, id) == [];
      }
    }
    forall g ensures Count(twice.guidUsages, g) == Count(once.guidUsages, g) {
      MergedReads(x, o, 0, g);
      SubtractedReads(once, o, 0, g);
      MergedReads(Subtracted(once, o), o, 0, g);
    }
  }

  /** One step of the `Merge` loop over a count table: adding the entry for `k`
      to the partial sum over `b - rest` gives the partial sum over `b - (rest - {k})`. */
  lemma AddCountsStep<K>(a: map<K, int>, b: map<K, int>, rest: set<K>, k: K)
    requires k in rest && rest <= b.Keys
    ensures AddCounts(a, b - (rest - {k}))
            == AddCounts(a, b - rest)[k := Count(AddCounts(a, b - rest), k) + b[k]]
  {
    var lhs := AddCounts(a, b - (rest - {k}));
    var rhs := AddCounts(a, b - rest)[k := Count(AddCounts(a, b - rest), k) + b[k]];
    assert lhs.Keys == rhs.Keys;
    forall j | j in lhs.Keys ensures lhs[j] == rhs[j] {
    }
  }

  lemma AppendListsStep<K, V>(a: map<K, seq<V>>, b: map<K, seq<V>>, rest: set<K>, k: K)
    requires k in rest && rest <= b.Keys
    ensures AppendLists(a, b - (rest - {k}))
            == AppendLists(a, b - rest)[k := ListOf(AppendLists(a, b - rest), k) + b[k]]
  {
    var lhs := AppendLists(a, b - (rest - {k}));
    var rhs := AppendLists(a, b - rest)[k := ListOf(AppendLists(a, b - rest), k) + b[k]];
    assert lhs.Keys == rhs.Keys;
    forall j | j in lhs.Keys ensures lhs[j] == rhs[j] {
    }
  }

  /** An empty remainder leaves the whole table summed in, and a full one adds nothing. */
  lemma AddCountsEnds<K>(a: map<K, int>, b: map<K, int>)
    ensures AddCounts(a, b - b.Keys) == a
    ensures AddCounts(a, b - {}) == AddCounts(a, b)
  {
    assert b - b.Keys == map[];
    assert AddCounts(a, map[]) == a;
    assert b - {} == b;
  }

  lemma AppendListsEnds<K, V>(a: map<K, seq<V>>, b: map<K, seq<V>>)
    ensures AppendLists(a, b - b.Keys) == a
    ensures AppendLists(a, b - {}) == AppendLists(a, b)
  {
    assert b - b.Keys == map[];
    forall k | k in a ensures AppendLists(a, map[])[k] == a[k] {
      assert a[k] + [] == a[k];
    }
    assert AppendLists(a, map[]) == a;
    assert b - {} == b;
  }

  class CacheIndex {
    var idUsages: map<Anchor, int>
    var guidUsages: map<string, int>
    var attachedComponents: map<Anchor, seq<Anchor>>

    /** A new index holds three empty dictionaries. */
    constructor ()
      ensures Value() == EmptyIndex
    {
      idUsages := map[];
      guidUsages := map[];
      attachedComponents := map[];
    }

    /** The value this object currently holds. */
    function Value(): Index
      reads this
    {
      Index(idUsages, guidUsages, attachedComponents)
    }

    function GetIdUsages(id: Anchor): (n: int)
      reads this
      ensures id in idUsages ==> n == idUsages[id]
      ensures id !in idUsages ==> n == 0
    {
      Count(idUsages, id)
    }

    function GetGuidUsages(guid: string): (n: int)
      reads this
      ensures guid in guidUsages ==> n == guidUsages[guid]
      ensures guid !in guidUsages ==> n == 0
    {
      Count(guidUsages, guid)
    }

    function GetAttachedComponents(id: Anchor): (cs: seq<Anchor>)
      reads this
      ensures id in attachedComponents ==> cs == attachedComponents[id]
      ensures id !in attachedComponents ==> cs == []
    {
      ListOf(attachedComponents, id)
    }

    /** Adds `delta` to the count of `id`, with no floor at 0. */
    method IncrementIdUsages(id: Anchor, delta: int)
      modifies this
      ensures idUsages == old(idUsages)[id := old(GetIdUsages(id)) + delta]
      ensures guidUsages == old(guidUsages) && attachedComponents == old(attachedComponents)
    {
      idUsages := idUsages[id := GetIdUsages(id) + delta];
    }

    /** Adds `delta` to the count of `guid`, with no floor at 0. */
    method IncrementGuidUsages(guid: string, delta: int)
      modifies this
      ensures guidUsages == old(guidUsages)[guid := old(GetGuidUsages(guid)) + delta]
      ensures idUsages == old(idUsages) && attachedComponents == old(attachedComponents)
    {
      guidUsages := guidUsages[guid := GetGuidUsages(guid) + delta];
    }

    /** Appends `components` to the list attached to `id`. */
    method AddAttachedComponents(id: Anchor, components: seq<Anchor>)
      modifies this
      ensures attachedComponents == old(attachedComponents)[id := old(GetAttachedComponents(id)) + components]
      ensures idUsages == old(idUsages) && guidUsages == old(guidUsages)
    {
      var existingComponents := GetAttachedComponents(id);
      attachedComponents := attachedComponents[id := existingComponents + components];
    }

    /** Adds every count of `other` into this index and appends each of its
        component lists; `other` itself is left as it was. */
    method Merge(other: CacheIndex)
      requires other != this
      modifies this
      ensures Value() == Merged(old(Value()), other.Value())
    {
      AddIdCounts(other.idUsages);
      AddGuidCounts(other.guidUsages);
      AppendComponentLists(other.attachedComponents);
    }

    /** Takes the contribution `other` back out of this index: its counts are
        subtracted, and the component entry of each anchor it names is dropped. */
    method RemoveDataFromAnother(other: Index)
      modifies this
      ensures Value() == Subtracted(old(Value()), other)
    {
      AddIdCounts(Negated(other.idUsages));
      AddGuidCounts(Negated(other.guidUsages));
      attachedComponents := attachedComponents - other.attachedComponents.Keys;
    }

    /** The loop of `Merge` over an anchor count table, one `IncrementIdUsages` per key. */
    method AddIdCounts(counts: map<Anchor, int>)
      modifies this
      ensures idUsages == AddCounts(old(idUsages), counts)
      ensures guidUsages == old(guidUsages) && attachedComponents == old(attachedComponents)
    {
      var ids := counts.Keys;
      AddCountsEnds(idUsages, counts);
      while ids != {}
        invariant ids <= counts.Keys
        invariant idUsages == AddCounts(old(idUsages), counts - ids)
        invariant guidUsages == old(guidUsages) && attachedComponents == old(attachedComponents)
        decreases ids
      {
        var id :| id in ids;
        AddCountsStep(old(idUsages), counts, ids, id);
        IncrementIdUsages(id, counts[id]);
        ids := ids - {id};
      }
    }

    /** The loop of `Merge` over a guid count table, one `IncrementGuidUsages` per key. */
    method AddGuidCounts(counts: map<string, int>)
      modifies this
      ensures guidUsages == AddCounts(old(guidUsages), counts)
      ensures idUsages == old(idUsages) && attachedComponents == old(attachedComponents)
    {
      var guids := counts.Keys;
      AddCountsEnds(guidUsages, counts);
      while guids != {}
        invariant guids <= counts.Keys
        invariant guidUsages == AddCounts(old(guidUsages), counts - guids)
        invariant idUsages == old(idUsages) && attachedComponents == old(attachedComponents)
        decreases guids
      {
        var guid :| guid in guids;
        AddCountsStep(old(guidUsages), counts, guids, guid);
        IncrementGuidUsages(guid, counts[guid]);
        guids := guids - {guid};
      }
    }

    /** The loop of `Merge` over the component lists, one `AddAttachedComponents` per anchor. */
    method AppendComponentLists(lists: map<Anchor, seq<Anchor>>)
      modifies this
      ensures attachedComponents == AppendLists(old(attachedComponents), lists)
      ensures idUsages == old(idUsages) && guidUsages == old(guidUsages)
    {
      var anchors := lists.Keys;
      AppendListsEnds(attachedComponents, lists);
      while anchors != {}
        invariant anchors <= lists.Keys
        invariant attachedComponents == AppendLists(old(attachedComponents), lists - anchors)
        invariant idUsages == old(idUsages) && guidUsages == old(guidUsages)
        decreases anchors
      {
        var id :| id in anchors;
        AppendListsStep(old(attachedComponents), lists, anchors, id);
        AddAttachedComponents(id, lists[id]);
        anchors := anchors - {id};
      }
    }
  }
}
