/** The reference-extracting walk of `UnityYamlParser`: it visits the tree of
    one loaded document and records in a `ParseInfo` every `fileID` and `guid`
    reference it reaches and the component list of the object. */
module UnityYamlWalk {
  import opened Primitives
  import opened ParseInfoRecord

  /** A loaded YAML node: a scalar leaf, a sequence or a mapping whose
      entries keep their document order. */
  datatype Node = Scalar(value: string) | Sequence(items: seq<Node>) | Mapping(children: seq<Property>)

  /** One key/value entry of a mapping. */
  datatype Property = Property(key: Node, value: Node)

  /** A loaded document: its root node and the root's anchor text (the `123`
      of `&123`), "" when the root has none. */
  datatype Document = Document(anchor: string, root: Node)

  /** The mapping entries the walk handles below `n`, in the order it handles
      them: every entry of every mapping, each followed by what lies below its
      value; every item of every sequence; never anything below a key. */
  function ReachedIn(n: Node): seq<Property>
    decreases n, 1
  {
    match n
    case Scalar(_) => []
    case Sequence(items) => ReachedItems(items)
    case Mapping(children) => ReachedProps(children)
  }

  function ReachedItems(items: seq<Node>): seq<Property>
    decreases items, 0
  {
    if items == [] then [] else ReachedIn(items[0]) + ReachedItems(items[1..])
  }

  function ReachedProps(children: seq<Property>): seq<Property>
    decreases children, 0
  {
    if children == [] then []
    else
      var c := children[0];
      assert c.value < c;
      [c] + ReachedIn(c.value) + ReachedProps(children[1..])
  }

  /** The value of the first entry whose key is the scalar `key`: the
      dictionary lookup `node[key]`. */
  function Lookup(children: seq<Property>, key: string): (r: Option<Node>)
    ensures r.Some? ==> Property(Scalar(key), r.value) in children
    ensures r.None? ==> forall k :: 0 <= k < |children| ==> children[k].key != Scalar(key)
  {
    if children == [] then None
    else if children[0].key == Scalar(key) then Some(children[0].value)
    else Lookup(children[1..], key)
  }

  /** One entry of an `m_Component` list: `entry.Children.First().Value["fileID"]`,
      parsed; `None` when a cast, the lookup or the parse fails. */
  function ComponentId(entry: Node): Option<Anchor> {
    if entry.Mapping? && |entry.children| > 0 && entry.children[0].value.Mapping? then
      match Lookup(entry.children[0].value.children, "fileID")
      case Some(Scalar(s)) => ParseULong(s)
      case _ => None
    else None
  }

  /** The component ids of `entries`, in order; `None` as soon as one entry fails. */
  function ComponentIds(entries: seq<Node>): (r: Option<seq<Anchor>>)
    ensures r.Some? <==> forall k :: 0 <= k < |entries| ==> ComponentId(entries[k]).Some?
    ensures r.Some? ==> |r.value| == |entries|
    ensures r.Some? ==> forall k :: 0 <= k < |entries| ==> r.value[k] == ComponentId(entries[k]).value
  {
    if entries == [] then Some([])
    else
      match (ComponentId(entries[0]), ComponentIds(entries[1..]))
      case (Some(c), Some(cs)) => Some([c] + cs)
      case _ => None
  }

  /** `ParseAttachedComponents`: the value of `m_Component` must be a sequence. */
  function ParseAttachedComponents(value: Node): (r: Option<seq<Anchor>>)
    ensures r.Some? <==> value.Sequence? && forall k :: 0 <= k < |value.items| ==> ComponentId(value.items[k]).Some?
    ensures r.Some? ==> |r.value| == |value.items| &&
                        forall k :: 0 <= k < |value.items| ==> ComponentId(value.items[k]) == Some(r.value[k])
  {
    if value.Sequence? then ComponentIds(value.items) else None
  }

  /** `m[k]` incremented, a missing key counting as 0. */
  function Bump<K>(m: map<K, int>, k: K): map<K, int> {
    m[k := Count(m, k) + 1]
  }

  /** The effect of handling one entry's key in `ParseMappingNode`; `None`
      when one of its casts or parses fails. */
  function Step(t: Tally, p: Property): Option<Tally> {
    if !p.key.Scalar? then None
    else if p.key.value == "m_Component" then
      match ParseAttachedComponents(p.value)
      case None => None
      case Some(ids) => Some(t.(attachedComponents := ids))
    else if p.key.value == "fileID" then
      if p.value.Scalar? && ParseULong(p.value.value).Some? then
        Some(t.(idUsages := Bump(t.idUsages, ParseULong(p.value.value).value)))
      else None
    else if p.key.value == "guid" then
      if p.value.Scalar? then Some(t.(guidUsages := Bump(t.guidUsages, p.value.value))) else None
    else Some(t)
  }

  /** The effect of handling `ps` in order; the first failure aborts. */
  function Run(t: Tally, ps: seq<Property>): Option<Tally>
    decreases |ps|
  {
    if ps == [] then Some(t)
    else
      match Step(t, ps[0])
      case None => None
      case Some(next) => Run(next, ps[1..])
  }

  /** `Run` continued from an outcome that may already have failed. */
  function Then(r: Option<Tally>, ps: seq<Property>): Option<Tally> {
    match r
    case None => None
    case Some(t) => Run(t, ps)
  }

  /** An entry the walk can handle: its key is a scalar, and the value of an
      `m_Component`, `fileID` or `guid` key has the shape the code casts it to. */
  predicate PropertyOk(p: Property) {
    && p.key.Scalar?
    && (p.key.value == "m_Component" ==> ParseAttachedComponents(p.value).Some?)
    && (p.key.value == "fileID" ==> p.value.Scalar? && ParseULong(p.value.value).Some?)
    && (p.key.value == "guid" ==> p.value.Scalar?)
  }

  /** `p` is a `fileID` entry referring to `id`. */
  predicate RefersToId(p: Property, id: Anchor) {
    p.key == Scalar("fileID") && p.value.Scalar? && ParseULong(p.value.value) == Some(id)
  }

  /** `p` is a `guid` entry naming `g`. */
  predicate RefersToGuid(p: Property, g: string) {
    p.key == Scalar("guid") && p.value == Scalar(g)
  }

  /** How many entries of `ps` refer to anchor `id`. */
  function IdRefs(ps: seq<Property>, id: Anchor): nat {
    if ps == [] then 0 else (if RefersToId(ps[0], id) then 1 else 0) + IdRefs(ps[1..], id)
  }

  /** How many entries of `ps` name guid `g`. */
  function GuidRefs(ps: seq<Property>, g: string): nat {
    if ps == [] then 0 else (if RefersToGuid(ps[0], g) then 1 else 0) + GuidRefs(ps[1..], g)
  }

  /** The list of the last `m_Component` entry of `ps`, or `d` when there is none. */
  function LastComponents(ps: seq<Property>, d: seq<Anchor>): seq<Anchor> {
    if ps == [] then d
    else
      var p := ps[|ps| - 1];
      if p.key == Scalar("m_Component") && ParseAttachedComponents(p.value).Some? then
        ParseAttachedComponents(p.value).value
      else LastComponents(ps[..|ps| - 1], d)
  }

  lemma {:induction false} RunAppend(t: Tally, a: seq<Property>, b: seq<Property>)
    ensures Run(t, a + b) == Then(Run(t, a), b)
    decreases |a|
  {
    if a == [] {
      assert a + b == b;
    } else {
      assert (a + b)[1..] == a[1..] + b;
      match Step(t, a[0])
      case None =>
      case Some(next) => RunAppend(next, a[1..], b);
    }
  }

  /** The walk of `ps` succeeds exactly when every entry can be handled; the
      outcome does not depend on the counts gathered so far. */
  lemma {:induction false} RunSucceeds(t: Tally, ps: seq<Property>)
    ensures Run(t, ps).Some? <==> forall k :: 0 <= k < |ps| ==> PropertyOk(ps[k])
    decreases |ps|
  {
    if ps != [] {
      match Step(t, ps[0])
      case None =>
      case Some(next) =>
        RunSucceeds(next, ps[1..]);
        assert forall k :: 0 < k < |ps| ==> ps[k] == ps[1..][k - 1];
    }
  }

  /** After a successful walk of `ps`, each anchor's count grew by exactly the
      number of `fileID` entries referring to it (0 included), and an anchor
      became a key exactly when some entry refers to it. */
  lemma {:induction false} RunCountsIds(t: Tally, ps: seq<Property>, id: Anchor)
    requires Run(t, ps).Some?
    ensures Count(Run(t, ps).value.idUsages, id) == Count(t.idUsages, id) + IdRefs(ps, id)
    ensures id in Run(t, ps).value.idUsages <==> id in t.idUsages || IdRefs(ps, id) > 0
    decreases |ps|
  {
    if ps != [] {
      RunCountsIds(Step(t, ps[0]).value, ps[1..], id);
    }
  }

  /** After a successful walk of `ps`, each guid's count grew by exactly the
      number of `guid` entries naming it. */
  lemma {:induction false} RunCountsGuids(t: Tally, ps: seq<Property>, g: string)
    requires Run(t, ps).Some?
    ensures Count(Run(t, ps).value.guidUsages, g) == Count(t.guidUsages, g) + GuidRefs(ps, g)
    ensures g in Run(t, ps).value.guidUsages <==> g in t.guidUsages || GuidRefs(ps, g) > 0
    decreases |ps|
  {
    if ps != [] {
      RunCountsGuids(Step(t, ps[0]).value, ps[1..], g);
    }
  }

  lemma {:induction false} LastComponentsAppend(a: seq<Property>, b: seq<Property>, d: seq<Anchor>)
    ensures LastComponents(a + b, d) == LastComponents(b, LastComponents(a, d))
    decreases |b|
  {
    if b == [] {
      assert a + b == a;
    } else {
      assert (a + b)[..|a + b| - 1] == a + b[..|b| - 1];
      LastComponentsAppend(a, b[..|b| - 1], d);
    }
  }

  /** After a successful walk of `ps`, the component list is the one of the
      last `m_Component` entry (each replaces, not extends, the previous one),
      or is unchanged when there is none. */
  lemma {:induction false} RunComponents(t: Tally, ps: seq<Property>)
    requires Run(t, ps).Some?
    ensures Run(t, ps).value.attachedComponents == LastComponents(ps, t.attachedComponents)
    decreases |ps|
  {
    if ps != [] {
      var next := Step(t, ps[0]).value;
      RunComponents(next, ps[1..]);
      assert ps == [ps[0]] + ps[1..];
      LastComponentsAppend([ps[0]], ps[1..], t.attachedComponents);
      assert [ps[0]][..0] == [];
    }
  }

  lemma ReachedItemsAppend(a: seq<Node>, b: seq<Node>)
    ensures ReachedItems(a + b) == ReachedItems(a) + ReachedItems(b)
    decreases |a|
  {
    if a == [] {
      assert a + b == b;
    } else {
      assert (a + b)[1..] == a[1..] + b;
      ReachedItemsAppend(a[1..], b);
    }
  }

  lemma ReachedPropsAppend(a: seq<Property>, b: seq<Property>)
    ensures ReachedProps(a + b) == ReachedProps(a) + ReachedProps(b)
    decreases |a|
  {
    if a == [] {
      assert a + b == b;
    } else {
      assert (a + b)[1..] == a[1..] + b;
      ReachedPropsAppend(a[1..], b);
    }
  }

  lemma IdRefsAppend(a: seq<Property>, b: seq<Property>, id: Anchor)
    ensures IdRefs(a + b, id) == IdRefs(a, id) + IdRefs(b, id)
    decreases |a|
  {
    if a == [] {
      assert a + b == b;
    } else {
      assert (a + b)[1..] == a[1..] + b;
      IdRefsAppend(a[1..], b, id);
    }
  }

  /** One more item of a sequence node: its subtree is walked after the others. */
  lemma ReachedItemsSnoc(items: seq<Node>, i: nat)
    requires i < |items|
    ensures ReachedItems(items[..i + 1]) == ReachedItems(items[..i]) + ReachedIn(items[i])
  {
    assert items[..i + 1] == items[..i] + [items[i]];
    ReachedItemsAppend(items[..i], [items[i]]);
    assert [items[i]][1..] == [];
  }

  lemma ReachedItemsSplit(items: seq<Node>, i: nat)
    requires i <= |items|
    ensures ReachedItems(items) == ReachedItems(items[..i]) + ReachedItems(items[i..])
  {
    assert items == items[..i] + items[i..];
    ReachedItemsAppend(items[..i], items[i..]);
  }

  /** One more entry of a mapping node: the entry, then its value's subtree. */
  lemma ReachedPropsSnoc(children: seq<Property>, i: nat)
    requires i < |children|
    ensures ReachedProps(children[..i + 1]) == ReachedProps(children[..i]) + ([children[i]] + ReachedIn(children[i].value))
  {
    assert children[..i + 1] == children[..i] + [children[i]];
    ReachedPropsAppend(children[..i], [children[i]]);
    assert [children[i]][1..] == [];
  }

  lemma ReachedPropsSplit(children: seq<Property>, i: nat)
    requires i <= |children|
    ensures ReachedProps(children) == ReachedProps(children[..i]) + ReachedProps(children[i..])
  {
    assert children == children[..i] + children[i..];
    ReachedPropsAppend(children[..i], children[i..]);
  }

  /** `Visit`: scalars are leaves; sequences and mappings are walked. On
      success (`ok`) the record holds exactly the effect of the entries
      reached; a failure (`!ok`) is the exception the code would throw, and
      the document is then abandoned. */
  method Visit(node: Node, info: ParseInfo) returns (ok: bool)
    modifies info
    ensures ok == Run(old(info.Tallied()), ReachedIn(node)).Some?
    ensures ok ==> info.Tallied() == Run(old(info.Tallied()), ReachedIn(node)).value
    ensures info.Id == old(info.Id)
    decreases node, 2
  {
    match node
    case Scalar(_) =>
      ok := true;
    case Sequence(_) =>
      ok := ParseSequenceNode(node, info);
    case Mapping(_) =>
      ok := ParseMappingNode(node, info);
  }

  /** `ParseSequenceNode`: visits every item in order. */
  method ParseSequenceNode(node: Node, info: ParseInfo) returns (ok: bool)
    requires node.Sequence?
    modifies info
    ensures ok == Run(old(info.Tallied()), ReachedIn(node)).Some?
    ensures ok ==> info.Tallied() == Run(old(info.Tallied()), ReachedIn(node)).value
    ensures info.Id == old(info.Id)
    decreases node, 1
  {
    ghost var t0 := info.Tallied();
    var items := node.items;
    var i := 0;
    while i < |items|
      invariant 0 <= i <= |items|
      invariant info.Id == old(info.Id)
      invariant Run(t0, ReachedItems(items[..i])) == Some(info.Tallied())
    {
      ReachedItemsSnoc(items, i);
      ReachedItemsSplit(items, i + 1);
      RunAppend(t0, ReachedItems(items[..i]), ReachedIn(items[i]));
      RunAppend(t0, ReachedItems(items[..i + 1]), ReachedItems(items[i + 1..]));
      ok := Visit(items[i], info);
      if !ok {
        return;
      }
      i := i + 1;
    }
    assert items[..i] == items;
    ok := true;
  }

  /** The key handling of one entry in `ParseMappingNode`: a scalar key is
      required; `m_Component` replaces the component list, `fileID` and
      `guid` add one to the count of the id or guid their scalar value names;
      other keys change nothing. */
  method HandleKey(property: Property, info: ParseInfo) returns (ok: bool)
    modifies info
    ensures ok == Step(old(info.Tallied()), property).Some?
    ensures ok ==> info.Tallied() == Step(old(info.Tallied()), property).value
    ensures info.Id == old(info.Id)
  {
    if !property.key.Scalar? {
      ok := false;
    } else if property.key.value == "m_Component" {
      var componentIds := ParseAttachedComponents(property.value);
      if componentIds.None? {
        ok := false;
      } else {
        info.AttachedComponents := componentIds.value;
        ok := true;
      }
    } else if property.key.value == "fileID" {
      if !property.value.Scalar? {
        ok := false;
      } else {
        var id := ParseULong(property.value.value);
        if id.None? {
          ok := false;
        } else {
          if id.value !in info.IdUsages {
            info.IdUsages := info.IdUsages[id.value := 0];
          }
          info.IdUsages := info.IdUsages[id.value := info.IdUsages[id.value] + 1];
          ok := true;
        }
      }
    } else if property.key.value == "guid" {
      if !property.value.Scalar? {
        ok := false;
      } else {
        var guid := property.value.value;
        if guid !in info.GuidUsages {
          info.GuidUsages := info.GuidUsages[guid := 0];
        }
        info.GuidUsages := info.GuidUsages[guid := info.GuidUsages[guid] + 1];
        ok := true;
      }
    } else {
      ok := true;
    }
  }

  /** `ParseMappingNode`: for every entry in order, handles its key (counting
      a `fileID` or `guid` reference, replacing the component list for
      `m_Component`) and then visits its value. */
  method ParseMappingNode(node: Node, info: ParseInfo) returns (ok: bool)
    requires node.Mapping?
    modifies info
    ensures ok == Run(old(info.Tallied()), ReachedIn(node)).Some?
    ensures ok ==> info.Tallied() == Run(old(info.Tallied()), ReachedIn(node)).value
    ensures info.Id == old(info.Id)
    decreases node, 1
  {
    ghost var t0 := info.Tallied();
    var children := node.children;
    var i := 0;
    while i < |children|
      invariant 0 <= i <= |children|
      invariant info.Id == old(info.Id)
      invariant Run(t0, ReachedProps(children[..i])) == Some(info.Tallied())
    {
      var property := children[i];
      ghost var before := info.Tallied();
      ReachedPropsSnoc(children, i);
      ReachedPropsSplit(children, i + 1);
      RunAppend(t0, ReachedProps(children[..i]), [property] + ReachedIn(property.value));
      RunAppend(before, [property], ReachedIn(property.value));
      RunAppend(t0, ReachedProps(children[..i + 1]), ReachedProps(children[i + 1..]));
      assert [property][1..] == [];
      ok := HandleKey(property, info);
      if !ok {
        return;
      }
      ok := Visit(property.value, info);
      if !ok {
        return;
      }
      i := i + 1;
    }
    assert children[..i] == children;
    ok := true;
  }

  /** What `ParseDocument` computes for `document`: the root's anchor and the
      effect of walking the value of the root's first entry; `None` when the
      root is not a mapping, the anchor does not parse or the walk fails. */
  function DocumentSummary(document: Document): Option<(Anchor, Tally)> {
    if !document.root.Mapping? then None
    else
      match ParseULong(document.anchor)
      case None => None
      case Some(id) =>
        if document.root.children == [] then Some((id, EmptyTally))
        else
          match Run(EmptyTally, ReachedIn(document.root.children[0].value))
          case None => None
          case Some(t) => Some((id, t))
  }

  /** `ParseDocument`: a new record whose `Id` is the root's anchor and whose
      collections are filled by walking the value of the root's first entry. */
  method ParseDocument(document: Document) returns (result: Option<ParseInfo>)
    ensures result.Some? <==> DocumentSummary(document).Some?
    ensures result.Some? ==> fresh(result.value)
    ensures result.Some? ==> (result.value.Id, result.value.Tallied()) == DocumentSummary(document).value
  {
    var parseInfo := new ParseInfo();
    if !document.root.Mapping? {
      return None;
    }
    var rootNode := document.root;
    var id := ParseULong(document.anchor);
    if id.None? {
      return None;
    }
    parseInfo.Id := id.value;
    if |rootNode.children| == 0 {
      return Some(parseInfo);
    }
    var entry := rootNode.children[0];
    var ok := Visit(entry.value, parseInfo);
    if !ok {
      return None;
    }
    return Some(parseInfo);
  }

  /** What a parsed document holds: `Id` is its root anchor, which is not
      itself counted; the usages count exactly the `fileID` and `guid`
      entries reached from the value of the root's first entry (later root
      entries are ignored); the component list is that of the last
      `m_Component` entry reached. A root without entries gives empty
      collections. */
  lemma DocumentSummaryMeaning(document: Document, id: Anchor, g: string)
    requires DocumentSummary(document).Some?
    ensures document.root.Mapping?
    ensures ParseULong(document.anchor) == Some(DocumentSummary(document).value.0)
    ensures document.root.children == [] ==> DocumentSummary(document).value.1 == EmptyTally
    ensures document.root.children != [] ==>
              var reached := ReachedIn(document.root.children[0].value);
              var t := DocumentSummary(document).value.1;
              && (forall k :: 0 <= k < |reached| ==> PropertyOk(reached[k]))
              && Count(t.idUsages, id) == IdRefs(reached, id)
              && (id in t.idUsages <==> IdRefs(reached, id) > 0)
              && Count(t.guidUsages, g) == GuidRefs(reached, g)
              && (g in t.guidUsages <==> GuidRefs(reached, g) > 0)
              && t.attachedComponents == LastComponents(reached, [])
  {
    if document.root.children != [] {
      var reached := ReachedIn(document.root.children[0].value);
      RunSucceeds(EmptyTally, reached);
      RunCountsIds(EmptyTally, reached, id);
      RunCountsGuids(EmptyTally, reached, g);
      RunComponents(EmptyTally, reached);
    }
  }

  /** A document is rejected exactly when its root is not a mapping, its
      anchor is not a `ulong`, or some entry reached cannot be handled. */
  lemma DocumentRejected(document: Document)
    ensures DocumentSummary(document).None? <==>
              || !document.root.Mapping?
              || ParseULong(document.anchor).None?
              || (document.root.children != [] &&
                  exists k :: 0 <= k < |ReachedIn(document.root.children[0].value)| &&
                              !PropertyOk(ReachedIn(document.root.children[0].value)[k]))
  {
    if document.root.Mapping? && document.root.children != [] {
      var reached := ReachedIn(document.root.children[0].value);
      RunSucceeds(EmptyTally, reached);
      if ParseULong(document.anchor).Some? {
        assert DocumentSummary(document).None? <==> Run(EmptyTally, reached).None?;
      }
    }
  }

  /** An entry of a component list whose id parses is itself reached by the
      walk as a `fileID` entry referring to that id. */
  lemma {:induction false} LookupIsReached(children: seq<Property>, s: string, id: Anchor)
    requires Lookup(children, "fileID") == Some(Scalar(s)) && ParseULong(s) == Some(id)
    ensures IdRefs(ReachedProps(children), id) >= 1
    decreases |children|
  {
    var c := children[0];
    IdRefsAppend([c], ReachedIn(c.value) + ReachedProps(children[1..]), id);
    assert ReachedProps(children) == [c] + (ReachedIn(c.value) + ReachedProps(children[1..]));
    assert [c][1..] == [];
    if c.key != Scalar("fileID") {
      LookupIsReached(children[1..], s, id);
      IdRefsAppend(ReachedIn(c.value), ReachedProps(children[1..]), id);
    }
  }

  lemma ComponentIdIsReached(entry: Node)
    requires ComponentId(entry).Some?
    ensures IdRefs(ReachedIn(entry), ComponentId(entry).value) >= 1
  {
    var first := entry.children[0];
    var inner := first.value.children;
    var id := ComponentId(entry).value;
    match Lookup(inner, "fileID")
    case Some(Scalar(s)) =>
      LookupIsReached(inner, s, id);
      assert ReachedProps(entry.children) == [first] + ReachedIn(first.value) + ReachedProps(entry.children[1..]);
      IdRefsAppend([first], ReachedIn(first.value), id);
      IdRefsAppend([first] + ReachedIn(first.value), ReachedProps(entry.children[1..]), id);
  }

  /** How many of `ids` are `id`. */
  function Occurrences(ids: seq<Anchor>, id: Anchor): nat {
    if ids == [] then 0 else (if ids[0] == id then 1 else 0) + Occurrences(ids[1..], id)
  }

  lemma {:induction false} ComponentsReached(entries: seq<Node>, id: Anchor)
    requires ComponentIds(entries).Some?
    ensures IdRefs(ReachedItems(entries), id) >= Occurrences(ComponentIds(entries).value, id)
    decreases |entries|
  {
    if entries != [] {
      var ids := ComponentIds(entries).value;
      assert ids[1..] == ComponentIds(entries[1..]).value;
      ComponentsReached(entries[1..], id);
      IdRefsAppend(ReachedIn(entries[0]), ReachedItems(entries[1..]), id);
      if ids[0] == id {
        ComponentIdIsReached(entries[0]);
      }
    }
  }

  /** The subtree of an `m_Component` entry is walked as well, so every
      component it lists is also counted as a usage, once per listing at
      least. */
  lemma ComponentsAreCounted(p: Property, id: Anchor)
    requires p.key == Scalar("m_Component") && ParseAttachedComponents(p.value).Some?
    ensures IdRefs(ReachedIn(p.value), id) >= Occurrences(ParseAttachedComponents(p.value).value, id)
  {
    ComponentsReached(p.value.items, id);
  }

  /** `fileID: 0`, the null reference, is counted like any other id. */
  lemma NullReferenceIsCounted()
    ensures Run(EmptyTally, ReachedIn(Mapping([Property(Scalar("fileID"), Scalar("0"))])))
            == Some(Tally(map[0 := 1], map[], []))
  {
    var p := Property(Scalar("fileID"), Scalar("0"));
    assert ReachedIn(Mapping([p])) == [p] by {
      assert [p][1..] == [];
    }
    assert DecimalValue("0") == 0 by {
      assert "0"[..0] == "";
    }
    assert ParseULong("0") == Some(0);
  }
}
