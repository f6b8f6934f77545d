/** The mutable record that the walk of one document fills in. */
module ParseInfoRecord {
  import opened Primitives

  /** The three collections of a `ParseInfo`, as a value. */
  datatype Tally = Tally(idUsages: map<Anchor, int>, guidUsages: map<string, int>, attachedComponents: seq<Anchor>)

  const EmptyTally := Tally(map[], map[], [])

  class ParseInfo {
    /** The anchor of the document's root object. */
    var Id: Anchor
    /** How often each anchor is referenced through a `fileID` key. */
    var IdUsages: map<Anchor, int>
    /** How often each guid is referenced through a `guid` key. */
    var GuidUsages: map<string, int>
    /** The component anchors listed under the document's `m_Component` key;
        the walk replaces this list wholesale. */
    var AttachedComponents: seq<Anchor>

    /** A new record: `Id` holds the default 0, and the three collections are empty. */
    constructor ()
      ensures Id == 0
      ensures IdUsages == map[] && GuidUsages == map[] && AttachedComponents == []
      ensures Tallied() == EmptyTally
    {
      Id := 0;
      IdUsages := map[];
      GuidUsages := map[];
      AttachedComponents := [];
    }

    /** The record's collections, as a value. */
    function Tallied(): Tally
      reads this
    {
      Tally(IdUsages, GuidUsages, AttachedComponents)
    }
  }
}
