/** The stack. */
module Stack {
  import opened Common
  import opened Permanents

  /** What an entry will do; the effect of an ability is not part of the entry here. */
  datatype Content = Spell(card: Card) | Activated(source: Id) | Triggered(source: Id)

  datatype StackEntry = StackEntry(id: nat, content: Content, controller: Id, targets: seq<Id>, flashback: bool,
                                   adventure: bool)

  /** Ids grow from the bottom of the stack to its top. */
  ghost predicate Ascending(entries: seq<StackEntry>) {
    forall i, j :: 0 <= i < j < |entries| ==> entries[i].id < entries[j].id
  }

  class TheStack {
    var entries: seq<StackEntry>
    var nextId: nat

    ghost predicate Valid()
      reads this
    {
      Ascending(entries) && forall i :: 0 <= i < |entries| ==> entries[i].id < nextId
    }

    constructor ()
      ensures Valid() && entries == [] && nextId == 1
    {
      entries, nextId := [], 1;
    }

    /** The entry gets the next id. */
    method Push(entry: StackEntry) returns (id: nat)
      requires Valid()
      modifies this
      ensures Valid() && nextId == old(nextId) + 1
      ensures id == old(nextId) && entries == old(entries) + [entry.(id := id)]
    {
      id := nextId;
      entries, nextId := entries + [entry.(id := id)], nextId + 1;
    }

    /** Takes the last entry, which is the one with the greatest id. */
    method ResolveTop() returns (top: Option<StackEntry>)
      requires Valid()
      modifies this
      ensures Valid() && nextId == old(nextId)
      ensures top.None? <==> old(entries) == []
      ensures top.None? ==> entries == []
      ensures top.Some? ==> old(entries) == entries + [top.value]
      ensures top.Some? ==> forall e :: e in entries ==> e.id < top.value.id
    {
      if entries == [] {
        return None;
      }
      var last := entries[|entries| - 1];
      entries := entries[..|entries| - 1];
      return Some(last);
    }

    /** Takes the entry with an id, wherever it is. */
    method Remove(id: nat) returns (removed: Option<StackEntry>)
      requires Valid()
      modifies this
      ensures Valid() && nextId == old(nextId)
      ensures removed.None? ==> entries == old(entries) && forall e :: e in entries ==> e.id != id
      ensures removed.Some? ==> removed.value.id == id && exists i ::
                && 0 <= i < |old(entries)| && old(entries)[i] == removed.value
                && entries == Without(old(entries), i)
    {
      for i := 0 to |entries|
        invariant entries == old(entries) && nextId == old(nextId)
        invariant forall k :: 0 <= k < i ==> entries[k].id != id
      {
        if entries[i].id == id {
          var entry := entries[i];
          entries := Without(entries, i);
          return Some(entry);
        }
      }
      return None;
    }
  }
}
