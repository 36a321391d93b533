/** The deltas of a kernel context: what gckCONTEXT_UpdateDelta accumulates over any number of users'
    deltas, and what gckCONTEXT_PreemptUpdate makes of it. */
module ContextDeltas {
  import opened CommandWord
  import opened DeltaReplay
  import opened StateDelta

  /** No array of one delta is an array of the other. */
  ghost predicate Separate(d: StateDelta, e: StateDelta) {
    && d != e && d.recordArray != e.recordArray
    && {d.mapEntryID as object, d.mapEntryIndex} !! {e.mapEntryID as object, e.mapEntryIndex}
  }

  lemma CountBound(d: StateDelta, states: set<nat>)
    requires d.Valid() && d.Contents().Keys <= states
    ensures d.recordCount <= |states| && DistinctRecords(d.Records())
  {
    var records := d.Records();
    MapTellsRecorded(d.id, d.mapEntryID[..], d.mapEntryIndex[..], records, 0);
    DistinctCount(records);
    forall a | a in Addresses(records) ensures a in states {
      var r :| r in records && r.address == a;
      RecordedIsInContents(records, a);
    }
    SubsetCount(Addresses(records), states);
  }

  lemma SubsetCount(few: set<nat>, many: set<nat>)
    requires few <= many
    ensures |few| <= |many|
  {
    assert |many| == |many - few| + |few|;
  }

  /** The part of gckCONTEXT that keeps the deltas. They form a ring; the update never leaves its head
      and the delta next to it. `states` are the states of the context: each has a slot in every
      recordArray. */
  class Context {
    const mirroring: bool
    const deltaHead: StateDelta
    const second: StateDelta
    var delta: StateDelta
    ghost const states: set<nat>
    ghost var first: seq<Record>      // what the first user's delta recorded
    ghost var later: seq<Record>      // what all the others recorded, in order

    /** The two deltas, each with its own arrays; the second is empty between updates. */
    ghost predicate WellFormed()
      reads `delta, deltaHead, deltaHead.recordArray, deltaHead.mapEntryID, deltaHead.mapEntryIndex
      reads second, second.recordArray, second.mapEntryID, second.mapEntryIndex
    {
      && deltaHead.Valid() && second.Valid() && Separate(deltaHead, second)
      && deltaHead.mapEntryID.Length == second.mapEntryID.Length
      && |states| <= deltaHead.recordArray.Length && |states| <= second.recordArray.Length
      && (delta == deltaHead || delta == second)
      && second.Records() == [] && deltaHead.Contents().Keys <= states
    }

    /** What the head holds, in terms of the users' deltas. */
    ghost predicate Accounted()
      requires WellFormed()
      reads this, deltaHead, deltaHead.recordArray, deltaHead.mapEntryID, deltaHead.mapEntryIndex
      reads second, second.recordArray, second.mapEntryID, second.mapEntryIndex
    {
      && (delta == deltaHead ==> deltaHead.Records() == [])
      && (delta == second ==> deltaHead.Records() == MergeEach(mirroring, first, later))
      && DistinctRecords(first)
    }

    ghost predicate Valid()
      reads this, deltaHead, deltaHead.recordArray, deltaHead.mapEntryID, deltaHead.mapEntryIndex
      reads second, second.recordArray, second.mapEntryID, second.mapEntryIndex
    {
      WellFormed() && Accounted()
    }

    /** A user's delta for the states of this context. */
    ghost predicate Fits(user: StateDelta)
      reads user, user.recordArray, user.mapEntryID, user.mapEntryIndex
    {
      && user.Valid() && Separate(user, deltaHead) && Separate(user, second)
      && user.mapEntryID.Length == deltaHead.mapEntryID.Length
      && user.Contents().Keys <= states
      && AllMapped(mirroring, user.Records(), states, deltaHead.mapEntryID.Length)
    }

    /** The end of gckCONTEXT_Construct: fresh deltas with a slot for each state. */
    constructor (mirroring: bool, maxState: nat, numStates: nat, ghost states: set<nat>)
      requires |states| <= numStates
      ensures Valid() && delta == deltaHead && deltaHead.elementCount == 0
      ensures this.mirroring == mirroring && this.states == states && deltaHead.mapEntryID.Length == maxState
    {
      this.mirroring, this.states := mirroring, states;
      var head := new StateDelta(maxState, numStates);
      var next := new StateDelta(maxState, numStates);
      deltaHead, second, delta := head, next, head;
      first, later := [], [];
    }

    /** The branch without a previous delta: the copy stays where it is. */
    method CopyFirst(user: StateDelta)
      requires WellFormed() && Fits(user) && delta == deltaHead
      modifies this`delta
      modifies deltaHead, deltaHead.recordArray, deltaHead.mapEntryID, deltaHead.mapEntryIndex
      modifies second`id, second`elementCount, second`recordCount, second.mapEntryID
      ensures WellFormed() && delta == second && DistinctRecords(user.Records())
      ensures deltaHead.Records() == user.Records() && deltaHead.elementCount == user.elementCount
    {
      CountBound(user, states);
      deltaHead.CopyDelta(user);
      delta := second;
      second.ResetDelta();
    }

    /** The branch with a previous delta: the copy is merged into it. */
    method CopyAndMerge(user: StateDelta)
      requires WellFormed() && Fits(user) && delta == second
      modifies deltaHead`elementCount, deltaHead`recordCount
      modifies deltaHead.recordArray, deltaHead.mapEntryID, deltaHead.mapEntryIndex
      modifies second, second.recordArray, second.mapEntryID, second.mapEntryIndex
      ensures WellFormed()
      ensures deltaHead.Records() == MergeEach(mirroring, old(deltaHead.Records()), user.Records())
      ensures deltaHead.elementCount ==
        if user.elementCount != 0 then user.elementCount else old(deltaHead.elementCount)
    {
      CountBound(user, states);
      second.CopyDelta(user);
      MergeAndReset(mirroring, states, deltaHead, second);
    }

    /** The first update of a context. */
    method UpdateFirst(user: StateDelta)
      requires Valid() && Fits(user) && delta == deltaHead
      modifies this`delta, this`first, this`later
      modifies deltaHead, deltaHead.recordArray, deltaHead.mapEntryID, deltaHead.mapEntryIndex
      modifies second`id, second`elementCount, second`recordCount, second.mapEntryID
      ensures Valid() && delta == second && first == user.Records() && later == []
      ensures deltaHead.Records() == user.Records() && deltaHead.elementCount == user.elementCount
    {
      ghost var records := user.Records();
      CopyFirst(user);
      first, later := records, [];
    }

    /** Every later one. */
    method UpdateLater(user: StateDelta)
      requires Valid() && Fits(user) && delta == second
      modifies this`later, deltaHead`elementCount, deltaHead`recordCount
      modifies deltaHead.recordArray, deltaHead.mapEntryID, deltaHead.mapEntryIndex
      modifies second, second.recordArray, second.mapEntryID, second.mapEntryIndex
      ensures Valid() && later == old(later) + user.Records()
      ensures deltaHead.Records() == MergeEach(mirroring, old(deltaHead.Records()), user.Records())
      ensures deltaHead.elementCount ==
        if user.elementCount != 0 then user.elementCount else old(deltaHead.elementCount)
    {
      ghost var records := user.Records();
      MergeEachConcat(mirroring, first, later, records);
      CopyAndMerge(user);
      later := later + records;
    }

    /** gckCONTEXT_UpdateDelta. */
    method UpdateDelta(user: StateDelta)
      requires Valid() && Fits(user)
      modifies this`delta, this`first, this`later
      modifies deltaHead, deltaHead.recordArray, deltaHead.mapEntryID, deltaHead.mapEntryIndex
      modifies second, second.recordArray, second.mapEntryID, second.mapEntryIndex
      ensures Valid() && delta == second
      ensures old(delta) == deltaHead ==>
        && first == user.Records() && later == []
        && deltaHead.Records() == user.Records() && deltaHead.elementCount == user.elementCount
      ensures old(delta) == second ==>
        && first == old(first) && later == old(later) + user.Records()
        && deltaHead.Records() == MergeEach(mirroring, old(deltaHead.Records()), user.Records())
        && deltaHead.elementCount == if user.elementCount != 0 then user.elementCount else old(deltaHead.elementCount)
    {
      if delta == deltaHead {
        UpdateFirst(user);
      } else {
        UpdateLater(user);
      }
    }
  }

  // ----- What the head means -----

  /** Replaying the records merged from two lists, against replaying the lists one after the other. */
  lemma MergedRecordsReplay(mirroring: bool, first: seq<Record>, later: seq<Record>)
    requires DistinctRecords(first) && AllCanonical(mirroring, ContentsOf(first))
    ensures (forall slots: Registers :: ReplaysInTurn(mirroring, first, later, slots))
       <==> (forall a: nat :: !Forgets(ContentsOf(first), AsLog(mirroring, later), a))
  {
    var merged, log := MergeEach(mirroring, first, later), AsLog(mirroring, later);
    MergeEachContents(mirroring, first, later);
    UpdateStaysCanonical(mirroring, ContentsOf(first), later);
    MergingIsExact(ContentsOf(first), log);
    forall slots: Registers
      ensures ReplayRecords(mirroring, merged, slots) == Replay(MergeLog(ContentsOf(first), log), slots)
      ensures ReplayRecords(mirroring, first, slots) == Replay(ContentsOf(first), slots)
      ensures ReplaysInTurn(mirroring, first, later, slots) <==>
        Replay(MergeLog(ContentsOf(first), log), slots) == WriteAll(Replay(ContentsOf(first), slots), log)
    {
      CanonicalRecordsReplay(mirroring, merged, slots);
      CanonicalRecordsReplay(mirroring, first, slots);
    }
  }

  /** After any number of updates: replaying the head restores what replaying every user's delta in
      turn would, whatever the context buffer holds, exactly when no state is forgotten on the way. */
  lemma HeadReplaysAll(c: Context)
    requires c.Valid() && c.delta == c.second && AllCanonical(c.mirroring, ContentsOf(c.first))
    ensures (forall slots: Registers :: ReplayRecords(c.mirroring, c.deltaHead.Records(), slots)
                                     == ReplayRecords(c.mirroring, c.later, ReplayRecords(c.mirroring, c.first, slots)))
       <==> (forall a: nat :: !Forgets(ContentsOf(c.first), AsLog(c.mirroring, c.later), a))
  {
    MergedRecordsReplay(c.mirroring, c.first, c.later);
    forall slots: Registers
      ensures ReplaysInTurn(c.mirroring, c.first, c.later, slots) <==>
        ReplayRecords(c.mirroring, c.deltaHead.Records(), slots)
          == ReplayRecords(c.mirroring, c.later, ReplayRecords(c.mirroring, c.first, slots))
    {
    }
  }
}
