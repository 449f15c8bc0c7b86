/** How a note-type edit is read: which stored fields or templates a submission keeps, moves,
    removes and adds (internal/db/notetypes.go). */
module EditPlan {
  import opened Wrappers
  import opened Sorting

  // A stored field or template; a submitted entry names one of them, or is new.
  datatype Slot = Slot(id: int, ordinal: int)

  type Entry = Option<int>

  datatype Plan = Plan(keptOldOrdinal: seq<int>, removed: seq<int>)

  datatype EditError = NotFound

  ghost predicate DistinctIds(existing: seq<Slot>) {
    forall i, j :: 0 <= i < j < |existing| ==> existing[i].id != existing[j].id
  }

  // The stored ids, and the submitted ids of kept entries in submitted order.
  function Ids(existing: seq<Slot>): (ids: set<int>) {
    set slot | slot in existing :: slot.id
  }

  /** A submission is accepted when it names stored entries only, none of them twice. */
  ghost predicate Acceptable(existing: seq<Slot>, submitted: seq<Entry>) {
    && (forall i :: 0 <= i < |submitted| && submitted[i].Some? ==> submitted[i].value in Ids(existing))
    && (forall i, j :: 0 <= i < j < |submitted| && submitted[i].Some? ==> submitted[i] != submitted[j])
  }

  /** The plan splits the stored entries exactly into kept and removed, each in one place. */
  ghost predicate Splits(plan: Plan, existing: seq<Slot>, submitted: seq<Entry>) {
    && |plan.keptOldOrdinal| == |submitted|
    && (forall i :: 0 <= i < |submitted| ==>
          match submitted[i]
          case None => plan.keptOldOrdinal[i] == -1
          case Some(id) => Slot(id, plan.keptOldOrdinal[i]) in existing)
    && Distinct(plan.removed)
    && (forall id :: id in plan.removed <==> id in Ids(existing) && Some(id) !in submitted)
  }

  // The submitted ids so far, as the seen map holds them.
  ghost predicate Seen(seen: set<int>, submitted: seq<Entry>) {
    forall id :: id in seen <==> Some(id) in submitted
  }

  ghost predicate Indexed(byId: map<int, Slot>, existing: seq<Slot>) {
    && (forall id :: id in byId <==> id in Ids(existing))
    && (forall id :: id in byId ==> byId[id] in existing && byId[id].id == id)
  }

  method Index(existing: seq<Slot>) returns (byId: map<int, Slot>)
    ensures Indexed(byId, existing)
  {
    byId := map[];
    for i := 0 to |existing|
      invariant Indexed(byId, existing[..i])
    {
      assert existing[..i + 1] == existing[..i] + [existing[i]];
      assert existing[i] in existing[..i + 1];
      byId := byId[existing[i].id := existing[i]];
    }
    assert existing[..|existing|] == existing;
  }

  // What the submitted entries so far have settled.
  ghost predicate KeptSoFar(kept: seq<int>, existing: seq<Slot>, submitted: seq<Entry>) {
    && |kept| == |submitted|
    && forall i :: 0 <= i < |submitted| ==>
         match submitted[i]
         case None => kept[i] == -1
         case Some(id) => Slot(id, kept[i]) in existing
  }

  method PlanEdit(existing: seq<Slot>, submitted: seq<Entry>) returns (r: Result<Plan, EditError>)
    requires DistinctIds(existing)
    ensures r.Ok? <==> Acceptable(existing, submitted)
    ensures r.Ok? ==> Splits(r.value, existing, submitted)
  {
    var byId := Index(existing);
    var seen: set<int> := {};
    var kept: seq<int> := [];
    for i := 0 to |submitted|
      invariant Acceptable(existing, submitted[..i]) && Seen(seen, submitted[..i])
      invariant KeptSoFar(kept, existing, submitted[..i])
    {
      var entry := submitted[i];
      assert submitted[..i + 1] == submitted[..i] + [entry];
      if entry.None? {
        kept := kept + [-1];
      } else {
        var id: int := entry.value;
        if id !in byId { return Err(NotFound); }
        if id in seen { return Err(NotFound); }
        kept := kept + [byId[id].ordinal];
        seen := seen + {id};
      }
    }
    assert submitted[..|submitted|] == submitted;
    var removed := [];
    for i := 0 to |existing|
      invariant Distinct(removed)
      invariant forall id :: id in removed <==> id in Ids(existing[..i]) && Some(id) !in submitted
    {
      assert existing[..i + 1] == existing[..i] + [existing[i]];
      if existing[i].id !in seen { removed := removed + [existing[i].id]; }
    }
    assert existing[..|existing|] == existing;
    return Ok(Plan(kept, removed));
  }

  /** A plan that changes no ordinal and no membership. */
  method PlanIsIdentity(plan: Plan) returns (identity: bool)
    ensures identity <==> plan.removed == [] && forall i :: 0 <= i < |plan.keptOldOrdinal| ==> plan.keptOldOrdinal[i] == i
  {
    if |plan.removed| != 0 { return false; }
    for i := 0 to |plan.keptOldOrdinal|
      invariant forall j :: 0 <= j < i ==> plan.keptOldOrdinal[j] == j
    {
      if plan.keptOldOrdinal[i] != i { return false; }
    }
    return true;
  }

  /** Stored entries in order, then new ones only: nothing stored moves or goes. */
  ghost predicate PureAppend(existing: seq<Slot>, submitted: seq<Entry>) {
    && |existing| <= |submitted|
    && (forall i :: 0 <= i < |existing| ==> submitted[i] == Some(existing[i].id))
    && (forall i :: |existing| <= i < |submitted| ==> submitted[i].None?)
  }

  method OrderChanged(existing: seq<Slot>, submitted: seq<Entry>) returns (changed: bool)
    ensures !changed <==> PureAppend(existing, submitted)
  {
    var kept: seq<int> := [];
    var sawNew := false;
    for i := 0 to |submitted|
      invariant |kept| <= i && (sawNew <==> |kept| < i)
      invariant forall j :: 0 <= j < |kept| ==> submitted[j] == Some(kept[j])
      invariant forall j :: |kept| <= j < i ==> submitted[j].None?
    {
      if submitted[i].None? {
        sawNew := true;
      } else {
        if sawNew {
          assert submitted[|kept|].None? && submitted[i].Some?;
          return true;
        }
        kept := kept + [submitted[i].value];
      }
    }
    if |kept| != |existing| {
      assert |existing| < |kept| ==> submitted[|existing|].Some?;
      assert |kept| < |existing| && |kept| < |submitted| ==> submitted[|kept|].None?;
      return true;
    }
    for i := 0 to |existing|
      invariant forall j :: 0 <= j < i ==> kept[j] == existing[j].id
    {
      if kept[i] != existing[i].id { return true; }
    }
    return false;
  }

  /** When the order is reported unchanged, every stored entry stays at its place in the list. */
  lemma PureAppendRemovesNothing(plan: Plan, existing: seq<Slot>, submitted: seq<Entry>)
    requires DistinctIds(existing) && PureAppend(existing, submitted) && Splits(plan, existing, submitted)
    ensures plan.removed == []
    ensures forall i :: 0 <= i < |existing| ==> plan.keptOldOrdinal[i] == existing[i].ordinal
  {
    forall id | id in Ids(existing) ensures Some(id) in submitted {
      var k :| 0 <= k < |existing| && existing[k].id == id;
      assert submitted[k] == Some(id);
    }
    assert forall id :: id !in plan.removed;
    HasElement(plan.removed);
    forall i | 0 <= i < |existing| ensures plan.keptOldOrdinal[i] == existing[i].ordinal {
      assert submitted[i] == Some(existing[i].id);
      var k :| 0 <= k < |existing| && existing[k] == Slot(existing[i].id, plan.keptOldOrdinal[i]);
    }
  }

  function SetOf(ids: seq<int>): set<int> { set t | t in ids }

  // ---- The stored rows while an edit is applied ----

  // A stored field or template row.
  datatype Stored = Stored(noteType: int, ordinal: int)

  type Table = map<int, Stored>

  // Where each field or template of the note type stands.
  type Order = map<int, int>

  ghost predicate Injective(order: Order) {
    forall s, t :: s in order && t in order && s != t ==> order[s] != order[t]
  }

  function OrderOf(templates: Table, noteType: int): Order {
    map t | t in templates && templates[t].noteType == noteType :: templates[t].ordinal
  }

  /** The stored rows of the note type, as listed: each once, at distinct ordinals from zero up. */
  ghost predicate Lists(existing: seq<Slot>, order: Order) {
    && DistinctIds(existing) && Injective(order) && (forall t :: t in order ==> order[t] >= 0)
    && (forall t :: t in order ==> Slot(t, order[t]) in existing)
    && (forall slot :: slot in existing ==> slot.id in order && slot.ordinal == order[slot.id])
  }

  // The table after i submitted entries; ids names each entry's row.
  ghost predicate Applied(t0: Table, t1: Table, next0: int, next1: int, noteType: int, submitted: seq<Entry>, kept: seq<int>, ids: seq<int>) {
    && |ids| <= |submitted| == |kept|
    && (forall j :: 0 <= j < |ids| ==>
          match submitted[j]
          case Some(id) => ids[j] == id && id in t0
          case None => next0 <= ids[j] < next1)
    && (forall i, j :: 0 <= i < j < |ids| ==> ids[i] != ids[j])
    && (forall j :: 0 <= j < |ids| ==> ids[j] in t1 && t1[ids[j]] == Stored(noteType, j))
    && (forall t :: t in t0 ==> t in t1 && (t1[t] == t0[t] || (t in ids && t1[t].noteType == t0[t].noteType)))
    && (forall t :: t in t1 ==> t in t0 || t in ids)
  }

  // One entry more: a stored row put in its new place, or a new row.
  lemma AppliedEntry(t0: Table, t1: Table, next0: int, next1: int, noteType: int, submitted: seq<Entry>, kept: seq<int>, ids: seq<int>, id: int)
    requires |ids| < |submitted| && Applied(t0, t1, next0, next1, noteType, submitted, kept, ids)
    requires next0 <= next1 && forall t :: t in t0 ==> t < next0
    requires if submitted[|ids|].Some? then id == submitted[|ids|].value && id in t0 && t0[id].noteType == noteType else id == next1
    requires forall i, j :: 0 <= i < j < |submitted| && submitted[i].Some? ==> submitted[i] != submitted[j]
    ensures Applied(t0, t1[id := Stored(noteType, |ids|)], next0, if submitted[|ids|].Some? then next1 else next1 + 1,
                    noteType, submitted, kept, ids + [id])
    ensures id !in ids
  {
    var n := |ids|;
    forall j | 0 <= j < n ensures ids[j] != id {
      assert submitted[j].Some? ==> submitted[j] != submitted[n];
      assert submitted[j].Some? ==> ids[j] in t0;
    }
  }

  // A stored ordinal is never negative, which is how the code tells kept entries from new ones.
  lemma EntryOf(t0: Table, noteType: int, existing: seq<Slot>, submitted: seq<Entry>, plan: Plan, i: nat)
    requires Lists(existing, OrderOf(t0, noteType)) && Splits(plan, existing, submitted) && i < |submitted|
    requires Acceptable(existing, submitted)
    ensures |plan.keptOldOrdinal| == |submitted| && (submitted[i].Some? <==> plan.keptOldOrdinal[i] >= 0)
    ensures submitted[i].Some? ==> submitted[i].value in t0 && t0[submitted[i].value].noteType == noteType
    ensures forall j, k :: 0 <= j < k < |submitted| && submitted[j].Some? ==> submitted[j] != submitted[k]
  {
    if submitted[i].Some? {
      var id: int := submitted[i].value;
      assert Slot(id, plan.keptOldOrdinal[i]) in existing;
      assert id in OrderOf(t0, noteType);
    }
  }

  // The order that results is the submitted one.
  ghost predicate Submitted(final: Order, submitted: seq<Entry>, order: Order) {
    && (forall j :: 0 <= j < |submitted| && submitted[j].Some? ==>
          submitted[j].value in final && final[submitted[j].value] == j)
    && (forall j :: 0 <= j < |submitted| && submitted[j].None? ==> exists t :: t in final && t !in order && final[t] == j)
    && (forall t :: t in final ==> 0 <= final[t] < |submitted|) && Injective(final)
  }

  lemma NothingApplied(t0: Table, next0: int, noteType: int, existing: seq<Slot>, submitted: seq<Entry>, plan: Plan)
    requires Splits(plan, existing, submitted)
    ensures |plan.keptOldOrdinal| == |submitted|
    ensures Applied(t0, t0, next0, next0, noteType, submitted, plan.keptOldOrdinal, [])
  {
  }

  /** The rows of other note types are as they were. */
  ghost predicate OthersKept(before: Table, after: Table, noteType: int) {
    && (forall t :: t in before && before[t].noteType != noteType ==> t in after && after[t] == before[t])
    && (forall t :: t in after && after[t].noteType != noteType ==> t in before)
  }

  lemma RemovedAreOfType(t0: Table, noteType: int, existing: seq<Slot>, submitted: seq<Entry>, plan: Plan)
    requires Lists(existing, OrderOf(t0, noteType)) && Splits(plan, existing, submitted)
    ensures forall t :: t in plan.removed ==> t in t0 && t0[t].noteType == noteType
  {
    forall t | t in plan.removed ensures t in OrderOf(t0, noteType) {
      assert t in Ids(existing);
    }
  }

  lemma AppliedKeepsOthers(t0: Table, t1: Table, next0: int, next1: int, noteType: int, existing: seq<Slot>, submitted: seq<Entry>, plan: Plan, ids: seq<int>)
    requires Lists(existing, OrderOf(t0, noteType)) && Splits(plan, existing, submitted)
    requires Applied(t0 - SetOf(plan.removed), t1, next0, next1, noteType, submitted, plan.keptOldOrdinal, ids)
    ensures OthersKept(t0, t1, noteType)
  {
    RemovedAreOfType(t0, noteType, existing, submitted, plan);
    forall t | t in t0 && t0[t].noteType != noteType ensures t in t1 && t1[t] == t0[t] {
    }
  }

  lemma AppliedAllKeepsOthers(t0: Table, t1: Table, next0: int, next1: int, noteType: int, existing: seq<Slot>, submitted: seq<Entry>, plan: Plan, ids: seq<int>)
    requires Lists(existing, OrderOf(t0, noteType)) && Splits(plan, existing, submitted)
    requires Applied(t0, t1, next0, next1, noteType, submitted, plan.keptOldOrdinal, ids)
    requires forall t :: t in t0 ==> t < next0
    ensures OthersKept(t0, t1 - SetOf(plan.removed), noteType)
  {
    RemovedAreOfType(t0, noteType, existing, submitted, plan);
    forall t | t in t0 && t0[t].noteType != noteType ensures t in t1 - SetOf(plan.removed) && t1[t] == t0[t] {
    }
  }
}
