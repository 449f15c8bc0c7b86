/** Field edits over whole note types: field rows take their submitted places and every note's array
    of values is rewritten to match (internal/db/notetypes.go, internal/db/notes.sql.go). */
module FieldRemap {
  import opened Wrappers
  import opened Sorting
  import opened EditPlan
  import Rows

  // One slot of a note's JSON array; reading past the end of an array yields null.
  datatype Value = Text(text: string) | Null

  datatype Note = Note(noteType: int, values: seq<Value>, checksum: int)

  type Notes = map<int, Note>

  datatype RemapError = NullFields

  function SlotAt(values: seq<Value>, ordinal: int): Value {
    if 0 <= ordinal < |values| then values[ordinal] else Null
  }

  // Position i takes its value from the old position old[i], the empty string where that is negative.
  function Remapped(values: seq<Value>, oldOrdinals: seq<int>): (r: seq<Value>)
    ensures |r| == |oldOrdinals|
  {
    seq(|oldOrdinals|, i requires 0 <= i < |oldOrdinals| => if oldOrdinals[i] < 0 then Text("") else SlotAt(values, oldOrdinals[i]))
  }

  /** Leaving out the remap on an identity plan is right exactly for notes with one slot per field. */
  lemma SkipIsRemap(values: seq<Value>, oldOrdinals: seq<int>)
    requires forall i :: 0 <= i < |oldOrdinals| ==> oldOrdinals[i] == i
    ensures Remapped(values, oldOrdinals) == values <==> |values| == |oldOrdinals|
  {
    if |values| == |oldOrdinals| {
      forall i | 0 <= i < |oldOrdinals| ensures Remapped(values, oldOrdinals)[i] == values[i] {
      }
    }
  }

  // The first field as the checksum reads it: a JSON null decodes to the empty string.
  function FirstField(values: seq<Value>): string
    requires values != []
  {
    if values[0].Text? then values[0].text else ""
  }

  /** The stored checksum is the hash of the first field. */
  ghost predicate ChecksumHolds(note: Note, hash: string -> int) {
    note.values == [] || note.checksum == hash(match note.values[0] case Text(text) => text case Null => "")
  }

  // What an edit makes of one note of the type.
  function Edited(note: Note, plan: Plan, identity: bool, hash: string -> int): Note {
    var values := if identity then note.values else Remapped(note.values, plan.keptOldOrdinal);
    var rehash := plan.keptOldOrdinal != [] && plan.keptOldOrdinal[0] != 0 && values != [];
    Note(note.noteType, values, if rehash then hash(FirstField(values)) else note.checksum)
  }

  ghost predicate Identity(plan: Plan) {
    plan.removed == [] && forall i :: 0 <= i < |plan.keptOldOrdinal| ==> plan.keptOldOrdinal[i] == i
  }

  /** The checksum stays the hash of the first field, though it is recomputed only when another field
      has come first. */
  lemma ChecksumSurvives(note: Note, plan: Plan, hash: string -> int)
    requires ChecksumHolds(note, hash) && note.values != []
    ensures ChecksumHolds(Edited(note, plan, Identity(plan), hash), hash)
  {
  }

  /** One slot per field, each kept field's value where its field now stands, each new field empty. */
  ghost predicate ValuesFollow(before: seq<Value>, after: seq<Value>, order: Order, final: Order, size: nat) {
    && |after| == size
    && (forall f :: f in final && f in order ==> SlotAt(after, final[f]) == SlotAt(before, order[f]))
    && (forall f :: f in final && f !in order ==> SlotAt(after, final[f]) == Text(""))
  }

  // The resulting order names the submitted entries back.
  lemma EntriesNamed(existing: seq<Slot>, submitted: seq<Entry>, order: Order, final: Order, f: int)
    requires Lists(existing, order) && Acceptable(existing, submitted) && Submitted(final, submitted, order)
    requires f in final
    ensures submitted[final[f]] == if f in order then Some(f) else None
  {
    var j := final[f];
    if submitted[j].Some? {
      var id: int := submitted[j].value;
      assert final[id] == j;
      assert id in Ids(existing) && id in order;
    } else {
      var t :| t in final && t !in order && final[t] == j;
    }
  }

  /** A remapped note, whatever its array held before; a note left alone by an identity plan, when it
      had one slot per field. */
  lemma RemapFollows(note: Note, plan: Plan, existing: seq<Slot>, submitted: seq<Entry>, order: Order, final: Order, hash: string -> int)
    requires Lists(existing, order) && Acceptable(existing, submitted) && Splits(plan, existing, submitted)
    requires Submitted(final, submitted, order)
    requires Identity(plan) ==> |note.values| == |existing|
    ensures ValuesFollow(note.values, Edited(note, plan, Identity(plan), hash).values, order, final, |submitted|)
  {
    if Identity(plan) {
      SameSize(plan, existing, submitted);
      SkipIsRemap(note.values, plan.keptOldOrdinal);
    }
    var after := Edited(note, plan, Identity(plan), hash).values;
    assert after == Remapped(note.values, plan.keptOldOrdinal);
    forall f | f in final ensures SlotAt(after, final[f]) == if f in order then SlotAt(note.values, order[f]) else Text("") {
      EntriesNamed(existing, submitted, order, final, f);
      if f in order { assert Slot(f, plan.keptOldOrdinal[final[f]]) in existing; }
    }
  }

  lemma {:induction false} DistinctSize<T>(s: seq<T>)
    requires Distinct(s)
    ensures |set x | x in s| == |s|
  {
    if s != [] {
      var init, last := s[..|s| - 1], s[|s| - 1];
      DistinctSize(init);
      assert (set x | x in s) == (set x | x in init) + {last};
    }
  }

  function Entries(existing: seq<Slot>): seq<Entry> {
    seq(|existing|, i requires 0 <= i < |existing| => Some(existing[i].id))
  }

  // An identity plan keeps every field, so the submission is as long as the stored list.
  lemma SameSize(plan: Plan, existing: seq<Slot>, submitted: seq<Entry>)
    requires DistinctIds(existing) && Splits(plan, existing, submitted) && Acceptable(existing, submitted) && Identity(plan)
    ensures |submitted| == |existing|
  {
    var stored := Entries(existing);
    forall i | 0 <= i < |submitted| ensures submitted[i] in stored {
      assert plan.keptOldOrdinal[i] == i && submitted[i].Some?;
      var k :| 0 <= k < |existing| && existing[k] == Slot(submitted[i].value, i);
      assert stored[k] == submitted[i];
    }
    forall i | 0 <= i < |stored| ensures stored[i] in submitted {
      assert existing[i].id in Ids(existing) && existing[i].id !in plan.removed;
    }
    assert (set x | x in stored) == (set x | x in submitted);
    DistinctSize(stored);
    DistinctSize(submitted);
  }

  // ---- The edit on the tables ----

  ghost predicate Used(notes: Notes, noteType: int) { exists n :: n in notes && notes[n].noteType == noteType }

  function EditedNotes(notes: Notes, noteType: int, plan: Plan, identity: bool, hash: string -> int): Notes {
    map n | n in notes :: if notes[n].noteType == noteType then Edited(notes[n], plan, identity, hash) else notes[n]
  }

  function RemappedNotes(notes: Notes, noteType: int, oldOrdinals: seq<int>): Notes {
    map n | n in notes ::
      if notes[n].noteType == noteType then notes[n].(values := Remapped(notes[n].values, oldOrdinals)) else notes[n]
  }

  function Rehashed(notes: Notes, checksums: map<int, int>): Notes {
    map n | n in notes :: if n in checksums then notes[n].(checksum := checksums[n]) else notes[n]
  }

  function WithChecksums(notes: Notes, noteType: int, hash: string -> int): Notes {
    map n | n in notes ::
      if notes[n].noteType == noteType && notes[n].values != []
      then notes[n].(checksum := hash(FirstField(notes[n].values))) else notes[n]
  }

  lemma BulkUpdate(notes: Notes, noteType: int, hash: string -> int, checksums: map<int, int>)
    requires forall n :: n in checksums <==> n in notes && notes[n].noteType == noteType && notes[n].values != []
    requires forall n :: n in checksums ==> checksums[n] == hash(FirstField(notes[n].values))
    ensures Rehashed(notes, checksums) == WithChecksums(notes, noteType, hash)
  {
    var a, b := Rehashed(notes, checksums), WithChecksums(notes, noteType, hash);
    assert a.Keys == notes.Keys && b.Keys == notes.Keys;
    forall n | n in notes ensures a[n] == b[n] {
    }
  }

  lemma FinalFields(t0: Table, t1: Table, next0: int, next1: int, noteType: int, existing: seq<Slot>, submitted: seq<Entry>, plan: Plan, ids: seq<int>)
    requires Lists(existing, OrderOf(t0, noteType)) && Splits(plan, existing, submitted) && Acceptable(existing, submitted)
    requires |ids| == |submitted|
    requires Applied(t0 - SetOf(plan.removed), t1, next0, next1, noteType, submitted, plan.keptOldOrdinal, ids)
    requires forall t :: t in t0 ==> t < next0
    ensures Submitted(OrderOf(t1, noteType), submitted, OrderOf(t0, noteType))
  {
    var order, final := OrderOf(t0, noteType), OrderOf(t1, noteType);
    forall t | t in final ensures 0 <= final[t] < |submitted| && ids[final[t]] == t {
      if t in t0 {
        assert Slot(t, order[t]) in existing && t in Ids(existing) && t !in plan.removed;
        var j :| 0 <= j < |submitted| && submitted[j] == Some(t);
        assert ids[j] == t;
      }
    }
    forall j | 0 <= j < |submitted| && submitted[j].None? ensures exists t :: t in final && t !in order && final[t] == j {
      assert ids[j] in final && final[ids[j]] == j;
    }
    forall j | 0 <= j < |submitted| && submitted[j].Some? ensures submitted[j].value in final && final[submitted[j].value] == j {
      assert ids[j] in final;
    }
  }

  lemma FieldsKept(t0: Table, noteType: int, existing: seq<Slot>, submitted: seq<Entry>, plan: Plan, i: nat)
    requires Lists(existing, OrderOf(t0, noteType)) && Splits(plan, existing, submitted) && i < |submitted|
    requires Acceptable(existing, submitted) && submitted[i].Some?
    ensures submitted[i].value in t0 - SetOf(plan.removed)
  {
    EntryOf(t0, noteType, existing, submitted, plan, i);
    var id: int := submitted[i].value;
    assert Some(id) in submitted;
  }

  class FieldTables {
    var fields: Table
    var notes: Notes
    var nextField: int

    // NULL where the array is NOT NULL: aggregating over no positions fails on the first row.
    method RemapNoteFields(noteType: int, oldOrdinals: seq<int>) returns (r: Result<(), RemapError>)
      modifies this`notes
      ensures r.Err? <==> oldOrdinals == [] && Used(old(notes), noteType)
      ensures notes == if r.Ok? then RemappedNotes(old(notes), noteType, oldOrdinals) else old(notes)
    {
      var used := exists n :: n in notes && notes[n].noteType == noteType;
      if oldOrdinals == [] && used { return Err(NullFields); }
      notes := RemappedNotes(notes, noteType, oldOrdinals);
      r := Ok(());
    }

    // One SELECT, one loop, one bulk UPDATE; a note without fields is passed over.
    method RecomputeChecksums(noteType: int, hash: string -> int)
      modifies this`notes
      ensures notes == WithChecksums(old(notes), noteType, hash)
    {
      var rows := set n | n in notes && notes[n].noteType == noteType;
      var todo := rows;
      var checksums: map<int, int> := map[];
      while todo != {}
        invariant notes == old(notes) && todo <= rows
        invariant forall n :: n in checksums <==> n in rows && n !in todo && notes[n].values != []
        invariant forall n :: n in checksums ==> n in notes && notes[n].values != [] && checksums[n] == hash(FirstField(notes[n].values))
      {
        var n := Rows.Pick(todo);
        todo := todo - {n};
        if notes[n].values != [] { checksums := checksums[n := hash(FirstField(notes[n].values))]; }
      }
      forall n ensures n in checksums <==> n in notes && notes[n].noteType == noteType && notes[n].values != [] {
        assert n in rows <==> n in notes && notes[n].noteType == noteType;
      }
      BulkUpdate(notes, noteType, hash, checksums);
      notes := Rehashed(notes, checksums);
    }

    method RewriteFields(noteType: int, existing: seq<Slot>, submitted: seq<Entry>, plan: Plan)
      requires Lists(existing, OrderOf(fields, noteType))
      requires Acceptable(existing, submitted) && Splits(plan, existing, submitted)
      requires forall f :: f in fields ==> f < nextField
      modifies this`fields, this`nextField
      ensures Submitted(OrderOf(fields, noteType), submitted, OrderOf(old(fields), noteType))
      ensures OthersKept(old(fields), fields, noteType)
    {
      ghost var t0, next0 := fields, nextField;
      for i := 0 to |plan.removed|
        invariant fields == t0 - SetOf(plan.removed[..i]) && nextField == next0
      {
        assert plan.removed[..i + 1] == plan.removed[..i] + [plan.removed[i]];
        assert SetOf(plan.removed[..i + 1]) == SetOf(plan.removed[..i]) + {plan.removed[i]};
        fields := fields - {plan.removed[i]};
      }
      assert plan.removed[..|plan.removed|] == plan.removed;
      ghost var kept := fields;
      ghost var ids: seq<int> := [];
      NothingApplied(kept, next0, noteType, existing, submitted, plan);
      for i := 0 to |submitted|
        invariant |ids| == i && next0 <= nextField && |plan.keptOldOrdinal| == |submitted|
        invariant Applied(kept, fields, next0, nextField, noteType, submitted, plan.keptOldOrdinal, ids)
      {
        hide *;
        EntryOf(t0, noteType, existing, submitted, plan, i);
        ghost var id' := if submitted[i].Some? then submitted[i].value else nextField;
        if submitted[i].Some? { FieldsKept(t0, noteType, existing, submitted, plan, i); }
        AppliedEntry(kept, fields, next0, nextField, noteType, submitted, plan.keptOldOrdinal, ids, id');
        if plan.keptOldOrdinal[i] >= 0 {
          fields := fields[submitted[i].value := Stored(noteType, i)];
        } else {
          fields := fields[nextField := Stored(noteType, i)];
          nextField := nextField + 1;
        }
        ids := ids + [id'];
      }
      AppliedKeepsOthers(t0, fields, next0, nextField, noteType, existing, submitted, plan, ids);
      FinalFields(t0, fields, next0, nextField, noteType, existing, submitted, plan, ids);
    }

    /** The field side of an edit. It fails only when every field is removed while notes still use the
        type; otherwise the field rows take their submitted places and each note of the type is
        rewritten as Edited says, notes of other types staying as they are. */
    method ApplyFieldPlan(noteType: int, existing: seq<Slot>, submitted: seq<Entry>, plan: Plan, hash: string -> int)
        returns (r: Result<(), RemapError>)
      requires Lists(existing, OrderOf(fields, noteType))
      requires Acceptable(existing, submitted) && Splits(plan, existing, submitted)
      requires forall f :: f in fields ==> f < nextField
      modifies this
      ensures r.Err? <==> submitted == [] && existing != [] && Used(old(notes), noteType)
      ensures r.Ok? ==> Submitted(OrderOf(fields, noteType), submitted, OrderOf(old(fields), noteType))
      ensures r.Ok? ==> OthersKept(old(fields), fields, noteType)
      ensures r.Ok? ==> notes == EditedNotes(old(notes), noteType, plan, Identity(plan), hash)
    {
      hide Lists, Acceptable, Splits, Submitted, OrderOf, Remapped, OthersKept;
      RewriteFields(noteType, existing, submitted, plan);
      var identity := PlanIsIdentity(plan);
      EmptyIdentity(plan, existing, submitted);
      if !identity {
        r := RemapNoteFields(noteType, plan.keptOldOrdinal);
        if r.Err? { return; }
      }
      ghost var remapped := notes;
      if |submitted| > 0 && plan.keptOldOrdinal[0] != 0 { RecomputeChecksums(noteType, hash); }
      forall n | n in notes ensures notes[n] == EditedNotes(old(notes), noteType, plan, identity, hash)[n] {
        if old(notes)[n].noteType == noteType {
          assert remapped[n].values == if identity then old(notes)[n].values else Remapped(old(notes)[n].values, plan.keptOldOrdinal);
        }
      }
      r := Ok(());
    }
  }

  lemma EmptyIdentity(plan: Plan, existing: seq<Slot>, submitted: seq<Entry>)
    requires Splits(plan, existing, submitted)
    ensures submitted == [] ==> (Identity(plan) <==> existing == [])
    ensures |plan.keptOldOrdinal| == |submitted|
  {
    if submitted == [] {
      if existing == [] {
        assert forall id :: id !in plan.removed;
        HasElement(plan.removed);
      }
      if existing != [] { assert existing[0].id in Ids(existing) && existing[0].id in plan.removed; }
    }
  }
}
