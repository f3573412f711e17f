/** The contact editor of the client: the draft a dialog edits, the edits
    its method rows allow, and the clean-up that turns a draft into the
    request the server receives. Every edit builds a new draft, as the
    spread copies of the component state do. */
module Editor {
  import opened Text
  import opened Domain

  /** A method row of the dialog; the label is always text here, the empty
      text standing for "no label". */
  datatype DraftMethod = DraftMethod(kind: MethodType, value: string, note: string)

  datatype Draft = Draft(name: string, isBookmarked: bool, methods: seq<DraftMethod>)

  /** The row the dialog seeds: an empty phone. */
  const BlankRow := DraftMethod(Phone, "", "")

  /** The draft of the create dialog. */
  const EmptyDraft := Draft("", false, [BlankRow])

  /** What the dialog shows for a stored method. */
  function DraftOf(m: MethodInput): DraftMethod {
    DraftMethod(m.kind, m.value, if m.note.Some? then m.note.value else "")
  }

  /** The rows shown for a list of stored methods. */
  function DraftsOf(ms: seq<MethodInput>): (ds: seq<DraftMethod>)
    ensures |ds| == |ms|
  {
    seq(|ms|, i requires 0 <= i < |ms| => DraftOf(ms[i]))
  }

  /** The draft of the edit dialog for contact `c`: its name, its flag and
      its methods, or one blank row when it has none. */
  function OpenEdit(c: Contact): (d: Draft)
    ensures d.name == c.name && d.isBookmarked == c.isBookmarked
    ensures c.methods == [] ==> d.methods == [BlankRow]
    ensures c.methods != [] ==> |d.methods| == |c.methods|
    ensures c.methods != [] ==> forall i :: 0 <= i < |c.methods| ==>
      d.methods[i].kind == c.methods[i].kind && d.methods[i].value == c.methods[i].value
    ensures c.methods != [] ==> forall i :: 0 <= i < |c.methods| ==>
      (c.methods[i].note.None? ==> d.methods[i].note == "")
    ensures c.methods != [] ==> forall i :: 0 <= i < |c.methods| ==>
      (c.methods[i].note.Some? ==> d.methods[i].note == c.methods[i].note.value)
    ensures d.methods != []
  {
    Draft(c.name, c.isBookmarked,
      if c.methods == [] then [BlankRow]
      else DraftsOf(c.methods))
  }

  /** The fields an edit of one row supplies; the absent ones keep their
      value. */
  datatype Patch = Patch(kind: Option<MethodType>, value: Option<string>, note: Option<string>)

  const NoChange := Patch(None, None, None)

  function Field<T>(current: T, given: Option<T>): T {
    if given.Some? then given.value else current
  }

  /** `{ ...m, ...p }`: the supplied fields of `p` over those of `m`. */
  function Merge(m: DraftMethod, p: Patch): (r: DraftMethod) {
    DraftMethod(Field(m.kind, p.kind), Field(m.value, p.value), Field(m.note, p.note))
  }

  /** Two patches applied one after the other: a field the later one
      supplies wins. */
  function Then(p: Patch, q: Patch): Patch {
    Patch(if q.kind.Some? then q.kind else p.kind,
          if q.value.Some? then q.value else p.value,
          if q.note.Some? then q.note else p.note)
  }

  /** An empty patch changes nothing. */
  lemma MergeNoChange(m: DraftMethod)
    ensures Merge(m, NoChange) == m
  {
  }

  /** Spreading two patches in turn is spreading their combination. */
  lemma MergeThen(m: DraftMethod, p: Patch, q: Patch)
    ensures Merge(Merge(m, p), q) == Merge(m, Then(p, q))
  {
  }

  /** Applying the same patch twice is applying it once. */
  lemma MergeIdempotent(m: DraftMethod, p: Patch)
    ensures Merge(Merge(m, p), p) == Merge(m, p)
  {
    MergeThen(m, p, p);
    assert Then(p, p) == p;
  }

  /** `updateMethod(idx, patch)`: row `idx` takes the fields of `patch`,
      every other row, the name and the flag stay as they are. */
  function UpdateMethod(d: Draft, idx: nat, patch: Patch): (r: Draft)
    requires idx < |d.methods|
    ensures r.name == d.name && r.isBookmarked == d.isBookmarked
    ensures |r.methods| == |d.methods|
    ensures forall i :: 0 <= i < |d.methods| && i != idx ==> r.methods[i] == d.methods[i]
    ensures r.methods[idx] == Merge(d.methods[idx], patch)
  {
    d.(methods := d.methods[idx := Merge(d.methods[idx], patch)])
  }

  /** Leaving every field of a row as it is changes nothing. */
  lemma UpdateNoChange(d: Draft, idx: nat)
    requires idx < |d.methods|
    ensures UpdateMethod(d, idx, NoChange) == d
  {
    MergeNoChange(d.methods[idx]);
  }

  /** Two edits of the same row in turn are one edit with their combined
      fields. */
  lemma UpdateTwice(d: Draft, idx: nat, p: Patch, q: Patch)
    requires idx < |d.methods|
    ensures UpdateMethod(UpdateMethod(d, idx, p), idx, q) == UpdateMethod(d, idx, Then(p, q))
  {
    MergeThen(d.methods[idx], p, q);
  }

  /** Repeating an edit of a row is making it once. */
  lemma UpdateRepeated(d: Draft, idx: nat, p: Patch)
    requires idx < |d.methods|
    ensures UpdateMethod(UpdateMethod(d, idx, p), idx, p) == UpdateMethod(d, idx, p)
  {
    MergeIdempotent(d.methods[idx], p);
  }

  /** Edits of two different rows do not interfere: either order gives the
      same draft. */
  lemma UpdatesCommute(d: Draft, i: nat, j: nat, p: Patch, q: Patch)
    requires i < |d.methods| && j < |d.methods| && i != j
    ensures UpdateMethod(UpdateMethod(d, i, p), j, q) == UpdateMethod(UpdateMethod(d, j, q), i, p)
  {
  }

  /** `addMethodRow()`: exactly one blank phone row more, at the end. */
  function AddMethodRow(d: Draft): (r: Draft)
    ensures r.name == d.name && r.isBookmarked == d.isBookmarked
    ensures r.methods == d.methods + [BlankRow]
    ensures |r.methods| == |d.methods| + 1
  {
    d.(methods := d.methods + [BlankRow])
  }

  /** `methods.filter((_, i) => i !== idx)`. */
  function Without(ms: seq<DraftMethod>, idx: int): (r: seq<DraftMethod>)
    ensures |r| <= |ms|
  {
    if ms == [] then []
    else Without(ms[..|ms| - 1], idx) + (if |ms| - 1 == idx then [] else [ms[|ms| - 1]])
  }

  /** The filter drops exactly the row at `idx`, and nothing when `idx` is
      not a position of the list. */
  lemma {:induction false} WithoutDropsOne(ms: seq<DraftMethod>, idx: int)
    ensures 0 <= idx < |ms| ==> Without(ms, idx) == ms[..idx] + ms[idx + 1..]
    ensures !(0 <= idx < |ms|) ==> Without(ms, idx) == ms
  {
    if ms != [] {
      var init := ms[..|ms| - 1];
      WithoutDropsOne(init, idx);
      if idx == |ms| - 1 {
        assert ms[..idx] == init;
        assert ms[idx + 1..] == [];
      } else if 0 <= idx < |ms| - 1 {
        assert init[..idx] == ms[..idx];
        assert init[idx + 1..] + [ms[|ms| - 1]] == ms[idx + 1..];
      } else {
        assert init + [ms[|ms| - 1]] == ms;
      }
    }
  }

  /** `removeMethodRow(idx)`: the row at `idx` goes; a list left empty is
      seeded again with one blank phone row. */
  function RemoveMethodRow(d: Draft, idx: int): (r: Draft)
    ensures r.name == d.name && r.isBookmarked == d.isBookmarked
    ensures r.methods != []
    ensures 0 <= idx < |d.methods| && |d.methods| > 1 ==>
      r.methods == d.methods[..idx] + d.methods[idx + 1..]
    ensures 0 <= idx < |d.methods| && |d.methods| == 1 ==> r.methods == [BlankRow]
    ensures !(0 <= idx < |d.methods|) && d.methods != [] ==> r.methods == d.methods
    ensures d.methods == [] ==> r.methods == [BlankRow]
  {
    WithoutDropsOne(d.methods, idx);
    var next := Without(d.methods, idx);
    d.(methods := if |next| > 0 then next else [BlankRow])
  }

  /** Removing the row just added gives the draft back. */
  lemma RemoveUndoesAdd(d: Draft)
    requires d.methods != []
    ensures RemoveMethodRow(AddMethodRow(d), |d.methods|) == d
  {
    var ms := AddMethodRow(d).methods;
    assert ms[..|d.methods|] == d.methods;
  }

  /** One edit of the method rows, as the dialog's buttons and fields
      issue them. */
  datatype Edit = Change(row: nat, patch: Patch) | Add | Remove(idx: int)

  /** An edit the dialog can issue: a field change names an existing row. */
  predicate Applicable(d: Draft, e: Edit) {
    e.Change? ==> e.row < |d.methods|
  }

  function ApplyEdit(d: Draft, e: Edit): Draft
    requires Applicable(d, e)
  {
    match e
    case Change(idx, patch) => UpdateMethod(d, idx, patch)
    case Add => AddMethodRow(d)
    case Remove(idx) => RemoveMethodRow(d, idx)
  }

  /** The draft after a run of edits, or None when one of them names a row
      the draft does not have. */
  function ApplyEdits(d: Draft, es: seq<Edit>): Option<Draft>
    decreases |es|
  {
    if es == [] then Some(d)
    else if Applicable(d, es[0]) then ApplyEdits(ApplyEdit(d, es[0]), es[1..])
    else None
  }

  /** Every draft the dialog reaches from a non-empty list of rows still has
      at least one row, and keeps its name and flag. */
  lemma {:induction false} EditsKeepRows(d: Draft, es: seq<Edit>)
    requires d.methods != []
    ensures ApplyEdits(d, es).Some? ==> ApplyEdits(d, es).value.methods != []
    ensures ApplyEdits(d, es).Some? ==>
      ApplyEdits(d, es).value.name == d.name && ApplyEdits(d, es).value.isBookmarked == d.isBookmarked
    decreases |es|
  {
    if es != [] && Applicable(d, es[0]) {
      EditsKeepRows(ApplyEdit(d, es[0]), es[1..]);
    }
  }

  /** Both dialogs start with at least one row. */
  lemma DialogsStartWithRows(c: Contact)
    ensures EmptyDraft.methods != [] && OpenEdit(c).methods != []
  {
  }

  /** A method as the save sends it: a value that is non-empty and trimmed,
      and a label that is absent or non-empty and trimmed. */
  predicate IsClean(m: MethodInput) {
    m.value != [] && IsTrimmed(m.value)
    && (m.note.Some? ==> m.note.value != [] && IsTrimmed(m.note.value))
  }

  /** `m.label?.trim() || null`: a blank label becomes no label. */
  function CleanLabel(l: string): (r: Option<string>)
    ensures r.None? <==> AllSpace(l)
    ensures r.Some? ==> r.value != [] && IsTrimmed(r.value) && |r.value| <= |l|
  {
    TrimEmptyOnlyForSpace(l);
    var t := Trim(l);
    if t == [] then None else Some(t)
  }

  /** A row with its value trimmed and its label cleaned. */
  function CleanRow(m: DraftMethod): MethodInput {
    MethodInput(m.kind, Trim(m.value), CleanLabel(m.note))
  }

  /** The methods `saveDraft` sends: each row cleaned, the rows whose value
      is blank dropped, the order kept. */
  function CleanMethods(ms: seq<DraftMethod>): (r: seq<MethodInput>)
    ensures |r| <= |ms|
    ensures forall i :: 0 <= i < |r| ==> IsClean(r[i])
  {
    if ms == [] then []
    else
      var last := CleanRow(ms[|ms| - 1]);
      CleanMethods(ms[..|ms| - 1]) + (if last.value == [] then [] else [last])
  }

  /** Cleaning works row by row: the cleaned rows of two runs of rows are
      the cleaned rows of each, in order. */
  lemma {:induction false} CleanMethodsAppend(a: seq<DraftMethod>, b: seq<DraftMethod>)
    ensures CleanMethods(a + b) == CleanMethods(a) + CleanMethods(b)
    decreases |b|
  {
    if b == [] {
      assert a + b == a;
    } else {
      var bi, z := b[..|b| - 1], b[|b| - 1];
      var last := CleanRow(z);
      var tail := if last.value == [] then [] else [last];
      CleanMethodsAppend(a, bi);
      assert (a + b)[..|a + b| - 1] == a + bi;
      assert (a + b)[|a + b| - 1] == z;
      assert CleanMethods(a + b) == CleanMethods(a + bi) + tail;
      assert CleanMethods(b) == CleanMethods(bi) + tail;
    }
  }

  /** One row is kept, cleaned, exactly when its value is not blank. */
  lemma CleanMethodsOne(m: DraftMethod)
    ensures AllSpace(m.value) ==> CleanMethods([m]) == []
    ensures !AllSpace(m.value) ==> CleanMethods([m]) == [CleanRow(m)]
    ensures CleanRow(m).kind == m.kind && CleanRow(m).value == Trim(m.value)
  {
    TrimEmptyOnlyForSpace(m.value);
    assert [m][..0] == [];
  }

  /** The outcome of pressing save. */
  datatype SaveOutcome =
      /** No request; the dialog shows `message`. */
    | Refused(message: string)
      /** `createContact` with the cleaned draft. */
    | CreateRequest(candidate: Candidate)
      /** `updateContact(id, {name, isBookmarked})` followed by
          `replaceMethods(id, methods)`. */
    | EditRequest(id: nat, name: string, isBookmarked: bool, methods: seq<MethodInput>)

  /** `saveDraft()`: a blank name stops with a message and calls nothing;
      otherwise the trimmed name, the flag and the cleaned methods go to a
      create, or to an update of the contact being edited. */
  function SaveDraft(d: Draft, editing: Option<nat>): (r: SaveOutcome)
    ensures r.Refused? <==> AllSpace(d.name)
    ensures r.Refused? ==> r.message == NameRequiredMessage
    ensures r.CreateRequest? <==> !AllSpace(d.name) && editing.None?
    ensures r.CreateRequest? ==>
      r.candidate.name == Trim(d.name) && r.candidate.name != []
      && r.candidate.isBookmarked == d.isBookmarked
      && r.candidate.methods == CleanMethods(d.methods)
    ensures r.EditRequest? ==>
      editing == Some(r.id) && r.name == Trim(d.name) && r.name != []
      && r.isBookmarked == d.isBookmarked && r.methods == CleanMethods(d.methods)
  {
    TrimEmptyOnlyForSpace(d.name);
    var name := Trim(d.name);
    var methods := CleanMethods(d.methods);
    if name == [] then Refused(NameRequiredMessage)
    else if editing.None? then CreateRequest(Candidate(name, d.isBookmarked, methods))
    else EditRequest(editing.value, name, d.isBookmarked, methods)
  }

  /** A clean method survives the trip through the dialog unchanged. */
  lemma CleanRowOfDraft(m: MethodInput)
    requires IsClean(m)
    ensures Trim(DraftOf(m).value) == m.value
    ensures CleanRow(DraftOf(m)) == m
  {
    TrimOfTrimmed(m.value);
    if m.note.Some? {
      TrimOfTrimmed(m.note.value);
    } else {
      assert Trim("") == "";
    }
  }

  lemma {:induction false} CleanMethodsOfDrafts(ms: seq<MethodInput>)
    requires forall i :: 0 <= i < |ms| ==> IsClean(ms[i])
    ensures CleanMethods(DraftsOf(ms)) == ms
  {
    var ds := DraftsOf(ms);
    if ms != [] {
      var init, m := ms[..|ms| - 1], ms[|ms| - 1];
      assert forall i :: 0 <= i < |init| ==> init[i] == ms[i];
      CleanMethodsOfDrafts(init);
      assert ds[..|ds| - 1] == DraftsOf(init);
      assert ds[|ds| - 1] == DraftOf(m);
      CleanRowOfDraft(m);
      assert CleanMethods(ds) == CleanMethods(DraftsOf(init)) + [m];
      assert init + [m] == ms;
    }
  }

  /** Opening a stored contact whose name and methods are clean and saving
      it untouched sends back exactly what is stored: its name, its flag
      and its methods, labels included. */
  lemma EditUnchangedRoundTrip(c: Contact)
    requires c.name != [] && IsTrimmed(c.name)
    requires forall i :: 0 <= i < |c.methods| ==> IsClean(c.methods[i])
    ensures SaveDraft(OpenEdit(c), Some(c.id)) == EditRequest(c.id, c.name, c.isBookmarked, c.methods)
  {
    var d := OpenEdit(c);
    OpenedMethodsClean(c);
    SaveNamed(d, c.id);
  }

  /** The rows the edit dialog opens with clean back to the stored methods. */
  lemma OpenedMethodsClean(c: Contact)
    requires forall i :: 0 <= i < |c.methods| ==> IsClean(c.methods[i])
    ensures CleanMethods(OpenEdit(c).methods) == c.methods
  {
    if c.methods == [] {
      CleanMethodsOne(BlankRow);
      assert AllSpace(BlankRow.value);
    } else {
      CleanMethodsOfDrafts(c.methods);
    }
  }

  lemma SaveNamed(d: Draft, id: nat)
    requires d.name != [] && IsTrimmed(d.name)
    ensures SaveDraft(d, Some(id)) == EditRequest(id, d.name, d.isBookmarked, CleanMethods(d.methods))
  {
    TrimOfTrimmed(d.name);
    TrimEmptyOnlyForSpace(d.name);
  }

  /** Saving the untouched create dialog asks for a name. */
  lemma EmptyDraftNeedsName()
    ensures SaveDraft(EmptyDraft, None) == Refused(NameRequiredMessage)
  {
    assert AllSpace(EmptyDraft.name);
  }
}
