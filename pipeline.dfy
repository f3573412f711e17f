/** How the client's requests meet the server's handlers: what the
    spreadsheet import sends to the bulk endpoint, and what the dialog's
    save sends to the create, update and replace endpoints. */
module Pipeline {
  import opened Text
  import opened Domain
  import Spreadsheet
  import Editor
  import opened ContactStore

  /** The `contacts` array the client posts: every candidate with its name
      present. */
  function AsBulk(cs: seq<Candidate>): (items: seq<BulkItem>)
    ensures |items| == |cs|
  {
    if cs == [] then []
    else
      var c := cs[|cs| - 1];
      AsBulk(cs[..|cs| - 1]) + [BulkItem(Some(c.name), c.isBookmarked, c.methods)]
  }

  lemma SplitLast<T>(s: seq<T>)
    requires s != []
    ensures s[..|s| - 1] + [s[|s| - 1]] == s
  {
  }

  /** Storing methods whose values are already trimmed keeps them as they
      are. */
  lemma {:induction false} StoredAllTrimmed(ms: seq<MethodInput>)
    requires forall i :: 0 <= i < |ms| ==> IsTrimmed(ms[i].value)
    ensures StoredAll(ms) == ms
  {
    if ms != [] {
      var init := ms[..|ms| - 1];
      assert forall i :: 0 <= i < |init| ==> init[i] == ms[i];
      StoredAllTrimmed(init);
      TrimOfTrimmed(ms[|ms| - 1].value);
      SplitLast(ms);
    }
  }

  /** The server keeps every candidate whose name is trimmed and not
      empty, unchanged and in order. */
  lemma {:induction false} NamedAllKept(cs: seq<Candidate>)
    requires forall i :: 0 <= i < |cs| ==> cs[i].name != [] && IsTrimmed(cs[i].name)
    ensures Kept(AsBulk(cs)) == cs
  {
    if cs != [] {
      var init, c := cs[..|cs| - 1], cs[|cs| - 1];
      assert forall i :: 0 <= i < |init| ==> init[i] == cs[i];
      NamedAllKept(init);
      TrimOfTrimmed(c.name);
      var x := BulkItem(Some(c.name), c.isBookmarked, c.methods);
      assert AsBulk(cs) == AsBulk(init) + [x];
      KeptAppend(AsBulk(init), x);
      SplitLast(cs);
    }
  }

  lemma KeptAppend(items: seq<BulkItem>, x: BulkItem)
    ensures Kept(items + [x])
      == Kept(items) + (if Named(x) then [Candidate(Trim(x.name.value), x.isBookmarked, x.methods)] else [])
  {
    assert (items + [x])[..|items|] == items;
  }

  /** Importing a sheet: the server creates one contact per named row, the
      number the client reports as imported. */
  lemma SheetImportKeepsAll(rows: seq<Spreadsheet.Row>)
    ensures Kept(AsBulk(Spreadsheet.ParseRows(rows))) == Spreadsheet.ParseRows(rows)
    ensures |Kept(AsBulk(Spreadsheet.ParseRows(rows)))| == Spreadsheet.NamedRowCount(rows)
  {
    var parsed := Spreadsheet.ParseRows(rows);
    Spreadsheet.ParsedCandidatesImported(rows);
    Spreadsheet.ParsedCount(rows);
    assert forall i :: 0 <= i < |parsed| ==> parsed[i].name != [] && IsTrimmed(parsed[i].name);
    NamedAllKept(parsed);
  }

  /** Each contact a sheet import creates shows exactly the name, flag and
      methods the client parsed from its row (the rows the import parses
      are candidates of this kind). */
  lemma ImportCreates(db: Db, cs: seq<Candidate>, k: nat)
    requires Consistent(db)
    requires forall i :: 0 <= i < |cs| ==> Spreadsheet.ImportedCandidate(cs[i])
    requires k < |cs|
    ensures db.nextContactId + k in AddAll(db, cs).contacts
    ensures View(AddAll(db, cs), db.nextContactId + k)
      == Contact(db.nextContactId + k, cs[k].name, cs[k].isBookmarked, cs[k].methods)
  {
    assert forall i :: 0 <= i < |cs| ==> IsTrimmed(cs[i].name);
    AddAllCreates(db, cs, k);
    var ms := cs[k].methods;
    assert Spreadsheet.ImportedCandidate(cs[k]);
    assert forall i :: 0 <= i < |ms| ==> IsTrimmed(ms[i].value);
    StoredAllTrimmed(ms);
  }

  /** A create the dialog sends is never refused for its name, and the new
      contact shows exactly the name, flag and cleaned methods of the
      request. */
  lemma SavedDraftCreated(db: Db, d: Editor.Draft)
    requires Consistent(db) && !AllSpace(d.name)
    ensures var r := Editor.SaveDraft(d, None);
      r.CreateRequest?
      && !AllSpace(r.candidate.name)
      && Trim(r.candidate.name) == r.candidate.name
      && View(AddContact(db, Trim(r.candidate.name), r.candidate.isBookmarked, r.candidate.methods), db.nextContactId)
         == Contact(db.nextContactId, r.candidate.name, r.candidate.isBookmarked, r.candidate.methods)
  {
    var c := Editor.SaveDraft(d, None).candidate;
    TrimIdempotent(d.name);
    TrimEmptyOnlyForSpace(c.name);
    StoredAllTrimmed(c.methods);
    AddContactNew(db, c.name, c.isBookmarked, c.methods);
  }

  /** An edit the dialog sends, applied as an update of the name and the
      flag followed by a replacement of the methods, leaves the contact
      showing exactly what the dialog saved. */
  lemma SavedEditStored(db: Db, d: Editor.Draft, id: nat)
    requires Consistent(db) && id in db.contacts && !AllSpace(d.name)
    ensures var r := Editor.SaveDraft(d, Some(id));
      r.EditRequest?
      && var after := ReplaceOwn(SetFields(db, id, Some(r.name), Some(r.isBookmarked)), id, r.methods);
      Consistent(after)
      && id in after.contacts
      && View(after, id) == Contact(id, r.name, r.isBookmarked, r.methods)
  {
    var r := Editor.SaveDraft(d, Some(id));
    TrimIdempotent(d.name);
    var mid := SetFields(db, id, Some(r.name), Some(r.isBookmarked));
    SetFieldsEffect(db, id, Some(r.name), Some(r.isBookmarked));
    ReplaceOwnEffect(mid, id, r.methods);
    StoredAllTrimmed(r.methods);
  }
}
