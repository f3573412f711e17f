/** The spreadsheet side of the client: the export of the contact list to
    one row per contact, the guards an uploaded workbook must pass, and the
    mapping of each row back to a contact candidate. */
module Spreadsheet {
  import opened Text
  import opened Domain

  /** One sheet row as the workbook reader hands it over: column header to
      the text of the cell. */
  type Row = map<string, string>

  /** What reading the uploaded bytes as a workbook gives: a failure, or the
      sheets in order, each a sequence of rows. */
  datatype Workbook = Unreadable | Book(sheets: seq<seq<Row>>)

  /** The uploaded file: its size in bytes, its file name, its contents. */
  datatype Upload = Upload(size: nat, name: string, book: Workbook)

  /** What an import attempt ends with: the batch handed to the bulk
      endpoint, if one was sent, and the message shown to the user. */
  datatype ImportOutcome = ImportOutcome(sent: Option<seq<Candidate>>, message: string)

  const Separator: char := ';'
  const MaxFileSize: nat := 2 * 1024 * 1024
  const MaxRows: nat := 2000

  const TooLargeMessage := "File too large. Please upload <= 2MB Excel."
  const InvalidTypeMessage := "Invalid file type. Please upload an .xlsx/.xls file."
  const NoSheetMessage := "No sheet found in the Excel file."
  const EmptyMessage := "Excel is empty."
  const MissingNameMessage := "Invalid template. Missing 'Name' column. Expected: Name, Bookmarked, Phones, Emails, Socials, Addresses."
  const NoValidRowsMessage := "No valid rows found in Excel."
  const ImportFailedMessage := "Import failed. Please check the Excel format."

  function TooManyRowsMessage(count: nat): string {
    "Too many rows (" + NatToString(count) + "). Please limit to <= " + NatToString(MaxRows) + "."
  }

  function ImportedMessage(count: nat): string {
    "Imported " + NatToString(count) + " contacts."
  }

  /** The success message names the number of contacts imported: two
      different counts never give the same message. */
  lemma ImportedMessageTellsCount(a: nat, b: nat)
    ensures ImportedMessage(a) == ImportedMessage(b) <==> a == b
  {
    if ImportedMessage(a) == ImportedMessage(b) {
      var sa, sb := NatToString(a), NatToString(b);
      var ma, mb := ImportedMessage(a), ImportedMessage(b);
      assert |sa| == |sb|;
      assert sa == ma[9..9 + |sa|];
      assert sb == mb[9..9 + |sb|];
      NatToStringInjective(a, b);
    }
  }

  /** The columns of the exported sheet. */
  const Headers: set<string> := {"Name", "Bookmarked", "Phones", "Emails", "Socials", "Addresses"}

  /** The multi-valued column that holds the methods of type `t`. */
  function Column(t: MethodType): string {
    match t
    case Phone => "Phones"
    case Email => "Emails"
    case Social => "Socials"
    case Address => "Addresses"
  }

  /** The lower-case spelling of that column, read when the first is absent. */
  function LowerColumn(t: MethodType): string {
    match t
    case Phone => "phones"
    case Email => "emails"
    case Social => "socials"
    case Address => "addresses"
  }

  /** Position of a type in the import's column order. */
  function Rank(t: MethodType): nat {
    match t
    case Phone => 0
    case Email => 1
    case Social => 2
    case Address => 3
  }

  // ---------------------------------------------------------------------
  // Export

  /** `groupByType(methods, type)`: the values of the methods of type `t`,
      in the order the store returned them. */
  function GroupByType(ms: seq<MethodInput>, t: MethodType): (vs: seq<string>)
    ensures |vs| <= |ms|
  {
    if ms == [] then []
    else
      var m := ms[|ms| - 1];
      GroupByType(ms[..|ms| - 1], t) + (if m.kind == t then [m.value] else [])
  }

  /** A value is in the group of type `t` exactly when some method of type
      `t` has it. */
  lemma {:induction false} GroupByTypeValues(ms: seq<MethodInput>, t: MethodType, v: string)
    ensures v in GroupByType(ms, t) <==> exists i :: 0 <= i < |ms| && ms[i].kind == t && ms[i].value == v
  {
    if ms != [] {
      var init, m := ms[..|ms| - 1], ms[|ms| - 1];
      GroupByTypeValues(init, t, v);
      var tail := if m.kind == t then [m.value] else [];
      assert GroupByType(ms, t) == GroupByType(init, t) + tail;
      assert forall i :: 0 <= i < |init| ==> init[i] == ms[i];
    }
  }

  /** The exported row of one contact: its name, its bookmark flag as 1 or
      0, and per type the `;`-joined values. Labels are not exported. */
  function ExportRow(c: Contact): Row {
    map[
      "Name" := c.name,
      "Bookmarked" := if c.isBookmarked then "1" else "0",
      "Phones" := Join(GroupByType(c.methods, Phone), Separator),
      "Emails" := Join(GroupByType(c.methods, Email), Separator),
      "Socials" := Join(GroupByType(c.methods, Social), Separator),
      "Addresses" := Join(GroupByType(c.methods, Address), Separator)
    ]
  }

  /** The exported row has exactly the six columns of the template. */
  lemma ExportRowColumns(c: Contact)
    ensures ExportRow(c).Keys == Headers
  {
  }

  /** The rows of the exported sheet, one per contact, in list order. */
  function ExportRows(cs: seq<Contact>): (rows: seq<Row>)
    ensures |rows| == |cs|
    ensures forall i :: 0 <= i < |cs| ==> rows[i] == ExportRow(cs[i])
  {
    if cs == [] then []
    else ExportRows(cs[..|cs| - 1]) + [ExportRow(cs[|cs| - 1])]
  }

  // ---------------------------------------------------------------------
  // Import: reading one row

  /** A cell by key, with the empty text for an absent key. */
  function Cell(r: Row, key: string): string {
    if key in r then r[key] else ""
  }

  /** `String(r.Name || r.name || "").trim()`: an empty `Name` cell falls
      through to `name`. */
  function RowName(r: Row): (name: string)
    ensures IsTrimmed(name)
  {
    Trim(if Cell(r, "Name") != "" then Cell(r, "Name") else Cell(r, "name"))
  }

  /** `r.Bookmarked ?? r.bookmarked ?? 0`: only an absent key falls through;
      with neither key the cell reads as `0`. */
  function BookmarkCell(r: Row): string {
    if "Bookmarked" in r then r["Bookmarked"]
    else if "bookmarked" in r then r["bookmarked"]
    else "0"
  }

  /** The bookmark test on the text of the cell. */
  predicate IsBookmarkedText(raw: string) {
    ToLower(Trim(raw)) == "true" || Trim(raw) == "1"
  }

  /** `r.Phones ?? r.phones` and its three siblings. */
  function MethodCell(r: Row, t: MethodType): string {
    if Column(t) in r then r[Column(t)] else Cell(r, LowerColumn(t))
  }

  /** A method value as the import emits it and as the export can carry it:
      non-empty, trimmed and free of the separator. */
  predicate IsValue(v: string) {
    v != "" && IsTrimmed(v) && Separator !in v
  }

  /** Trims each piece of a cell and drops the empty ones, keeping order. */
  function CleanPieces(ps: seq<string>): (vs: seq<string>)
    ensures |vs| <= |ps|
    ensures forall i :: 0 <= i < |vs| ==> vs[i] != "" && IsTrimmed(vs[i])
  {
    if ps == [] then []
    else
      var v := Trim(ps[|ps| - 1]);
      CleanPieces(ps[..|ps| - 1]) + (if v == "" then [] else [v])
  }

  /** Cleaning works piece by piece: the cleaned pieces of two runs of
      pieces are the cleaned pieces of each, in order. */
  lemma {:induction false} CleanPiecesAppend(a: seq<string>, b: seq<string>)
    ensures CleanPieces(a + b) == CleanPieces(a) + CleanPieces(b)
    decreases |b|
  {
    if b == [] {
      assert a + b == a;
    } else {
      var bi, z := b[..|b| - 1], b[|b| - 1];
      var v := Trim(z);
      var tail := if v == "" then [] else [v];
      CleanPiecesAppend(a, bi);
      assert (a + b)[..|a + b| - 1] == a + bi;
      assert (a + b)[|a + b| - 1] == z;
      assert CleanPieces(a + b) == CleanPieces(a + bi) + tail;
      assert CleanPieces(b) == CleanPieces(bi) + tail;
    }
  }

  /** One piece is kept, as its trim, exactly when its trim is not empty. */
  lemma CleanPiecesOne(p: string)
    ensures CleanPieces([p]) == (if Trim(p) == "" then [] else [Trim(p)])
  {
    assert [p][..0] == [];
  }

  /** A text is among the cleaned pieces exactly when it is the non-empty
      trim of some piece. */
  lemma {:induction false} CleanPiecesValues(ps: seq<string>, v: string)
    ensures v in CleanPieces(ps) <==> exists i :: 0 <= i < |ps| && v == Trim(ps[i]) && v != ""
  {
    if ps != [] {
      var init := ps[..|ps| - 1];
      CleanPiecesValues(init, v);
      var t := Trim(ps[|ps| - 1]);
      assert CleanPieces(ps) == CleanPieces(init) + (if t == "" then [] else [t]);
      assert forall i :: 0 <= i < |init| ==> init[i] == ps[i];
    }
  }

  /** Pieces free of the separator stay free of it once trimmed. */
  lemma {:induction false} CleanPiecesSeparatorFree(ps: seq<string>)
    requires forall i :: 0 <= i < |ps| ==> Separator !in ps[i]
    ensures forall i :: 0 <= i < |CleanPieces(ps)| ==> Separator !in CleanPieces(ps)[i]
  {
    if ps != [] {
      var init := ps[..|ps| - 1];
      CleanPiecesSeparatorFree(init);
      TrimKeepsCharacters(ps[|ps| - 1]);
    }
  }

  /** The values `pushMany` emits for one cell. */
  function CellValues(cell: string): (vs: seq<string>)
    ensures forall i :: 0 <= i < |vs| ==> IsValue(vs[i])
  {
    var text := Trim(cell);
    if text == "" then []
    else
      SplitPiecesFree(text, Separator);
      CleanPiecesSeparatorFree(Split(text, Separator));
      CleanPieces(Split(text, Separator))
  }

  /** Methods of type `t`, without label, one per value. */
  function Tagged(t: MethodType, vs: seq<string>): (ms: seq<MethodInput>)
    ensures |ms| == |vs|
    ensures forall i :: 0 <= i < |vs| ==> ms[i] == MethodInput(t, vs[i], None)
  {
    if vs == [] then []
    else Tagged(t, vs[..|vs| - 1]) + [MethodInput(t, vs[|vs| - 1], None)]
  }

  /** Label-less methods in column order: the phones, then the e-mails, the
      socials and the addresses. */
  function InColumnOrder(phones: seq<string>, emails: seq<string>, socials: seq<string>,
                         addresses: seq<string>): seq<MethodInput> {
    Tagged(Phone, phones) + Tagged(Email, emails) + Tagged(Social, socials) + Tagged(Address, addresses)
  }

  /** The one of four value lists that belongs to type `t`. */
  function ValuesFor(t: MethodType, phones: seq<string>, emails: seq<string>, socials: seq<string>,
                     addresses: seq<string>): seq<string> {
    match t
    case Phone => phones
    case Email => emails
    case Social => socials
    case Address => addresses
  }

  /** The methods of one row: phones, then e-mails, socials, addresses. */
  function RowMethods(r: Row): seq<MethodInput> {
    InColumnOrder(CellValues(MethodCell(r, Phone)), CellValues(MethodCell(r, Email)),
                  CellValues(MethodCell(r, Social)), CellValues(MethodCell(r, Address)))
  }

  /** Every method value is an import value and no method has a label. */
  predicate ImportedMethods(ms: seq<MethodInput>) {
    forall i :: 0 <= i < |ms| ==> IsValue(ms[i].value) && ms[i].note == None
  }

  /** A candidate as the import emits it. */
  predicate ImportedCandidate(c: Candidate) {
    c.name != "" && IsTrimmed(c.name) && ImportedMethods(c.methods)
  }

  /** The candidate of one row, or nothing when its name is blank. */
  function ParseRow(r: Row): (c: Option<Candidate>)
    ensures c.None? <==> RowName(r) == ""
    ensures c.Some? ==> ImportedCandidate(c.value)
    ensures c.Some? ==> c.value.name == RowName(r)
    ensures c.Some? ==> c.value.isBookmarked == IsBookmarkedText(BookmarkCell(r))
  {
    RowMethodsImported(r);
    var name := RowName(r);
    if name == "" then None
    else Some(Candidate(name, IsBookmarkedText(BookmarkCell(r)), RowMethods(r)))
  }

  /** `rows.map(...).filter(Boolean)`. */
  function ParseRows(rows: seq<Row>): (cs: seq<Candidate>)
    ensures |cs| <= |rows|
  {
    if rows == [] then []
    else
      var prev := ParseRows(rows[..|rows| - 1]);
      match ParseRow(rows[|rows| - 1])
      case None => prev
      case Some(c) => prev + [c]
  }

  /** The header test on the first row: exactly the keys `Name` or `name`. */
  predicate HasNameHeader(r: Row) {
    "Name" in r || "name" in r
  }

  predicate HasExcelExtension(fileName: string) {
    var lower := ToLower(fileName);
    EndsWith(lower, ".xlsx") || EndsWith(lower, ".xls")
  }

  /** The extension test ignores the case of the extension and looks only
      at the end of the name: whatever comes before, `.xlsx` and `.xls` in
      any casing pass. */
  lemma ExtensionAccepted(base: string)
    ensures HasExcelExtension(base + ".xlsx") && HasExcelExtension(base + ".XLSX")
    ensures HasExcelExtension(base + ".xls") && HasExcelExtension(base + ".Xls")
  {
    LowerExtensions();
    LowerWithSuffix(base, ".xlsx");
    LowerWithSuffix(base, ".XLSX");
    LowerWithSuffix(base, ".xls");
    LowerWithSuffix(base, ".Xls");
  }

  /** A `.csv` name, or a further extension after `.xlsx`, fails the test. */
  lemma ExtensionRefused(base: string)
    ensures !HasExcelExtension(base + ".csv") && !HasExcelExtension(base + ".xlsx.txt")
  {
    LowerExtensions();
    LowerWithSuffix(base, ".csv");
    LowerWithSuffix(base, ".xlsx.txt");
    var b := ToLower(base);
    NotEndsWithLast(b + ".csv", ".xlsx");
    NotEndsWithLast(b + ".csv", ".xls");
    NotEndsWithLast(b + ".xlsx.txt", ".xlsx");
    NotEndsWithLast(b + ".xlsx.txt", ".xls");
  }

  lemma LowerExtensions()
    ensures ToLower(".xlsx") == ".xlsx" && ToLower(".XLSX") == ".xlsx"
    ensures ToLower(".xls") == ".xls" && ToLower(".Xls") == ".xls"
    ensures ToLower(".csv") == ".csv" && ToLower(".xlsx.txt") == ".xlsx.txt"
  {
    LowerOf(".xlsx", ".xlsx");
    LowerOf(".XLSX", ".xlsx");
    LowerOf(".xls", ".xls");
    LowerOf(".Xls", ".xls");
    LowerOf(".csv", ".csv");
    LowerOf(".xlsx.txt", ".xlsx.txt");
  }

  lemma LowerOf(s: string, t: string)
    requires |s| == |t| && forall i :: 0 <= i < |s| ==> LowerChar(s[i]) == t[i]
    ensures ToLower(s) == t
  {
    ToLowerAt(s);
  }

  /** A lower-cased name that ends in a lower-case suffix ends with it. */
  lemma LowerWithSuffix(base: string, ext: string)
    ensures ToLower(base + ext) == ToLower(base) + ToLower(ext)
    ensures EndsWith(ToLower(base) + ToLower(ext), ToLower(ext))
  {
    ToLowerAppend(base, ext);
    var b, e := ToLower(base), ToLower(ext);
    assert (b + e)[|b + e| - |e|..] == e;
  }

  lemma NotEndsWithLast(x: string, suffix: string)
    requires x != [] && suffix != [] && x[|x| - 1] != suffix[|suffix| - 1]
    ensures !EndsWith(x, suffix)
  {
    if |suffix| <= |x| {
      assert x[|x| - |suffix|..][|suffix| - 1] == x[|x| - 1];
    }
  }

  // ---------------------------------------------------------------------
  // Import: the imperative steps

  /** `pushMany(type, cell)`: appends one label-less method per non-empty
      trimmed piece of the cell. */
  method PushMany(methods: seq<MethodInput>, kind: MethodType, cell: string)
    returns (out: seq<MethodInput>)
    ensures out == methods + Tagged(kind, CellValues(cell))
  {
    var text := Trim(cell);
    if text == "" {
      assert methods + Tagged(kind, []) == methods;
      return methods;
    }
    out := PushPieces(methods, kind, Split(text, Separator));
  }

  /** The `forEach` of `pushMany` over the split pieces of the cell. */
  method PushPieces(methods: seq<MethodInput>, kind: MethodType, pieces: seq<string>)
    returns (out: seq<MethodInput>)
    ensures out == methods + Tagged(kind, CleanPieces(pieces))
  {
    out := methods;
    ghost var pushed: seq<MethodInput> := [];
    var i := 0;
    while i < |pieces|
      invariant 0 <= i <= |pieces|
      invariant pushed == Tagged(kind, CleanPieces(pieces[..i]))
      invariant out == methods + pushed
    {
      var v := Trim(pieces[i]);
      PushStep(kind, pieces, i);
      if v != "" {
        var m := MethodInput(kind, v, None);
        AppendAssoc(methods, pushed, [m]);
        out, pushed := out + [m], pushed + [m];
      }
      i := i + 1;
    }
    assert pieces[..|pieces|] == pieces;
  }

  /** One turn of the `pushMany` loop: the next piece adds its method, if
      any, at the end. */
  lemma PushStep(kind: MethodType, pieces: seq<string>, i: nat)
    requires i < |pieces|
    ensures var v := Trim(pieces[i]);
      Tagged(kind, CleanPieces(pieces[..i + 1]))
      == Tagged(kind, CleanPieces(pieces[..i])) + (if v == "" then [] else [MethodInput(kind, v, None)])
  {
    var v := Trim(pieces[i]);
    var done := CleanPieces(pieces[..i]);
    assert pieces[..i + 1][..i] == pieces[..i];
    assert CleanPieces(pieces[..i + 1]) == done + (if v == "" then [] else [v]);
    if v != "" {
      assert (done + [v])[..|done|] == done;
    } else {
      assert done + [] == done;
    }
  }

  lemma AppendAssoc<T>(a: seq<T>, b: seq<T>, c: seq<T>)
    ensures a + (b + c) == (a + b) + c
  {
  }

  /** The row callback of the import: the trimmed name or nothing, the
      bookmark flag, and the methods collected by four `pushMany` calls. */
  method ReadRow(r: Row) returns (c: Option<Candidate>)
    ensures c == ParseRow(r)
  {
    var name := RowName(r);
    if name == "" {
      return None;
    }
    var raw := BookmarkCell(r);
    var isBookmarked := ToLower(Trim(raw)) == "true" || Trim(raw) == "1";
    var methods := ReadMethods(r);
    return Some(Candidate(name, isBookmarked, methods));
  }

  /** The four `pushMany` calls of the row callback, in column order. */
  method ReadMethods(r: Row) returns (methods: seq<MethodInput>)
    ensures methods == RowMethods(r)
  {
    ghost var p := Tagged(Phone, CellValues(MethodCell(r, Phone)));
    methods := PushMany([], Phone, MethodCell(r, Phone));
    assert methods == p by { assert [] + p == p; }
    methods := PushMany(methods, Email, MethodCell(r, Email));
    methods := PushMany(methods, Social, MethodCell(r, Social));
    methods := PushMany(methods, Address, MethodCell(r, Address));
  }

  predicate PassesFileChecks(f: Upload) {
    f.size <= MaxFileSize && HasExcelExtension(f.name)
  }

  predicate HasSheet(f: Upload) {
    PassesFileChecks(f) && f.book.Book? && |f.book.sheets| > 0
  }

  /** The rows of the first sheet. */
  function Rows(f: Upload): seq<Row>
    requires HasSheet(f)
  {
    f.book.sheets[0]
  }

  predicate RowsAccepted(f: Upload) {
    HasSheet(f) && 0 < |Rows(f)| <= MaxRows && HasNameHeader(Rows(f)[0])
  }

  function Rejected(message: string): ImportOutcome {
    ImportOutcome(None, message)
  }

  /** `importExcel(file)`: the guards in their fixed order, each with its
      own message, then the row mapping and the bulk call.
      `bulkSucceeded` stands for the outcome of that call. */
  method ImportExcel(f: Upload, bulkSucceeded: bool) returns (outcome: ImportOutcome)
    ensures f.size > MaxFileSize ==> outcome == Rejected(TooLargeMessage)
    ensures f.size <= MaxFileSize && !HasExcelExtension(f.name) ==>
              outcome == Rejected(InvalidTypeMessage)
    ensures PassesFileChecks(f) && f.book.Unreadable? ==> outcome == Rejected(ImportFailedMessage)
    ensures PassesFileChecks(f) && f.book == Book([]) ==> outcome == Rejected(NoSheetMessage)
    ensures HasSheet(f) && |Rows(f)| > MaxRows ==>
              outcome == Rejected(TooManyRowsMessage(|Rows(f)|))
    ensures HasSheet(f) && |Rows(f)| == 0 ==> outcome == Rejected(EmptyMessage)
    ensures HasSheet(f) && 0 < |Rows(f)| <= MaxRows && !HasNameHeader(Rows(f)[0]) ==>
              outcome == Rejected(MissingNameMessage)
    ensures RowsAccepted(f) && ParseRows(Rows(f)) == [] ==> outcome == Rejected(NoValidRowsMessage)
    ensures RowsAccepted(f) && ParseRows(Rows(f)) != [] ==>
              outcome.sent == Some(ParseRows(Rows(f))) &&
              outcome.message == (if bulkSucceeded then ImportedMessage(|ParseRows(Rows(f))|)
                                  else ImportFailedMessage)
  {
    if f.size > MaxFileSize {
      return Rejected(TooLargeMessage);
    }
    var lower := ToLower(f.name);
    if !EndsWith(lower, ".xlsx") && !EndsWith(lower, ".xls") {
      return Rejected(InvalidTypeMessage);
    }
    if f.book.Unreadable? {
      return Rejected(ImportFailedMessage);
    }
    if |f.book.sheets| == 0 {
      return Rejected(NoSheetMessage);
    }
    var rows := f.book.sheets[0];
    if |rows| > MaxRows {
      return Rejected(TooManyRowsMessage(|rows|));
    }
    if |rows| == 0 {
      return Rejected(EmptyMessage);
    }
    if !("Name" in rows[0] || "name" in rows[0]) {
      return Rejected(MissingNameMessage);
    }
    var parsed := ReadRows(rows);
    if |parsed| == 0 {
      return Rejected(NoValidRowsMessage);
    }
    if bulkSucceeded {
      outcome := ImportOutcome(Some(parsed), ImportedMessage(|parsed|));
    } else {
      outcome := ImportOutcome(Some(parsed), ImportFailedMessage);
    }
  }

  /** `rows.map(...).filter(Boolean)` as a loop over the rows. */
  method ReadRows(rows: seq<Row>) returns (parsed: seq<Candidate>)
    ensures parsed == ParseRows(rows)
  {
    parsed := [];
    var i := 0;
    while i < |rows|
      invariant 0 <= i <= |rows|
      invariant parsed == ParseRows(rows[..i])
    {
      var c := ReadRow(rows[i]);
      ParseRowsStep(rows, i);
      if c.Some? {
        parsed := parsed + [c.value];
      }
      i := i + 1;
    }
    assert rows[..|rows|] == rows;
  }

  /** One turn of the row loop: the next row adds its candidate, if any. */
  lemma ParseRowsStep(rows: seq<Row>, i: nat)
    requires i < |rows|
    ensures ParseRows(rows[..i + 1]) ==
            ParseRows(rows[..i]) + (if ParseRow(rows[i]).Some? then [ParseRow(rows[i]).value] else [])
  {
    assert rows[..i + 1][..i] == rows[..i];
  }

  // ---------------------------------------------------------------------
  // Properties of the row mapping

  lemma TaggedImported(t: MethodType, vs: seq<string>)
    requires forall i :: 0 <= i < |vs| ==> IsValue(vs[i])
    ensures ImportedMethods(Tagged(t, vs))
  {
  }

  lemma RowMethodsImported(r: Row)
    ensures ImportedMethods(RowMethods(r))
  {
    var p := Tagged(Phone, CellValues(MethodCell(r, Phone)));
    var e := Tagged(Email, CellValues(MethodCell(r, Email)));
    var s := Tagged(Social, CellValues(MethodCell(r, Social)));
    var a := Tagged(Address, CellValues(MethodCell(r, Address)));
    TaggedImported(Phone, CellValues(MethodCell(r, Phone)));
    TaggedImported(Email, CellValues(MethodCell(r, Email)));
    TaggedImported(Social, CellValues(MethodCell(r, Social)));
    TaggedImported(Address, CellValues(MethodCell(r, Address)));
    ImportedAppend(p, e);
    ImportedAppend(p + e, s);
    ImportedAppend(p + e + s, a);
  }

  lemma ImportedAppend(a: seq<MethodInput>, b: seq<MethodInput>)
    requires ImportedMethods(a) && ImportedMethods(b)
    ensures ImportedMethods(a + b)
  {
    forall i | 0 <= i < |a + b|
      ensures IsValue((a + b)[i].value) && (a + b)[i].note == None
    {
      if i >= |a| {
        assert (a + b)[i] == b[i - |a|];
      }
    }
  }

  /** Every candidate the import emits has a non-empty trimmed name and
      only non-empty, trimmed, separator-free, label-less method values. */
  lemma {:induction false} ParsedCandidatesImported(rows: seq<Row>)
    ensures forall i :: 0 <= i < |ParseRows(rows)| ==> ImportedCandidate(ParseRows(rows)[i])
  {
    if rows != [] {
      var init := rows[..|rows| - 1];
      ParsedCandidatesImported(init);
      var prev := ParseRows(init);
      var last := ParseRow(rows[|rows| - 1]);
      if last.Some? {
        assert ParseRows(rows) == prev + [last.value];
        ImportedSnoc(prev, last.value);
      } else {
        assert ParseRows(rows) == prev;
      }
    }
  }

  lemma ImportedSnoc(prev: seq<Candidate>, c: Candidate)
    requires forall i :: 0 <= i < |prev| ==> ImportedCandidate(prev[i])
    requires ImportedCandidate(c)
    ensures forall i :: 0 <= i < |prev + [c]| ==> ImportedCandidate((prev + [c])[i])
  {
    var cs := prev + [c];
    assert forall i :: 0 <= i < |prev| ==> cs[i] == prev[i];
    assert cs[|prev|] == c;
  }

  /** The number of rows whose name is not blank. */
  function NamedRowCount(rows: seq<Row>): nat {
    if rows == [] then 0
    else NamedRowCount(rows[..|rows| - 1]) + (if RowName(rows[|rows| - 1]) != "" then 1 else 0)
  }

  /** Exactly the rows with a non-blank name survive. */
  lemma {:induction false} ParsedCount(rows: seq<Row>)
    ensures |ParseRows(rows)| == NamedRowCount(rows)
  {
    if rows != [] {
      var init := rows[..|rows| - 1];
      ParsedCount(init);
      var last := ParseRow(rows[|rows| - 1]);
      assert ParseRows(rows) == ParseRows(init) + (if last.Some? then [last.value] else []);
    }
  }

  /** No candidates remain exactly when every row's name is blank. */
  lemma {:induction false} ParsedEmpty(rows: seq<Row>)
    ensures ParseRows(rows) == [] <==> forall i :: 0 <= i < |rows| ==> RowName(rows[i]) == ""
  {
    if rows != [] {
      var init := rows[..|rows| - 1];
      ParsedEmpty(init);
      var last := ParseRow(rows[|rows| - 1]);
      assert ParseRows(rows) == ParseRows(init) + (if last.Some? then [last.value] else []);
      if ParseRows(rows) == [] {
        assert ParseRows(init) == [] && last.None?;
        forall i | 0 <= i < |rows| ensures RowName(rows[i]) == "" {
          if i < |rows| - 1 {
            assert rows[i] == init[i];
          }
        }
      }
      if forall i :: 0 <= i < |rows| ==> RowName(rows[i]) == "" {
        assert forall i :: 0 <= i < |init| ==> init[i] == rows[i];
        assert last.None?;
      }
    }
  }

  /** Each surviving row gives one candidate, in row order: the candidate at
      position `NamedRowCount(rows[..k])` comes from row `k`. */
  lemma {:induction false} ParsedRowPosition(rows: seq<Row>, k: nat)
    requires k < |rows| && RowName(rows[k]) != ""
    ensures NamedRowCount(rows[..k]) < |ParseRows(rows)|
    ensures Some(ParseRows(rows)[NamedRowCount(rows[..k])]) == ParseRow(rows[k])
  {
    var before := ParseRows(rows[..k]);
    var upto := ParseRows(rows[..k + 1]);
    ParseRowsStep(rows, k);
    assert upto == before + [ParseRow(rows[k]).value];
    ParsedCount(rows[..k]);
    ParseRowsPrefix(rows, k + 1);
    assert ParseRows(rows)[|before|] == upto[|before|];
  }

  /** The candidates of a prefix of the rows are a prefix of the candidates. */
  lemma {:induction false} ParseRowsPrefix(rows: seq<Row>, n: nat)
    requires n <= |rows|
    ensures ParseRows(rows[..n]) <= ParseRows(rows)
    decreases |rows|
  {
    if n == |rows| {
      assert rows[..n] == rows;
    } else {
      var init := rows[..|rows| - 1];
      assert init[..n] == rows[..n];
      ParseRowsPrefix(init, n);
      ParseRowsStep(rows, |rows| - 1);
      assert rows[..|rows|] == rows;
    }
  }

  /** Column order sorts the methods by the rank of their type. */
  lemma ColumnOrderRanks(ph: seq<string>, em: seq<string>, so: seq<string>, ad: seq<string>)
    ensures var ms := InColumnOrder(ph, em, so, ad);
      forall i, j :: 0 <= i < j < |ms| ==> Rank(ms[i].kind) <= Rank(ms[j].kind)
  {
    var ms := InColumnOrder(ph, em, so, ad);
    var p, e, s, a := Tagged(Phone, ph), Tagged(Email, em), Tagged(Social, so), Tagged(Address, ad);
    forall i | 0 <= i < |ms|
      ensures Rank(ms[i].kind) == (if i < |p| then 0 else if i < |p + e| then 1
                                   else if i < |p + e + s| then 2 else 3)
    {
      if i < |p| { assert ms[i] == p[i]; }
      else if i < |p + e| { assert ms[i] == e[i - |p|]; }
      else if i < |p + e + s| { assert ms[i] == s[i - |p + e|]; }
      else { assert ms[i] == a[i - |p + e + s|]; }
    }
  }

  /** Grouping the column order by type gives back the values of that type. */
  lemma ColumnOrderGroups(ph: seq<string>, em: seq<string>, so: seq<string>, ad: seq<string>, t: MethodType)
    ensures GroupByType(InColumnOrder(ph, em, so, ad), t) == ValuesFor(t, ph, em, so, ad)
  {
    var p, e, s, a := Tagged(Phone, ph), Tagged(Email, em), Tagged(Social, so), Tagged(Address, ad);
    GroupByTypeAppend(p, e, t);
    GroupByTypeAppend(p + e, s, t);
    GroupByTypeAppend(p + e + s, a, t);
    GroupByTypeTagged(Phone, ph, t);
    GroupByTypeTagged(Email, em, t);
    GroupByTypeTagged(Social, so, t);
    GroupByTypeTagged(Address, ad, t);
    OneOfFour(t, ph, em, so, ad);
  }

  /** Of the four lists only the one of type `t` survives the grouping. */
  lemma OneOfFour(t: MethodType, ph: seq<string>, em: seq<string>, so: seq<string>, ad: seq<string>)
    ensures (if t == Phone then ph else []) + (if t == Email then em else [])
          + (if t == Social then so else []) + (if t == Address then ad else [])
          == ValuesFor(t, ph, em, so, ad)
  {
    var g := ValuesFor(t, ph, em, so, ad);
    match t {
      case Phone => assert g + [] + [] + [] == g;
      case Email => assert [] + g + [] + [] == g;
      case Social => assert [] + [] + g + [] == g;
      case Address => assert [] + [] + [] + g == g;
    }
  }

  /** The methods of an imported row are ordered by column, phones first and
      addresses last, and the methods of each type are exactly the cell's
      values in cell order. */
  lemma RowMethodsByColumn(r: Row)
    ensures forall i, j :: 0 <= i < j < |RowMethods(r)| ==>
              Rank(RowMethods(r)[i].kind) <= Rank(RowMethods(r)[j].kind)
    ensures forall t :: GroupByType(RowMethods(r), t) == CellValues(MethodCell(r, t))
  {
    var ph, em := CellValues(MethodCell(r, Phone)), CellValues(MethodCell(r, Email));
    var so, ad := CellValues(MethodCell(r, Social)), CellValues(MethodCell(r, Address));
    assert RowMethods(r) == InColumnOrder(ph, em, so, ad);
    ColumnOrderRanks(ph, em, so, ad);
    forall t ensures GroupByType(RowMethods(r), t) == CellValues(MethodCell(r, t)) {
      ColumnOrderGroups(ph, em, so, ad, t);
      CellOfType(r, t);
    }
  }

  lemma CellOfType(r: Row, t: MethodType)
    ensures ValuesFor(t, CellValues(MethodCell(r, Phone)), CellValues(MethodCell(r, Email)),
                      CellValues(MethodCell(r, Social)), CellValues(MethodCell(r, Address)))
            == CellValues(MethodCell(r, t))
  {
    match t {
      case Phone =>
      case Email =>
      case Social =>
      case Address =>
    }
  }

  /** With neither `Bookmarked` nor `bookmarked` present the flag is false. */
  lemma AbsentBookmarkIsFalse(r: Row)
    requires "Bookmarked" !in r && "bookmarked" !in r
    ensures !IsBookmarkedText(BookmarkCell(r))
  {
    TrimOfTrimmed("0");
  }

  /** The bookmark test on some cell texts: `1` and any casing of `true`,
      with surrounding white space, are set; `0`, the empty text and other
      words are not. */
  lemma BookmarkTextCases()
    ensures IsBookmarkedText("1") && IsBookmarkedText(" 1 ")
    ensures IsBookmarkedText("true") && IsBookmarkedText("TRUE") && IsBookmarkedText(" True\t")
    ensures !IsBookmarkedText("0") && !IsBookmarkedText("") && !IsBookmarkedText("yes")
  {
    BookmarkOne();
    BookmarkTrue();
    BookmarkOther();
  }

  lemma BookmarkOne()
    ensures IsBookmarkedText("1") && IsBookmarkedText(" 1 ")
  {
    TrimOfTrimmed("1");
    TrimCase(" 1 ", "1", 1);
  }

  lemma BookmarkTrue()
    ensures IsBookmarkedText("true") && IsBookmarkedText("TRUE") && IsBookmarkedText(" True\t")
  {
    TrimOfTrimmed("true");
    TrimOfTrimmed("TRUE");
    TrimCase(" True\t", "True", 1);
    LowerTrue();
  }

  lemma LowerTrue()
    ensures ToLower("true") == "true" && ToLower("TRUE") == "true" && ToLower("True") == "true"
  {
  }

  lemma BookmarkOther()
    ensures !IsBookmarkedText("0") && !IsBookmarkedText("") && !IsBookmarkedText("yes")
  {
    TrimOfTrimmed("0");
    TrimOfTrimmed("");
    TrimOfTrimmed("yes");
    assert ToLower("0") == "0";
    assert ToLower("yes") == "yes";
  }

  // ---------------------------------------------------------------------
  // Properties of the export and the round trip

  lemma {:induction false} GroupByTypeAppend(a: seq<MethodInput>, b: seq<MethodInput>, t: MethodType)
    ensures GroupByType(a + b, t) == GroupByType(a, t) + GroupByType(b, t)
  {
    if b == [] {
      assert a + b == a;
    } else {
      var init := b[..|b| - 1];
      assert (a + b)[..|a + b| - 1] == a + init;
      assert (a + b)[|a + b| - 1] == b[|b| - 1];
      GroupByTypeAppend(a, init, t);
    }
  }

  lemma {:induction false} GroupByTypeTagged(u: MethodType, vs: seq<string>, t: MethodType)
    ensures GroupByType(Tagged(u, vs), t) == if t == u then vs else []
  {
    if vs != [] {
      var ms := Tagged(u, vs);
      assert ms[..|ms| - 1] == Tagged(u, vs[..|vs| - 1]);
      GroupByTypeTagged(u, vs[..|vs| - 1], t);
      if t == u {
        assert vs == vs[..|vs| - 1] + [vs[|vs| - 1]];
      }
    }
  }

  /** All values of the methods are import values. */
  predicate ExportableMethods(ms: seq<MethodInput>) {
    forall i :: 0 <= i < |ms| ==> IsValue(ms[i].value)
  }

  /** A contact the export and import carry without loss apart from labels:
      a non-empty trimmed name and values that are import values. */
  predicate Exportable(c: Contact) {
    c.name != "" && IsTrimmed(c.name) && ExportableMethods(c.methods)
  }

  lemma {:induction false} GroupByTypeExportable(ms: seq<MethodInput>, t: MethodType)
    requires ExportableMethods(ms)
    ensures forall i :: 0 <= i < |GroupByType(ms, t)| ==> IsValue(GroupByType(ms, t)[i])
  {
    if ms != [] {
      GroupByTypeExportable(ms[..|ms| - 1], t);
    }
  }

  lemma {:induction false} CleanPiecesOfValues(vs: seq<string>)
    requires forall i :: 0 <= i < |vs| ==> vs[i] != "" && IsTrimmed(vs[i])
    ensures CleanPieces(vs) == vs
  {
    if vs != [] {
      var init := vs[..|vs| - 1];
      CleanPiecesOfValues(init);
      TrimOfTrimmed(vs[|vs| - 1]);
      assert CleanPieces(vs) == CleanPieces(init) + [vs[|vs| - 1]];
      assert vs == init + [vs[|vs| - 1]];
    }
  }

  /** A cell holding `;`-joined import values reads back as those values. */
  lemma CellValuesOfJoin(vs: seq<string>)
    requires forall i :: 0 <= i < |vs| ==> IsValue(vs[i])
    ensures CellValues(Join(vs, Separator)) == vs
  {
    if vs != [] {
      JoinTrimmed(vs, Separator);
      SplitJoin(vs, Separator);
      CleanPiecesOfValues(vs);
    }
  }

  /** The methods the import rebuilds from an exported row: per type, in
      column order, the values of that type, without labels. */
  function ImportOrder(ms: seq<MethodInput>): seq<MethodInput> {
    InColumnOrder(GroupByType(ms, Phone), GroupByType(ms, Email),
                  GroupByType(ms, Social), GroupByType(ms, Address))
  }

  /** The candidate the import makes of an exported contact. */
  function Reimported(c: Contact): Candidate {
    Candidate(c.name, c.isBookmarked, ImportOrder(c.methods))
  }

  /** Export then import of one contact: the row yields a candidate with the
      same name and bookmark flag whose methods have, type by type, the same
      values in the same order, and no labels. */
  lemma ExportImportRoundTrip(c: Contact)
    requires Exportable(c)
    ensures ParseRow(ExportRow(c)) == Some(Reimported(c))
  {
    ExportedName(c);
    ExportedBookmark(c);
    ExportedMethods(c);
  }

  /** The import order keeps, type by type, the values and their order. */
  lemma ImportOrderGroups(ms: seq<MethodInput>, t: MethodType)
    ensures GroupByType(ImportOrder(ms), t) == GroupByType(ms, t)
  {
    var ph, em := GroupByType(ms, Phone), GroupByType(ms, Email);
    var so, ad := GroupByType(ms, Social), GroupByType(ms, Address);
    ColumnOrderGroups(ph, em, so, ad, t);
    assert ValuesFor(t, ph, em, so, ad) == GroupByType(ms, t);
  }

  /** The import order carries no labels. */
  lemma ImportOrderUnlabelled(ms: seq<MethodInput>)
    ensures forall m :: m in ImportOrder(ms) ==> m.note == None
  {
    var p := Tagged(Phone, GroupByType(ms, Phone));
    var e := Tagged(Email, GroupByType(ms, Email));
    var s := Tagged(Social, GroupByType(ms, Social));
    var a := Tagged(Address, GroupByType(ms, Address));
    forall m | m in ImportOrder(ms) ensures m.note == None {
      assert m in p || m in e || m in s || m in a;
    }
  }

  lemma ExportedName(c: Contact)
    requires Exportable(c)
    ensures RowName(ExportRow(c)) == c.name
  {
    assert Cell(ExportRow(c), "Name") == c.name;
    TrimOfTrimmed(c.name);
  }

  lemma ExportedBookmark(c: Contact)
    ensures IsBookmarkedText(BookmarkCell(ExportRow(c))) == c.isBookmarked
  {
    assert BookmarkCell(ExportRow(c)) == (if c.isBookmarked then "1" else "0");
    TrimOfTrimmed("1");
    TrimOfTrimmed("0");
  }

  lemma ExportedCell(c: Contact, t: MethodType)
    requires ExportableMethods(c.methods)
    ensures CellValues(MethodCell(ExportRow(c), t)) == GroupByType(c.methods, t)
  {
    assert MethodCell(ExportRow(c), t) == Join(GroupByType(c.methods, t), Separator);
    GroupByTypeExportable(c.methods, t);
    CellValuesOfJoin(GroupByType(c.methods, t));
  }

  lemma ExportedMethods(c: Contact)
    requires ExportableMethods(c.methods)
    ensures RowMethods(ExportRow(c)) == ImportOrder(c.methods)
  {
    ExportedCell(c, Phone);
    ExportedCell(c, Email);
    ExportedCell(c, Social);
    ExportedCell(c, Address);
  }

  /** The (type, value) pairs of a method list. */
  function Pairs(ms: seq<MethodInput>): seq<(MethodType, string)> {
    if ms == [] then []
    else Pairs(ms[..|ms| - 1]) + [(ms[|ms| - 1].kind, ms[|ms| - 1].value)]
  }

  lemma {:induction false} PairsAppend(a: seq<MethodInput>, b: seq<MethodInput>)
    ensures Pairs(a + b) == Pairs(a) + Pairs(b)
  {
    if b == [] {
      assert a + b == a;
    } else {
      var init := b[..|b| - 1];
      assert (a + b)[..|a + b| - 1] == a + init;
      assert (a + b)[|a + b| - 1] == b[|b| - 1];
      PairsAppend(a, init);
    }
  }

  /** The pairs of type `t` that the import rebuilds. */
  function TypedPairs(ms: seq<MethodInput>, t: MethodType): multiset<(MethodType, string)> {
    multiset(Pairs(Tagged(t, GroupByType(ms, t))))
  }

  lemma TypedPairsSnoc(rest: seq<MethodInput>, m: MethodInput, t: MethodType)
    ensures TypedPairs(rest + [m], t) ==
            TypedPairs(rest, t) + (if m.kind == t then multiset{(t, m.value)} else multiset{})
  {
    var ms := rest + [m];
    assert ms[..|ms| - 1] == rest;
    var vs := GroupByType(rest, t);
    assert GroupByType(ms, t) == vs + (if m.kind == t then [m.value] else []);
    if m.kind == t {
      var ws := vs + [m.value];
      assert ws[..|ws| - 1] == vs;
      var x := MethodInput(t, m.value, None);
      var tv := Tagged(t, vs);
      assert Tagged(t, ws) == tv + [x];
      assert (tv + [x])[..|tv|] == tv;
      assert Pairs(tv + [x]) == Pairs(tv) + [(t, m.value)];
      assert multiset(Pairs(tv) + [(t, m.value)]) == multiset(Pairs(tv)) + multiset{(t, m.value)};
    } else {
      assert vs + [] == vs;
    }
  }

  /** The pairs of all four groups together. */
  function GroupedPairs(ms: seq<MethodInput>): multiset<(MethodType, string)> {
    TypedPairs(ms, Phone) + TypedPairs(ms, Email) + TypedPairs(ms, Social) + TypedPairs(ms, Address)
  }

  /** The pairs of the import order, as the sum of its four groups. */
  lemma ImportOrderPairs(ms: seq<MethodInput>)
    ensures multiset(Pairs(ImportOrder(ms))) == GroupedPairs(ms)
  {
    var p := Tagged(Phone, GroupByType(ms, Phone));
    var e := Tagged(Email, GroupByType(ms, Email));
    var s := Tagged(Social, GroupByType(ms, Social));
    var a := Tagged(Address, GroupByType(ms, Address));
    PairsAppend(p, e);
    PairsAppend(p + e, s);
    PairsAppend(p + e + s, a);
  }

  /** The import keeps the multiset of (type, value) pairs of the exported
      contact. */
  lemma {:induction false} ImportOrderKeepsPairs(ms: seq<MethodInput>)
    ensures multiset(Pairs(ImportOrder(ms))) == multiset(Pairs(ms))
  {
    ImportOrderPairs(ms);
    GroupedPairsAll(ms);
  }

  lemma {:induction false} GroupedPairsAll(ms: seq<MethodInput>)
    ensures GroupedPairs(ms) == multiset(Pairs(ms))
  {
    if ms == [] {
      assert GroupedPairs(ms) == multiset{};
    } else {
      var rest, m := ms[..|ms| - 1], ms[|ms| - 1];
      GroupedPairsAll(rest);
      GroupedPairsGrow(ms);
      assert Pairs(ms) == Pairs(rest) + [(m.kind, m.value)];
    }
  }

  /** Appending one method adds its pair to the grouped pairs. */
  lemma GroupedPairsGrow(ms: seq<MethodInput>)
    requires ms != []
    ensures GroupedPairs(ms) ==
            GroupedPairs(ms[..|ms| - 1]) + multiset{(ms[|ms| - 1].kind, ms[|ms| - 1].value)}
  {
    var rest, m := ms[..|ms| - 1], ms[|ms| - 1];
    assert ms == rest + [m];
    TypedPairsSnoc(rest, m, Phone);
    TypedPairsSnoc(rest, m, Email);
    TypedPairsSnoc(rest, m, Social);
    TypedPairsSnoc(rest, m, Address);
    SumWithOne(TypedPairs(rest, Phone), TypedPairs(rest, Email), TypedPairs(rest, Social),
               TypedPairs(rest, Address), m);
  }

  /** Adding one pair to the group of its own type adds it to the sum. */
  lemma SumWithOne(p: multiset<(MethodType, string)>, e: multiset<(MethodType, string)>,
                   s: multiset<(MethodType, string)>, a: multiset<(MethodType, string)>, m: MethodInput)
    ensures var d := multiset{(m.kind, m.value)};
      (p + (if m.kind == Phone then d else multiset{}))
      + (e + (if m.kind == Email then d else multiset{}))
      + (s + (if m.kind == Social then d else multiset{}))
      + (a + (if m.kind == Address then d else multiset{}))
      == p + e + s + a + d
  {
  }

  /** Export then import of a whole list: every contact comes back as one
      candidate, in list order. */
  lemma {:induction false} ExportImportSheet(cs: seq<Contact>)
    requires forall i :: 0 <= i < |cs| ==> Exportable(cs[i])
    ensures |ParseRows(ExportRows(cs))| == |cs|
    ensures forall i :: 0 <= i < |cs| ==> ParseRows(ExportRows(cs))[i] == Reimported(cs[i])
  {
    if cs != [] {
      var init, c := cs[..|cs| - 1], cs[|cs| - 1];
      assert cs == init + [c];
      var rows := ExportRows(cs);
      ExportImportSheet(init);
      var prev := ParseRows(ExportRows(init));
      assert rows[..|rows| - 1] == ExportRows(init);
      assert rows[|rows| - 1] == ExportRow(c);
      ExportImportRoundTrip(c);
      assert ParseRows(rows) == prev + [Reimported(c)];
      ReimportedSnoc(prev, init, c);
    }
  }

  /** The exported sheet passes the header test of the import. */
  lemma ExportedHeader(cs: seq<Contact>)
    requires cs != []
    ensures HasNameHeader(ExportRows(cs)[0])
  {
    ExportRowColumns(cs[0]);
    assert "Name" in Headers;
  }

  lemma ReimportedSnoc(prev: seq<Candidate>, init: seq<Contact>, c: Contact)
    requires |prev| == |init|
    requires forall i :: 0 <= i < |init| ==> prev[i] == Reimported(init[i])
    ensures forall i :: 0 <= i < |init| + 1 ==> (prev + [Reimported(c)])[i] == Reimported((init + [c])[i])
  {
  }

  /** The row limit: 2000 rows pass the count guard, 2001 do not, and the
      message cites the count. */
  lemma RowLimitBoundary()
    ensures !(2000 > MaxRows) && 2001 > MaxRows
    ensures TooManyRowsMessage(2001) == "Too many rows (" + "2001" + "). Please limit to <= " + "2000" + "."
  {
    assert NatToString(2) == "2";
    assert NatToString(20) == "20";
    assert NatToString(200) == "200";
    assert NatToString(2000) == "2000";
    assert NatToString(2001) == "2001";
  }
}
