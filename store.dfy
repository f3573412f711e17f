/** The contact server: two tables, contacts keyed by id and methods that
    each name the contact owning them, and the handlers that read and
    change them. A database snapshot is the value `Db`; every handler of
    the class `Store` moves its fields from one snapshot to the next as a
    transition function of this module says, and the lemmas about those
    functions carry the invariants the handlers keep. */
module ContactStore {
  import opened Text
  import opened Domain

  /** One row of the contact table. `updatedAt` is a tick of the store's
      clock rather than a wall-clock time. */
  datatype ContactRow = ContactRow(name: string, isBookmarked: bool, updatedAt: nat)

  /** One row of the method table. */
  datatype MethodRow = MethodRow(id: nat, contactId: nat, kind: MethodType, value: string, note: Option<string>)

  /** Both tables and the counters that hand out ids and time stamps. */
  datatype Db = Db(contacts: map<nat, ContactRow>, methods: seq<MethodRow>,
                   nextContactId: nat, nextMethodId: nat, clock: nat)

  /** What a handler answers: the JSON body, a 400 or 404 with its message,
      or a failure of the database call (a 500). */
  datatype Response<T> = Ok(value: T) | BadRequest(message: string) | NotFound(message: string) | StoreError

  const NotFoundMessage := "Not found"
  const NotArrayMessage := "contacts must be an array"

  // ---------------------------------------------------------------------
  // Invariants

  /** Every method belongs to a stored contact. */
  predicate NoOrphans(db: Db) {
    forall i :: 0 <= i < |db.methods| ==> db.methods[i].contactId in db.contacts
  }

  /** Contact ids are below the next id, names are trimmed, and the time
      stamps are in the past and tell the contacts apart. */
  predicate ContactsOk(db: Db) {
    (forall id :: id in db.contacts ==>
       id < db.nextContactId && db.contacts[id].updatedAt < db.clock && IsTrimmed(db.contacts[id].name))
    && (forall a, b :: a in db.contacts && b in db.contacts && a != b ==>
          db.contacts[a].updatedAt != db.contacts[b].updatedAt)
  }

  /** Method ids increase along the table and stay below the next id, and
      every stored value is trimmed. */
  predicate MethodsOk(db: Db) {
    (forall i :: 0 <= i < |db.methods| ==> db.methods[i].id < db.nextMethodId && IsTrimmed(db.methods[i].value))
    && (forall i, j :: 0 <= i < j < |db.methods| ==> db.methods[i].id < db.methods[j].id)
  }

  predicate Consistent(db: Db) {
    NoOrphans(db) && ContactsOk(db) && MethodsOk(db)
  }

  // ---------------------------------------------------------------------
  // The method table, per contact

  /** A method as it was given, with its value trimmed: what the create and
      replace handlers store for it. The label is stored as given. */
  function Stored(m: MethodInput): MethodInput {
    MethodInput(m.kind, Trim(m.value), m.note)
  }

  function StoredAll(ms: seq<MethodInput>): (r: seq<MethodInput>)
    ensures |r| == |ms|
  {
    if ms == [] then [] else StoredAll(ms[..|ms| - 1]) + [Stored(ms[|ms| - 1])]
  }

  /** The rows created for methods `ms` of contact `owner`, numbered from
      `first`. */
  function NewRows(owner: nat, first: nat, ms: seq<MethodInput>): (r: seq<MethodRow>)
    ensures |r| == |ms|
  {
    if ms == [] then []
    else
      var m := ms[|ms| - 1];
      NewRows(owner, first, ms[..|ms| - 1]) + [MethodRow(first + |ms| - 1, owner, m.kind, Trim(m.value), m.note)]
  }

  /** The `i`-th new row is the `i`-th method, numbered `first + i`. */
  lemma {:induction false} NewRowsAt(owner: nat, first: nat, ms: seq<MethodInput>)
    ensures forall i :: 0 <= i < |ms| ==>
      NewRows(owner, first, ms)[i] == MethodRow(first + i, owner, ms[i].kind, Trim(ms[i].value), ms[i].note)
  {
    if ms != [] {
      var init := ms[..|ms| - 1];
      NewRowsAt(owner, first, init);
      assert forall i :: 0 <= i < |init| ==> init[i] == ms[i];
    }
  }

  function AsInput(m: MethodRow): MethodInput {
    MethodInput(m.kind, m.value, m.note)
  }

  /** The methods of contact `id`, in table order, as the `include` of a
      query returns them. */
  function MethodsOf(ms: seq<MethodRow>, id: nat): seq<MethodInput> {
    if ms == [] then []
    else
      var last := ms[|ms| - 1];
      MethodsOf(ms[..|ms| - 1], id) + (if last.contactId == id then [AsInput(last)] else [])
  }

  /** The table without the methods of contact `id`. */
  function Others(ms: seq<MethodRow>, id: nat): (r: seq<MethodRow>)
    ensures |r| <= |ms|
  {
    if ms == [] then []
    else
      var last := ms[|ms| - 1];
      Others(ms[..|ms| - 1], id) + (if last.contactId != id then [last] else [])
  }

  lemma {:induction false} MethodsOfAppend(a: seq<MethodRow>, b: seq<MethodRow>, id: nat)
    ensures MethodsOf(a + b, id) == MethodsOf(a, id) + MethodsOf(b, id)
    decreases |b|
  {
    if b == [] {
      assert a + b == a;
    } else {
      var bi, z := b[..|b| - 1], b[|b| - 1];
      var tail := if z.contactId == id then [AsInput(z)] else [];
      MethodsOfAppend(a, bi, id);
      assert (a + b)[..|a + b| - 1] == a + bi;
      assert (a + b)[|a + b| - 1] == z;
      assert MethodsOf(a + b, id) == MethodsOf(a + bi, id) + tail;
      assert MethodsOf(b, id) == MethodsOf(bi, id) + tail;
    }
  }

  /** The new rows of `owner` are its methods, stored; no other contact
      gets any of them. */
  lemma {:induction false} MethodsOfNewRows(owner: nat, first: nat, ms: seq<MethodInput>, id: nat)
    ensures MethodsOf(NewRows(owner, first, ms), id) == if id == owner then StoredAll(ms) else []
    decreases |ms|
  {
    if ms != [] {
      var init, m := ms[..|ms| - 1], ms[|ms| - 1];
      var rows := NewRows(owner, first, ms);
      var row := MethodRow(first + |ms| - 1, owner, m.kind, Trim(m.value), m.note);
      MethodsOfNewRows(owner, first, init, id);
      assert rows == NewRows(owner, first, init) + [row];
      assert rows[..|rows| - 1] == NewRows(owner, first, init);
      assert AsInput(row) == Stored(m);
    }
  }

  /** Dropping the methods of `id` leaves `id` none and every other contact
      all of its own. */
  lemma {:induction false} MethodsOfOthers(ms: seq<MethodRow>, id: nat, other: nat)
    ensures MethodsOf(Others(ms, id), other) == if other == id then [] else MethodsOf(ms, other)
    decreases |ms|
  {
    if ms != [] {
      var init, last := ms[..|ms| - 1], ms[|ms| - 1];
      var kept := if last.contactId != id then [last] else [];
      MethodsOfOthers(init, id, other);
      MethodsOfAppend(Others(init, id), kept, other);
      assert MethodsOf([last], other) == (if last.contactId == other then [AsInput(last)] else []) by {
        assert [last][..0] == [];
      }
    }
  }

  /** `Others` keeps rows of the table, in order, and none of `id`. */
  lemma {:induction false} OthersAreRows(ms: seq<MethodRow>, id: nat)
    ensures forall m :: m in Others(ms, id) ==> m in ms && m.contactId != id
    decreases |ms|
  {
    if ms != [] {
      OthersAreRows(ms[..|ms| - 1], id);
      assert forall m :: m in ms[..|ms| - 1] ==> m in ms;
    }
  }

  /** Filtering keeps the method ids increasing. */
  lemma {:induction false} OthersIncreasing(ms: seq<MethodRow>, id: nat)
    requires forall i, j :: 0 <= i < j < |ms| ==> ms[i].id < ms[j].id
    ensures forall i, j :: 0 <= i < j < |Others(ms, id)| ==> Others(ms, id)[i].id < Others(ms, id)[j].id
    decreases |ms|
  {
    if ms != [] {
      var init, last := ms[..|ms| - 1], ms[|ms| - 1];
      OthersIncreasing(init, id);
      OthersAreRows(init, id);
      var o := Others(init, id);
      forall m | m in o ensures m.id < last.id {
        var k :| 0 <= k < |init| && init[k] == m;
        assert ms[k] == m;
      }
    }
  }

  // ---------------------------------------------------------------------
  // Transitions

  /** Inserts the contact row under the next id, stamped now. */
  function InsertRow(db: Db, name: string, isBookmarked: bool): Db {
    db.(contacts := db.contacts[db.nextContactId := ContactRow(name, isBookmarked, db.clock)],
        nextContactId := db.nextContactId + 1,
        clock := db.clock + 1)
  }

  /** Appends the rows of methods `ms` for contact `owner`. */
  function AppendRows(db: Db, owner: nat, ms: seq<MethodInput>): Db {
    db.(methods := db.methods + NewRows(owner, db.nextMethodId, ms),
        nextMethodId := db.nextMethodId + |ms|)
  }

  /** Deletes every method of contact `id`. */
  function DropMethods(db: Db, id: nat): Db {
    db.(methods := Others(db.methods, id))
  }

  /** Inserts a contact with its methods, as `contact.create` with a nested
      `methods.create` does. */
  function AddContact(db: Db, name: string, isBookmarked: bool, ms: seq<MethodInput>): Db {
    AppendRows(InsertRow(db, name, isBookmarked), db.nextContactId, ms)
  }

  /** The update handler's write: the fields supplied, the name trimmed, and
      a new time stamp. */
  function SetFields(db: Db, id: nat, name: Option<string>, isBookmarked: Option<bool>): Db
    requires id in db.contacts
  {
    var c := db.contacts[id];
    db.(contacts := db.contacts[id := ContactRow(
          if name.Some? then Trim(name.value) else c.name,
          if isBookmarked.Some? then isBookmarked.value else c.isBookmarked,
          db.clock)],
        clock := db.clock + 1)
  }

  /** The toggle handler's write: the flag negated and a new time stamp. */
  function Toggle(db: Db, id: nat): Db
    requires id in db.contacts
  {
    SetFields(db, id, None, Some(!db.contacts[id].isBookmarked))
  }

  /** Deletes a contact; the cascade of the foreign key deletes its
      methods. */
  function RemoveContact(db: Db, id: nat): Db {
    DropMethods(db, id).(contacts := db.contacts - {id})
  }

  /** `deleteMany` of the methods of `id` followed by `createMany` of
      `ms`. */
  function ReplaceOwn(db: Db, id: nat, ms: seq<MethodInput>): Db {
    AppendRows(DropMethods(db, id), id, ms)
  }

  /** A contact and its methods, as the handlers answer them. */
  function View(db: Db, id: nat): Contact
    requires id in db.contacts
  {
    Contact(id, db.contacts[id].name, db.contacts[id].isBookmarked, MethodsOf(db.methods, id))
  }

  // ---------------------------------------------------------------------
  // What the transitions do

  /** A new contact gets the next id, the given flag, the trimmed name and
      exactly its methods with trimmed values; every other contact keeps
      its row and its methods. The store stays consistent. */
  lemma AddContactEffect(db: Db, name: string, isBookmarked: bool, ms: seq<MethodInput>)
    requires Consistent(db)
    ensures db.nextContactId !in db.contacts
    ensures View(AddContact(db, name, isBookmarked, ms), db.nextContactId)
      == Contact(db.nextContactId, name, isBookmarked, StoredAll(ms))
    ensures forall id :: id in db.contacts ==>
      id in AddContact(db, name, isBookmarked, ms).contacts
      && View(AddContact(db, name, isBookmarked, ms), id) == View(db, id)
  {
    AddContactNew(db, name, isBookmarked, ms);
    forall id | id in db.contacts
      ensures id in AddContact(db, name, isBookmarked, ms).contacts
      ensures View(AddContact(db, name, isBookmarked, ms), id) == View(db, id)
    {
      AddContactKeeps(db, name, isBookmarked, ms, id);
    }
  }

  lemma AddContactNew(db: Db, name: string, isBookmarked: bool, ms: seq<MethodInput>)
    requires Consistent(db)
    ensures db.nextContactId !in db.contacts
    ensures View(AddContact(db, name, isBookmarked, ms), db.nextContactId)
      == Contact(db.nextContactId, name, isBookmarked, StoredAll(ms))
  {
    var n := db.nextContactId;
    var rows := NewRows(n, db.nextMethodId, ms);
    MethodsOfAppend(db.methods, rows, n);
    MethodsOfNewRows(n, db.nextMethodId, ms, n);
    MethodsOfAbsent(db.methods, n);
  }

  lemma AddContactKeeps(db: Db, name: string, isBookmarked: bool, ms: seq<MethodInput>, id: nat)
    requires id in db.contacts && id != db.nextContactId
    ensures id in AddContact(db, name, isBookmarked, ms).contacts
    ensures View(AddContact(db, name, isBookmarked, ms), id) == View(db, id)
  {
    var rows := NewRows(db.nextContactId, db.nextMethodId, ms);
    MethodsOfAppend(db.methods, rows, id);
    MethodsOfNewRows(db.nextContactId, db.nextMethodId, ms, id);
  }

  /** A contact that is not stored owns no method. */
  lemma {:induction false} MethodsOfAbsent(ms: seq<MethodRow>, id: nat)
    requires forall i :: 0 <= i < |ms| ==> ms[i].contactId != id
    ensures MethodsOf(ms, id) == []
    decreases |ms|
  {
    if ms != [] {
      MethodsOfAbsent(ms[..|ms| - 1], id);
    }
  }

  lemma InsertRowConsistent(db: Db, name: string, isBookmarked: bool)
    requires Consistent(db) && IsTrimmed(name)
    ensures Consistent(InsertRow(db, name, isBookmarked))
  {
  }

  lemma AppendRowsConsistent(db: Db, owner: nat, ms: seq<MethodInput>)
    requires Consistent(db) && owner in db.contacts
    ensures Consistent(AppendRows(db, owner, ms))
  {
    var db' := AppendRows(db, owner, ms);
    var rows := NewRows(owner, db.nextMethodId, ms);
    NewRowsAt(owner, db.nextMethodId, ms);
    assert forall i :: 0 <= i < |rows| ==> db.nextMethodId <= rows[i].id < db'.nextMethodId;
    assert forall i :: 0 <= i < |db'.methods| ==>
      db'.methods[i] == if i < |db.methods| then db.methods[i] else rows[i - |db.methods|];
  }

  lemma DropMethodsConsistent(db: Db, id: nat)
    requires Consistent(db)
    ensures Consistent(DropMethods(db, id))
  {
    var o := Others(db.methods, id);
    OthersAreRows(db.methods, id);
    OthersIncreasing(db.methods, id);
    assert forall i :: 0 <= i < |o| ==> o[i] in db.methods;
  }

  lemma AddContactConsistent(db: Db, name: string, isBookmarked: bool, ms: seq<MethodInput>)
    requires Consistent(db) && IsTrimmed(name)
    ensures Consistent(AddContact(db, name, isBookmarked, ms))
  {
    InsertRowConsistent(db, name, isBookmarked);
    AppendRowsConsistent(InsertRow(db, name, isBookmarked), db.nextContactId, ms);
  }

  /** An update writes only the fields it is given (the name trimmed) into
      contact `id`; its methods, the other contacts and the method table
      stay as they were. */
  lemma SetFieldsEffect(db: Db, id: nat, name: Option<string>, isBookmarked: Option<bool>)
    requires Consistent(db) && id in db.contacts
    ensures Consistent(SetFields(db, id, name, isBookmarked))
    ensures SetFields(db, id, name, isBookmarked).contacts.Keys == db.contacts.Keys
    ensures SetFields(db, id, name, isBookmarked).methods == db.methods
    ensures var c := SetFields(db, id, name, isBookmarked).contacts[id];
      (c.name == if name.Some? then Trim(name.value) else db.contacts[id].name)
      && (c.isBookmarked == if isBookmarked.Some? then isBookmarked.value else db.contacts[id].isBookmarked)
    ensures forall k :: k in db.contacts && k != id ==>
      SetFields(db, id, name, isBookmarked).contacts[k] == db.contacts[k]
  {
  }

  /** Toggling flips the flag of `id` only, and toggling twice gives the
      flag back. */
  lemma ToggleEffect(db: Db, id: nat)
    requires Consistent(db) && id in db.contacts
    ensures Consistent(Toggle(db, id))
    ensures Toggle(db, id).contacts[id].isBookmarked == !db.contacts[id].isBookmarked
    ensures Toggle(db, id).contacts[id].name == db.contacts[id].name
    ensures Toggle(Toggle(db, id), id).contacts[id].isBookmarked == db.contacts[id].isBookmarked
    ensures forall k :: k in db.contacts && k != id ==> Toggle(db, id).contacts[k] == db.contacts[k]
  {
    SetFieldsEffect(db, id, None, Some(!db.contacts[id].isBookmarked));
  }

  /** After a delete neither the contact nor any method of it is left, and
      the store stays consistent. */
  lemma RemoveContactEffect(db: Db, id: nat)
    requires Consistent(db)
    ensures Consistent(RemoveContact(db, id))
    ensures id !in RemoveContact(db, id).contacts
    ensures forall i :: 0 <= i < |RemoveContact(db, id).methods| ==> RemoveContact(db, id).methods[i].contactId != id
  {
    var o := Others(db.methods, id);
    DropMethodsConsistent(db, id);
    OthersAreRows(db.methods, id);
    assert forall i :: 0 <= i < |o| ==> o[i] in o;
  }

  /** A delete leaves every other contact its row and its methods. */
  lemma RemoveContactKeeps(db: Db, id: nat, k: nat)
    requires k in db.contacts && k != id
    ensures k in RemoveContact(db, id).contacts && View(RemoveContact(db, id), k) == View(db, k)
  {
    MethodsOfOthers(db.methods, id, k);
  }

  /** After replacing, the methods of `id` are exactly the given ones with
      trimmed values, in order; every other contact keeps its methods. */
  lemma ReplaceOwnEffect(db: Db, id: nat, ms: seq<MethodInput>)
    requires Consistent(db) && id in db.contacts
    ensures Consistent(ReplaceOwn(db, id, ms))
    ensures ReplaceOwn(db, id, ms).contacts == db.contacts
    ensures MethodsOf(ReplaceOwn(db, id, ms).methods, id) == StoredAll(ms)
    ensures forall k :: k != id ==> MethodsOf(ReplaceOwn(db, id, ms).methods, k) == MethodsOf(db.methods, k)
  {
    var rows := NewRows(id, db.nextMethodId, ms);
    ReplaceOwnConsistent(db, id, ms);
    MethodsOfAppend(Others(db.methods, id), rows, id);
    MethodsOfOthers(db.methods, id, id);
    MethodsOfNewRows(id, db.nextMethodId, ms, id);
    forall k | k != id
      ensures MethodsOf(ReplaceOwn(db, id, ms).methods, k) == MethodsOf(db.methods, k)
    {
      MethodsOfAppend(Others(db.methods, id), rows, k);
      MethodsOfOthers(db.methods, id, k);
      MethodsOfNewRows(id, db.nextMethodId, ms, k);
    }
  }

  lemma ReplaceOwnConsistent(db: Db, id: nat, ms: seq<MethodInput>)
    requires Consistent(db) && id in db.contacts
    ensures Consistent(ReplaceOwn(db, id, ms))
  {
    DropMethodsConsistent(db, id);
    AppendRowsConsistent(DropMethods(db, id), id, ms);
  }

  // ---------------------------------------------------------------------
  // Listing

  /** The query `bookmarked=1` or `bookmarked=true` asks for bookmarked
      contacts only. */
  predicate FilterOn(query: Option<string>) {
    query == Some("1") || query == Some("true")
  }

  /** Contact `id` is part of the answer. */
  predicate Selected(db: Db, only: bool, id: nat) {
    id in db.contacts && (only ==> db.contacts[id].isBookmarked)
  }

  /** The selected ids below `n`, in increasing order. */
  function SelectedBelow(db: Db, only: bool, n: nat): (r: seq<nat>)
    ensures forall k :: 0 <= k < |r| ==> r[k] < n && Selected(db, only, r[k])
    ensures forall i, j :: 0 <= i < j < |r| ==> r[i] < r[j]
  {
    if n == 0 then []
    else SelectedBelow(db, only, n - 1) + (if Selected(db, only, n - 1) then [n - 1] else [])
  }

  lemma {:induction false} SelectedBelowComplete(db: Db, only: bool, n: nat, id: nat)
    requires id < n && Selected(db, only, id)
    ensures id in SelectedBelow(db, only, n)
  {
    if id < n - 1 {
      SelectedBelowComplete(db, only, n - 1, id);
    }
  }

  /** `orderBy: [{isBookmarked: "desc"}, {updatedAt: "desc"}]`: `a` may be
      listed before `b`. */
  predicate NotAfter(a: ContactRow, b: ContactRow) {
    (a.isBookmarked && !b.isBookmarked)
    || (a.isBookmarked == b.isBookmarked && a.updatedAt >= b.updatedAt)
  }

  predicate AllStored(db: Db, ids: seq<nat>) {
    forall k :: 0 <= k < |ids| ==> ids[k] in db.contacts
  }

  predicate InListOrder(db: Db, ids: seq<nat>)
    requires AllStored(db, ids)
  {
    forall k :: 0 <= k < |ids| - 1 ==> NotAfter(db.contacts[ids[k]], db.contacts[ids[k + 1]])
  }

  predicate Distinct(ids: seq<nat>) {
    forall i, j :: 0 <= i < j < |ids| ==> ids[i] != ids[j]
  }

  function InsertId(db: Db, id: nat, ids: seq<nat>): (r: seq<nat>)
    requires id in db.contacts && AllStored(db, ids)
    ensures |r| == |ids| + 1 && multiset(r) == multiset(ids) + multiset{id}
    ensures AllStored(db, r)
    ensures r[0] == id || (ids != [] && r[0] == ids[0])
  {
    if ids == [] then [id]
    else if NotAfter(db.contacts[id], db.contacts[ids[0]]) then [id] + ids
    else
      var rest := InsertId(db, id, ids[1..]);
      assert ids == [ids[0]] + ids[1..];
      [ids[0]] + rest
  }

  function SortIds(db: Db, ids: seq<nat>): (r: seq<nat>)
    requires AllStored(db, ids)
    ensures |r| == |ids| && multiset(r) == multiset(ids)
    ensures AllStored(db, r)
  {
    if ids == [] then []
    else
      var rest := SortIds(db, ids[1..]);
      assert ids == [ids[0]] + ids[1..];
      InsertId(db, ids[0], rest)
  }

  lemma {:induction false} InsertIdInOrder(db: Db, id: nat, ids: seq<nat>)
    requires id in db.contacts && AllStored(db, ids) && InListOrder(db, ids)
    ensures InListOrder(db, InsertId(db, id, ids))
  {
    if ids != [] && !NotAfter(db.contacts[id], db.contacts[ids[0]]) {
      var tail := ids[1..];
      assert InListOrder(db, tail) by {
        assert forall k :: 0 <= k < |tail| ==> tail[k] == ids[k + 1];
      }
      InsertIdInOrder(db, id, tail);
      var rest := InsertId(db, id, tail);
      var r := [ids[0]] + rest;
      assert NotAfter(db.contacts[ids[0]], db.contacts[rest[0]]);
      assert forall k :: 1 <= k < |r| ==> r[k] == rest[k - 1];
    }
  }

  lemma {:induction false} InsertIdDistinct(db: Db, id: nat, ids: seq<nat>)
    requires id in db.contacts && AllStored(db, ids) && Distinct(ids) && id !in ids
    ensures Distinct(InsertId(db, id, ids))
  {
    if ids != [] && !NotAfter(db.contacts[id], db.contacts[ids[0]]) {
      var tail := ids[1..];
      assert forall k :: 0 <= k < |tail| ==> tail[k] == ids[k + 1];
      InsertIdDistinct(db, id, tail);
      var rest := InsertId(db, id, tail);
      assert ids[0] !in multiset(rest);
      var r := [ids[0]] + rest;
      assert forall k :: 1 <= k < |r| ==> r[k] == rest[k - 1];
    }
  }

  lemma {:induction false} SortIdsFacts(db: Db, ids: seq<nat>)
    requires AllStored(db, ids) && Distinct(ids)
    ensures InListOrder(db, SortIds(db, ids)) && Distinct(SortIds(db, ids))
  {
    if ids != [] {
      var tail := ids[1..];
      assert forall k :: 0 <= k < |tail| ==> tail[k] == ids[k + 1];
      SortIdsFacts(db, tail);
      var rest := SortIds(db, tail);
      assert ids[0] !in multiset(rest);
      InsertIdInOrder(db, ids[0], rest);
      InsertIdDistinct(db, ids[0], rest);
    }
  }

  /** The ids of the list handler's answer, in order. */
  function ListedIds(db: Db, only: bool): (r: seq<nat>)
    requires ContactsOk(db)
    ensures AllStored(db, r)
  {
    SortIds(db, SelectedBelow(db, only, db.nextContactId))
  }

  /** The list handler's answer holds every selected contact once and no
      other, bookmarked ones first and later updates first. */
  lemma ListedIdsFacts(db: Db, only: bool)
    requires ContactsOk(db)
    ensures forall k :: 0 <= k < |ListedIds(db, only)| ==> Selected(db, only, ListedIds(db, only)[k])
    ensures forall id :: Selected(db, only, id) ==> id in ListedIds(db, only)
    ensures Distinct(ListedIds(db, only)) && InListOrder(db, ListedIds(db, only))
  {
    var sel := SelectedBelow(db, only, db.nextContactId);
    var r := ListedIds(db, only);
    SortIdsFacts(db, sel);
    forall k | 0 <= k < |r| ensures Selected(db, only, r[k]) {
      assert r[k] in multiset(sel);
    }
    forall id | Selected(db, only, id) ensures id in r {
      SelectedBelowComplete(db, only, db.nextContactId, id);
      assert id in multiset(r);
    }
  }

  /** The list handler's answer. */
  function Listing(db: Db, only: bool): (r: seq<Contact>)
    requires ContactsOk(db)
  {
    var ids := ListedIds(db, only);
    seq(|ids|, k requires 0 <= k < |ids| => View(db, ids[k]))
  }

  /** The answer lists selected contacts only, each with its methods. */
  lemma ListingSelects(db: Db, only: bool)
    requires ContactsOk(db)
    ensures forall i :: 0 <= i < |Listing(db, only)| ==>
      Listing(db, only)[i].id in db.contacts && Listing(db, only)[i] == View(db, Listing(db, only)[i].id)
      && Selected(db, only, Listing(db, only)[i].id)
  {
    var ids := ListedIds(db, only);
    ListedIdsFacts(db, only);
    assert forall k :: 0 <= k < |ids| ==> Listing(db, only)[k] == View(db, ids[k]);
  }

  /** The answer lists every selected contact. */
  lemma ListingComplete(db: Db, only: bool, id: nat)
    requires ContactsOk(db) && Selected(db, only, id)
    ensures exists i :: 0 <= i < |Listing(db, only)| && Listing(db, only)[i].id == id
  {
    var ids := ListedIds(db, only);
    ListedIdsFacts(db, only);
    var k :| 0 <= k < |ids| && ids[k] == id;
    assert Listing(db, only)[k].id == id;
  }

  /** The answer lists no contact twice, bookmarked contacts first and the
      more recently updated first. */
  lemma ListingOrder(db: Db, only: bool)
    requires ContactsOk(db)
    ensures forall i, j :: 0 <= i < j < |Listing(db, only)| ==> Listing(db, only)[i].id != Listing(db, only)[j].id
    ensures forall i :: 0 <= i < |Listing(db, only)| - 1 ==>
      NotAfter(db.contacts[Listing(db, only)[i].id], db.contacts[Listing(db, only)[i + 1].id])
  {
    var ids := ListedIds(db, only);
    ListedIdsFacts(db, only);
    assert forall k :: 0 <= k < |ids| ==> Listing(db, only)[k].id == ids[k];
  }

  // ---------------------------------------------------------------------
  // Bulk import

  /** One entry of the bulk payload; an entry without a name (or a null
      entry) has `name == None`. */
  datatype BulkItem = BulkItem(name: Option<string>, isBookmarked: bool, methods: seq<MethodInput>)

  /** The `contacts` field of the body: something that is not an array, or
      the entries of one (an absent field is the empty array). */
  datatype BulkPayload = NotArray | Items(items: seq<BulkItem>)

  /** `c?.name?.trim()` is not empty. */
  predicate Named(x: BulkItem) {
    x.name.Some? && Trim(x.name.value) != []
  }

  /** The contacts the transaction creates, in payload order: the named
      entries with their names trimmed. */
  function Kept(items: seq<BulkItem>): (r: seq<Candidate>)
    ensures |r| <= |items|
  {
    if items == [] then []
    else
      var x := items[|items| - 1];
      Kept(items[..|items| - 1])
        + (if Named(x) then [Candidate(Trim(x.name.value), x.isBookmarked, x.methods)] else [])
  }

  /** Every contact the transaction creates has a non-empty, trimmed
      name. */
  lemma {:induction false} KeptNames(items: seq<BulkItem>)
    ensures forall k :: 0 <= k < |Kept(items)| ==> Kept(items)[k].name != [] && IsTrimmed(Kept(items)[k].name)
  {
    if items != [] {
      KeptNames(items[..|items| - 1]);
    }
  }

  /** The store after creating `cs` one after the other. */
  function AddAll(db: Db, cs: seq<Candidate>): Db
  {
    if cs == [] then db
    else
      var c := cs[|cs| - 1];
      AddContact(AddAll(db, cs[..|cs| - 1]), c.name, c.isBookmarked, c.methods)
  }

  /** Creating contacts in turn keeps the store consistent and hands out
      one new id per candidate. */
  lemma {:induction false} AddAllConsistent(db: Db, cs: seq<Candidate>)
    requires Consistent(db)
    requires forall k :: 0 <= k < |cs| ==> IsTrimmed(cs[k].name)
    ensures Consistent(AddAll(db, cs))
    ensures AddAll(db, cs).nextContactId == db.nextContactId + |cs|
  {
    if cs != [] {
      var init, c := cs[..|cs| - 1], cs[|cs| - 1];
      assert forall k :: 0 <= k < |init| ==> init[k] == cs[k];
      AddAllConsistent(db, init);
      AddContactConsistent(AddAll(db, init), c.name, c.isBookmarked, c.methods);
    }
  }

  /** Creating contacts adds exactly one contact per candidate and leaves
      every earlier contact as it was. */
  lemma {:induction false} AddAllKeeps(db: Db, cs: seq<Candidate>)
    requires Consistent(db)
    requires forall k :: 0 <= k < |cs| ==> IsTrimmed(cs[k].name)
    ensures |AddAll(db, cs).contacts| == |db.contacts| + |cs|
    ensures forall id :: id in db.contacts ==> id in AddAll(db, cs).contacts && View(AddAll(db, cs), id) == View(db, id)
  {
    if cs != [] {
      var init, c := cs[..|cs| - 1], cs[|cs| - 1];
      assert forall k :: 0 <= k < |init| ==> init[k] == cs[k];
      AddAllKeeps(db, init);
      AddAllConsistent(db, init);
      var mid := AddAll(db, init);
      AddContactEffect(mid, c.name, c.isBookmarked, c.methods);
      assert |mid.contacts[mid.nextContactId := ContactRow(c.name, c.isBookmarked, mid.clock)]| == |mid.contacts| + 1;
    }
  }

  /** The `k`-th candidate becomes the contact with the `k`-th new id, with
      its name, its flag and its methods with trimmed values. */
  lemma {:induction false} AddAllCreates(db: Db, cs: seq<Candidate>, k: nat)
    requires Consistent(db)
    requires forall k :: 0 <= k < |cs| ==> IsTrimmed(cs[k].name)
    requires k < |cs|
    ensures db.nextContactId + k in AddAll(db, cs).contacts
    ensures View(AddAll(db, cs), db.nextContactId + k)
      == Contact(db.nextContactId + k, cs[k].name, cs[k].isBookmarked, StoredAll(cs[k].methods))
  {
    var init, c := cs[..|cs| - 1], cs[|cs| - 1];
    assert forall j :: 0 <= j < |init| ==> init[j] == cs[j];
    AddAllConsistent(db, init);
    var mid := AddAll(db, init);
    assert AddAll(db, cs) == AddContact(mid, c.name, c.isBookmarked, c.methods);
    AddContactEffect(mid, c.name, c.isBookmarked, c.methods);
    if k < |init| {
      AddAllCreates(db, init, k);
      assert db.nextContactId + k in mid.contacts;
    } else {
      assert db.nextContactId + k == mid.nextContactId && cs[k] == c;
    }
  }

  /** The positions below `n` of the entries whose name is not blank. */
  function NamedBelow(items: seq<BulkItem>, n: nat): set<nat>
    requires n <= |items|
  {
    set k: nat | k < n && Named(items[k])
  }

  lemma NamedBelowStep(items: seq<BulkItem>, n: nat)
    requires n < |items|
    ensures NamedBelow(items, n + 1) == NamedBelow(items, n) + (if Named(items[n]) then {n} else {})
    ensures n !in NamedBelow(items, n)
  {
  }

  lemma NamedBelowPrefix(items: seq<BulkItem>, n: nat)
    requires n < |items|
    ensures NamedBelow(items[..n], n) == NamedBelow(items, n)
  {
    assert forall k :: 0 <= k < n ==> items[..n][k] == items[k];
  }

  /** The payload yields one created contact per entry whose name is not
      blank. */
  lemma {:induction false} KeptCount(items: seq<BulkItem>)
    ensures |Kept(items)| == |NamedBelow(items, |items|)|
  {
    if items != [] {
      var n := |items| - 1;
      KeptCount(items[..n]);
      NamedBelowPrefix(items, n);
      NamedBelowStep(items, n);
    }
  }

  /** The creation the transaction would be making when the fault strikes:
      the entry at `faultAt` is one that gets created. */
  predicate FaultHits(items: seq<BulkItem>, faultAt: Option<nat>) {
    faultAt.Some? && faultAt.value < |items| && Named(items[faultAt.value])
  }

  // ---------------------------------------------------------------------
  // The server

  class Store {
    var contacts: map<nat, ContactRow>
    var methods: seq<MethodRow>
    var nextContactId: nat
    var nextMethodId: nat
    var clock: nat

    function Snapshot(): Db
      reads this
    {
      Db(contacts, methods, nextContactId, nextMethodId, clock)
    }

    predicate Valid()
      reads this
    {
      Consistent(Snapshot())
    }

    /** An empty database. */
    constructor ()
      ensures Valid() && Snapshot() == Db(map[], [], 0, 0, 0)
    {
      contacts, methods := map[], [];
      nextContactId, nextMethodId, clock := 0, 0, 0;
    }

    /** `GET /contacts`: every contact with its methods, or only the
        bookmarked ones when the query asks for them; bookmarked contacts
        first, then the most recently updated first. */
    method List(bookmarked: Option<string>) returns (r: seq<Contact>)
      requires Valid()
      ensures forall i :: 0 <= i < |r| ==> r[i].id in contacts && r[i] == View(Snapshot(), r[i].id)
      ensures FilterOn(bookmarked) ==> forall i :: 0 <= i < |r| ==> r[i].isBookmarked
      ensures forall id :: id in contacts && (FilterOn(bookmarked) ==> contacts[id].isBookmarked) ==>
        exists i :: 0 <= i < |r| && r[i].id == id
      ensures forall i, j :: 0 <= i < j < |r| ==> r[i].id != r[j].id
      ensures forall i :: 0 <= i < |r| - 1 ==> NotAfter(contacts[r[i].id], contacts[r[i + 1].id])
    {
      var db, only := Snapshot(), FilterOn(bookmarked);
      r := Listing(db, only);
      ListingSelects(db, only);
      ListingOrder(db, only);
      forall id | id in contacts && (only ==> contacts[id].isBookmarked)
        ensures exists i :: 0 <= i < |r| && r[i].id == id
      {
        ListingComplete(db, only, id);
      }
    }

    /** The write of `contact.create`: a new contact row and its method
        rows. */
    method InsertContact(name: string, isBookmarked: bool, ms: seq<MethodInput>) returns (id: nat)
      requires Valid() && IsTrimmed(name)
      modifies this
      ensures Valid()
      ensures id == old(nextContactId)
      ensures Snapshot() == AddContact(old(Snapshot()), name, isBookmarked, ms)
    {
      AddContactConsistent(Snapshot(), name, isBookmarked, ms);
      id := nextContactId;
      contacts := contacts[id := ContactRow(name, isBookmarked, clock)];
      methods := methods + NewRows(id, nextMethodId, ms);
      nextContactId := id + 1;
      nextMethodId := nextMethodId + |ms|;
      clock := clock + 1;
    }

    /** `POST /contacts`: refuses a missing or blank name; otherwise stores
        the trimmed name, the flag and the methods with trimmed values. */
    method Create(name: Option<string>, isBookmarked: bool, ms: seq<MethodInput>) returns (r: Response<Contact>)
      requires Valid()
      modifies this
      ensures Valid()
      ensures name.None? || AllSpace(name.value) ==>
        r == BadRequest(NameRequiredMessage) && Snapshot() == old(Snapshot())
      ensures name.Some? && !AllSpace(name.value) ==>
        Snapshot() == AddContact(old(Snapshot()), Trim(name.value), isBookmarked, ms)
        && r == Ok(Contact(old(nextContactId), Trim(name.value), isBookmarked, StoredAll(ms)))
    {
      if name.None? {
        return BadRequest(NameRequiredMessage);
      }
      TrimEmptyOnlyForSpace(name.value);
      var trimmed := Trim(name.value);
      if trimmed == [] {
        return BadRequest(NameRequiredMessage);
      }
      AddContactEffect(Snapshot(), trimmed, isBookmarked, ms);
      var id := InsertContact(trimmed, isBookmarked, ms);
      r := Ok(View(Snapshot(), id));
    }

    /** `PUT /contacts/:id`: writes the fields supplied, the name trimmed;
        an unknown id makes the database call fail. */
    method Update(id: nat, name: Option<string>, isBookmarked: Option<bool>) returns (r: Response<Contact>)
      requires Valid()
      modifies this
      ensures Valid()
      ensures id !in old(contacts) ==> r == StoreError && Snapshot() == old(Snapshot())
      ensures id in old(contacts) ==>
        Snapshot() == SetFields(old(Snapshot()), id, name, isBookmarked)
        && r == Ok(View(Snapshot(), id))
    {
      if id !in contacts {
        return StoreError;
      }
      SetFieldsEffect(Snapshot(), id, name, isBookmarked);
      var c := contacts[id];
      contacts := contacts[id := ContactRow(
        if name.Some? then Trim(name.value) else c.name,
        if isBookmarked.Some? then isBookmarked.value else c.isBookmarked,
        clock)];
      clock := clock + 1;
      r := Ok(View(Snapshot(), id));
    }

    /** `DELETE /contacts/:id`: removes the contact and, by the cascade, its
        methods; an unknown id makes the database call fail. */
    method Delete(id: nat) returns (r: Response<bool>)
      requires Valid()
      modifies this
      ensures Valid()
      ensures id !in old(contacts) ==> r == StoreError && Snapshot() == old(Snapshot())
      ensures id in old(contacts) ==> r == Ok(true) && Snapshot() == RemoveContact(old(Snapshot()), id)
    {
      if id !in contacts {
        return StoreError;
      }
      RemoveContactEffect(Snapshot(), id);
      contacts := contacts - {id};
      methods := Others(methods, id);
      r := Ok(true);
    }

    /** `PATCH /contacts/:id/bookmark`: 404 for an unknown id, otherwise the
        flag negated; the answer is the updated contact row. */
    method ToggleBookmark(id: nat) returns (r: Response<(nat, ContactRow)>)
      requires Valid()
      modifies this
      ensures Valid()
      ensures id !in old(contacts) ==> r == NotFound(NotFoundMessage) && Snapshot() == old(Snapshot())
      ensures id in old(contacts) ==>
        Snapshot() == Toggle(old(Snapshot()), id) && r == Ok((id, contacts[id]))
    {
      if id !in contacts {
        return NotFound(NotFoundMessage);
      }
      var existing := contacts[id];
      ToggleEffect(Snapshot(), id);
      contacts := contacts[id := ContactRow(existing.name, !existing.isBookmarked, clock)];
      clock := clock + 1;
      r := Ok((id, contacts[id]));
    }

    /** `PUT /contacts/:id/methods`: deletes the contact's methods, then
        inserts the given ones; the answer is the contact with its methods,
        or null when there is no such contact. Inserting methods for an
        unknown contact breaks the foreign key and fails, after the delete
        has removed nothing. */
    method ReplaceMethods(id: nat, ms: seq<MethodInput>) returns (r: Response<Option<Contact>>)
      requires Valid()
      modifies this
      ensures Valid()
      ensures id in old(contacts) ==>
        Snapshot() == ReplaceOwn(old(Snapshot()), id, ms) && r == Ok(Some(View(Snapshot(), id)))
      ensures id !in old(contacts) ==>
        Snapshot() == old(Snapshot()) && r == (if ms == [] then Ok(None) else StoreError)
    {
      if id in contacts {
        ReplaceOwnEffect(Snapshot(), id, ms);
      } else {
        OthersOfAbsent(methods, id);
      }
      DeleteMethodsOf(id);
      if ms != [] && id !in contacts {
        return StoreError;
      }
      CreateMethods(id, ms);
      if id in contacts {
        r := Ok(Some(View(Snapshot(), id)));
      } else {
        r := Ok(None);
      }
    }

    /** `contactMethod.deleteMany({where: {contactId: id}})`. */
    method DeleteMethodsOf(id: nat)
      requires Valid()
      modifies this
      ensures Valid() && Snapshot() == DropMethods(old(Snapshot()), id)
    {
      DropMethodsConsistent(Snapshot(), id);
      methods := Others(methods, id);
    }

    /** `contactMethod.createMany` of the methods `ms` of contact `id`. */
    method CreateMethods(id: nat, ms: seq<MethodInput>)
      requires Valid() && (id in contacts || ms == [])
      modifies this
      ensures Valid() && Snapshot() == AppendRows(old(Snapshot()), id, ms)
    {
      if ms != [] {
        AppendRowsConsistent(Snapshot(), id, ms);
      } else {
        assert methods + NewRows(id, nextMethodId, ms) == methods;
      }
      methods := methods + NewRows(id, nextMethodId, ms);
      nextMethodId := nextMethodId + |ms|;
    }

    /** `POST /contacts/bulk`: refuses a payload that is not an array;
        otherwise creates, in one transaction, a contact for every entry
        with a non-blank name and answers their number. When the creation
        at entry `faultAt` fails, the transaction is rolled back: nothing
        it wrote is kept. */
    method BulkImport(payload: BulkPayload, faultAt: Option<nat>) returns (r: Response<nat>)
      requires Valid()
      modifies this
      ensures Valid()
      ensures payload.NotArray? ==> r == BadRequest(NotArrayMessage) && Snapshot() == old(Snapshot())
      ensures payload.Items? && FaultHits(payload.items, faultAt) ==>
        r == StoreError && Snapshot() == old(Snapshot())
      ensures payload.Items? && !FaultHits(payload.items, faultAt) ==>
        r == Ok(|Kept(payload.items)|) && Snapshot() == AddAll(old(Snapshot()), Kept(payload.items))
    {
      if payload.NotArray? {
        return BadRequest(NotArrayMessage);
      }
      var failed, created, db := Transaction(Snapshot(), payload.items, faultAt);
      if failed {
        return StoreError;
      }
      KeptNames(payload.items);
      AddAllConsistent(Snapshot(), Kept(payload.items));
      Commit(db);
      r := Ok(created);
    }

    /** Writes the tables of a committed transaction. */
    method Commit(db: Db)
      requires Consistent(db)
      modifies this
      ensures Valid() && Snapshot() == db
    {
      contacts, methods := db.contacts, db.methods;
      nextContactId, nextMethodId, clock := db.nextContactId, db.nextMethodId, db.clock;
    }
  }

  /** The body of the bulk transaction, on the tables `db` as the
      transaction sees them: creates the named entries in turn, and stops
      when the creation at `faultAt` fails. */
  method Transaction(db: Db, items: seq<BulkItem>, faultAt: Option<nat>) returns (failed: bool, created: nat, out: Db)
    ensures failed <==> FaultHits(items, faultAt)
    ensures !failed ==> created == |Kept(items)| && out == AddAll(db, Kept(items))
  {
    created, out := 0, db;
    ghost var kept: seq<Candidate> := [];
    var i := 0;
    while i < |items|
      invariant 0 <= i <= |items|
      invariant kept == Kept(items[..i])
      invariant out == AddAll(db, kept)
      invariant created == |kept|
      invariant !FaultHits(items[..i], faultAt)
    {
      var c := items[i];
      KeptStep(items, i);
      FaultStep(items, i, faultAt);
      if Named(c) {
        if faultAt == Some(i) {
          return true, created, out;
        }
        var cand := Candidate(Trim(c.name.value), c.isBookmarked, c.methods);
        AddAllStep(db, kept, cand);
        out := AddContact(out, cand.name, cand.isBookmarked, cand.methods);
        kept := kept + [cand];
        created := created + 1;
      }
      i := i + 1;
    }
    assert items[..i] == items;
    failed := false;
  }

  /** Deleting the methods of a contact that owns none changes nothing. */
  lemma {:induction false} OthersOfAbsent(ms: seq<MethodRow>, id: nat)
    requires forall i :: 0 <= i < |ms| ==> ms[i].contactId != id
    ensures Others(ms, id) == ms
    decreases |ms|
  {
    if ms != [] {
      OthersOfAbsent(ms[..|ms| - 1], id);
      assert ms[..|ms| - 1] + [ms[|ms| - 1]] == ms;
    }
  }

  lemma KeptStep(items: seq<BulkItem>, i: nat)
    requires i < |items|
    ensures Kept(items[..i + 1]) == Kept(items[..i])
      + (if Named(items[i]) then [Candidate(Trim(items[i].name.value), items[i].isBookmarked, items[i].methods)] else [])
  {
    assert items[..i + 1][..i] == items[..i];
  }

  lemma FaultStep(items: seq<BulkItem>, i: nat, faultAt: Option<nat>)
    requires i < |items|
    ensures FaultHits(items[..i + 1], faultAt) <==> FaultHits(items[..i], faultAt) || (faultAt == Some(i) && Named(items[i]))
  {
  }

  lemma AddAllStep(db: Db, cs: seq<Candidate>, c: Candidate)
    ensures AddAll(db, cs + [c]) == AddContact(AddAll(db, cs), c.name, c.isBookmarked, c.methods)
  {
    assert (cs + [c])[..|cs|] == cs;
  }

  /** One more entry of the payload: a named one adds its contact, any
      other leaves the store as it is. */
  lemma BulkStep(db: Db, items: seq<BulkItem>, i: nat)
    requires i < |items|
    ensures Named(items[i]) ==> |Kept(items[..i + 1])| == |Kept(items[..i])| + 1
    ensures Named(items[i]) ==>
      (AddAll(db, Kept(items[..i + 1]))
       == AddContact(AddAll(db, Kept(items[..i])), Trim(items[i].name.value), items[i].isBookmarked, items[i].methods))
    ensures !Named(items[i]) ==> Kept(items[..i + 1]) == Kept(items[..i])
  {
    KeptStep(items, i);
    if Named(items[i]) {
      AddAllStep(db, Kept(items[..i]), Candidate(Trim(items[i].name.value), items[i].isBookmarked, items[i].methods));
    }
  }
}
