/** The order in which the client lists contacts: bookmarked ones first,
    then by name. The names are compared by code point here, standing in
    for the locale's collation. */
module Display {
  import opened Domain

  /** Three-way comparison of two names, character by character. */
  function NameCompare(a: string, b: string): (r: int)
    ensures -1 <= r <= 1
    ensures r == 0 <==> a == b
  {
    if a == [] && b == [] then 0
    else if a == [] then -1
    else if b == [] then 1
    else if (a[0] as int) < (b[0] as int) then -1
    else if (a[0] as int) > (b[0] as int) then 1
    else
      var r := NameCompare(a[1..], b[1..]);
      assert r == 0 ==> a == [a[0]] + a[1..] && b == [b[0]] + b[1..];
      r
  }

  /** Swapping the names flips the sign of the comparison. */
  lemma {:induction false} NameCompareFlips(a: string, b: string)
    ensures NameCompare(b, a) == -NameCompare(a, b)
  {
    if a != [] && b != [] && a[0] == b[0] {
      NameCompareFlips(a[1..], b[1..]);
    }
  }

  /** The `sortedContacts` comparator: a bookmarked contact before one that
      is not, otherwise the order of their names. */
  function DisplayCompare(a: Contact, b: Contact): (r: int)
    ensures -1 <= r <= 1
    ensures a.isBookmarked && !b.isBookmarked ==> r < 0
    ensures !a.isBookmarked && b.isBookmarked ==> r > 0
  {
    if a.isBookmarked != b.isBookmarked then (if a.isBookmarked then -1 else 1)
    else NameCompare(a.name, b.name)
  }

  /** The comparator is antisymmetric, and it ties two contacts exactly
      when they share the flag and the name. */
  lemma DisplayCompareFlips(a: Contact, b: Contact)
    ensures DisplayCompare(b, a) == -DisplayCompare(a, b)
    ensures DisplayCompare(a, b) == 0 <==> a.isBookmarked == b.isBookmarked && a.name == b.name
  {
    NameCompareFlips(a.name, b.name);
  }

  /** Each contact is listed no later than its successor. */
  predicate InDisplayOrder(cs: seq<Contact>) {
    forall i :: 0 <= i < |cs| - 1 ==> DisplayCompare(cs[i], cs[i + 1]) <= 0
  }

  /** Places `c` before the first contact it does not come after. */
  function Insert(c: Contact, cs: seq<Contact>): (r: seq<Contact>)
    ensures |r| == |cs| + 1
    ensures multiset(r) == multiset(cs) + multiset{c}
    ensures r[0] == c || (cs != [] && r[0] == cs[0])
  {
    if cs == [] then [c]
    else if DisplayCompare(c, cs[0]) <= 0 then [c] + cs
    else
      var rest := Insert(c, cs[1..]);
      assert cs == [cs[0]] + cs[1..];
      [cs[0]] + rest
  }

  /** A sort by the comparator that keeps contacts which tie in the order
      they came in, as `Array.prototype.sort` does (proved in
      `SortKeepsTies`). */
  function SortForDisplay(cs: seq<Contact>): (r: seq<Contact>)
    ensures |r| == |cs|
    ensures multiset(r) == multiset(cs)
  {
    if cs == [] then []
    else
      var rest := SortForDisplay(cs[1..]);
      assert cs == [cs[0]] + cs[1..];
      Insert(cs[0], rest)
  }

  lemma {:induction false} InsertInOrder(c: Contact, cs: seq<Contact>)
    requires InDisplayOrder(cs)
    ensures InDisplayOrder(Insert(c, cs))
  {
    if cs != [] && DisplayCompare(c, cs[0]) > 0 {
      DisplayCompareFlips(c, cs[0]);
      var tail := cs[1..];
      assert InDisplayOrder(tail) by {
        assert forall i :: 0 <= i < |tail| ==> tail[i] == cs[i + 1];
      }
      InsertInOrder(c, tail);
      var rest := Insert(c, tail);
      var r := [cs[0]] + rest;
      assert DisplayCompare(cs[0], rest[0]) <= 0;
      assert forall i :: 1 <= i < |r| - 1 ==> r[i] == rest[i - 1] && r[i + 1] == rest[i];
    }
  }

  /** The sorted list keeps every contact and is in display order. */
  lemma {:induction false} SortForDisplayInOrder(cs: seq<Contact>)
    ensures InDisplayOrder(SortForDisplay(cs))
  {
    if cs != [] {
      SortForDisplayInOrder(cs[1..]);
      InsertInOrder(cs[0], SortForDisplay(cs[1..]));
    }
  }

  /** Two contacts the comparator cannot tell apart. */
  predicate SameKey(a: Contact, b: Contact) {
    a.isBookmarked == b.isBookmarked && a.name == b.name
  }

  /** The contacts of `cs` that tie with `k`, in the order of `cs`. */
  function Ties(cs: seq<Contact>, k: Contact): seq<Contact> {
    if cs == [] then [] else TieOf(cs[0], k) + Ties(cs[1..], k)
  }

  lemma TiesCons(x: Contact, xs: seq<Contact>, k: Contact)
    ensures Ties([x] + xs, k) == TieOf(x, k) + Ties(xs, k)
  {
    assert ([x] + xs)[1..] == xs;
  }

  /** Inserting `c` puts it before every contact it ties with. */
  lemma {:induction false} InsertTies(c: Contact, cs: seq<Contact>, k: Contact)
    ensures Ties(Insert(c, cs), k) == TieOf(c, k) + Ties(cs, k)
  {
    if cs == [] {
      TiesCons(c, [], k);
    } else if DisplayCompare(c, cs[0]) <= 0 {
      TiesCons(c, cs, k);
    } else {
      var tail := cs[1..];
      var ins := Insert(c, tail);
      assert Insert(c, cs) == [cs[0]] + ins;
      InsertTies(c, tail, k);
      TiesCons(cs[0], ins, k);
      assert cs == [cs[0]] + tail;
      TiesCons(cs[0], tail, k);
      NotBothTie(c, cs[0], k);
      SwapApart(TieOf(cs[0], k), TieOf(c, k), Ties(tail, k));
    }
  }

  lemma SwapApart<T>(h: seq<T>, g: seq<T>, rest: seq<T>)
    requires h == [] || g == []
    ensures h + (g + rest) == g + (h + rest)
  {
    if h == [] {
      assert h + (g + rest) == g + rest && h + rest == rest;
    } else {
      assert g + rest == rest && g + (h + rest) == h + rest;
    }
  }

  function TieOf(x: Contact, k: Contact): seq<Contact> {
    if SameKey(x, k) then [x] else []
  }

  /** Two contacts the comparator orders cannot both tie with a third. */
  lemma NotBothTie(a: Contact, b: Contact, k: Contact)
    requires DisplayCompare(a, b) != 0
    ensures !(SameKey(a, k) && SameKey(b, k))
  {
    DisplayCompareFlips(a, b);
  }

  /** The sort is stable: the contacts that tie with any given one come out
      in the order they went in. */
  lemma {:induction false} SortKeepsTies(cs: seq<Contact>, k: Contact)
    ensures Ties(SortForDisplay(cs), k) == Ties(cs, k)
  {
    if cs != [] {
      SortKeepsTies(cs[1..], k);
      InsertTies(cs[0], SortForDisplay(cs[1..]), k);
    }
  }

  /** In display order no contact that is not bookmarked comes before a
      bookmarked one. */
  lemma {:induction false} BookmarkedFirst(cs: seq<Contact>, i: nat, j: nat)
    requires InDisplayOrder(cs)
    requires i < j < |cs| && cs[j].isBookmarked
    ensures cs[i].isBookmarked
    decreases j - i
  {
    if i + 1 < j {
      BookmarkedFirst(cs, i + 1, j);
    }
    assert DisplayCompare(cs[i], cs[i + 1]) <= 0;
  }

  /** The list the client shows puts every bookmarked contact before every
      other one and leaves out none. */
  lemma DisplayListsBookmarkedFirst(cs: seq<Contact>, i: nat, j: nat)
    requires i < j < |cs| && SortForDisplay(cs)[j].isBookmarked
    ensures SortForDisplay(cs)[i].isBookmarked
    ensures multiset(SortForDisplay(cs)) == multiset(cs)
  {
    SortForDisplayInOrder(cs);
    BookmarkedFirst(SortForDisplay(cs), i, j);
  }
}
