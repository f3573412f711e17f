/** String helpers with the semantics of the JavaScript string methods the
    contact directory relies on: trim, split on one separator, join,
    lower-casing, suffix test and decimal rendering of counts. */
module Text {

  /** The code points that ECMAScript's String.prototype.trim strips:
      WhiteSpace (TAB, VT, FF, SP, NBSP, ZWNBSP and the Zs category) and
      LineTerminator (LF, CR, LS, PS). */
  predicate IsSpace(c: char) {
    var n := c as int;
    n == 0x09 || n == 0x0A || n == 0x0B || n == 0x0C || n == 0x0D
    || n == 0x20 || n == 0xA0 || n == 0x1680
    || (0x2000 <= n <= 0x200A)
    || n == 0x2028 || n == 0x2029 || n == 0x202F || n == 0x205F
    || n == 0x3000 || n == 0xFEFF
  }

  /** A string that trim leaves as it is. */
  predicate IsTrimmed(s: string) {
    s == [] || (!IsSpace(s[0]) && !IsSpace(s[|s| - 1]))
  }

  predicate AllSpace(s: string) {
    forall i :: 0 <= i < |s| ==> IsSpace(s[i])
  }

  /** Drops the leading white space. */
  function TrimStart(s: string): (r: string)
    ensures r == [] || !IsSpace(r[0])
  {
    if s != [] && IsSpace(s[0]) then TrimStart(s[1..]) else s
  }

  /** Drops the trailing white space. */
  function TrimEnd(s: string): (r: string)
    ensures r == [] || !IsSpace(r[|r| - 1])
  {
    if s != [] && IsSpace(s[|s| - 1]) then TrimEnd(s[..|s| - 1]) else s
  }

  /** TrimStart gives the suffix of `s` that starts at its first non-space
      character. */
  lemma {:induction false} TrimStartSuffix(s: string)
    ensures |TrimStart(s)| <= |s| && TrimStart(s) == s[|s| - |TrimStart(s)|..]
    ensures forall i :: 0 <= i < |s| - |TrimStart(s)| ==> IsSpace(s[i])
  {
    if s != [] && IsSpace(s[0]) {
      TrimStartSuffix(s[1..]);
    }
  }

  /** TrimEnd gives the prefix of `s` that ends at its last non-space
      character. */
  lemma {:induction false} TrimEndPrefix(s: string)
    ensures |TrimEnd(s)| <= |s| && TrimEnd(s) == s[..|TrimEnd(s)|]
    ensures forall i :: |TrimEnd(s)| <= i < |s| ==> IsSpace(s[i])
  {
    if s != [] && IsSpace(s[|s| - 1]) {
      TrimEndPrefix(s[..|s| - 1]);
    }
  }

  /** JavaScript's `s.trim()`. */
  function Trim(s: string): (r: string)
    ensures IsTrimmed(r)
    ensures |r| <= |s|
  {
    TrimStartSuffix(s);
    TrimEndPrefix(TrimStart(s));
    TrimEnd(TrimStart(s))
  }

  /** Trim only removes characters. */
  lemma TrimKeepsCharacters(s: string)
    ensures forall c :: c in Trim(s) ==> c in s
  {
    var t := TrimStart(s);
    var r := TrimEnd(t);
    TrimStartSuffix(s);
    TrimEndPrefix(t);
    var off := |s| - |t|;
    assert forall k :: 0 <= k < |r| ==> r[k] == s[off + k];
    forall c | c in r ensures c in s {
      var k :| 0 <= k < |r| && r[k] == c;
      assert s[off + k] == c;
    }
  }

  /** Trim gives the empty string exactly for all-space text. */
  lemma TrimEmptyOnlyForSpace(s: string)
    ensures Trim(s) == [] <==> AllSpace(s)
  {
    var t := TrimStart(s);
    var r := TrimEnd(t);
    TrimStartSuffix(s);
    TrimEndPrefix(t);
    if r == [] {
      assert |t| == 0;
    }
  }

  /** `Trim(s) == r` when `s` is `r` padded with white space. */
  lemma TrimCase(s: string, r: string, lead: nat)
    requires IsTrimmed(r) && r != []
    requires lead + |r| <= |s| && s[lead..lead + |r|] == r
    requires AllSpace(s[..lead]) && AllSpace(s[lead + |r|..])
    ensures Trim(s) == r
  {
    TrimStartCase(s, lead);
    var t := TrimStart(s);
    assert t == s[lead..];
    TrimEndCase(t, |r|);
  }

  lemma {:induction false} TrimStartCase(s: string, lead: nat)
    requires lead < |s| && !IsSpace(s[lead]) && AllSpace(s[..lead])
    ensures TrimStart(s) == s[lead..]
  {
    if lead > 0 {
      assert s[0] == s[..lead][0];
      assert s[1..][..lead - 1] == s[1..lead];
      assert forall i :: 0 <= i < lead - 1 ==> s[1..lead][i] == s[..lead][i + 1];
      TrimStartCase(s[1..], lead - 1);
      assert s[1..][lead - 1..] == s[lead..];
    }
  }

  lemma {:induction false} TrimEndCase(t: string, keep: nat)
    requires 0 < keep <= |t| && !IsSpace(t[keep - 1]) && AllSpace(t[keep..])
    ensures TrimEnd(t) == t[..keep]
  {
    if keep < |t| {
      assert t[|t| - 1] == t[keep..][|t| - 1 - keep];
      var u := t[..|t| - 1];
      assert u[keep..] == t[keep..|t| - 1];
      assert forall i :: 0 <= i < |u| - keep ==> u[keep..][i] == t[keep..][i];
      TrimEndCase(u, keep);
      assert u[..keep] == t[..keep];
    } else {
      assert t[..keep] == t;
    }
  }

  /** Trim leaves trimmed text alone. */
  lemma TrimOfTrimmed(s: string)
    requires IsTrimmed(s)
    ensures Trim(s) == s
  {
  }

  /** Trimming twice is trimming once. */
  lemma TrimIdempotent(s: string)
    ensures Trim(Trim(s)) == Trim(s)
  {
    TrimOfTrimmed(Trim(s));
  }

  /** ASCII lower-casing of one character. */
  function LowerChar(c: char): char {
    if 'A' <= c <= 'Z' then (c as int + 32) as char else c
  }

  /** `s.toLowerCase()`, restricted to the ASCII letters. */
  function ToLower(s: string): (r: string)
    ensures |r| == |s|
  {
    if s == [] then [] else [LowerChar(s[0])] + ToLower(s[1..])
  }

  /** Lower-casing works character by character. */
  lemma {:induction false} ToLowerAppend(a: string, b: string)
    ensures ToLower(a + b) == ToLower(a) + ToLower(b)
  {
    if a == [] {
      assert a + b == b;
    } else {
      assert (a + b)[1..] == a[1..] + b;
      ToLowerAppend(a[1..], b);
      assert ToLower(a) == [LowerChar(a[0])] + ToLower(a[1..]);
    }
  }

  /** Lower-casing changes each character on its own. */
  lemma {:induction false} ToLowerAt(s: string)
    ensures forall i :: 0 <= i < |s| ==> ToLower(s)[i] == LowerChar(s[i])
  {
    if s != [] {
      ToLowerAt(s[1..]);
      assert forall i :: 1 <= i < |s| ==> ToLower(s)[i] == ToLower(s[1..])[i - 1];
    }
  }

  /** `s.endsWith(suffix)`. */
  predicate EndsWith(s: string, suffix: string) {
    |suffix| <= |s| && s[|s| - |suffix|..] == suffix
  }

  /** `parts.join(sep)`. */
  function Join(parts: seq<string>, sep: char): string {
    if |parts| == 0 then ""
    else if |parts| == 1 then parts[0]
    else parts[0] + [sep] + Join(parts[1..], sep)
  }

  /** `s.split(sep)` for a one-character separator: the pieces between the
      separators, an empty piece wherever two separators meet or the string
      starts or ends with one, and `[""]` for the empty string. */
  function Split(s: string, sep: char): (parts: seq<string>)
    ensures |parts| >= 1
    decreases |s|
  {
    if s == [] then [""]
    else
      var rest := Split(s[1..], sep);
      if s[0] == sep then [""] + rest
      else [[s[0]] + rest[0]] + rest[1..]
  }

  /** No piece holds the separator. */
  lemma {:induction false} SplitPiecesFree(s: string, sep: char)
    ensures forall i :: 0 <= i < |Split(s, sep)| ==> sep !in Split(s, sep)[i]
    decreases |s|
  {
    if s != [] {
      SplitPiecesFree(s[1..], sep);
    }
  }

  /** Joining the pieces with the separator gives the text back. */
  lemma {:induction false} SplitJoinsBack(s: string, sep: char)
    ensures Join(Split(s, sep), sep) == s
    decreases |s|
  {
    if s != [] {
      var rest := Split(s[1..], sep);
      SplitJoinsBack(s[1..], sep);
      if s[0] == sep {
        assert s == [sep] + s[1..];
      } else {
        JoinPrepend(s[0], rest, sep);
        assert s == [s[0]] + s[1..];
      }
    }
  }

  lemma JoinPrepend(c: char, parts: seq<string>, sep: char)
    requires |parts| >= 1
    ensures Join([[c] + parts[0]] + parts[1..], sep) == [c] + Join(parts, sep)
  {
    var q := [[c] + parts[0]] + parts[1..];
    assert q[1..] == parts[1..];
  }

  /** Splitting text that starts with a separator-free piece `p`: `p` is
      glued to the front of the first piece of the rest. */
  lemma {:induction false} SplitPrefix(p: string, t: string, sep: char)
    requires sep !in p
    ensures Split(p + t, sep) == [p + Split(t, sep)[0]] + Split(t, sep)[1..]
  {
    if p == [] {
      assert p + t == t;
      assert p + Split(t, sep)[0] == Split(t, sep)[0];
      assert Split(t, sep) == [Split(t, sep)[0]] + Split(t, sep)[1..];
    } else {
      var s := p + t;
      assert s[0] == p[0] && s[1..] == p[1..] + t;
      SplitPrefix(p[1..], t, sep);
      assert [p[0]] + (p[1..] + Split(t, sep)[0]) == p + Split(t, sep)[0];
    }
  }

  /** Joining separator-free pieces and splitting the result gives the
      pieces back. */
  lemma {:induction false} SplitJoin(parts: seq<string>, sep: char)
    requires |parts| >= 1
    requires forall i :: 0 <= i < |parts| ==> sep !in parts[i]
    ensures Split(Join(parts, sep), sep) == parts
  {
    if |parts| == 1 {
      SplitPrefix(parts[0], "", sep);
      assert parts[0] + "" == parts[0];
    } else {
      var j := Join(parts[1..], sep);
      SplitJoin(parts[1..], sep);
      var u := [sep] + j;
      assert u[0] == sep && u[1..] == j;
      assert Split(u, sep) == [""] + parts[1..];
      SplitPrefix(parts[0], u, sep);
      assert Join(parts, sep) == parts[0] + [sep] + j;
      assert parts[0] + [sep] + j == parts[0] + u;
      assert parts[0] + "" == parts[0];
      assert parts == [parts[0]] + parts[1..];
    }
  }

  /** The join of non-empty pieces starts with the first piece's first
      character and ends with the last piece's last character. */
  lemma {:induction false} JoinEnds(parts: seq<string>, sep: char)
    requires |parts| >= 1
    requires forall i :: 0 <= i < |parts| ==> parts[i] != ""
    ensures Join(parts, sep) != []
    ensures Join(parts, sep)[0] == parts[0][0]
    ensures Join(parts, sep)[|Join(parts, sep)| - 1] == parts[|parts| - 1][|parts[|parts| - 1]| - 1]
  {
    if |parts| > 1 {
      JoinEnds(parts[1..], sep);
    }
  }

  /** Joining non-empty trimmed pieces gives a trimmed, non-empty string. */
  lemma JoinTrimmed(parts: seq<string>, sep: char)
    requires |parts| >= 1
    requires forall i :: 0 <= i < |parts| ==> parts[i] != "" && IsTrimmed(parts[i])
    ensures Join(parts, sep) != [] && IsTrimmed(Join(parts, sep))
  {
    JoinEnds(parts, sep);
  }

  function DigitChar(d: nat): (c: char)
    requires d < 10
    ensures '0' <= c <= '9'
  {
    "0123456789"[d]
  }

  /** `String(n)` for a non-negative integer: its decimal digits. */
  function NatToString(n: nat): (s: string)
    ensures |s| >= 1
    ensures forall i :: 0 <= i < |s| ==> '0' <= s[i] <= '9'
    ensures (n == 0) <==> (s == "0")
  {
    if n < 10 then [DigitChar(n)] else NatToString(n / 10) + [DigitChar(n % 10)]
  }

  /** The number a string of decimal digits denotes, most significant digit
      first. */
  function DecimalValue(s: string): nat
    requires forall i :: 0 <= i < |s| ==> '0' <= s[i] <= '9'
  {
    if s == [] then 0
    else DecimalValue(s[..|s| - 1]) * 10 + (s[|s| - 1] as int - '0' as int)
  }

  lemma DigitCharValue(d: nat)
    requires d < 10
    ensures DigitChar(d) as int - '0' as int == d
  {
    if d == 0 {} else if d == 1 {} else if d == 2 {} else if d == 3 {} else if d == 4 {}
    else if d == 5 {} else if d == 6 {} else if d == 7 {} else if d == 8 {} else {}
  }

  /** The text of a number reads back as that number, with no leading zero
      unless it is zero itself. */
  lemma {:induction false} NatToStringValue(n: nat)
    ensures DecimalValue(NatToString(n)) == n
    ensures NatToString(n)[0] != '0' || n == 0
  {
    var s := NatToString(n);
    if n < 10 {
      DigitCharValue(n);
      assert s[..|s| - 1] == [];
    } else {
      NatToStringValue(n / 10);
      DigitCharValue(n % 10);
      assert s[..|s| - 1] == NatToString(n / 10);
    }
  }

  /** Different numbers have different texts. */
  lemma NatToStringInjective(a: nat, b: nat)
    ensures NatToString(a) == NatToString(b) <==> a == b
  {
    NatToStringValue(a);
    NatToStringValue(b);
  }
}
