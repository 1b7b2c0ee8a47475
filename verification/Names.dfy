/** Resource names: `strings.TrimSpace`, blankness, and the byte order Go sorts names by
    (for valid UTF-8 it is the order of the code points). */
module Names {
  import opened Orders

  type Name = string

  /** The white space of `unicode.IsSpace`. */
  predicate IsSpace(c: char) {
    || '\U{0009}' <= c <= '\U{000D}' || c == ' ' || c == '\U{0085}' || c == '\U{00A0}'
    || c == '\U{1680}' || '\U{2000}' <= c <= '\U{200A}' || c == '\U{2028}' || c == '\U{2029}'
    || c == '\U{202F}' || c == '\U{205F}' || c == '\U{3000}'
  }

  function TrimLeft(s: string): string {
    if s != "" && IsSpace(s[0]) then TrimLeft(s[1..]) else s
  }

  function TrimRight(s: string): string {
    if s != "" && IsSpace(s[|s| - 1]) then TrimRight(s[..|s| - 1]) else s
  }

  function Trim(s: string): string {
    TrimRight(TrimLeft(s))
  }

  predicate Blank(s: string) {
    Trim(s) == ""
  }

  /** What trimming leaves starts and ends with a visible character. */
  lemma {:induction false} TrimLeftStartsVisible(s: string)
    ensures TrimLeft(s) != "" ==> !IsSpace(TrimLeft(s)[0])
  {
    if s != "" && IsSpace(s[0]) { TrimLeftStartsVisible(s[1..]); }
  }

  lemma {:induction false} TrimRightEndsVisible(s: string)
    ensures TrimRight(s) != "" ==> !IsSpace(TrimRight(s)[|TrimRight(s)| - 1])
    ensures TrimRight(s) != "" ==> s != "" && TrimRight(s)[0] == s[0]
  {
    if s != "" && IsSpace(s[|s| - 1]) { TrimRightEndsVisible(s[..|s| - 1]); }
  }

  lemma {:induction false} TrimLeftDrops(s: string) returns (i: nat)
    ensures i <= |s| && TrimLeft(s) == s[i..] && forall k :: 0 <= k < i ==> IsSpace(s[k])
  {
    i := 0;
    if s != "" && IsSpace(s[0]) {
      var j := TrimLeftDrops(s[1..]);
      i := j + 1;
      assert forall k :: 0 < k < i ==> s[k] == s[1..][k - 1];
    }
  }

  lemma {:induction false} TrimRightDrops(s: string) returns (j: nat)
    ensures j <= |s| && TrimRight(s) == s[..j] && forall k :: j <= k < |s| ==> IsSpace(s[k])
  {
    j := |s|;
    if s != "" && IsSpace(s[|s| - 1]) {
      j := TrimRightDrops(s[..|s| - 1]);
    }
  }

  /** Trimming drops the white space before the first visible character and after the last, and nothing else. */
  lemma TrimIsTheMiddle(s: string) returns (i: nat, j: nat)
    ensures i <= j <= |s| && Trim(s) == s[i..j]
    ensures (forall k :: 0 <= k < i ==> IsSpace(s[k])) && forall k :: j <= k < |s| ==> IsSpace(s[k])
    ensures i < j ==> !IsSpace(s[i]) && !IsSpace(s[j - 1])
  {
    i := TrimLeftDrops(s);
    var rest := s[i..];
    var n := TrimRightDrops(rest);
    j := i + n;
    assert forall k :: j <= k < |s| ==> s[k] == rest[k - i];
    TrimLeftStartsVisible(s);
    TrimRightEndsVisible(rest);
  }

  /** A string is blank exactly when it is white space throughout. */
  lemma BlankMeansSpace(s: string)
    ensures Blank(s) <==> forall k :: 0 <= k < |s| ==> IsSpace(s[k])
  {
    var i, j := TrimIsTheMiddle(s);
  }

  lemma TrimIsIdempotent(s: string)
    ensures Trim(Trim(s)) == Trim(s)
  {
    TrimLeftStartsVisible(s);
    TrimRightEndsVisible(TrimLeft(s));
  }

  function NameLess(a: Name, b: Name): bool {
    if b == "" then false
    else if a == "" then true
    else if a[0] != b[0] then a[0] < b[0]
    else NameLess(a[1..], b[1..])
  }

  lemma {:induction false} NameLessTrichotomy(a: Name, b: Name)
    ensures a != b ==> NameLess(a, b) || NameLess(b, a)
    ensures !(NameLess(a, b) && NameLess(b, a))
  {
    if a != "" && b != "" && a[0] == b[0] {
      NameLessTrichotomy(a[1..], b[1..]);
      if a[1..] == b[1..] { assert a == [a[0]] + a[1..] && b == [b[0]] + b[1..]; }
    }
  }

  lemma {:induction false} NameLessTransitive(a: Name, b: Name, c: Name)
    requires NameLess(a, b) && NameLess(b, c)
    ensures NameLess(a, c)
  {
    if a != "" && a[0] == b[0] && b[0] == c[0] { NameLessTransitive(a[1..], b[1..], c[1..]); }
  }

  lemma NamesAreOrdered()
    ensures StrictTotalOrder(NameLess)
  {
    forall a, b ensures a != b ==> NameLess(a, b) || NameLess(b, a)
                ensures !(NameLess(a, b) && NameLess(b, a)) {
      NameLessTrichotomy(a, b);
    }
    forall a, b, c | NameLess(a, b) && NameLess(b, c) ensures NameLess(a, c) {
      NameLessTransitive(a, b, c);
    }
  }
}
