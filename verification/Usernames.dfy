/** The normal form of usernames (internal/util/string.go): lower case, no surrounding white space. */
module Usernames {

  function ToLowerChar(c: char): char {
    if 'A' <= c <= 'Z' then 'a' + (c - 'A') else c
  }

  function ToLower(s: string): (r: string)
    ensures LowerCase(r)
    ensures LowerCase(s) ==> r == s
  {
    if s == [] then [] else [ToLowerChar(s[0])] + ToLower(s[1..])
  }

  predicate LowerCase(s: string) {
    s == [] || (ToLowerChar(s[0]) == s[0] && LowerCase(s[1..]))
  }

  predicate IsSpace(c: char) {
    c == ' ' || '\t' <= c <= '\r' || c == '\U{85}' || c == '\U{A0}'
  }

  function TrimLeft(s: string): (r: string)
    ensures r == [] || !IsSpace(r[0])
    ensures LowerCase(s) ==> LowerCase(r)
  {
    if s != [] && IsSpace(s[0]) then TrimLeft(s[1..]) else s
  }

  function TrimRight(s: string): (r: string)
    ensures r == [] || (!IsSpace(r[|r| - 1]) && s != [] && r[0] == s[0])
    ensures LowerCase(s) ==> LowerCase(r)
  {
    if s != [] && IsSpace(s[|s| - 1]) then
      PrefixStaysLower(s, |s| - 1);
      TrimRight(s[..|s| - 1])
    else s
  }

  lemma {:induction false} PrefixStaysLower(s: string, n: nat)
    requires n <= |s|
    ensures LowerCase(s) ==> LowerCase(s[..n])
  {
    if n > 0 && LowerCase(s) {
      PrefixStaysLower(s[1..], n - 1);
      assert s[..n][1..] == s[1..][..n - 1];
    }
  }

  function TrimSpace(s: string): string {
    TrimRight(TrimLeft(s))
  }

  function ToUsernameFormat(s: string): string {
    TrimSpace(ToLower(s))
  }

  predicate NormalForm(s: string) {
    && LowerCase(s)
    && (s == [] || (!IsSpace(s[0]) && !IsSpace(s[|s| - 1])))
  }

  /** Formatting lands in the normal form, and the normal forms are exactly its fixed points. */
  lemma FormatNormalises(s: string)
    ensures NormalForm(ToUsernameFormat(s))
    ensures NormalForm(s) <==> ToUsernameFormat(s) == s
    ensures ToUsernameFormat(ToUsernameFormat(s)) == ToUsernameFormat(s)
  {
  }

  /******* Which normal form *******/

  const UPPER := "ABCDEFGHIJKLMNOPQRSTUVWXYZ"
  const LOWER := "abcdefghijklmnopqrstuvwxyz"
  const SPACES := " \t\n\U{0B}\U{0C}\r\U{85}\U{A0}"

  /** The lower case of each letter, and no other character changes. */
  lemma Letters(c: char, k: nat)
    requires k < 26
    ensures UPPER[k] as int == 'A' as int + k && LOWER[k] as int == 'a' as int + k
    ensures ToLowerChar(UPPER[k]) == LOWER[k]
    ensures c !in UPPER ==> ToLowerChar(c) == c
  {
    if 'A' <= c <= 'Z' {
      assert c == UPPER[c as int - 'A' as int];
    }
  }

  lemma Spaces(c: char)
    ensures IsSpace(c) <==> c in SPACES
  {
    assert SPACES == " " + "\t" + "\n" + "\U{0B}" + "\U{0C}" + "\r" + "\U{85}" + "\U{A0}";
  }

  lemma LowerKeepsSpace(c: char)
    ensures IsSpace(ToLowerChar(c)) <==> IsSpace(c)
  {
  }

  predicate AllSpaces(s: string) {
    forall i :: 0 <= i < |s| ==> IsSpace(s[i])
  }

  /** From i to j is what is left of s between its outer spaces. */
  predicate Core(s: string, i: nat, j: nat) {
    && i <= j <= |s|
    && AllSpaces(s[..i])
    && AllSpaces(s[j..])
    && (i < j ==> !IsSpace(s[i]) && !IsSpace(s[j - 1]))
  }

  lemma {:induction false} LowerAt(s: string)
    ensures |ToLower(s)| == |s| && forall k :: 0 <= k < |s| ==> ToLower(s)[k] == ToLowerChar(s[k])
  {
    if s != [] {
      LowerAt(s[1..]);
    }
  }

  lemma {:induction false} TrimLeftAt(s: string, i: nat)
    requires i <= |s| && AllSpaces(s[..i]) && (i < |s| ==> !IsSpace(s[i]))
    ensures TrimLeft(s) == s[i..]
  {
    if i > 0 {
      assert s[..i][0] == s[0];
      assert s[1..][..i - 1] == s[..i][1..];
      TrimLeftAt(s[1..], i - 1);
    }
  }

  lemma {:induction false} TrimRightAt(s: string, j: nat)
    requires j <= |s| && AllSpaces(s[j..]) && (j > 0 ==> !IsSpace(s[j - 1]))
    ensures TrimRight(s) == s[..j]
  {
    if j < |s| {
      var last := |s| - 1;
      assert s[j..][last - j] == s[last];
      assert s[..last][j..] == s[j..][..last - j];
      TrimRightAt(s[..last], j);
      assert s[..last][..j] == s[..j];
    } else {
      assert s[..j] == s;
    }
  }

  lemma {:induction false} CoreExists(s: string) returns (i: nat, j: nat)
    ensures Core(s, i, j)
  {
    if s == [] {
      i, j := 0, 0;
    } else if IsSpace(s[0]) {
      i, j := CoreExists(s[1..]);
      assert forall k :: 0 <= k < i ==> s[1..][..i][k] == s[k + 1];
      assert s[1..][j..] == s[j + 1..];
      i, j := i + 1, j + 1;
    } else {
      i, j := 0, |s|;
      while IsSpace(s[j - 1])
        invariant 1 <= j <= |s| && AllSpaces(s[j..])
        decreases j
      {
        j := j - 1;
      }
    }
  }

  lemma TrimAt(s: string, i: nat, j: nat)
    requires Core(s, i, j)
    ensures TrimSpace(s) == s[i..j]
  {
    if i == j {
      assert forall k :: 0 <= k < |s| ==> s[k] == if k < i then s[..i][k] else s[j..][k - j];
      TrimLeftAt(s, |s|);
    } else {
      TrimLeftAt(s, i);
      assert s[i..][j - i..] == s[j..] && s[i..][..j - i] == s[i..j];
      TrimRightAt(s[i..], j - i);
    }
  }

  predicate SameSpaces(s: string, l: string) {
    |l| == |s| && forall k :: 0 <= k < |s| ==> (IsSpace(l[k]) <==> IsSpace(s[k]))
  }

  lemma LowerSameSpaces(s: string)
    ensures SameSpaces(s, ToLower(s))
  {
    LowerAt(s);
    forall k | 0 <= k < |s| ensures IsSpace(ToLower(s)[k]) <==> IsSpace(s[k]) {
      LowerKeepsSpace(s[k]);
    }
  }

  lemma SameCore(s: string, l: string, i: nat, j: nat)
    requires Core(s, i, j) && SameSpaces(s, l)
    ensures Core(l, i, j)
  {
    assert forall k :: 0 <= k < i ==> s[..i][k] == s[k];
    assert forall k :: 0 <= k < |s| - j ==> s[j..][k] == s[j + k];
  }

  /** The normal form of any name: its characters between the outer spaces, each in lower case. */
  lemma FormatExactly(s: string, r: string)
    ensures ToUsernameFormat(s) == r <==>
      exists i: nat, j: nat ::
        Core(s, i, j) && |r| == j - i && forall k :: 0 <= k < j - i ==> r[k] == ToLowerChar(s[i + k])
  {
    var i, j := CoreExists(s);
    FormatAt(s, i, j);
    forall i: nat, j: nat |
      Core(s, i, j) && |r| == j - i && forall k :: 0 <= k < j - i ==> r[k] == ToLowerChar(s[i + k])
      ensures ToUsernameFormat(s) == r
    {
      FormatAt(s, i, j);
    }
  }

  lemma FormatAt(s: string, i: nat, j: nat)
    requires Core(s, i, j)
    ensures |ToUsernameFormat(s)| == j - i
    ensures forall k :: 0 <= k < j - i ==> ToUsernameFormat(s)[k] == ToLowerChar(s[i + k])
  {
    var l := ToLower(s);
    FormatIsSlice(s, i, j);
    LowerAt(s);
    assert forall k :: 0 <= k < j - i ==> l[i..j][k] == l[i + k];
  }

  lemma FormatIsSlice(s: string, i: nat, j: nat)
    requires Core(s, i, j)
    ensures |ToLower(s)| == |s| && ToUsernameFormat(s) == ToLower(s)[i..j]
  {
    LowerSameSpaces(s);
    SameCore(s, ToLower(s), i, j);
    TrimAt(ToLower(s), i, j);
  }
}
