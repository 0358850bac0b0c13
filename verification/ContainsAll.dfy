/**
 ContainsAll of internal/util/string.go: many patterns matched against one pass over a string. Strings
 are sequences of runes, as Go's range loop and its conversion to runes see them.
 */
module ContainsAll {
  import opened Strings

  /** The pattern's characters occur in the string at these strictly increasing places. */
  predicate Embeds(sub: string, str: string, at: seq<nat>) {
    && |at| == |sub|
    && (forall j :: 0 <= j < |sub| ==> at[j] < |str| && str[at[j]] == sub[j])
    && (forall i, j :: 0 <= i < j < |at| ==> at[i] < at[j])
  }

  /** The pattern is a subsequence of the string, not necessarily in one piece. */
  ghost predicate Scattered(sub: string, str: string) {
    exists at: seq<nat> :: Embeds(sub, str, at)
  }

  /** How much of the pattern the greedy matcher has used up after the string. */
  function Matched(str: string, sub: string): (m: nat)
    ensures m <= |sub|
  {
    if str == [] then 0
    else
      var m := Matched(str[..|str| - 1], sub);
      if m < |sub| && str[|str| - 1] == sub[m] then m + 1 else m
  }

  /** What has been used up does occur. */
  lemma {:induction false} MatchedOccurs(str: string, sub: string) returns (at: seq<nat>)
    ensures Embeds(sub[..Matched(str, sub)], str, at)
  {
    if str == [] {
      at := [];
    } else {
      var last := |str| - 1;
      at := MatchedOccurs(str[..last], sub);
      var m := Matched(str[..last], sub);
      if m < |sub| && str[last] == sub[m] {
        at := at + [last];
      }
    }
  }

  /** Greed loses nothing: whatever part of the pattern occurs at all has been used up. */
  lemma {:induction false} MatchedIsMost(str: string, sub: string, n: nat, at: seq<nat>)
    requires n <= |sub| && Embeds(sub[..n], str, at)
    ensures n <= Matched(str, sub)
  {
    if n > 0 {
      assert at[n - 1] < |str|;
      var last := |str| - 1;
      var front := str[..last];
      if at[n - 1] < last {
        assert Embeds(sub[..n], front, at);
        MatchedIsMost(front, sub, n, at);
      } else {
        assert Embeds(sub[..n - 1], front, at[..n - 1]);
        MatchedIsMost(front, sub, n - 1, at[..n - 1]);
      }
    }
  }

  lemma GreedyIsExact(str: string, sub: string)
    ensures Matched(str, sub) == |sub| <==> Scattered(sub, str)
  {
    assert sub[..|sub|] == sub;
    if Matched(str, sub) == |sub| {
      var at := MatchedOccurs(str, sub);
      assert Embeds(sub, str, at);
    }
    if Scattered(sub, str) {
      var at: seq<nat> :| Embeds(sub, str, at);
      MatchedIsMost(str, sub, |sub|, at);
    }
  }

  /** What ContainsAll answers: the empty string contains nothing, not even an empty pattern. */
  ghost predicate Found(str: string, subs: seq<string>) {
    subs == [] || (str != [] && forall sub :: sub in subs ==> Scattered(sub, str))
  }

  /**
   The two buffers for one pattern after the string; before the first character no pattern is marked, not even an
   empty one.
   */
  predicate Tracks(contains: bool, index: nat, str: string, sub: string) {
    && index == Matched(str, sub)
    && (contains <==> str != [] && index == |sub|)
  }

  lemma MatchedNext(str: string, c: char, sub: string)
    ensures
      var m := Matched(str, sub);
      Matched(str + [c], sub) == if m < |sub| && c == sub[m] then m + 1 else m
  {
    assert (str + [c])[..|str|] == str;
  }

  /** The inner loop: every pattern looks at the character. */
  method Mark(marked: char, substrings: seq<string>, contains: array<bool>, indices: array<nat>, ghost before: string)
    requires contains.Length == indices.Length == |substrings|
    requires forall i :: 0 <= i < |substrings| ==> Tracks(contains[i], indices[i], before, substrings[i])
    modifies contains, indices
    ensures forall i :: 0 <= i < |substrings| ==> Tracks(contains[i], indices[i], before + [marked], substrings[i])
  {
    for i := 0 to |substrings|
      invariant forall j :: 0 <= j < i ==> Tracks(contains[j], indices[j], before + [marked], substrings[j])
      invariant forall j :: i <= j < |substrings| ==> Tracks(contains[j], indices[j], before, substrings[j])
    {
      var sub := substrings[i];
      MatchedNext(before, marked, sub);
      if |sub| == 0 {
        contains[i] := true;
      }
      if !contains[i] && marked == sub[indices[i]] {
        indices[i] := indices[i] + 1;
        if indices[i] >= |sub| {
          contains[i] := true;
        }
      }
    }
  }

  method ContainsAll(str: string, subs: seq<string>) returns (r: bool)
    ensures r <==> Found(str, subs)
  {
    var contains := new bool[|subs|](i => false);
    var indices := new nat[|subs|](i => 0);
    for k := 0 to |str|
      invariant forall i :: 0 <= i < |subs| ==> Tracks(contains[i], indices[i], str[..k], subs[i])
    {
      assert str[..k + 1] == str[..k] + [str[k]];
      Mark(str[k], subs, contains, indices, str[..k]);
    }
    assert str[..|str|] == str;
    r := true;
    for i := 0 to |subs|
      invariant forall j :: 0 <= j < |subs| ==> Tracks(contains[j], indices[j], str, subs[j])
      invariant i > 0 ==> str != []
      invariant forall j :: 0 <= j < i ==> Scattered(subs[j], str)
    {
      GreedyIsExact(str, subs[i]);
      assert subs[i] in subs;
      if !contains[i] {
        return false;
      }
    }
  }

  /******* What its comment promises *******/

  predicate OccursAt(sub: string, str: string, i: nat) {
    i + |sub| <= |str| && str[i..i + |sub|] == sub
  }

  ghost predicate Substring(sub: string, str: string) {
    exists i: nat :: OccursAt(sub, str, i)
  }

  ghost predicate AllSubstrings(str: string, subs: seq<string>) {
    forall sub :: sub in subs ==> Substring(sub, str)
  }

  lemma SubstringScattered(sub: string, str: string)
    requires Substring(sub, str)
    ensures Scattered(sub, str)
  {
    var i: nat :| OccursAt(sub, str, i);
    var at := seq(|sub|, j requires 0 <= j < |sub| => i + j);
    assert Embeds(sub, str, at);
  }

  /** No pattern that is there in one piece is missed, except by the empty string. */
  lemma NothingMissed(str: string, subs: seq<string>)
    requires AllSubstrings(str, subs) && (str != [] || subs == [])
    ensures Found(str, subs)
  {
    forall sub | sub in subs ensures Scattered(sub, str) {
      SubstringScattered(sub, str);
    }
  }

  /**
   The answer is the promised one for every string if and only if there is no pattern, or no pattern is
   longer than one character and not all are empty.
   */
  lemma AgreesWithComment(subs: seq<string>)
    ensures (forall str :: Found(str, subs) <==> AllSubstrings(str, subs)) <==>
      subs == [] || ((forall sub :: sub in subs ==> |sub| <= 1) && exists sub :: sub in subs && sub != [])
  {
    if subs != [] {
      if exists sub :: sub in subs && |sub| > 1 {
        var sub :| sub in subs && |sub| > 1;
        var str := Separated(subs, sub);
        assert !(Found(str, subs) <==> AllSubstrings(str, subs));
      } else if forall sub :: sub in subs ==> sub == [] {
        forall sub | sub in subs ensures Substring(sub, "") {
          assert OccursAt(sub, "", 0);
        }
        assert !(Found("", subs) <==> AllSubstrings("", subs));
      } else {
        forall str ensures Found(str, subs) <==> AllSubstrings(str, subs) {
          ShortPatterns(str, subs);
        }
      }
    }
  }

  lemma ShortPatterns(str: string, subs: seq<string>)
    requires (forall sub :: sub in subs ==> |sub| <= 1) && exists sub :: sub in subs && sub != []
    ensures Found(str, subs) <==> AllSubstrings(str, subs)
  {
    if AllSubstrings(str, subs) {
      NothingMissed(str, subs);
    } else {
      var sub :| sub in subs && !Substring(sub, str);
      if str != [] && Scattered(sub, str) {
        var at: seq<nat> :| Embeds(sub, str, at);
        assert OccursAt(sub, str, if sub == [] then 0 else at[0]);
      }
    }
  }

  /** Each character followed by the separator. */
  function Spread(text: string, separator: char): (r: string)
    ensures |r| == 2 * |text|
    ensures forall i :: 0 <= i < |text| ==> r[2 * i] == text[i] && r[2 * i + 1] == separator
  {
    seq(2 * |text|, i requires 0 <= i < 2 * |text| => if i % 2 == 0 then text[i / 2] else separator)
  }

  lemma {:induction false} InConcat(subs: seq<string>, sub: string)
    requires sub in subs
    ensures Substring(sub, Concat(subs))
  {
    var rest := Concat(subs[1..]);
    if subs[0] == sub {
      assert OccursAt(sub, sub + rest, 0);
    } else {
      InConcat(subs[1..], sub);
      var i: nat :| OccursAt(sub, rest, i);
      assert (subs[0] + rest)[|subs[0]|..] == rest;
      assert OccursAt(sub, subs[0] + rest, |subs[0]| + i);
    }
  }

  /**
   A piece of a text is scattered in the spread text, but, with a separator it does not begin with, not in one
   piece.
   */
  lemma SpreadScatters(sub: string, text: string, separator: char)
    requires Substring(sub, text)
    ensures Scattered(sub, Spread(text, separator))
  {
    var i: nat :| OccursAt(sub, text, i);
    var at := seq(|sub|, j requires 0 <= j < |sub| => 2 * (i + j));
    forall j | 0 <= j < |sub| ensures sub[j] == text[i + j] {
      assert text[i..i + |sub|][j] == text[i + j];
    }
    assert Embeds(sub, Spread(text, separator), at);
  }

  lemma SpreadSeparates(sub: string, text: string, separator: char)
    requires |sub| > 1 && separator != sub[0] && separator != sub[1]
    ensures !Substring(sub, Spread(text, separator))
  {
    var str := Spread(text, separator);
    forall i: nat ensures !OccursAt(sub, str, i) {
      if i + |sub| <= |str| {
        assert str[i..i + |sub|][0] == str[i] && str[i..i + |sub|][1] == str[i + 1];
        assert i == 2 * (i / 2) || i + 1 == 2 * (i / 2) + 2;
      }
    }
  }

  /** A string that has all the patterns, but the given one only with gaps. */
  lemma Separated(subs: seq<string>, sub: string) returns (str: string)
    requires sub in subs && |sub| > 1
    ensures Found(str, subs) && !AllSubstrings(str, subs)
  {
    var separator :=
      if 'a' != sub[0] && 'a' != sub[1] then 'a'
      else if 'b' != sub[0] && 'b' != sub[1] then 'b'
      else 'c';
    str := Spread(Concat(subs), separator);
    forall s | s in subs ensures Scattered(s, str) {
      InConcat(subs, s);
      SpreadScatters(s, Concat(subs), separator);
    }
    InConcat(subs, sub);
    SpreadSeparates(sub, Concat(subs), separator);
  }
}
