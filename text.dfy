/** Character and string operations used by both the Python backend and the
    JavaScript client: ASCII lower-casing, whitespace trimming, substring
    search and splitting on a separator. */
module Text {
  import opened Wrappers

  /** `str.lower()` / `String.prototype.toLowerCase()` on one ASCII character. */
  function LowerChar(c: char): (r: char)
    ensures 'A' <= c <= 'Z' ==> r as int == c as int + 32
    ensures !('A' <= c <= 'Z') ==> r == c
  {
    if 'A' <= c <= 'Z' then (c as int + 32) as char else c
  }

  function Lower(s: string): (r: string)
    ensures |r| == |s|
    ensures forall i :: 0 <= i < |s| ==> r[i] == LowerChar(s[i])
  {
    if s == [] then [] else [LowerChar(s[0])] + Lower(s[1..])
  }

  lemma {:induction false} LowerAppend(s: string, t: string)
    ensures Lower(s + t) == Lower(s) + Lower(t)
  {
    var l, a, b := Lower(s + t), Lower(s), Lower(t);
    assert |l| == |a + b|;
    forall i | 0 <= i < |l| ensures l[i] == (a + b)[i] {
      if i < |s| { assert (s + t)[i] == s[i]; } else { assert (s + t)[i] == t[i - |s|]; }
    }
  }

  lemma {:induction false} LowerIdempotent(s: string)
    ensures Lower(Lower(s)) == Lower(s)
  {
    var l := Lower(s);
    forall i | 0 <= i < |s| ensures Lower(l)[i] == l[i] {
      assert l[i] == LowerChar(s[i]);
    }
  }

  /** The whitespace that `str.strip` and `String.prototype.trim` remove (ASCII part). */
  predicate IsSpace(c: char) {
    c == ' ' || c == '\t' || c == '\n' || c == '\r' || c == '\U{B}' || c == '\U{C}'
  }

  /** The number of whitespace characters `s` starts with. */
  function LeadingSpaces(s: string): (n: nat)
    ensures n <= |s|
    ensures forall i :: 0 <= i < n ==> IsSpace(s[i])
    ensures n < |s| ==> !IsSpace(s[n])
  {
    if s != [] && IsSpace(s[0]) then 1 + LeadingSpaces(s[1..]) else 0
  }

  /** The number of whitespace characters `s` ends with. */
  function TrailingSpaces(s: string): (n: nat)
    ensures n <= |s|
    ensures forall i :: |s| - n <= i < |s| ==> IsSpace(s[i])
    ensures n < |s| ==> !IsSpace(s[|s| - n - 1])
  {
    if s != [] && IsSpace(s[|s| - 1]) then 1 + TrailingSpaces(s[..|s| - 1]) else 0
  }

  /** `String.prototype.trim()`: leading and trailing whitespace removed. */
  function Trim(s: string): (r: string)
  {
    var a := s[LeadingSpaces(s)..];
    a[..|a| - TrailingSpaces(a)]
  }

  /** A trimmed string is empty exactly when the string is all whitespace. */
  lemma TrimEmptyIffBlank(s: string)
    ensures Trim(s) == [] <==> forall i :: 0 <= i < |s| ==> IsSpace(s[i])
  {
    var k := LeadingSpaces(s);
    var a := s[k..];
    if k < |s| {
      assert a[0] == s[k];
      assert TrailingSpaces(a) < |a|;
    }
  }

  /** A trimmed string neither starts nor ends with whitespace, and is a slice of the original. */
  lemma TrimShape(s: string)
    ensures var r := Trim(s);
      (r == [] || (!IsSpace(r[0]) && !IsSpace(r[|r| - 1]))) &&
      exists k :: 0 <= k <= |s| - |r| && OccursAt(s, r, k)
  {
    var k := LeadingSpaces(s);
    var a := s[k..];
    var r := Trim(s);
    assert r == s[k..k + |r|];
    assert OccursAt(s, r, k);
    if r != [] {
      assert r[0] == s[k];
      assert r[|r| - 1] == a[|a| - TrailingSpaces(a) - 1];
    }
  }


  /** `t` occurs in `s` starting at position `k`. */
  predicate OccursAt(s: string, t: string, k: int) {
    0 <= k && k + |t| <= |s| && s[k..k + |t|] == t
  }

  /** `t in s` (Python) / `s.includes(t)` (JavaScript). */
  predicate Contains(s: string, t: string) {
    exists k :: 0 <= k <= |s| && OccursAt(s, t, k)
  }

  /** The search itself: the leftmost position at or after `from` at which `t` occurs in `s`. */
  function IndexOf(s: string, t: string, from: nat): (r: Option<nat>)
    decreases |s| - from
    ensures r.Some? ==> from <= r.value && OccursAt(s, t, r.value)
    ensures r.Some? ==> forall k :: from <= k < r.value ==> !OccursAt(s, t, k)
    ensures r.None? ==> forall k :: from <= k ==> !OccursAt(s, t, k)
  {
    if from + |t| > |s| then None
    else if s[from..from + |t|] == t then Some(from)
    else IndexOf(s, t, from + 1)
  }

  /** The search of `includes` decides `Contains`. */
  lemma IndexOfDecidesContains(s: string, t: string)
    ensures IndexOf(s, t, 0).Some? <==> Contains(s, t)
  {
    if IndexOf(s, t, 0).Some? {
      assert OccursAt(s, t, IndexOf(s, t, 0).value);
    }
  }

  /** Every string contains the empty string. */
  lemma ContainsEmpty(s: string)
    ensures Contains(s, [])
  {
    assert OccursAt(s, [], 0);
  }

  /** The first position of character `c` in `s`, if any. */
  function FirstIndex(s: string, c: char): (r: nat)
    ensures r <= |s|
    ensures forall i :: 0 <= i < r ==> s[i] != c
    ensures r < |s| ==> s[r] == c
    ensures r == |s| <==> c !in s
  {
    if s == [] || s[0] == c then 0 else 1 + FirstIndex(s[1..], c)
  }

  /** `s.split(c)` in both Python and JavaScript. */
  function Split(s: string, c: char): (r: seq<string>)
    decreases |s|
    ensures |r| >= 1
    ensures forall i :: 0 <= i < |r| ==> c !in r[i]
    ensures r[0] == s[..FirstIndex(s, c)]
  {
    var i := FirstIndex(s, c);
    if i == |s| then [s] else [s[..i]] + Split(s[i + 1..], c)
  }

  /** `c.join(pieces)`. */
  function Join(pieces: seq<string>, c: char): string
    requires |pieces| >= 1
  {
    if |pieces| == 1 then pieces[0] else pieces[0] + [c] + Join(pieces[1..], c)
  }

  /** Joining a first piece to at least one more puts the separator between them. */
  lemma JoinCons(head: string, tail: seq<string>, c: char)
    requires |tail| >= 1
    ensures Join([head] + tail, c) == head + [c] + Join(tail, c)
  {
    assert ([head] + tail)[1..] == tail;
  }

  /** A string is its part before position `i`, the character there, and the rest. */
  lemma Around(s: string, i: nat)
    requires i < |s|
    ensures s == s[..i] + [s[i]] + s[i + 1..]
  {
  }

  /** Splitting loses nothing: joining the pieces back gives the original string. */
  lemma {:induction false} JoinSplit(s: string, c: char)
    ensures Join(Split(s, c), c) == s
    decreases |s|
  {
    var i := FirstIndex(s, c);
    if i < |s| {
      var rest := s[i + 1..];
      Around(s, i);
      assert Split(s, c) == [s[..i]] + Split(rest, c);
      JoinSplit(rest, c);
      JoinCons(s[..i], Split(rest, c), c);
    }
  }

  /** The second piece of a split is the text between the first and the second separator. */
  lemma SecondPiece(s: string, c: char)
    requires c in s
    ensures var i := FirstIndex(s, c); var r := Split(s, c);
      |r| >= 2 && r[1] == s[i + 1..][..FirstIndex(s[i + 1..], c)]
  {
    var i := FirstIndex(s, c);
    assert s[i] == c;
  }

  /** The position of the last `c` in `s`, if any. */
  function LastIndex(s: string, c: char): (r: Option<nat>)
    ensures r.Some? ==> (r.value < |s| && s[r.value] == c &&
                         forall j :: r.value < j < |s| ==> s[j] != c)
    ensures r.None? ==> c !in s
  {
    if s == [] then None
    else if s[|s| - 1] == c then Some(|s| - 1)
    else LastIndex(s[..|s| - 1], c)
  }
}
