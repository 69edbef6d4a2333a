/**
 * The few pieces of Python's `str` that the modelled code relies on:
 * `isspace`, `split()` without arguments, `"".join`, `startswith`,
 * `endswith`, `lower()` and `str(int)` for non-negative integers.
 * Whitespace and case are the ASCII subset of Python's Unicode rules.
 */
module Strings {

  /** `c.isspace()` for ASCII characters: space, \t \n \v \f \r and \x1c-\x1f. */
  predicate IsSpace(c: char) {
    c == ' ' || 9 <= c as int <= 13 || 28 <= c as int <= 31
  }

  predicate NoSpace(s: string) {
    forall i :: 0 <= i < |s| ==> !IsSpace(s[i])
  }

  predicate StartsWith(s: string, prefix: string) {
    |prefix| <= |s| && s[..|prefix|] == prefix
  }

  predicate EndsWith(s: string, suffix: string) {
    |suffix| <= |s| && s[|s| - |suffix|..] == suffix
  }

  /** `s[n:]` for a non-negative `n`: empty when `s` is shorter than `n`. */
  function Drop(s: string, n: nat): (r: string)
    ensures |r| == if n < |s| then |s| - n else 0
    ensures EndsWith(s, r)
  {
    if |s| <= n then [] else s[n..]
  }

  /** `"".join(parts)`. */
  function Concat(parts: seq<string>): string {
    if parts == [] then [] else parts[0] + Concat(parts[1..])
  }

  lemma {:induction false} ConcatAppend(a: seq<string>, b: seq<string>)
    ensures Concat(a + b) == Concat(a) + Concat(b)
  {
    if a == [] {
      assert a + b == b;
    } else {
      assert (a + b)[1..] == a[1..] + b;
      ConcatAppend(a[1..], b);
    }
  }

  /** Joining whitespace-free parts gives a whitespace-free string. */
  lemma {:induction false} ConcatNoSpace(parts: seq<string>)
    requires forall k :: 0 <= k < |parts| ==> NoSpace(parts[k])
    ensures NoSpace(Concat(parts))
  {
    if parts != [] {
      ConcatNoSpace(parts[1..]);
      var rest := Concat(parts[1..]);
      assert Concat(parts) == parts[0] + rest;
      forall i | 0 <= i < |parts[0] + rest| ensures !IsSpace((parts[0] + rest)[i]) {
        if i < |parts[0]| {
          assert (parts[0] + rest)[i] == parts[0][i];
        } else {
          assert (parts[0] + rest)[i] == rest[i - |parts[0]|];
        }
      }
    }
  }

  /** Length of the run of non-whitespace characters that starts `s`. */
  function WordLength(s: string): (n: nat)
    ensures n <= |s|
    ensures forall i :: 0 <= i < n ==> !IsSpace(s[i])
    ensures n < |s| ==> IsSpace(s[n])
  {
    if s == [] || IsSpace(s[0]) then 0 else 1 + WordLength(s[1..])
  }

  /** `s.split()`: the maximal runs of non-whitespace characters, in order. */
  function Tokens(s: string): (ts: seq<string>)
    ensures forall k :: 0 <= k < |ts| ==> ts[k] != [] && NoSpace(ts[k])
    decreases |s|
  {
    if s == [] then []
    else if IsSpace(s[0]) then Tokens(s[1..])
    else
      var n := WordLength(s);
      [s[..n]] + Tokens(s[n..])
  }

  /** `s` with every whitespace character deleted. */
  function RemoveSpaces(s: string): string {
    if s == [] then []
    else (if IsSpace(s[0]) then [] else [s[0]]) + RemoveSpaces(s[1..])
  }

  lemma {:induction false} RemoveSpacesAppend(a: string, b: string)
    ensures RemoveSpaces(a + b) == RemoveSpaces(a) + RemoveSpaces(b)
  {
    if a == [] {
      assert a + b == b;
    } else {
      assert (a + b)[0] == a[0];
      assert (a + b)[1..] == a[1..] + b;
      RemoveSpacesAppend(a[1..], b);
    }
  }

  lemma {:induction false} RemoveSpacesOfWord(w: string)
    requires NoSpace(w)
    ensures RemoveSpaces(w) == w
  {
    if w != [] {
      RemoveSpacesOfWord(w[1..]);
    }
  }

  /** `"".join(s.split())` deletes exactly the whitespace of `s`. */
  lemma {:induction false} JoinSplitRemovesSpaces(s: string)
    ensures Concat(Tokens(s)) == RemoveSpaces(s)
    decreases |s|
  {
    if s == [] {
    } else if IsSpace(s[0]) {
      JoinSplitRemovesSpaces(s[1..]);
    } else {
      var n := WordLength(s);
      assert s == s[..n] + s[n..];
      JoinSplitRemovesSpaces(s[n..]);
      RemoveSpacesAppend(s[..n], s[n..]);
      RemoveSpacesOfWord(s[..n]);
      assert Tokens(s) == [s[..n]] + Tokens(s[n..]);
      assert ([s[..n]] + Tokens(s[n..]))[1..] == Tokens(s[n..]);
    }
  }

  lemma {:induction false} RemoveSpacesHasNoSpace(s: string)
    ensures NoSpace(RemoveSpaces(s))
  {
    if s != [] {
      RemoveSpacesHasNoSpace(s[1..]);
      var head := if IsSpace(s[0]) then [] else [s[0]];
      var rest := RemoveSpaces(s[1..]);
      forall i | 0 <= i < |head + rest| ensures !IsSpace((head + rest)[i]) {
        if i < |head| {
          assert (head + rest)[i] == s[0];
        } else {
          assert (head + rest)[i] == rest[i - |head|];
        }
      }
    }
  }

  /** ASCII part of `str.lower()`. */
  function LowerChar(c: char): (r: char)
    ensures 'A' <= c <= 'Z' ==> 'a' <= r <= 'z'
    ensures !('A' <= c <= 'Z') ==> r == c
  {
    if 'A' <= c <= 'Z' then (c as int - 'A' as int + 'a' as int) as char else c
  }

  function Lower(s: string): (r: string)
    ensures |r| == |s|
    ensures forall i :: 0 <= i < |r| ==> !('A' <= r[i] <= 'Z')
    ensures forall i :: 0 <= i < |s| && !('A' <= s[i] <= 'Z') ==> r[i] == s[i]
  {
    seq(|s|, i requires 0 <= i < |s| => LowerChar(s[i]))
  }

  /** Lower-casing works character by character, so it commutes with taking a suffix. */
  lemma LowerDrop(s: string, i: int)
    requires 0 <= i <= |s|
    ensures Lower(s[i..]) == Lower(s)[i..]
  {
  }

  lemma LowerAppend(a: string, b: string)
    ensures Lower(a + b) == Lower(a) + Lower(b)
  {
  }

  /** Case-insensitive suffixes carry over from a suffix of a string to the string. */
  lemma LowerEndsWith(s: string, t: string, suffix: string)
    requires EndsWith(s, t) && EndsWith(Lower(t), suffix)
    ensures EndsWith(Lower(s), suffix)
  {
    LowerDrop(s, |s| - |t|);
    assert Lower(s)[|s| - |suffix|..] == Lower(t)[|t| - |suffix|..];
  }

  /** ... and back to a long enough suffix. */
  lemma LowerEndsWithSuffix(s: string, t: string, suffix: string)
    requires EndsWith(s, t) && |suffix| <= |t| && EndsWith(Lower(s), suffix)
    ensures EndsWith(Lower(t), suffix)
  {
    LowerDrop(s, |s| - |t|);
    assert Lower(t)[|t| - |suffix|..] == Lower(s)[|s| - |suffix|..];
  }

  function DigitChar(d: nat): (c: char)
    requires d < 10
    ensures '0' <= c <= '9'
  {
    ('0' as int + d) as char
  }

  /** `str(n)` for `n >= 0`: decimal digits, no leading zero. */
  function NatToString(n: nat): (r: string)
    ensures r != []
    ensures forall i :: 0 <= i < |r| ==> '0' <= r[i] <= '9'
    ensures |r| == 1 <==> n < 10
  {
    if n < 10 then [DigitChar(n)] else NatToString(n / 10) + [DigitChar(n % 10)]
  }

  /** Different numbers print differently, so numbered names never clash. */
  lemma {:induction false} NatToStringInjective(a: nat, b: nat)
    requires NatToString(a) == NatToString(b)
    ensures a == b
  {
    if a >= 10 && b >= 10 {
      var sa, sb := NatToString(a), NatToString(b);
      assert sa[|sa| - 1] == DigitChar(a % 10);
      assert sb[|sb| - 1] == DigitChar(b % 10);
      assert sa[..|sa| - 1] == NatToString(a / 10);
      assert sb[..|sb| - 1] == NatToString(b / 10);
      NatToStringInjective(a / 10, b / 10);
    }
  }
}
