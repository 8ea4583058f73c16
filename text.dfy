/**
 Text operations the ledger engine applies to transaction descriptions and
 dates: substring search, deletion of every occurrence of a substring (what
 Python's `str.replace(p, "")` does), lower-casing, and the code-point order in
 which Python compares two strings.
 */
module Text {

  /** `p` occurs in `s` at position 0. */
  predicate StartsWith(s: string, p: string)
  {
    |p| <= |s| && s[..|p|] == p
  }

  /** `p` occurs somewhere in `s`: Python's `p in s`, and pandas'
      `str.contains(p)` for a pattern with no regular-expression
      metacharacters in it. */
  predicate Contains(s: string, p: string)
    decreases |s|
  {
    StartsWith(s, p) || (|s| > 0 && Contains(s[1..], p))
  }

  /** `p` occurs in `s` at position `i`. */
  predicate OccursAt(s: string, p: string, i: int)
  {
    0 <= i <= |s| - |p| && s[i..i + |p|] == p
  }

  /** Contains agrees with the positional definition of "occurs in". */
  lemma {:induction false} ContainsIff(s: string, p: string)
    ensures Contains(s, p) <==> exists i :: OccursAt(s, p, i)
    decreases |s|
  {
    if StartsWith(s, p) {
      assert OccursAt(s, p, 0);
    } else if |s| == 0 {
      assert |p| > 0;
    } else {
      ContainsIff(s[1..], p);
      if Contains(s[1..], p) {
        var i :| OccursAt(s[1..], p, i);
        assert s[i + 1..i + 1 + |p|] == s[1..][i..i + |p|];
        assert OccursAt(s, p, i + 1);
      }
      if exists i :: OccursAt(s, p, i) {
        var i :| OccursAt(s, p, i);
        assert i != 0;
        assert s[1..][i - 1..i - 1 + |p|] == s[i..i + |p|];
        assert OccursAt(s[1..], p, i - 1);
      }
    }
  }

  /** Python's `s.replace(p, "")`: a left-to-right scan that deletes every
      non-overlapping occurrence of `p`; an empty `p` leaves `s` as it is.
      The result is never longer than `s`. */
  function RemoveAll(s: string, p: string): (r: string)
    ensures |r| <= |s|
    decreases |s|
  {
    if |p| == 0 || |s| == 0 then s
    else if StartsWith(s, p) then RemoveAll(s[|p|..], p)
    else [s[0]] + RemoveAll(s[1..], p)
  }

  /** The scan keeps everything before the first occurrence of a non-empty
      `p`, deletes that occurrence, and goes on after it; with
      `RemoveAllAbsent` this fixes the result on every input: every
      occurrence, left to right, none overlapping the one deleted before. */
  lemma {:induction false} RemoveAllFirstOccurrence(s: string, p: string, i: int)
    requires |p| > 0 && OccursAt(s, p, i)
    requires forall j :: 0 <= j < i ==> !OccursAt(s, p, j)
    ensures RemoveAll(s, p) == s[..i] + RemoveAll(s[i + |p|..], p)
    decreases i
  {
    if i == 0 {
      assert StartsWith(s, p);
      assert s[..0] == [];
    } else {
      assert !OccursAt(s, p, 0);
      assert RemoveAll(s, p) == [s[0]] + RemoveAll(s[1..], p);
      OccursAtTail(s, p, i - 1);
      forall j | 0 <= j < i - 1
        ensures !OccursAt(s[1..], p, j)
      {
        OccursAtTail(s, p, j);
      }
      RemoveAllFirstOccurrence(s[1..], p, i - 1);
      assert s[1..][i - 1 + |p|..] == s[i + |p|..];
      assert [s[0]] + s[1..][..i - 1] == s[..i];
    }
  }

  /** An occurrence in the tail is an occurrence one position further on. */
  lemma OccursAtTail(s: string, p: string, j: int)
    requires |s| > 0 && 0 <= j
    ensures OccursAt(s[1..], p, j) <==> OccursAt(s, p, j + 1)
  {
    if 0 <= j <= |s| - 1 - |p| {
      assert s[1..][j..j + |p|] == s[j + 1..j + 1 + |p|];
    }
  }

  /** A string in which `p` does not occur comes back unchanged. */
  lemma {:induction false} RemoveAllAbsent(s: string, p: string)
    requires !Contains(s, p)
    ensures RemoveAll(s, p) == s
    decreases |s|
  {
    if |p| != 0 && |s| != 0 {
      RemoveAllAbsent(s[1..], p);
      assert [s[0]] + s[1..] == s;
    }
  }

  /** A string in which a non-empty `p` occurs gets strictly shorter: the scan
      removes at least one occurrence. */
  lemma {:induction false} RemoveAllShrinks(s: string, p: string)
    requires |p| > 0 && Contains(s, p)
    ensures |RemoveAll(s, p)| < |s|
    decreases |s|
  {
    if !StartsWith(s, p) {
      RemoveAllShrinks(s[1..], p);
    }
  }

  /** Removing a non-empty `p` changes the string exactly when `p` occurs in it. */
  lemma RemoveAllUnchangedIff(s: string, p: string)
    requires |p| > 0
    ensures RemoveAll(s, p) == s <==> !Contains(s, p)
  {
    if Contains(s, p) {
      RemoveAllShrinks(s, p);
    } else {
      RemoveAllAbsent(s, p);
    }
  }

  predicate IsUpper(c: char)
  {
    'A' <= c <= 'Z'
  }

  /** Lower-cases one ASCII letter; every other character is kept. */
  function LowerChar(c: char): (l: char)
    ensures !IsUpper(l)
    ensures IsUpper(c) ==> l as int == c as int + 32
    ensures !IsUpper(c) ==> l == c
  {
    if IsUpper(c) then (c as int + 32) as char else c
  }

  /** Python's `str.lower()` restricted to ASCII: same length, each character
      lower-cased, and no upper-case letter left. */
  function Lower(s: string): (r: string)
    ensures |r| == |s|
    ensures forall i :: 0 <= i < |s| ==> r[i] == LowerChar(s[i])
    ensures forall i :: 0 <= i < |r| ==> !IsUpper(r[i])
  {
    if s == [] then [] else [LowerChar(s[0])] + Lower(s[1..])
  }

  /** A pattern with a character that `s` lacks does not occur in `s`. */
  lemma {:induction false} MissingCharNoMatch(s: string, p: string, j: int)
    requires 0 <= j < |p|
    requires forall i :: 0 <= i < |s| ==> s[i] != p[j]
    ensures !Contains(s, p)
    decreases |s|
  {
    if |p| <= |s| {
      assert s[..|p|][j] != p[j];
    }
    if |s| > 0 {
      MissingCharNoMatch(s[1..], p, j);
    }
  }

  /** An occurrence of `p` in `s` is an occurrence of `Lower(p)` in `Lower(s)`:
      matching on lower-cased text is case-insensitive. */
  lemma {:induction false} ContainsLower(s: string, p: string)
    requires Contains(s, p)
    ensures Contains(Lower(s), Lower(p))
    decreases |s|
  {
    if StartsWith(s, p) {
      assert Lower(s)[..|p|] == Lower(p);
    } else {
      ContainsLower(s[1..], p);
      assert Lower(s)[1..] == Lower(s[1..]);
    }
  }

  /** Python's `a <= b` on strings: lexicographic by code point, a proper
      prefix coming first. */
  predicate LexLe(a: string, b: string)
    decreases |a|
  {
    a == [] || (b != [] && (a[0] < b[0] || (a[0] == b[0] && LexLe(a[1..], b[1..]))))
  }

  /** Any two strings are comparable. */
  lemma {:induction false} LexLeTotal(a: string, b: string)
    ensures LexLe(a, b) || LexLe(b, a)
    decreases |a|
  {
    if a != [] && b != [] && a[0] == b[0] {
      LexLeTotal(a[1..], b[1..]);
    }
  }

  lemma {:induction false} LexLeTransitive(a: string, b: string, c: string)
    requires LexLe(a, b) && LexLe(b, c)
    ensures LexLe(a, c)
    decreases |a|
  {
    if a != [] && a[0] == b[0] && b[0] == c[0] {
      LexLeTransitive(a[1..], b[1..], c[1..]);
    }
  }

  lemma {:induction false} LexLeAntisymmetric(a: string, b: string)
    requires LexLe(a, b) && LexLe(b, a)
    ensures a == b
    decreases |a|
  {
    if a != [] {
      LexLeAntisymmetric(a[1..], b[1..]);
      assert a == [a[0]] + a[1..] && b == [b[0]] + b[1..];
    }
  }
}
