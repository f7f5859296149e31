/**
 * The two string operations of Python's `str` that the request handlers use:
 * `lower()` and `replace(old, new)` with a one-character `old`.
 */
module Text {

  /** An ASCII capital letter, the characters `lower()` changes in this model. */
  predicate IsUpper(c: char)
  {
    'A' <= c <= 'Z'
  }

  /** `c.lower()` for one character. */
  function LowerChar(c: char): (d: char)
    ensures !IsUpper(d)
    ensures IsUpper(c) ==> d as int == c as int + 32 && 'a' <= d <= 'z'
    ensures !IsUpper(c) ==> d == c
  {
    if IsUpper(c) then (c as int + 32) as char else c
  }

  /** `s.lower()`: every capital letter is replaced by its small letter, position by position. */
  function Lower(s: string): (r: string)
    ensures |r| == |s|
    ensures forall i :: 0 <= i < |s| ==> r[i] == LowerChar(s[i])
    ensures forall i :: 0 <= i < |r| ==> !IsUpper(r[i])
  {
    if s == [] then [] else [LowerChar(s[0])] + Lower(s[1..])
  }

  /** Lowering an already lowered string changes nothing. */
  lemma LowerIdempotent(s: string)
    ensures Lower(Lower(s)) == Lower(s)
  {
    var t := Lower(s);
    assert forall i :: 0 <= i < |t| ==> Lower(t)[i] == t[i];
  }

  /** A string is its own lower case exactly when it contains no capital letter. */
  lemma LowerFixedIff(s: string)
    ensures Lower(s) == s <==> forall i :: 0 <= i < |s| ==> !IsUpper(s[i])
  {
    if forall i :: 0 <= i < |s| ==> !IsUpper(s[i]) {
      assert forall i :: 0 <= i < |s| ==> Lower(s)[i] == s[i];
    }
  }

  /** The number of occurrences of `c` in `s` (Python's `s.count(c)`). */
  function Count(s: string, c: char): (n: nat)
    ensures n <= |s|
    ensures n == 0 <==> c !in s
  {
    if s == [] then 0 else (if s[0] == c then 1 else 0) + Count(s[1..], c)
  }

  /** Counting distributes over concatenation. */
  lemma {:induction false} CountAppend(a: string, b: string, c: char)
    ensures Count(a + b, c) == Count(a, c) + Count(b, c)
  {
    if a == [] {
      assert a + b == b;
    } else {
      assert (a + b)[1..] == a[1..] + b;
      CountAppend(a[1..], b, c);
    }
  }

  /**
   * `s.replace(target, replacement)` for a one-character `target`: every
   * occurrence of `target` is replaced by `replacement`, scanning left to right.
   */
  function Replace(s: string, target: char, replacement: string): (r: string)
    ensures target !in replacement ==> target !in r
    ensures forall c :: c in r ==> (c in s && c != target) || c in replacement
    ensures |replacement| == 1 ==> |r| == |s|
    ensures replacement == [] ==> |r| == |s| - Count(s, target)
  {
    if s == [] then []
    else (if s[0] == target then replacement else [s[0]]) + Replace(s[1..], target, replacement)
  }

  /** Replacing a character that does not occur returns the string unchanged. */
  lemma {:induction false} ReplaceAbsent(s: string, target: char, replacement: string)
    requires target !in s
    ensures Replace(s, target, replacement) == s
  {
    if s != [] {
      assert target !in s[1..];
      ReplaceAbsent(s[1..], target, replacement);
    }
  }

  /** Replacement works on each part of a concatenation separately. */
  lemma {:induction false} ReplaceAppend(a: string, b: string, target: char, replacement: string)
    ensures Replace(a + b, target, replacement) == Replace(a, target, replacement) + Replace(b, target, replacement)
  {
    if a == [] {
      assert a + b == b;
    } else {
      assert (a + b)[1..] == a[1..] + b;
      ReplaceAppend(a[1..], b, target, replacement);
    }
  }

  /** Replacement leaves the count of any other character that it does not introduce unchanged. */
  lemma {:induction false} ReplaceKeepsCount(s: string, target: char, replacement: string, c: char)
    requires c != target && c !in replacement
    ensures Count(Replace(s, target, replacement), c) == Count(s, c)
  {
    if s != [] {
      var head := if s[0] == target then replacement else [s[0]];
      assert Replace(s, target, replacement) == head + Replace(s[1..], target, replacement);
      CountAppend(head, Replace(s[1..], target, replacement), c);
      ReplaceKeepsCount(s[1..], target, replacement, c);
      assert Count(head, c) == (if s[0] == c then 1 else 0) by {
        if s[0] != target {
          assert head == [s[0]];
          assert head[1..] == [];
        } else {
          assert c !in head;
        }
      }
    }
  }
}
