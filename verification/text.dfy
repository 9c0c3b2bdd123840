/** The string operations the chat front-end applies to model ARNs, error texts and transcripts. */
module Text {
  import opened Wrappers

  /** A request field that Python treats as true: present and non-empty. */
  predicate Truthy(field: Option<string>) {
    field.Some? && |field.value| > 0
  }

  /** Lower-case one character. Only the ASCII letters are mapped. */
  function LowerChar(c: char): char {
    if 'A' <= c <= 'Z' then (c as int + 32) as char else c
  }

  /** Lower-case a string character by character. */
  function Lower(s: string): (r: string)
    ensures |r| == |s|
    ensures forall i :: 0 <= i < |s| ==> r[i] == LowerChar(s[i])
  {
    seq(|s|, i requires 0 <= i < |s| => LowerChar(s[i]))
  }

  /** Lower-casing commutes with slicing. */
  lemma LowerSlice(s: string, i: nat, j: nat)
    requires i <= j <= |s|
    ensures Lower(s)[i..j] == Lower(s[i..j])
  {
  }

  /** Lower-casing commutes with concatenation. */
  lemma LowerConcat(a: string, b: string)
    ensures Lower(a + b) == Lower(a) + Lower(b)
  {
  }

  /** A string without upper-case ASCII letters is its own lower-case form. */
  lemma LowerKeepsLowercase(s: string)
    requires forall i :: 0 <= i < |s| ==> !('A' <= s[i] <= 'Z')
    ensures Lower(s) == s
  {
  }

  predicate IsPrefix(p: string, s: string) {
    |p| <= |s| && s[..|p|] == p
  }

  /** `p` occurs in `s` starting at position `i`. */
  ghost predicate OccursAt(s: string, p: string, i: int) {
    0 <= i && i + |p| <= |s| && s[i..i + |p|] == p
  }

  /** Substring test, the `p in s` of the source. */
  predicate Contains(s: string, p: string)
    decreases |s|
  {
    IsPrefix(p, s) || (|s| > 0 && Contains(s[1..], p))
  }

  /** `Contains` holds exactly when there is a position at which `p` occurs. */
  lemma {:induction false} ContainsIffOccurs(s: string, p: string)
    ensures Contains(s, p) <==> exists i :: OccursAt(s, p, i)
    decreases |s|
  {
    if Contains(s, p) {
      if IsPrefix(p, s) {
        assert OccursAt(s, p, 0);
      } else {
        ContainsIffOccurs(s[1..], p);
        var j :| OccursAt(s[1..], p, j);
        assert s[1..][j..j + |p|] == s[j + 1..j + 1 + |p|];
        assert OccursAt(s, p, j + 1);
      }
    }
    if exists i :: OccursAt(s, p, i) {
      var i :| OccursAt(s, p, i);
      if i > 0 {
        assert s[1..][i - 1..i - 1 + |p|] == s[i..i + |p|];
        assert OccursAt(s[1..], p, i - 1);
        ContainsIffOccurs(s[1..], p);
      } else {
        assert IsPrefix(p, s);
      }
    }
  }

  /** An occurrence of `p` at position `i` is witnessed by `Contains`. */
  lemma OccursAtContains(s: string, p: string, i: int)
    requires OccursAt(s, p, i)
    ensures Contains(s, p)
  {
    ContainsIffOccurs(s, p);
  }

  /** Containment is transitive: whatever contains `q` contains every substring of `q`. */
  lemma ContainsTransitive(s: string, q: string, p: string)
    requires Contains(s, q) && Contains(q, p)
    ensures Contains(s, p)
  {
    ContainsIffOccurs(s, q);
    ContainsIffOccurs(q, p);
    var i :| OccursAt(s, q, i);
    var j :| OccursAt(q, p, j);
    forall k | 0 <= k < |p|
      ensures s[i + j..i + j + |p|][k] == p[k]
    {
      assert p[k] == q[j..j + |p|][k] == q[j + k];
      assert q[j + k] == s[i..i + |q|][j + k] == s[i + j + k];
    }
    assert s[i + j..i + j + |p|] == p;
    OccursAtContains(s, p, i + j);
  }

  /** The text after the last `sep` in `s` (all of `s` when it holds no `sep`):
      the `s.split(sep)[-1]` of the source. */
  function LastSegment(s: string, sep: char): (r: string)
    ensures sep !in r
    ensures |r| <= |s| && r == s[|s| - |r|..]
    ensures |r| < |s| ==> s[|s| - |r| - 1] == sep
  {
    if |s| == 0 || s[|s| - 1] == sep then []
    else LastSegment(s[..|s| - 1], sep) + [s[|s| - 1]]
  }

  /** `sep.join(parts)` of the source. */
  function Join(sep: string, parts: seq<string>): string {
    if |parts| == 0 then ""
    else if |parts| == 1 then parts[0]
    else Join(sep, parts[..|parts| - 1]) + sep + parts[|parts| - 1]
  }

  /** Total length of the strings in `parts`. */
  function TotalLength(parts: seq<string>): nat {
    if |parts| == 0 then 0 else TotalLength(parts[..|parts| - 1]) + |parts[|parts| - 1]|
  }

  /** Joining `n` non-empty-list parts inserts the separator exactly `n - 1` times:
      the result is as long as the parts plus `n - 1` separators. */
  lemma {:induction false} JoinLength(sep: string, parts: seq<string>)
    requires |parts| > 0
    ensures |Join(sep, parts)| == TotalLength(parts) + (|parts| - 1) * |sep|
  {
    if |parts| > 1 {
      var init := parts[..|parts| - 1];
      JoinLength(sep, init);
      var n := |init|;
      assert (n - 1) * |sep| + |sep| == n * |sep|;
    }
  }

  /** Joining reads its parts left to right: the first part opens the result and each
      further part follows one separator. */
  lemma {:induction false} JoinCons(sep: string, p: string, parts: seq<string>)
    requires |parts| > 0
    ensures Join(sep, [p] + parts) == p + sep + Join(sep, parts)
  {
    var all := [p] + parts;
    if |parts| == 1 {
      assert all[..|all| - 1] == [p];
    } else {
      assert all[..|all| - 1] == [p] + parts[..|parts| - 1];
      JoinCons(sep, p, parts[..|parts| - 1]);
    }
  }
}
