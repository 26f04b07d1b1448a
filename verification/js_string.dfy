/** The two JavaScript string methods the edge handlers rely on,
    `String.prototype.includes` and `String.prototype.endsWith`, with a
    reference meaning for the substring test. */
module JsString {

  /** `pat` occurs in `s` starting at index `i`. */
  ghost predicate OccursAt(s: string, pat: string, i: int)
  {
    0 <= i && i + |pat| <= |s| && s[i..i + |pat|] == pat
  }

  /** `pat` occurs somewhere in `s`: what a substring test is meant to decide. */
  ghost predicate Occurs(s: string, pat: string)
  {
    exists i :: OccursAt(s, pat, i)
  }

  /** `s.includes(pat)`: try each start position of `s` from the left.
      As in JavaScript, the empty pattern is found in every string. */
  function Includes(s: string, pat: string): bool
    decreases |s|
  {
    if |pat| > |s| then false
    else if s[..|pat|] == pat then true
    else Includes(s[1..], pat)
  }

  /** `s.endsWith(suffix)`. */
  function EndsWith(s: string, suffix: string): bool
  {
    |suffix| <= |s| && s[|s| - |suffix|..] == suffix
  }

  /** The left-to-right scan finds `pat` exactly when it occurs somewhere. */
  lemma {:induction false} IncludesIsOccurs(s: string, pat: string)
    ensures Includes(s, pat) <==> Occurs(s, pat)
    decreases |s|
  {
    if |pat| <= |s| {
      if s[..|pat|] == pat {
        assert OccursAt(s, pat, 0);
      } else {
        var t := s[1..];
        IncludesIsOccurs(t, pat);
        if Includes(t, pat) {
          var i :| OccursAt(t, pat, i);
          assert s[i + 1..i + 1 + |pat|] == t[i..i + |pat|];
          assert OccursAt(s, pat, i + 1);
        }
        if Occurs(s, pat) {
          var j :| OccursAt(s, pat, j);
          assert j != 0;
          assert t[j - 1..j - 1 + |pat|] == s[j..j + |pat|];
          assert OccursAt(t, pat, j - 1);
        }
      }
    }
  }

  /** For a one-character pattern, `includes` is membership. */
  lemma IncludesChar(s: string, c: char)
    ensures Includes(s, [c]) <==> c in s
  {
    IncludesIsOccurs(s, [c]);
    if c in s {
      var i :| 0 <= i < |s| && s[i] == c;
      assert OccursAt(s, [c], i);
    }
    if Occurs(s, [c]) {
      var i :| OccursAt(s, [c], i);
      assert s[i] == s[i..i + 1][0];
    }
  }

  /** For a one-character suffix, `endsWith` looks at the last character. */
  lemma EndsWithChar(s: string, c: char)
    ensures EndsWith(s, [c]) <==> |s| > 0 && s[|s| - 1] == c
  {
    if |s| > 0 {
      assert s[|s| - 1..] == [s[|s| - 1]];
    }
  }
}
