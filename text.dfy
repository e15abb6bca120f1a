/** The two string operations the visa engine relies on: `toLowerCase`,
    restricted to ASCII letters, and `includes`, a substring test. */
module AsciiText {

  /** Lower-cases one ASCII upper-case letter; every other character is kept. */
  function LowerChar(c: char): char
  {
    if 'A' <= c <= 'Z' then (c as int + 32) as char else c
  }

  predicate IsAsciiUpper(c: char)
  {
    'A' <= c <= 'Z'
  }

  /** ASCII `String.prototype.toLowerCase`. */
  function ToLower(s: string): (r: string)
    ensures |r| == |s|
    ensures forall i :: 0 <= i < |s| ==> r[i] == LowerChar(s[i])
    ensures forall i :: 0 <= i < |r| ==> !IsAsciiUpper(r[i])
  {
    if s == [] then [] else [LowerChar(s[0])] + ToLower(s[1..])
  }

  /** `sub` occurs in `s` starting at index `i`. */
  ghost predicate OccursAt(s: string, sub: string, i: nat)
  {
    i + |sub| <= |s| && s[i..i + |sub|] == sub
  }

  /** The mathematical meaning of "s contains sub". */
  ghost predicate HasSubstring(s: string, sub: string)
  {
    exists i: nat :: OccursAt(s, sub, i)
  }

  /** `String.prototype.includes`: a left-to-right search for `sub` in `s`.
      The empty string is contained in every string. */
  function Includes(s: string, sub: string): bool
    decreases |s|
  {
    if |sub| > |s| then false
    else if s[..|sub|] == sub then true
    else Includes(s[1..], sub)
  }

  lemma OccursAtShift(s: string, sub: string, i: nat)
    requires |s| > 0
    ensures OccursAt(s[1..], sub, i) <==> OccursAt(s, sub, i + 1)
  {
    if i + 1 + |sub| <= |s| {
      assert s[1..][i..i + |sub|] == s[i + 1..i + 1 + |sub|];
    }
  }

  /** The search finds an occurrence exactly when one exists. */
  lemma {:induction false} IncludesIsSubstring(s: string, sub: string)
    ensures Includes(s, sub) <==> HasSubstring(s, sub)
    decreases |s|
  {
    if |sub| > |s| {
    } else if s[..|sub|] == sub {
      assert OccursAt(s, sub, 0);
    } else {
      IncludesIsSubstring(s[1..], sub);
      if HasSubstring(s, sub) {
        var i: nat :| OccursAt(s, sub, i);
        assert i != 0;
        OccursAtShift(s, sub, i - 1);
      }
      if HasSubstring(s[1..], sub) {
        var j: nat :| OccursAt(s[1..], sub, j);
        OccursAtShift(s, sub, j);
      }
    }
  }

  /** A window of `s` that lower-cases to `sub` makes the lower-cased `s`
      contain `sub`. */
  lemma IncludesAfterLowering(s: string, sub: string, at: nat)
    requires at + |sub| <= |s| && ToLower(s[at..at + |sub|]) == sub
    ensures Includes(ToLower(s), sub)
  {
    var lowered := ToLower(s);
    forall k | 0 <= k < |sub| ensures lowered[at + k] == sub[k] {
      assert s[at + k] == s[at..at + |sub|][k];
    }
    assert lowered[at..at + |sub|] == sub;
    assert OccursAt(lowered, sub, at);
    IncludesIsSubstring(lowered, sub);
  }

  /** `sub` does not occur where no window starts with its first character. */
  lemma NotIncludedWithoutFirstChar(s: string, sub: string)
    requires |sub| > 0
    requires forall i :: 0 <= i && i + |sub| <= |s| ==> s[i] != sub[0]
    ensures !Includes(s, sub)
  {
    IncludesIsSubstring(s, sub);
  }
}
