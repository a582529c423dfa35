/**
 * The few JavaScript string operations the modelled code relies on:
 * `indexOf`, `replace` with a string pattern, and `toUpperCase` on ASCII.
 */
module JsStrings {

  /** `sub` occurs in `s` at position `i`. */
  predicate OccursAt(s: string, sub: string, i: nat)
  {
    i + |sub| <= |s| && s[i..i + |sub|] == sub
  }

  /** `p` is a prefix of `s`. */
  predicate IsPrefix(p: string, s: string)
  {
    |p| <= |s| && s[..|p|] == p
  }

  /** The first position at or after `from` where `sub` occurs in `s`, or -1. */
  function IndexOfFrom(s: string, sub: string, from: nat): (r: int)
    requires from <= |s|
    ensures r == -1 || (from <= r && OccursAt(s, sub, r))
    ensures r == -1 ==> forall i :: from <= i <= |s| ==> !OccursAt(s, sub, i)
    ensures r != -1 ==> forall i :: from <= i < r ==> !OccursAt(s, sub, i)
    decreases |s| - from
  {
    if OccursAt(s, sub, from) then from
    else if from == |s| then -1
    else IndexOfFrom(s, sub, from + 1)
  }

  /** `s.indexOf(sub)`: the first position where `sub` occurs in `s`, or -1 when it does not occur. */
  function IndexOf(s: string, sub: string): (r: int)
    ensures r == -1 <==> forall i :: 0 <= i <= |s| ==> !OccursAt(s, sub, i)
    ensures r != -1 ==> 0 <= r && OccursAt(s, sub, r) && forall i :: 0 <= i < r ==> !OccursAt(s, sub, i)
  {
    IndexOfFrom(s, sub, 0)
  }

  /** `s.indexOf(sub) === 0` holds exactly when `sub` is a prefix of `s`. */
  lemma IndexOfZeroIsPrefix(s: string, sub: string)
    ensures IndexOf(s, sub) == 0 <==> IsPrefix(sub, s)
  {
    if IsPrefix(sub, s) {
      assert OccursAt(s, sub, 0);
    }
  }

  /** `s.replace(pat, rep)` with a string pattern: only the first occurrence is replaced.
      `rep` is taken literally; JavaScript's `$` patterns in `rep` are not expanded. */
  function ReplaceFirst(s: string, pat: string, rep: string): (r: string)
    ensures IndexOf(s, pat) == -1 ==> r == s
    ensures IndexOf(s, pat) != -1 ==>
              var i := IndexOf(s, pat); r == s[..i] + rep + s[i + |pat|..]
  {
    var i := IndexOf(s, pat);
    if i == -1 then s else s[..i] + rep + s[i + |pat|..]
  }

  /** Removing `pat` where it first occurs, then putting it back, restores the string. */
  lemma ReplaceFirstUndone(s: string, pat: string)
    requires IndexOf(s, pat) != -1
    ensures var i := IndexOf(s, pat);
            var r := ReplaceFirst(s, pat, "");
            r[..i] + pat + r[i..] == s
  {
    var i := IndexOf(s, pat);
    var r := ReplaceFirst(s, pat, "");
    assert r == s[..i] + s[i + |pat|..];
    assert r[..i] == s[..i] && r[i..] == s[i + |pat|..];
    assert s[i..i + |pat|] == pat;
    assert s == s[..i] + s[i..i + |pat|] + s[i + |pat|..];
  }

  /** ASCII upper-casing of one character; every other character is left alone. */
  function UpperChar(c: char): (u: char)
  {
    if 'a' <= c <= 'z' then (c as int - 'a' as int + 'A' as int) as char else c
  }

  /** `s.toUpperCase()` on ASCII text. */
  function ToUpperCase(s: string): (r: string)
    ensures |r| == |s|
    ensures forall i :: 0 <= i < |s| ==> r[i] == UpperChar(s[i])
  {
    seq(|s|, i requires 0 <= i < |s| => UpperChar(s[i]))
  }

  /** After upper-casing, no lower-case ASCII letter is left, and upper-casing again changes nothing. */
  lemma ToUpperCaseNormalises(s: string)
    ensures forall i :: 0 <= i < |s| ==> !('a' <= ToUpperCase(s)[i] <= 'z')
    ensures ToUpperCase(ToUpperCase(s)) == ToUpperCase(s)
  {
  }
}
