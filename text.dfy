/**
 * Substring search and joining on strings, the primitives both sides of the
 * chat use: `includes` and `split` on the client, string interpolation and
 * the conversion of a query parameter's values on the server.
 */
module Text {
  import opened Wrappers

  /** `t` occurs in `s` starting at index `i`. */
  predicate OccursAt(s: string, t: string, i: nat) {
    i + |t| <= |s| && s[i..i + |t|] == t
  }

  /** The first index at or after `from` where `t` occurs in `s`, if any. */
  function FindFrom(s: string, t: string, from: nat): (r: Option<nat>)
    decreases |s| - from
    ensures r.Some? ==> from <= r.value && OccursAt(s, t, r.value)
    ensures r.Some? ==> forall i :: from <= i < r.value ==> !OccursAt(s, t, i)
    ensures r.None? ==> forall i :: from <= i ==> !OccursAt(s, t, i)
  {
    if from + |t| > |s| then None
    else if s[from..from + |t|] == t then Some(from)
    else FindFrom(s, t, from + 1)
  }

  /** JavaScript's `s.includes(t)`. */
  predicate Contains(s: string, t: string)
    ensures Contains(s, t) ==> |t| <= |s|
    ensures t == [] ==> Contains(s, t)
  {
    FindFrom(s, t, 0).Some?
  }

  /** `Contains` holds exactly when `t` occurs somewhere in `s`. */
  lemma ContainsIff(s: string, t: string)
    ensures Contains(s, t) <==> exists i :: OccursAt(s, t, i)
  {
    if Contains(s, t) {
      assert OccursAt(s, t, FindFrom(s, t, 0).value);
    }
  }

  /** A known occurrence witnesses `Contains`. */
  lemma ContainsAt(s: string, t: string, i: nat)
    requires OccursAt(s, t, i)
    ensures Contains(s, t)
  {
    ContainsIff(s, t);
  }

  /** The first occurrence is found when nothing occurs before it. */
  lemma FindFirst(s: string, t: string, p: nat)
    requires OccursAt(s, t, p)
    requires forall i :: 0 <= i < p ==> !OccursAt(s, t, i)
    ensures FindFrom(s, t, 0) == Some(p)
  {
  }

  /** An occurrence inside a prefix of `s` is an occurrence in `s`. */
  lemma OccursInPrefix(s: string, t: string, k: nat, i: nat)
    requires k <= |s|
    requires OccursAt(s[..k], t, i)
    ensures OccursAt(s, t, i)
  {
    assert s[..k][i..i + |t|] == s[i..i + |t|];
  }

  /**
   * The values joined with `sep` between consecutive ones: the inverse of
   * splitting, and also how the values of a query parameter given several
   * times become one string.
   */
  function Join(parts: seq<string>, sep: string): (r: string)
    ensures |parts| == 1 ==> r == parts[0]
    ensures parts == [] ==> r == ""
    ensures parts != [] ==> |parts[0]| <= |r| && r[..|parts[0]|] == parts[0]
  {
    if parts == [] then ""
    else if |parts| == 1 then parts[0]
    else parts[0] + sep + Join(parts[1..], sep)
  }
}
