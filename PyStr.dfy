/**
 * The three Python string operations the vote handlers rely on, stated over
 * `string` (= `seq<char>`): the substring test `sub in s`, the deletion
 * `s.replace(sub, '')`, and `str.lower()` (ASCII letters only).
 */
module PyStr {

  /** `sub` occurs in `s` starting at index `i`. */
  ghost predicate OccursAt(s: string, sub: string, i: int)
  {
    0 <= i && i + |sub| <= |s| && s[i..i + |sub|] == sub
  }

  /**
   * Python's `sub in s`: `sub` is a contiguous run of `s`.
   * The empty string is in every string.
   */
  predicate Contains(s: string, sub: string)
    decreases |s|
  {
    |sub| <= |s| && (s[..|sub|] == sub || (|s| > 0 && Contains(s[1..], sub)))
  }

  /**
   * Python's `s.replace(sub, '')`: scanning left to right, every
   * non-overlapping occurrence of `sub` is deleted.  Replacing the empty
   * string by the empty string leaves `s` as it is.
   */
  function Remove(s: string, sub: string): (r: string)
    ensures |r| <= |s|
    decreases |s|
  {
    if sub == [] || |s| < |sub| then s
    else if s[..|sub|] == sub then Remove(s[|sub|..], sub)
    else [s[0]] + Remove(s[1..], sub)
  }

  /** Python's `c.lower()` restricted to ASCII. */
  function LowerChar(c: char): char
  {
    if 'A' <= c <= 'Z' then (c as int + 32) as char else c
  }

  /** Python's `s.lower()` restricted to ASCII: each character is lowered in place. */
  function Lower(s: string): (r: string)
    ensures |r| == |s|
    ensures forall i :: 0 <= i < |s| ==> r[i] == LowerChar(s[i])
  {
    seq(|s|, i requires 0 <= i < |s| => LowerChar(s[i]))
  }

  /** Lowering is idempotent, so a lowered name is its own normal form. */
  lemma LowerIdempotent(s: string)
    ensures Lower(Lower(s)) == Lower(s)
  {
  }

  /** `Contains` is exactly "there is an index where `sub` occurs". */
  lemma {:induction false} ContainsIff(s: string, sub: string)
    ensures Contains(s, sub) <==> exists i :: OccursAt(s, sub, i)
    decreases |s|
  {
    if |sub| > |s| {
      assert forall i :: !OccursAt(s, sub, i);
    } else if s[..|sub|] == sub {
      assert OccursAt(s, sub, 0);
    } else {
      ContainsIff(s[1..], sub);
      ShiftOccurrence(s, sub);
      assert !OccursAt(s, sub, 0);
      assert forall i :: OccursAt(s, sub, i) ==> OccursAt(s[1..], sub, i - 1);
    }
  }

  /** An occurrence in `s[1..]` is an occurrence in `s` one index later. */
  lemma ShiftOccurrence(s: string, sub: string)
    requires |s| > 0
    ensures forall i :: OccursAt(s[1..], sub, i) <==> 0 <= i && OccursAt(s, sub, i + 1)
  {
  }

  /** Appending `sub` makes it contained: after `voted_up + user`, `user in voted_up`. */
  lemma {:induction false} ContainsAppended(s: string, sub: string)
    ensures Contains(s + sub, sub)
    decreases |s|
  {
    if s != [] && (s + sub)[..|sub|] != sub {
      assert (s + sub)[1..] == s[1..] + sub;
      ContainsAppended(s[1..], sub);
    }
  }

  /**
   * When `sub` does not occur at any index below `k`, `Contains` may skip the
   * first `k` characters.
   */
  lemma {:induction false} SkipContains(s: string, sub: string, k: nat)
    requires k <= |s|
    requires forall i :: 0 <= i < k ==> !OccursAt(s, sub, i)
    ensures Contains(s, sub) == Contains(s[k..], sub)
    decreases k
  {
    if k > 0 {
      assert !OccursAt(s, sub, 0);
      if |sub| > |s| {
      } else {
        ShiftOccurrence(s, sub);
        forall i | 0 <= i < k - 1 ensures !OccursAt(s[1..], sub, i) {
          assert !OccursAt(s, sub, i + 1);
        }
        SkipContains(s[1..], sub, k - 1);
        assert s[1..][k - 1..] == s[k..];
      }
    }
  }

  /**
   * When `sub` does not occur at any index below `k`, `Remove` copies the
   * first `k` characters unchanged.
   */
  lemma {:induction false} SkipRemove(s: string, sub: string, k: nat)
    requires sub != []
    requires k <= |s|
    requires forall i :: 0 <= i < k ==> !OccursAt(s, sub, i)
    ensures Remove(s, sub) == s[..k] + Remove(s[k..], sub)
    decreases k
  {
    if k == 0 {
      assert s[..0] == [] && s[0..] == s;
    } else if |s| < |sub| {
      assert s[..k] + s[k..] == s;
    } else {
      assert !OccursAt(s, sub, 0);
      ShiftOccurrence(s, sub);
      forall i | 0 <= i < k - 1 ensures !OccursAt(s[1..], sub, i) {
        assert !OccursAt(s, sub, i + 1);
      }
      SkipRemove(s[1..], sub, k - 1);
      assert s[1..][k - 1..] == s[k..];
      assert [s[0]] + s[1..][..k - 1] == s[..k];
    }
  }

  /** A string in which `sub` does not occur is left unchanged by `Remove`. */
  lemma {:induction false} RemoveAbsent(s: string, sub: string)
    requires !Contains(s, sub)
    ensures Remove(s, sub) == s
  {
    if sub != [] {
      ContainsIff(s, sub);
      SkipRemove(s, sub, |s|);
      assert s[|s|..] == [];
    }
  }
}
