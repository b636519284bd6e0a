/** The few JavaScript value rules the news pipeline leans on: values that may
    be missing, the truthiness behind `a || b` and `a ? b : c`, `toLowerCase`
    and `includes` on strings. */
module JsValues {

  /** `undefined`/`null` (None) or a present value (Some). */
  datatype Option<+T> = None | Some(value: T)

  /** A date string together with the instant, in milliseconds since the
      epoch, that `new Date(text)` reads from it (None for an Invalid Date).
      How the host parses the text is not modelled: the instant is given. */
  datatype DateField = DateField(text: string, instant: Option<int>)

  /** A string-valued JSON field is truthy when it is present and not "". */
  predicate Truthy(v: Option<string>)
  {
    v.Some? && v.value != ""
  }

  /** `v || fallback` for a field holding a string or nothing. */
  function Or(v: Option<string>, fallback: string): string
  {
    if Truthy(v) then v.value else fallback
  }

  /** `String.prototype.toLowerCase` on one character, restricted to ASCII. */
  function LowerChar(c: char): char
  {
    if 'A' <= c <= 'Z' then (c as int + 32) as char else c
  }

  /** `String.prototype.toLowerCase`, restricted to ASCII letters. */
  function ToLower(s: string): (r: string)
    ensures |r| == |s|
    ensures forall i :: 0 <= i < |s| ==> r[i] == LowerChar(s[i])
  {
    seq(|s|, i requires 0 <= i < |s| => LowerChar(s[i]))
  }

  /** `s.includes(sub)`: `sub` occurs in `s` at some offset. */
  predicate Includes(s: string, sub: string)
  {
    sub <= s || (|s| > 0 && Includes(s[1..], sub))
  }

  /** `sub` occurs in `s` starting at offset `k`. */
  predicate OccursAt(s: string, sub: string, k: nat)
  {
    k + |sub| <= |s| && s[k..k + |sub|] == sub
  }

  /** `includes` finds every substring of `s`. */
  lemma {:induction false} IncludesSlice(s: string, sub: string, k: nat)
    requires OccursAt(s, sub, k)
    ensures Includes(s, sub)
  {
    if k > 0 {
      assert s[1..][k - 1..k - 1 + |sub|] == sub;
      IncludesSlice(s[1..], sub, k - 1);
    } else {
      assert sub <= s;
    }
  }

  /** `includes` finds only substrings of `s`. */
  lemma {:induction false} IncludesWitness(s: string, sub: string) returns (k: nat)
    requires Includes(s, sub)
    ensures OccursAt(s, sub, k)
  {
    if sub <= s {
      k := 0;
    } else {
      var k' := IncludesWitness(s[1..], sub);
      k := k' + 1;
      assert s[k..k + |sub|] == s[1..][k'..k' + |sub|];
    }
  }
}
