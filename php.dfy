/** The few pieces of PHP value semantics the authentication core relies on:
    nullable values, the falsiness of strings, `mb_strtolower` on ASCII and `strstr`. */
module Php {

  /** A PHP value that may be `null`. */
  datatype Option<+T> = None | Some(value: T)

  /** PHP's `empty($s)` / `!$s` for a string: only "" and "0" are falsy. */
  predicate Falsy(s: string) {
    s == "" || s == "0"
  }

  /** A `false`-or-string result (`strstr`) is truthy when it is a non-falsy string. */
  predicate Truthy(r: Option<string>) {
    r.Some? && !Falsy(r.value)
  }

  function LowerChar(c: char): char {
    if 'A' <= c <= 'Z' then (c as int + 32) as char else c
  }

  /** `mb_strtolower`, on the ASCII letters. */
  function Lower(s: string): (r: string)
    ensures |r| == |s|
    ensures forall i :: 0 <= i < |s| ==> r[i] == LowerChar(s[i])
  {
    if s == [] then [] else [LowerChar(s[0])] + Lower(s[1..])
  }

  /** Lower-casing twice is lower-casing once. */
  lemma {:induction false} LowerIdempotent(s: string)
    ensures Lower(Lower(s)) == Lower(s)
  {
    var l := Lower(s);
    var ll := Lower(l);
    assert |ll| == |l|;
    forall i | 0 <= i < |l| ensures ll[i] == l[i] {
      assert LowerChar(LowerChar(s[i])) == LowerChar(s[i]);
    }
  }

  /** `n` occurs somewhere in `h` (the empty string occurs everywhere). */
  predicate Contains(h: string, n: string) {
    exists i :: 0 <= i <= |h| && n <= h[i..]
  }

  /** `strstr($h, $n)` (PHP 8): the suffix of `h` that starts at the first
      occurrence of `n`, or `false` (here `None`) when `n` does not occur. */
  function Strstr(h: string, n: string): (r: Option<string>)
    decreases |h|
    ensures r.Some? ==> |r.value| <= |h| && r.value == h[|h| - |r.value|..] && n <= r.value
  {
    if n <= h then
      assert h[0..] == h;
      Some(h)
    else if |h| == 0 then None
    else
      var r := Strstr(h[1..], n);
      assert r.Some? ==> h[1..][|h| - 1 - |r.value|..] == h[|h| - |r.value|..];
      r
  }

  /** The suffix `strstr` returns starts at the FIRST occurrence: the needle starts at no
      earlier position. */
  lemma {:induction false} StrstrFirstOccurrence(h: string, n: string)
    decreases |h|
    ensures Strstr(h, n).Some? ==>
      forall j :: 0 <= j < |h| - |Strstr(h, n).value| ==> !(n <= h[j..])
  {
    if !(n <= h) && |h| > 0 {
      StrstrFirstOccurrence(h[1..], n);
      var r := Strstr(h[1..], n);
      if r.Some? {
        forall j | 0 < j < |h| - |r.value|
          ensures !(n <= h[j..])
        {
          assert h[j..] == h[1..][j - 1..];
        }
        assert h[0..] == h;
      }
    }
  }

  /** `strstr` finds something exactly when the needle occurs. */
  lemma {:induction false} StrstrFindsIffContains(h: string, n: string)
    decreases |h|
    ensures Strstr(h, n).Some? <==> Contains(h, n)
  {
    if n <= h {
      assert n <= h[0..];
    } else if |h| == 0 {
      assert forall i :: 0 <= i <= |h| ==> h[i..] == h;
    } else {
      StrstrFindsIffContains(h[1..], n);
      if Contains(h, n) {
        var i :| 0 <= i <= |h| && n <= h[i..];
        assert h[1..][i - 1..] == h[i..];
      }
      if Contains(h[1..], n) {
        var i :| 0 <= i <= |h[1..]| && n <= h[1..][i..];
        assert h[1..][i..] == h[i + 1..];
      }
    }
  }

  /** For a needle other than "" and "0" the truthiness of `strstr` is exactly containment:
      the returned suffix starts with the needle, so it is neither "" nor "0". */
  lemma StrstrTruthyIffContains(h: string, n: string)
    requires !Falsy(n)
    ensures Truthy(Strstr(h, n)) <==> Contains(h, n)
  {
    StrstrFindsIffContains(h, n);
  }
}
