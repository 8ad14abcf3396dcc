/** Option, shared by every component. */
module Wrappers {
  datatype Option<+T> = None | Some(value: T)
}

/** The stop flag of a service, which its signal handler clears at any moment and nothing else touches. */
module StopFlag {
  /** Whether a signal has arrived just before the n-th look at the flag. */
  type Signals = nat -> bool

  /** No signal arrives before the looks from the m-th up to the n-th. */
  ghost predicate Silent(signals: Signals, m: nat, n: nat) {
    forall i: nat :: m <= i < n ==> !signals(i)
  }

  lemma SilentNext(signals: Signals, m: nat, n: nat)
    requires m <= n
    ensures Silent(signals, m, m)
    ensures Silent(signals, m, n + 1) <==> Silent(signals, m, n) && !signals(n)
  {
  }

  lemma SilentAppend(signals: Signals, k: nat, m: nat, n: nat)
    requires k <= m <= n
    ensures Silent(signals, k, n) <==> Silent(signals, k, m) && Silent(signals, m, n)
  {
  }
}

/** Bytes, as numbers. */
module Bytes {
  type Byte = b: nat | b < 0x100
}

/** C strings of an ABI whose plain `char` is a signed byte. */
module CStrings {
  /** One character of a string, which is never the terminator. */
  type CChar = c: int | -128 <= c < 128 && c != 0 witness 1

  /** The characters before the terminator. */
  type CStr = seq<CChar>

  /** What a load of `s[i]` sees; the terminator sits at index `|s|`. */
  function At(s: CStr, i: nat): int
    requires i <= |s|
  {
    if i < |s| then s[i] else 0
  }

  function Sum(s: CStr): int {
    if s == [] then 0 else Sum(s[..|s| - 1]) + s[|s| - 1]
  }

  lemma {:induction false} SumAppend(s: CStr, t: CStr)
    ensures Sum(s + t) == Sum(s) + Sum(t)
  {
    if t == [] {
      assert s + t == s;
    } else {
      assert (s + t)[..|s + t| - 1] == s + t[..|t| - 1];
      SumAppend(s, t[..|t| - 1]);
    }
  }

  /** `!strncmp(a, b, n)` for `n <= |a|`: scan until a difference, a common terminator, or `n` characters. */
  predicate StrncmpEqual(a: CStr, b: CStr, n: nat)
    requires n <= |a|
  {
    if n == 0 then true
    else if b == [] || a[0] != b[0] then false
    else StrncmpEqual(a[1..], b[1..], n - 1)
  }

  /** Comparing as many characters as the first string has is a prefix test. */
  lemma {:induction false} StrncmpIsPrefix(a: CStr, b: CStr)
    ensures StrncmpEqual(a, b, |a|) <==> a <= b
  {
    if a != [] && b != [] {
      StrncmpIsPrefix(a[1..], b[1..]);
      assert a == [a[0]] + a[1..];
      assert b == [b[0]] + b[1..];
      if a[0] == b[0] && a[1..] <= b[1..] {
        assert forall i :: 0 < i < |a| ==> a[i] == a[1..][i - 1] == b[1..][i - 1] == b[i];
      }
    }
  }
}
