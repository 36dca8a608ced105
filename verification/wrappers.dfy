/** Failure-compatible wrappers shared by every component of the model. */
module Wrappers {

  /** A value that may be absent: the source's `Optional<T>` and nullable pointers. */
  datatype Option<+T> = None | Some(value: T) {
    function GetOr(default: T): T {
      match this
      case Some(v) => v
      case None => default
    }
  }

  /** A value or an error: the source's thrown exceptions and `abort()` paths. */
  datatype Result<+T, +E> = Ok(value: T) | Err(error: E)
}

/** Fixed-width unsigned integers of the source, with explicit wrap-around. */
module Words {

  const TWO_32: int := 0x1_0000_0000
  const TWO_64: int := 0x1_0000_0000_0000_0000

  /** `uint32_t` */
  type U32 = x: int | 0 <= x < TWO_32

  /** `uint64_t` / `size_t` on the 64-bit targets the source builds for. */
  type U64 = x: int | 0 <= x < TWO_64

  /** `static_cast<uint64_t>(-1)`, the all-ones value. */
  const MaxU64: U64 := TWO_64 - 1

  /** Unsigned `x - 1`, wrapping from 0 to the all-ones value. */
  function Dec64(x: U64): (r: U64)
    ensures x == 0 ==> r == MaxU64
    ensures x > 0 ==> r + 1 == x
  {
    (x - 1) % TWO_64
  }

  /** Unsigned `x + 1`, wrapping from the all-ones value to 0. */
  function Inc64(x: U64): (r: U64)
    ensures x == MaxU64 ==> r == 0
    ensures x < MaxU64 ==> r == x + 1
  {
    (x + 1) % TWO_64
  }

  /** Narrowing a `size_t` into a `uint32_t`: the value modulo 2^32. */
  function TruncateTo32(x: nat): (r: U32)
    ensures x < TWO_32 ==> r == x
  {
    x % TWO_32
  }
}

/** C strings: a `std::string` built from, or read through, a `char const*`. */
module CText {

  const NUL: char := '\0'

  /** The characters before the first NUL: what `std::string(s.c_str())` keeps. */
  function CStr(s: string): (r: string)
    ensures |r| <= |s| && r == s[..|r|]
    ensures forall i :: 0 <= i < |r| ==> r[i] != NUL
    ensures |r| < |s| ==> s[|r|] == NUL
  {
    if |s| == 0 || s[0] == NUL then [] else [s[0]] + CStr(s[1..])
  }

  predicate NoNul(s: string) {
    forall i :: 0 <= i < |s| ==> s[i] != NUL
  }

  /** A string without NUL survives the round trip through `c_str()`. */
  lemma {:induction false} CStrOfNoNul(s: string)
    requires NoNul(s)
    ensures CStr(s) == s
    decreases |s|
  {
    if |s| > 0 {
      CStrOfNoNul(s[1..]);
    }
  }

  /** `c_str()` stops at the first NUL: whatever follows it is lost. */
  lemma {:induction false} CStrStopsAtNul(s: string, rest: string)
    requires NoNul(s)
    ensures CStr(s + [NUL] + rest) == s
    decreases |s|
  {
    if |s| > 0 {
      assert (s + [NUL] + rest)[1..] == s[1..] + [NUL] + rest;
      CStrStopsAtNul(s[1..], rest);
    }
  }
}

/** Scanning text up to a delimiter. */
module Texts {

  /** The longest prefix of `s` without the character `c`. */
  function UpTo(s: string, c: char): (r: string)
    ensures r <= s && c !in r
    ensures |r| < |s| ==> s[|r|] == c
  {
    if |s| == 0 || s[0] == c then "" else [s[0]] + UpTo(s[1..], c)
  }

  lemma {:induction false} UpToOf(a: string, c: char, b: string)
    requires c !in a && |b| > 0 && b[0] == c
    ensures UpTo(a + b, c) == a
    decreases |a|
  {
    if |a| > 0 {
      assert (a + b)[1..] == a[1..] + b;
      UpToOf(a[1..], c, b);
    }
  }

  /** Without the delimiter, the whole string is taken. */
  lemma {:induction false} UpToAll(s: string, c: char)
    requires c !in s
    ensures UpTo(s, c) == s
    decreases |s|
  {
    if |s| > 0 {
      UpToAll(s[1..], c);
    }
  }

  /** A delimiter appended at the end does not change the first field. */
  lemma {:induction false} UpToAppendDelim(s: string, c: char)
    ensures UpTo(s + [c], c) == UpTo(s, c)
    decreases |s|
  {
    if |s| > 0 && s[0] != c {
      assert (s + [c])[1..] == s[1..] + [c];
      UpToAppendDelim(s[1..], c);
    }
  }
}
