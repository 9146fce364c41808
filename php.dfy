/** The PHP string built-ins that coreylib relies on, with the PHP 5/7 semantics it was written for. */
module Php {
  import opened Wrappers

  /** PHP's truthiness of a string: the empty string and "0" are false, everything else is true. */
  predicate Truthy(s: string) {
    s != "" && s != "0"
  }

  // Sequence identities, proved once here so that larger proofs need not rediscover them

  lemma SnocSplit<T>(a: seq<T>, b: seq<T>)
    requires b != []
    ensures b == b[..|b| - 1] + [b[|b| - 1]]
    ensures a + b == (a + b[..|b| - 1]) + [b[|b| - 1]]
  {
  }

  lemma AppendAssoc<T>(x: seq<T>, y: seq<T>, z: seq<T>)
    ensures (x + y) + z == x + (y + z)
  {
  }

  lemma SpliceAt<T>(s: seq<T>, at: nat)
    requires at + 1 < |s|
    ensures s == s[..at] + [s[at], s[at + 1]] + s[at + 2..]
  {
  }

  predicate IsPrefix<T(==)>(p: seq<T>, s: seq<T>) {
    |p| <= |s| && s[..|p|] == p
  }

  lemma PrefixTrans<T>(a: seq<T>, b: seq<T>, c: seq<T>)
    requires IsPrefix(a, b) && IsPrefix(b, c)
    ensures IsPrefix(a, c)
  {
    assert c[..|a|] == c[..|b|][..|a|];
  }

  predicate IsSuffix<T(==)>(p: seq<T>, s: seq<T>) {
    |p| <= |s| && s[|s| - |p|..] == p
  }

  /** `n` occurs in `h` starting at index `j`. */
  predicate OccursAt<T(==)>(h: seq<T>, n: seq<T>, j: int) {
    0 <= j && j + |n| <= |h| && h[j..j + |n|] == n
  }

  function Search<T(==)>(h: seq<T>, n: seq<T>, i: nat): (r: Option<nat>)
    ensures r.Some? ==> i <= r.value && OccursAt(h, n, r.value)
    ensures r.Some? ==> forall j :: i <= j < r.value ==> !OccursAt(h, n, j)
    ensures r.None? ==> forall j :: i <= j ==> !OccursAt(h, n, j)
    decreases |h| - i
  {
    if i + |n| > |h| then None
    else if h[i..i + |n|] == n then Some(i)
    else Search(h, n, i + 1)
  }

  /** `strpos($h, $n)`: the first index at which `n` occurs; an empty needle gives false (PHP before 8). */
  function StrPos<T(==)>(h: seq<T>, n: seq<T>): (r: Option<nat>)
  {
    if n == [] then None else Search(h, n, 0)
  }

  /** `strpos($h, $n) === 0` holds exactly when `n` is a non-empty prefix of `h`. */
  lemma StrPosZero<T>(h: seq<T>, n: seq<T>)
    ensures StrPos(h, n) == Some(0) <==> n != [] && IsPrefix(n, h)
  {
    if n != [] && IsPrefix(n, h) {
      assert OccursAt(h, n, 0);
    }
  }

  /** `strpos($h, $n) !== false` holds exactly when `n` is non-empty and occurs somewhere in `h`. */
  lemma StrPosFound<T>(h: seq<T>, n: seq<T>)
    ensures StrPos(h, n).Some? <==> n != [] && exists j :: OccursAt(h, n, j)
  {
  }

  function Reverse<T>(s: seq<T>): (r: seq<T>)
    ensures |r| == |s|
    ensures forall i :: 0 <= i < |s| ==> r[i] == s[|s| - 1 - i]
  {
    if s == [] then [] else Reverse(s[1..]) + [s[0]]
  }

  /** The first `|n|` elements of the reversed `h` are the reversed `n` exactly when `n` ends `h`. */
  lemma ReversePrefixSuffix<T>(h: seq<T>, n: seq<T>)
    requires |n| <= |h|
    ensures Reverse(h)[..|n|] == Reverse(n) <==> h[|h| - |n|..] == n
  {
    var rh, rn := Reverse(h), Reverse(n);
    if rh[..|n|] == rn {
      forall i | 0 <= i < |n| ensures h[|h| - |n|..][i] == n[i] {
        assert rh[|n| - 1 - i] == rn[|n| - 1 - i];
      }
    }
    if h[|h| - |n|..] == n {
      forall i | 0 <= i < |n| ensures rh[..|n|][i] == rn[i] {
        assert h[|h| - |n|..][|n| - 1 - i] == n[|n| - 1 - i];
      }
    }
  }

  /** `strpos(strrev($h), strrev($n)) === 0`, the `$=` test, is "n is a non-empty suffix of h". */
  lemma ReversedPrefixIsSuffix<T>(h: seq<T>, n: seq<T>)
    ensures StrPos(Reverse(h), Reverse(n)) == Some(0) <==> n != [] && IsSuffix(n, h)
  {
    StrPosZero(Reverse(h), Reverse(n));
    if |n| <= |h| {
      ReversePrefixSuffix(h, n);
    }
  }

  /** The characters PHP's `trim` removes: space, tab, LF, CR, NUL and vertical tab. */
  predicate IsTrimChar(c: char) {
    c == ' ' || c == '\t' || c == '\n' || c == '\r' || c == '\0' || c == '\U{B}'
  }

  function TrimLeft(s: string): (r: string)
    ensures IsSuffix(r, s)
    ensures r == [] || !IsTrimChar(r[0])
    ensures forall i :: 0 <= i < |s| - |r| ==> IsTrimChar(s[i])
  {
    if s != [] && IsTrimChar(s[0]) then TrimLeft(s[1..]) else s
  }

  function TrimRight(s: string): (r: string)
    ensures IsPrefix(r, s)
    ensures r == [] || !IsTrimChar(r[|r| - 1])
    ensures forall i :: |r| <= i < |s| ==> IsTrimChar(s[i])
  {
    if s != [] && IsTrimChar(s[|s| - 1]) then TrimRight(s[..|s| - 1]) else s
  }

  /** `trim($s)`: the longest middle part of `s` that neither starts nor ends with a trim character. */
  function Trim(s: string): (r: string)
    ensures |r| <= |s|
    ensures r == [] || (!IsTrimChar(r[0]) && !IsTrimChar(r[|r| - 1]))
    ensures (forall i :: 0 <= i < |s| ==> !IsTrimChar(s[i])) ==> r == s
  {
    TrimRight(TrimLeft(s))
  }

  function Lower(c: char): char {
    if 'A' <= c <= 'Z' then (c as int + 32) as char else c
  }

  function LowerStr(s: string): (r: string)
    ensures |r| == |s| && forall i :: 0 <= i < |s| ==> r[i] == Lower(s[i])
  {
    if s == [] then [] else [Lower(s[0])] + LowerStr(s[1..])
  }

  /** `stripos($h, $n) !== false`: case-insensitive (ASCII) containment. */
  predicate ContainsIgnoreCase(h: string, n: string) {
    StrPos(LowerStr(h), LowerStr(n)).Some?
  }

  predicate IsDigit(c: char) {
    '0' <= c <= '9'
  }

  function DigitChar(d: nat): (c: char)
    requires d < 10
    ensures IsDigit(c) && c as int - '0' as int == d
  {
    ('0' as int + d) as char
  }

  /** The decimal rendering of a natural number, as PHP's string conversion of an int. */
  function NatToString(n: nat): (s: string)
    ensures s != [] && forall i :: 0 <= i < |s| ==> IsDigit(s[i])
    ensures |s| > 1 ==> s[0] != '0'
  {
    if n < 10 then [DigitChar(n)] else NatToString(n / 10) + [DigitChar(n % 10)]
  }

  predicate AllDigits(s: string) {
    forall i :: 0 <= i < |s| ==> IsDigit(s[i])
  }

  /** The value of a string of decimal digits (leading zeros allowed). */
  function DigitsValue(s: string): nat
    requires AllDigits(s)
  {
    if s == [] then 0 else DigitsValue(s[..|s| - 1]) * 10 + (s[|s| - 1] as int - '0' as int)
  }

  lemma {:induction false} NatToStringValue(n: nat)
    ensures DigitsValue(NatToString(n)) == n
  {
    if n >= 10 {
      NatToStringValue(n / 10);
      var s := NatToString(n);
      assert s[..|s| - 1] == NatToString(n / 10);
    }
  }

  /** A string PHP turns into an integer array key: decimal digits without a leading zero. */
  predicate IsCanonicalIndex(s: string) {
    s != [] && AllDigits(s) && (|s| == 1 || s[0] != '0')
  }

  /** Looking up `$arr[$s]` with a digit string: a canonical one is an integer position, any other is a string key. */
  function IndexKey(s: string): (r: Option<nat>)
    ensures r.Some? <==> IsCanonicalIndex(s)
  {
    if IsCanonicalIndex(s) then Some(DigitsValue(s)) else None
  }

  lemma {:induction false} IndexKeyOfNat(n: nat)
    ensures IndexKey(NatToString(n)) == Some(n)
  {
    NatToStringValue(n);
  }

  /** PCRE's `\s`: space, tab, LF, vertical tab, form feed, CR. */
  predicate IsWs(c: char) {
    c == ' ' || c == '\t' || c == '\n' || c == '\U{B}' || c == '\U{C}' || c == '\r'
  }

  function FirstWs(s: string, i: nat): (k: nat)
    requires i <= |s|
    ensures i <= k <= |s| && (k < |s| ==> IsWs(s[k]))
    ensures forall j :: i <= j < k ==> !IsWs(s[j])
    decreases |s| - i
  {
    if i == |s| || IsWs(s[i]) then i else FirstWs(s, i + 1)
  }

  function DropWs(s: string): (r: string)
    ensures IsSuffix(r, s) && |r| <= |s|
    ensures r == [] || !IsWs(r[0])
  {
    if s != [] && IsWs(s[0]) then DropWs(s[1..]) else s
  }

  /** `preg_split('/\s+/', $s)`: the pieces between runs of whitespace; never empty, no piece holds whitespace. */
  function SplitWs(s: string): (r: seq<string>)
    ensures |r| >= 1
    ensures forall k :: 0 <= k < |r| ==> forall j :: 0 <= j < |r[k]| ==> !IsWs(r[k][j])
    ensures (forall j :: 0 <= j < |s| ==> !IsWs(s[j])) ==> r == [s]
    decreases |s|
  {
    var k := FirstWs(s, 0);
    if k == |s| then [s] else [s[..k]] + SplitWs(DropWs(s[k..]))
  }

  /** `explode($sep, $s)` on any sequence: the pieces between separators. */
  function Explode<T(==)>(s: seq<T>, sep: T): (r: seq<seq<T>>)
    ensures |r| >= 1
    ensures forall k :: 0 <= k < |r| ==> sep !in r[k]
  {
    if s == [] then [[]]
    else
      var rest := Explode(s[1..], sep);
      if s[0] == sep then [[]] + rest else [[s[0]] + rest[0]] + rest[1..]
  }

  function Join<T>(parts: seq<seq<T>>, sep: T): seq<T>
    requires |parts| >= 1
  {
    if |parts| == 1 then parts[0] else parts[0] + [sep] + Join(parts[1..], sep)
  }

  /** Explode loses nothing: joining the pieces back with the separator gives the input. */
  lemma {:induction false} JoinExplode<T>(s: seq<T>, sep: T)
    ensures Join(Explode(s, sep), sep) == s
  {
    if s != [] {
      JoinExplode(s[1..], sep);
      var rest := Explode(s[1..], sep);
      if s[0] != sep {
        if |rest| > 1 {
          assert Join(rest, sep) == rest[0] + [sep] + Join(rest[1..], sep);
          assert ([s[0]] + rest[0]) + [sep] + Join(rest[1..], sep) == [s[0]] + Join(rest, sep);
        }
      }
    }
  }
  /**
   * `substr($s, $start, $len)` for a start inside or just past the text: a negative length
   * leaves that many characters off the end; a start past the end gives the empty text.
   */
  function Substr<T>(s: seq<T>, start: nat, len: int): (r: seq<T>)
    ensures |r| <= |s|
    ensures start <= |s| && 0 <= len && start + len <= |s| ==> r == s[start..start + len]
  {
    if start >= |s| then []
    else if len >= 0 then s[start..if start + len <= |s| then start + len else |s|]
    else if |s| + len <= start then []
    else s[start..|s| + len]
  }

  /** The first index holding `x`. */
  function IndexOf<T(==)>(s: seq<T>, x: T): (r: Option<nat>)
    ensures r.Some? ==> r.value < |s| && s[r.value] == x && forall k :: 0 <= k < r.value ==> s[k] != x
    ensures r.None? ==> x !in s
  {
    if s == [] then None
    else if s[0] == x then Some(0)
    else match IndexOf(s[1..], x) case Some(k) => Some(k + 1) case None => None
  }

  /** `strrpos`: the last index holding `x`. */
  function LastIndexOf<T(==)>(s: seq<T>, x: T): (r: Option<nat>)
    ensures r.Some? ==> r.value < |s| && s[r.value] == x && forall k :: r.value < k < |s| ==> s[k] != x
    ensures r.None? ==> x !in s
  {
    if s == [] then None
    else if s[|s| - 1] == x then Some(|s| - 1)
    else LastIndexOf(s[..|s| - 1], x)
  }

  /** `explode($sep, $s)` with a separator of several characters, cut at each occurrence from the left. */
  function ExplodeSeq<T(==)>(s: seq<T>, sep: seq<T>): (r: seq<seq<T>>)
    requires sep != []
    ensures |r| >= 1
    decreases |s|
  {
    match StrPos(s, sep)
    case None => [s]
    case Some(k) => [s[..k]] + ExplodeSeq(s[k + |sep|..], sep)
  }

  function JoinSeq<T>(parts: seq<seq<T>>, sep: seq<T>): seq<T>
    requires |parts| >= 1
  {
    if |parts| == 1 then parts[0] else parts[0] + sep + JoinSeq(parts[1..], sep)
  }

  lemma JoinSeqCons<T>(a: seq<T>, rest: seq<seq<T>>, sep: seq<T>)
    requires |rest| >= 1
    ensures JoinSeq([a] + rest, sep) == a + sep + JoinSeq(rest, sep)
  {
    assert ([a] + rest)[1..] == rest;
  }

  lemma SliceAround<T>(s: seq<T>, k: nat, n: nat)
    requires k + n <= |s|
    ensures s == s[..k] + s[k..k + n] + s[k + n..]
  {
  }

  /** Explode with a long separator loses nothing either. */
  lemma {:induction false} JoinExplodeSeq<T>(s: seq<T>, sep: seq<T>)
    requires sep != []
    ensures JoinSeq(ExplodeSeq(s, sep), sep) == s
    decreases |s|
  {
    var r := StrPos(s, sep);
    if r.Some? {
      var k := r.value;
      var rest := s[k + |sep|..];
      JoinExplodeSeq(rest, sep);
      JoinSeqCons(s[..k], ExplodeSeq(rest, sep), sep);
      SliceAround(s, k, |sep|);
    }
  }
}
