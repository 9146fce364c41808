/**
 * The step grammar of clSelector::generateRegEx, as a hand-written recognizer over the
 * tokenized text of one step:
 *
 *   ^ ( (*|NAME) ([DIGITS])? )? ( @NAME | [@?NAME (OP"VALUE")?] )* SUFFIXES* $
 *
 * The recognizer follows the regex engine's search order: quantifiers are greedy, the
 * `.*` of a VALUE first tries the last possible closing `"]` and then backs off, and a
 * named group reports the text of the last iteration in which it took part.
 */
module Grammar {
  import opened Wrappers
  import opened Php
  import opened Tokens

  /** `[A-Za-z0-9_-]`; a placeholder is written with letters and digits only, so it is a name character. */
  predicate IsNameSym(x: Sym) {
    x.Tok? || (x.Ch? && ('A' <= x.c <= 'Z' || 'a' <= x.c <= 'z' || '0' <= x.c <= '9' || x.c == '_' || x.c == '-'))
  }

  predicate IsDigitSym(x: Sym) {
    x.Ch? && IsDigit(x.c)
  }

  predicate AllName(t: seq<Sym>) {
    forall k :: 0 <= k < |t| ==> IsNameSym(t[k])
  }

  predicate AllDigitSyms(t: seq<Sym>) {
    forall k :: 0 <= k < |t| ==> IsDigitSym(t[k])
  }

  /** The end of the longest run of name characters starting at `i`. */
  function NameEnd(s: seq<Sym>, i: nat): (e: nat)
    requires i <= |s|
    ensures i <= e <= |s| && AllName(s[i..e]) && (e < |s| ==> !IsNameSym(s[e]))
    decreases |s| - i
  {
    if i < |s| && IsNameSym(s[i]) then NameEnd(s, i + 1) else i
  }

  /** The end of the longest run of digits starting at `i`. */
  function DigitsEnd(s: seq<Sym>, i: nat): (e: nat)
    requires i <= |s|
    ensures i <= e <= |s| && AllDigitSyms(s[i..e]) && (e < |s| ==> !IsDigitSym(s[e]))
    decreases |s| - i
  {
    if i < |s| && IsDigitSym(s[i]) then DigitsEnd(s, i + 1) else i
  }

  /** The literal `lit` occurs in `s` at `i`. */
  predicate LitAt(s: seq<Sym>, i: nat, lit: string) {
    i + |lit| <= |s| && forall k :: 0 <= k < |lit| ==> s[i + k] == Ch(lit[k])
  }

  /** The regex's `$`: the end of the text, or just before a final newline. */
  predicate EndAt(s: seq<Sym>, i: nat) {
    i == |s| || (i + 1 == |s| && s[i] == Ch('\n'))
  }

  /** The first character of a two-character operator `|= *= ~= $= != ^=`. */
  predicate IsOpLead(x: Sym) {
    x == Ch('|') || x == Ch('*') || x == Ch('~') || x == Ch('$') || x == Ch('!') || x == Ch('^')
  }

  /** The operators `|= *= ~= $= = != ^=`: the length of the one starting at `i`, or 0. */
  function TestLen(s: seq<Sym>, i: nat): (n: nat)
    ensures n <= 2 && (n > 0 ==> i + n <= |s| && s[i + n - 1] == Ch('='))
  {
    if i + 1 < |s| && IsOpLead(s[i]) && s[i + 1] == Ch('=') then 2
    else if i < |s| && s[i] == Ch('=') then 1
    else 0
  }

  /** `(d+)` at `i`: the position after the closing parenthesis. */
  function ParenDigits(s: seq<Sym>, i: nat): (r: Option<nat>)
    requires i <= |s|
    ensures r.Some? ==> i < r.value <= |s|
  {
    if LitAt(s, i, "(") then
      var d := DigitsEnd(s, i + 1);
      if d > i + 1 && LitAt(s, d, ")") then Some(d + 1) else None
    else None
  }

  /** The first `)` at or after `i`. */
  function CloseParen(s: seq<Sym>, i: nat): (k: nat)
    requires i <= |s|
    ensures i <= k <= |s| && (k < |s| ==> s[k] == Ch(')'))
    ensures forall j :: i <= j < k ==> s[j] != Ch(')')
    decreases |s| - i
  {
    if i == |s| || s[i] == Ch(')') then i else CloseParen(s, i + 1)
  }

  /** `([^)]+)` at `i`: the position after the closing parenthesis. */
  function ParenText(s: seq<Sym>, i: nat): (r: Option<nat>)
    requires i <= |s|
    ensures r.Some? ==> i < r.value <= |s|
  {
    if LitAt(s, i, "(") then
      var k := CloseParen(s, i + 1);
      if k > i + 1 && k < |s| then Some(k + 1) else None
    else None
  }

  /**
   * One suffix `:eq(d+) :first :last :gt(d+) :lt(d+) :even :odd :empty :parent :has([^)]+)
   * :contains([^)]+)` at `i`: the position after it. No two alternatives match at one place.
   */
  function SuffixAt(s: seq<Sym>, i: nat): (r: Option<nat>)
    requires i <= |s|
    ensures r.Some? ==> i < r.value <= |s| && s[i] == Ch(':')
  {
    if i == |s| || s[i] != Ch(':') then None
    else if LitAt(s, i, ":eq") then ParenDigits(s, i + 3)
    else if LitAt(s, i, ":first") then Some(i + 6)
    else if LitAt(s, i, ":last") then Some(i + 5)
    else if LitAt(s, i, ":gt") then ParenDigits(s, i + 3)
    else if LitAt(s, i, ":lt") then ParenDigits(s, i + 3)
    else if LitAt(s, i, ":even") then Some(i + 5)
    else if LitAt(s, i, ":odd") then Some(i + 4)
    else if LitAt(s, i, ":empty") then Some(i + 6)
    else if LitAt(s, i, ":parent") then Some(i + 7)
    else if LitAt(s, i, ":has") then ParenText(s, i + 4)
    else if LitAt(s, i, ":contains") then ParenText(s, i + 9)
    else None
  }

  /** A run of one or more suffixes from `i` that reaches the end: the position where the run stops. */
  function SuffixRun(s: seq<Sym>, i: nat): (r: Option<nat>)
    requires i <= |s|
    ensures r.Some? ==> i < r.value <= |s| && EndAt(s, r.value)
    decreases |s| - i
  {
    match SuffixAt(s, i)
    case None => None
    case Some(k) => if EndAt(s, k) then Some(k) else SuffixRun(s, k)
  }

  /** The named groups of the step regex; a group that never took part is empty. */
  datatype Caps = Caps(
    element: seq<Sym>, index: seq<Sym>, attrib: seq<Sym>, attribExp: seq<Sym>,
    attribExpName: seq<Sym>, test: seq<Sym>, value: seq<Sym>, suffix: seq<Sym>)

  const NoCaps := Caps([], [], [], [], [], [], [], [])

  /**
   * The loop `(@NAME | [@?NAME(OP"VALUE")?])*`, then `SUFFIXES*$`, from `i`.
   * A name is always taken whole: a shorter one would leave a name character, which
   * nothing after it can start with.
   */
  function ParseRest(s: seq<Sym>, i: nat, c: Caps): (r: Option<Caps>)
    requires i <= |s|
    decreases |s| - i, 1, 0
  {
    if EndAt(s, i) then Some(c)
    else if s[i] == Ch(':') then
      match SuffixRun(s, i)
      case Some(k) => Some(c.(suffix := s[i..k]))
      case None => None
    else if s[i] == Ch('@') then
      var e := NameEnd(s, i + 1);
      if e == i + 1 then None else ParseRest(s, e, c.(attrib := s[i + 1..e]))
    else if s[i] == Ch('[') then ParseExp(s, i, c)
    else None
  }

  /** One `[@?NAME(OP"VALUE")?]` at `i`, then the rest of the step. */
  function ParseExp(s: seq<Sym>, i: nat, c: Caps): (r: Option<Caps>)
    requires i < |s|
    decreases |s| - i, 0, |s|
  {
    var n0 := if i + 1 < |s| && s[i + 1] == Ch('@') then i + 2 else i + 1;
    var e := NameEnd(s, n0);
    if e == n0 then None
    else
      var t := TestLen(s, e);
      if t > 0 && e + t < |s| && s[e + t] == Ch('"') && |s| >= 2 then
        TryValueEnds(s, i, n0, e, e + t, |s| - 2, c)
      else if e < |s| && s[e] == Ch(']') then
        ParseRest(s, e + 1, c.(attribExp := s[i..e + 1], attribExpName := s[n0..e]))
      else None
  }

  /**
   * `"(?P<value>.*)"\]` with the opening quote at `q`: try the closing `"]` at `j`, `j - 1`, ...
   * down to the first possible place, keeping the first one after which the rest matches.
   */
  function TryValueEnds(s: seq<Sym>, i: nat, n0: nat, e: nat, q: nat, j: nat, c: Caps): (r: Option<Caps>)
    requires i < n0 <= e < q < |s| && s[q] == Ch('"')
    requires j + 2 <= |s|
    decreases |s| - i, 0, j
  {
    if j <= q then None
    else if s[j] == Ch('"') && s[j + 1] == Ch(']') && NoNewline(s, q + 1, j) then
      var c' := c.(attribExp := s[i..j + 2], attribExpName := s[n0..e], test := s[e..q], value := s[q + 1..j]);
      match ParseRest(s, j + 2, c')
      case Some(r) => Some(r)
      case None => TryValueEnds(s, i, n0, e, q, j - 1, c)
    else TryValueEnds(s, i, n0, e, q, j - 1, c)
  }

  /** The regex's `.` does not match a newline. */
  predicate NoNewline(s: seq<Sym>, a: nat, b: nat)
    requires a <= b <= |s|
  {
    forall k :: a <= k < b ==> s[k] != Ch('\n')
  }

  /** `([DIGITS])?` after the element, with the rest of the step after it. */
  function AfterElement(s: seq<Sym>, p: nat, c: Caps): (r: Option<Caps>)
    requires p <= |s|
  {
    if p < |s| && s[p] == Ch('[') then
      var d := DigitsEnd(s, p + 1);
      if d > p + 1 && d < |s| && s[d] == Ch(']') then
        match ParseRest(s, d + 1, c.(index := s[p + 1..d]))
        case Some(r) => Some(r)
        case None => ParseRest(s, p, c)
      else ParseRest(s, p, c)
    else ParseRest(s, p, c)
  }

  /** The whole step regex, anchored at both ends: the captures, or None when the step does not parse. */
  function Match(s: seq<Sym>): (r: Option<Caps>)
  {
    if |s| > 0 && s[0] == Ch('*') then AfterElement(s, 1, NoCaps.(element := [Ch('*')]))
    else
      var e := NameEnd(s, 0);
      if e > 0 then AfterElement(s, e, NoCaps.(element := s[..e])) else ParseRest(s, 0, NoCaps)
  }

  /**
   * The attribute-expression pattern `\[@?NAME(OP"VALUE")?\]` alone, starting at `p`: its
   * name, test and value groups (test and value are empty when the optional part is absent).
   */
  function ExpAt(u: seq<Sym>, p: nat): (r: Option<(seq<Sym>, seq<Sym>, seq<Sym>)>)
    requires p <= |u|
    ensures r.Some? ==> r.value.0 != [] && AllName(r.value.0) && TestShape(r.value.1)
  {
    if p == |u| || u[p] != Ch('[') then None
    else
      var n0 := if p + 1 < |u| && u[p + 1] == Ch('@') then p + 2 else p + 1;
      var e := NameEnd(u, n0);
      if e == n0 then None
      else
        var t := TestLen(u, e);
        if t > 0 && e + t < |u| && u[e + t] == Ch('"') && |u| >= 2 then
          match LastValueEnd(u, e + t, |u| - 2)
          case Some(j) => Some((u[n0..e], u[e..e + t], u[e + t + 1..j]))
          case None => None
        else if e < |u| && u[e] == Ch(']') then Some((u[n0..e], [], []))
        else None
  }

  /** The greedy `.*"\]` after the opening quote at `q`: the last `"]` at `j` or before with no newline on the way. */
  function LastValueEnd(u: seq<Sym>, q: nat, j: nat): (r: Option<nat>)
    requires q < |u| && j + 2 <= |u|
    ensures r.Some? ==> q < r.value <= j && u[r.value] == Ch('"') && u[r.value + 1] == Ch(']')
    decreases j
  {
    if j <= q then None
    else if u[j] == Ch('"') && u[j + 1] == Ch(']') && NoNewline(u, q + 1, j) then Some(j)
    else LastValueEnd(u, q, j - 1)
  }

  /** The unanchored search: the match at the leftmost place where the pattern matches. */
  function SearchExp(u: seq<Sym>, p: nat): (r: Option<(seq<Sym>, seq<Sym>, seq<Sym>)>)
    requires p <= |u|
    ensures r.Some? ==> exists k :: p <= k <= |u| && ExpAt(u, k) == r
    ensures r.None? ==> forall k :: p <= k <= |u| ==> ExpAt(u, k).None?
    decreases |u| - p
  {
    match ExpAt(u, p)
    case Some(m) => Some(m)
    case None => if p == |u| then None else SearchExp(u, p + 1)
  }

  predicate ElementShape(t: seq<Sym>) {
    t == [] || t == [Ch('*')] || AllName(t)
  }

  predicate ExpShape(t: seq<Sym>, name: seq<Sym>) {
    t == [] || (|t| >= 3 && t[0] == Ch('[') && t[|t| - 1] == Ch(']') && name != [])
  }

  predicate TestShape(t: seq<Sym>) {
    |t| <= 2 && (t != [] ==> t[|t| - 1] == Ch('='))
  }

  predicate SuffixShape(t: seq<Sym>) {
    t != [] ==> t[0] == Ch(':')
  }

  /** The captures are the shapes their groups allow. */
  predicate WellFormed(c: Caps) {
    && ElementShape(c.element)
    && AllDigitSyms(c.index)
    && AllName(c.attrib)
    && AllName(c.attribExpName)
    && ExpShape(c.attribExp, c.attribExpName)
    && TestShape(c.test)
    && SuffixShape(c.suffix)
  }

  lemma AttribWellFormed(s: seq<Sym>, i: nat, e: nat, c: Caps)
    requires i < e <= |s| && AllName(s[i..e]) && WellFormed(c)
    ensures WellFormed(c.(attrib := s[i..e]))
  {
  }

  lemma PlainExpWellFormed(s: seq<Sym>, i: nat, n0: nat, e: nat, c: Caps)
    requires i < n0 < e < |s| && n0 <= i + 2 && s[i] == Ch('[') && s[e] == Ch(']')
    requires AllName(s[n0..e]) && WellFormed(c)
    ensures WellFormed(c.(attribExp := s[i..e + 1], attribExpName := s[n0..e]))
  {
    var x := s[i..e + 1];
    assert x[0] == s[i] && x[|x| - 1] == s[e];
  }

  lemma ValueExpWellFormed(s: seq<Sym>, i: nat, n0: nat, e: nat, q: nat, j: nat, c: Caps)
    requires i < n0 < e < q < j && j + 2 <= |s| && s[i] == Ch('[') && s[j + 1] == Ch(']')
    requires AllName(s[n0..e]) && q - e <= 2 && s[q - 1] == Ch('=') && WellFormed(c)
    ensures WellFormed(c.(attribExp := s[i..j + 2], attribExpName := s[n0..e], test := s[e..q], value := s[q + 1..j]))
  {
    var x, t := s[i..j + 2], s[e..q];
    assert x[0] == s[i] && x[|x| - 1] == s[j + 1];
    assert t[|t| - 1] == s[q - 1];
  }

  lemma SuffixWellFormed(s: seq<Sym>, i: nat, c: Caps)
    requires i < |s| && !EndAt(s, i) && s[i] == Ch(':') && WellFormed(c)
    ensures ParseRest(s, i, c).Some? ==> WellFormed(ParseRest(s, i, c).value)
  {
    match SuffixRun(s, i)
    case Some(k) =>
      assert s[i..k][0] == s[i];
    case None =>
  }

  /** Parsing the rest of a step keeps the captures well formed. */
  lemma {:induction false} ParseRestWellFormed(s: seq<Sym>, i: nat, c: Caps)
    requires i <= |s| && WellFormed(c)
    ensures ParseRest(s, i, c).Some? ==> WellFormed(ParseRest(s, i, c).value)
    decreases |s| - i, 1, 0
  {
    if EndAt(s, i) {
    } else if s[i] == Ch(':') {
      SuffixWellFormed(s, i, c);
    } else if s[i] == Ch('@') {
      var e := NameEnd(s, i + 1);
      if e != i + 1 {
        AttribWellFormed(s, i + 1, e, c);
        assert ParseRest(s, i, c) == ParseRest(s, e, c.(attrib := s[i + 1..e]));
        ParseRestWellFormed(s, e, c.(attrib := s[i + 1..e]));
      }
    } else if s[i] == Ch('[') {
      ExpWellFormed(s, i, c);
    }
  }

  lemma {:induction false} ExpWellFormed(s: seq<Sym>, i: nat, c: Caps)
    requires i < |s| && s[i] == Ch('[') && WellFormed(c)
    ensures ParseExp(s, i, c).Some? ==> WellFormed(ParseExp(s, i, c).value)
    decreases |s| - i, 0, |s|
  {
    var n0 := if i + 1 < |s| && s[i + 1] == Ch('@') then i + 2 else i + 1;
    var e := NameEnd(s, n0);
    if e != n0 {
      var t := TestLen(s, e);
      if t > 0 && e + t < |s| && s[e + t] == Ch('"') && |s| >= 2 {
        TryValueEndsWellFormed(s, i, n0, e, e + t, |s| - 2, c);
      } else if e < |s| && s[e] == Ch(']') {
        PlainExpWellFormed(s, i, n0, e, c);
        ParseRestWellFormed(s, e + 1, c.(attribExp := s[i..e + 1], attribExpName := s[n0..e]));
      }
    }
  }

  lemma {:induction false} TryValueEndsWellFormed(s: seq<Sym>, i: nat, n0: nat, e: nat, q: nat, j: nat, c: Caps)
    requires i < n0 <= e < q < |s| && s[q] == Ch('"') && s[i] == Ch('[')
    requires AllName(s[n0..e]) && n0 < e && q - e <= 2 && s[q - 1] == Ch('=')
    requires j + 2 <= |s| && WellFormed(c)
    ensures TryValueEnds(s, i, n0, e, q, j, c).Some? ==> WellFormed(TryValueEnds(s, i, n0, e, q, j, c).value)
    decreases |s| - i, 0, j
  {
    if j > q {
      if s[j] == Ch('"') && s[j + 1] == Ch(']') && NoNewline(s, q + 1, j) {
        ValueExpWellFormed(s, i, n0, e, q, j, c);
        var d := c.(attribExp := s[i..j + 2], attribExpName := s[n0..e], test := s[e..q], value := s[q + 1..j]);
        ParseRestWellFormed(s, j + 2, d);
      }
      TryValueEndsWellFormed(s, i, n0, e, q, j - 1, c);
    }
  }

  lemma AfterElementWellFormed(s: seq<Sym>, p: nat, c: Caps)
    requires p <= |s| && WellFormed(c)
    ensures AfterElement(s, p, c).Some? ==> WellFormed(AfterElement(s, p, c).value)
  {
    ParseRestWellFormed(s, p, c);
    if p < |s| && s[p] == Ch('[') {
      var d := DigitsEnd(s, p + 1);
      if d > p + 1 && d < |s| && s[d] == Ch(']') {
        ParseRestWellFormed(s, d + 1, c.(index := s[p + 1..d]));
      }
    }
  }

  /** Whatever a step's match captures has the shape of its group. */
  lemma MatchWellFormed(s: seq<Sym>)
    ensures Match(s).Some? ==> WellFormed(Match(s).value)
  {
    if |s| > 0 && s[0] == Ch('*') {
      AfterElementWellFormed(s, 1, NoCaps.(element := [Ch('*')]));
    } else {
      var e := NameEnd(s, 0);
      if e > 0 {
        AfterElementWellFormed(s, e, NoCaps.(element := s[..e]));
      } else {
        ParseRestWellFormed(s, 0, NoCaps);
      }
    }
  }
}
