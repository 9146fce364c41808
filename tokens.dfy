/**
 * The selector's backslash escapes (clSelector::tokenize / untokenize).
 * Before a query is split, every `\c` with `c` escapable is replaced by a placeholder
 * "TKS<i>TKE" and `c` is remembered as token i; placeholders are made of letters and
 * digits only, so the splitter and the grammar read them as part of a name.
 * Here a placeholder is the symbol Tok(i).
 */
module Tokens {
  import opened Wrappers
  import opened Php

  datatype Sym = Ch(c: char) | Tok(i: nat)

  /** The escapable characters, in the order tokenize visits them. */
  const Escapable: seq<char> := ['#', ';', '&', ',', '.', '+', '*', '~', '\'', ':', '"', '!', '^', '$', '[', ']', '(', ')', '=', '>', '|', '/', '@', ' ']

  predicate IsEscapable(c: char) {
    c in Escapable
  }

  lemma BackslashNotEscapable()
    ensures !IsEscapable('\\')
  {
  }

  /** Every placeholder refers to a recorded token. */
  predicate TokensBound(t: seq<Sym>, tokens: seq<char>) {
    forall k :: 0 <= k < |t| && t[k].Tok? ==> t[k].i < |tokens|
  }

  /** Every recorded token has its placeholder in `t`. */
  predicate Placed(t: seq<Sym>, tokens: seq<char>) {
    forall i :: 0 <= i < |tokens| ==> Tok(i) in t
  }

  predicate AllEscapable(tokens: seq<char>) {
    forall k :: 0 <= k < |tokens| ==> IsEscapable(tokens[k])
  }

  function Lift(s: string): (t: seq<Sym>)
    ensures |t| == |s| && forall k :: 0 <= k < |s| ==> t[k] == Ch(s[k])
  {
    if s == [] then [] else [Ch(s[0])] + Lift(s[1..])
  }

  /** The raw text of one symbol. */
  function RenderSym(x: Sym): string {
    match x
    case Ch(c) => [c]
    case Tok(i) => "TKS" + NatToString(i) + "TKE"
  }

  /** The text a symbol was made from: a placeholder came from a backslash and its character. */
  function Piece(x: Sym, tokens: seq<char>): string {
    match x
    case Ch(c) => [c]
    case Tok(i) => if i < |tokens| then ['\\', tokens[i]] else RenderSym(x)
  }

  function Erase(t: seq<Sym>, tokens: seq<char>): string {
    if t == [] then [] else Piece(t[0], tokens) + Erase(t[1..], tokens)
  }

  /** The meaning of the symbols: a placeholder is the character it escapes. */
  function Resolve(t: seq<Sym>, tokens: seq<char>): string {
    if t == [] then [] else ResolveSym(t[0], tokens) + Resolve(t[1..], tokens)
  }

  /** A placeholder with a recorded token reads as that token; any other symbol as written. */
  function ResolveSym(x: Sym, tokens: seq<char>): string {
    if x.Tok? && x.i < |tokens| then [tokens[x.i]] else RenderSym(x)
  }

  /** The raw text of the symbols, placeholders written out as "TKS<i>TKE". */
  function Render(t: seq<Sym>): string {
    if t == [] then [] else RenderSym(t[0]) + Render(t[1..])
  }

  /** No backslash is directly followed by an escapable character. */
  predicate NoEscapeLeft(t: seq<Sym>) {
    forall k :: 0 <= k < |t| - 1 && t[k] == Ch('\\') ==> !(t[k + 1].Ch? && IsEscapable(t[k + 1].c))
  }

  /** The reference meaning of escapes, read left to right: `\c` stands for `c` when `c` is escapable. */
  function Unescape(s: string): string {
    if s == [] then []
    else if |s| >= 2 && s[0] == '\\' && IsEscapable(s[1]) then [s[1]] + Unescape(s[2..])
    else [s[0]] + Unescape(s[1..])
  }

  /** The part of a tokenized query after the "TK" mark, which is there exactly when something was escaped. */
  function Body(t: seq<Sym>, tokens: seq<char>): seq<Sym> {
    if tokens != [] && |t| >= 2 then t[2..] else t
  }

  /**
   * The outcome of tokenize on `q`: the body and the tokens are those the replacement
   * rounds produce; the body re-erases to `q`, every token has its placeholder in it,
   * no escape is left over, and "TK" marks a tokenized query.
   */
  predicate Tokenized(q: string, t: seq<Sym>, tokens: seq<char>) {
    && AllEscapable(tokens)
    && (tokens == [] ==> t == Lift(q))
    && (tokens != [] ==> |t| >= 2 && t[0] == Ch('T') && t[1] == Ch('K'))
    && (Body(t, tokens), tokens) == RoundsUpTo(q, Escapable, |Escapable|)
    && TokensBound(Body(t, tokens), tokens)
    && Placed(Body(t, tokens), tokens)
    && Erase(Body(t, tokens), tokens) == q
    && NoEscapeLeft(Body(t, tokens))
  }

  lemma {:induction false} EraseAppend(a: seq<Sym>, b: seq<Sym>, tokens: seq<char>)
    ensures Erase(a + b, tokens) == Erase(a, tokens) + Erase(b, tokens)
  {
    if a == [] {
      assert a + b == b;
    } else {
      assert (a + b)[1..] == a[1..] + b;
      assert (a + b)[0] == a[0];
      EraseAppend(a[1..], b, tokens);
      AppendAssoc(Piece(a[0], tokens), Erase(a[1..], tokens), Erase(b, tokens));
    }
  }

  lemma {:induction false} RenderAppend(a: seq<Sym>, b: seq<Sym>)
    ensures Render(a + b) == Render(a) + Render(b)
  {
    if a == [] {
      assert a + b == b;
    } else {
      assert (a + b)[1..] == a[1..] + b;
      assert (a + b)[0] == a[0];
      RenderAppend(a[1..], b);
      AppendAssoc(RenderSym(a[0]), Render(a[1..]), Render(b));
    }
  }

  lemma {:induction false} EraseExtend(t: seq<Sym>, tokens: seq<char>, more: seq<char>)
    requires TokensBound(t, tokens)
    ensures TokensBound(t, tokens + more) && Erase(t, tokens + more) == Erase(t, tokens)
  {
    if t != [] {
      EraseExtend(t[1..], tokens, more);
    }
  }

  lemma {:induction false} EraseLift(s: string)
    ensures Erase(Lift(s), []) == s
  {
    if s != [] {
      assert Lift(s)[1..] == Lift(s[1..]);
      EraseLift(s[1..]);
    }
  }

  lemma {:induction false} RenderLift(s: string)
    ensures Render(Lift(s)) == s
  {
    if s != [] {
      assert Lift(s)[1..] == Lift(s[1..]);
      RenderLift(s[1..]);
    }
  }

  lemma ErasePair(tokens: seq<char>, ch: char)
    ensures Erase([Ch('\\'), Ch(ch)], tokens) == ['\\', ch]
  {
    var pair, tail := [Ch('\\'), Ch(ch)], [Ch(ch)];
    assert pair[1..] == tail && tail[1..] == [];
    assert Erase(tail, tokens) == [ch] + Erase([], tokens);
  }

  lemma EraseFreshTok(tokens: seq<char>, ch: char)
    ensures Erase([Tok(|tokens|)], tokens + [ch]) == ['\\', ch]
  {
    var mid := [Tok(|tokens|)];
    assert mid[1..] == [];
  }

  lemma EraseSplice(a: seq<Sym>, m: seq<Sym>, b: seq<Sym>, tokens: seq<char>)
    ensures Erase(a + m + b, tokens) == Erase(a, tokens) + Erase(m, tokens) + Erase(b, tokens)
  {
    EraseAppend(a, m, tokens);
    EraseAppend(a + m, b, tokens);
  }

  lemma BoundAround(s: seq<Sym>, tokens: seq<char>, at: nat)
    requires TokensBound(s, tokens) && at + 1 < |s|
    ensures TokensBound(s[..at], tokens) && TokensBound(s[at + 2..], tokens)
  {
    var a, b := s[..at], s[at + 2..];
    forall k | 0 <= k < |a| && a[k].Tok? ensures a[k].i < |tokens| {
      assert a[k] == s[k];
    }
    forall k | 0 <= k < |b| && b[k].Tok? ensures b[k].i < |tokens| {
      assert b[k] == s[k + at + 2];
    }
  }

  lemma EraseAroundFresh(a: seq<Sym>, b: seq<Sym>, tokens: seq<char>, ch: char)
    requires TokensBound(a, tokens) && TokensBound(b, tokens)
    ensures Erase(a + [Tok(|tokens|)] + b, tokens + [ch]) == Erase(a, tokens) + ['\\', ch] + Erase(b, tokens)
  {
    EraseExtend(a, tokens, [ch]);
    EraseExtend(b, tokens, [ch]);
    EraseFreshTok(tokens, ch);
    EraseSplice(a, [Tok(|tokens|)], b, tokens + [ch]);
  }

  lemma EraseAroundPair(a: seq<Sym>, b: seq<Sym>, tokens: seq<char>, ch: char)
    ensures Erase(a + [Ch('\\'), Ch(ch)] + b, tokens) == Erase(a, tokens) + ['\\', ch] + Erase(b, tokens)
  {
    ErasePair(tokens, ch);
    EraseSplice(a, [Ch('\\'), Ch(ch)], b, tokens);
  }

  /** Replacing one `\c` pair by a fresh placeholder keeps the erased text. */
  lemma ReplaceKeepsErase(s: seq<Sym>, tokens: seq<char>, at: nat, ch: char)
    requires TokensBound(s, tokens)
    requires at + 1 < |s| && s[at] == Ch('\\') && s[at + 1] == Ch(ch)
    ensures TokensBound(s[..at] + [Tok(|tokens|)] + s[at + 2..], tokens + [ch])
    ensures Erase(s[..at] + [Tok(|tokens|)] + s[at + 2..], tokens + [ch]) == Erase(s, tokens)
  {
    var a, b := s[..at], s[at + 2..];
    BoundAround(s, tokens, at);
    EraseAroundFresh(a, b, tokens, ch);
    SpliceAt(s, at);
    EraseAroundPair(a, b, tokens, ch);
    ReplaceKeepsBound(s, tokens, at, ch);
  }

  lemma ReplaceKeepsBound(s: seq<Sym>, tokens: seq<char>, at: nat, ch: char)
    requires TokensBound(s, tokens) && at + 1 < |s|
    ensures TokensBound(s[..at] + [Tok(|tokens|)] + s[at + 2..], tokens + [ch])
  {
    var s' := s[..at] + [Tok(|tokens|)] + s[at + 2..];
    forall k | 0 <= k < |s'| && s'[k].Tok? ensures s'[k].i < |tokens| + 1 {
      if k < at {
        assert s'[k] == s[k];
      } else if k > at {
        assert s'[k] == s[k + 1];
      }
    }
  }

  /** No backslash in `s` is directly followed by `ch`. */
  predicate NoPair(s: seq<Sym>, ch: char) {
    forall k :: 0 <= k < |s| - 1 && s[k] == Ch('\\') ==> s[k + 1] != Ch(ch)
  }

  /** `\c` pairs are searched as `strpos($string, "\\c")`. */
  function FindPair(s: seq<Sym>, ch: char): (r: Option<nat>)
    ensures r.Some? ==> r.value + 1 < |s| && s[r.value] == Ch('\\') && s[r.value + 1] == Ch(ch)
    ensures r.None? ==> NoPair(s, ch)
  {
    var r := StrPos(s, [Ch('\\'), Ch(ch)]);
    if r.None? then
      assert NoPair(s, ch) by {
        forall k | 0 <= k < |s| - 1 && s[k] == Ch('\\') ensures s[k + 1] != Ch(ch) {
          assert !OccursAt(s, [Ch('\\'), Ch(ch)], k);
          assert s[k..k + 2] == [s[k], s[k + 1]];
        }
      }
      r
    else
      assert s[r.value..r.value + 2] == [Ch('\\'), Ch(ch)];
      assert s[r.value..r.value + 2][0] == s[r.value] && s[r.value..r.value + 2][1] == s[r.value + 1];
      r
  }

  /**
   * One round as a function: the first `\ch` is replaced by the next placeholder
   * until none is left.
   */
  function PairRounds(s: seq<Sym>, tokens: seq<char>, ch: char): (seq<Sym>, seq<char>)
    decreases |s|
  {
    var at := FindPair(s, ch);
    if at.None? then (s, tokens)
    else PairRounds(s[..at.value] + [Tok(|tokens|)] + s[at.value + 2..], tokens + [ch], ch)
  }

  /** The body and tokens after the rounds for the first `e` characters of `esc`. */
  function RoundsUpTo(q: string, esc: seq<char>, e: nat): (seq<Sym>, seq<char>)
    requires e <= |esc|
  {
    if e == 0 then (Lift(q), [])
    else
      var prev := RoundsUpTo(q, esc, e - 1);
      PairRounds(prev.0, prev.1, esc[e - 1])
  }

  /** One replacement keeps the erased text, the bound, the placeholders and the absent pairs, and follows PairRounds. */
  lemma ReplaceStep(s: seq<Sym>, tokens: seq<char>, ch: char, at: nat)
    requires TokensBound(s, tokens) && FindPair(s, ch) == Some(at)
    ensures var s' := s[..at] + [Tok(|tokens|)] + s[at + 2..];
      && TokensBound(s', tokens + [ch]) && Erase(s', tokens + [ch]) == Erase(s, tokens)
      && (forall other :: NoPair(s, other) ==> NoPair(s', other))
      && (Placed(s, tokens) ==> Placed(s', tokens + [ch]))
      && PairRounds(s, tokens, ch) == PairRounds(s', tokens + [ch], ch)
  {
    var s' := s[..at] + [Tok(|tokens|)] + s[at + 2..];
    ReplaceKeepsErase(s, tokens, at, ch);
    if Placed(s, tokens) {
      ReplaceKeepsPlaced(s, tokens, at, ch);
    }
    forall other | NoPair(s, other) ensures NoPair(s', other) {
      ReplaceKeepsNoPair(s, at, Tok(|tokens|), other);
    }
  }

  /** Replacing a `\c` pair by a placeholder keeps every recorded placeholder and adds the new one. */
  lemma ReplaceKeepsPlaced(s: seq<Sym>, tokens: seq<char>, at: nat, ch: char)
    requires Placed(s, tokens)
    requires at + 1 < |s| && s[at] == Ch('\\') && s[at + 1] == Ch(ch)
    ensures Placed(s[..at] + [Tok(|tokens|)] + s[at + 2..], tokens + [ch])
  {
    var s' := s[..at] + [Tok(|tokens|)] + s[at + 2..];
    forall i | 0 <= i < |tokens| + 1 ensures Tok(i) in s' {
      if i == |tokens| {
        assert s'[at] == Tok(i);
      } else {
        var k :| 0 <= k < |s| && s[k] == Tok(i);
        if k < at {
          assert s'[k] == Tok(i);
        } else {
          assert s'[k - 1] == Tok(i);
        }
      }
    }
  }

  /** Replacing a `\c` pair by a placeholder introduces no new pair for any other character. */
  lemma ReplaceKeepsNoPair(s: seq<Sym>, at: nat, x: Sym, other: char)
    requires at + 1 < |s| && NoPair(s, other) && x.Tok?
    ensures NoPair(s[..at] + [x] + s[at + 2..], other)
  {
    var s' := s[..at] + [x] + s[at + 2..];
    forall k | 0 <= k < |s'| - 1 && s'[k] == Ch('\\') ensures s'[k + 1] != Ch(other) {
      if k + 1 < at {
        assert s'[k] == s[k] && s'[k + 1] == s[k + 1];
      } else if k > at {
        assert s'[k] == s[k + 1] && s'[k + 1] == s[k + 2];
      } else if k + 1 == at {
        assert s'[k] == s[k] && s'[k + 1] == x;
      }
    }
  }

  /** Once no character of Escapable has a pair, no escape is left. */
  lemma NoPairsNoEscape(s: seq<Sym>)
    requires forall d :: 0 <= d < |Escapable| ==> NoPair(s, Escapable[d])
    ensures NoEscapeLeft(s)
  {
    forall k | 0 <= k < |s| - 1 && s[k] == Ch('\\') ensures !(s[k + 1].Ch? && IsEscapable(s[k + 1].c)) {
      if s[k + 1].Ch? {
        forall d | 0 <= d < |Escapable| ensures Escapable[d] != s[k + 1].c {
          assert NoPair(s, Escapable[d]);
        }
      }
    }
  }

  /** What holds while a round turns `s0` into `s`, recording `tokens0` followed by placeholders for `ch`. */
  predicate PairsInv(s0: seq<Sym>, tokens0: seq<char>, ch: char, s: seq<Sym>, tokens: seq<char>) {
    && TokensBound(s, tokens) && Erase(s, tokens) == Erase(s0, tokens0)
    && (forall other :: NoPair(s0, other) ==> NoPair(s, other))
    && |tokens| >= |tokens0| && tokens[..|tokens0|] == tokens0
    && (forall k :: |tokens0| <= k < |tokens| ==> tokens[k] == ch)
    && (|tokens| == |tokens0| ==> s == s0)
    && PairRounds(s, tokens, ch) == PairRounds(s0, tokens0, ch)
    && (Placed(s0, tokens0) ==> Placed(s, tokens))
  }

  /** One round of clSelector::tokenize: replace the first `\\ch` by the next placeholder until none is left. */
  method ReplacePairs(s0: seq<Sym>, tokens0: seq<char>, ch: char) returns (s: seq<Sym>, tokens: seq<char>)
    requires TokensBound(s0, tokens0)
    ensures TokensBound(s, tokens) && Erase(s, tokens) == Erase(s0, tokens0)
    ensures NoPair(s, ch)
    ensures forall other :: NoPair(s0, other) ==> NoPair(s, other)
    ensures |tokens| >= |tokens0| && tokens[..|tokens0|] == tokens0
    ensures forall k :: |tokens0| <= k < |tokens| ==> tokens[k] == ch
    ensures |tokens| == |tokens0| ==> s == s0
    ensures (s, tokens) == PairRounds(s0, tokens0, ch)
    ensures Placed(s0, tokens0) ==> Placed(s, tokens)
  {
    s, tokens := s0, tokens0;
    var at := FindPair(s, ch);
    while at.Some?
      invariant PairsInv(s0, tokens0, ch, s, tokens)
      invariant at == FindPair(s, ch)
      decreases |s|
    {
      PairKept(s0, tokens0, ch, s, tokens, at.value);
      s := s[..at.value] + [Tok(|tokens|)] + s[at.value + 2..];
      tokens := tokens + [ch];
      at := FindPair(s, ch);
    }
  }

  /** Replacing the pair FindPair found keeps the round's invariant and shortens the text. */
  lemma PairKept(s0: seq<Sym>, tokens0: seq<char>, ch: char, s: seq<Sym>, tokens: seq<char>, at: nat)
    requires PairsInv(s0, tokens0, ch, s, tokens) && FindPair(s, ch) == Some(at)
    ensures at + 2 <= |s| && |s[..at] + [Tok(|tokens|)] + s[at + 2..]| < |s|
    ensures PairsInv(s0, tokens0, ch, s[..at] + [Tok(|tokens|)] + s[at + 2..], tokens + [ch])
  {
    ReplaceStep(s, tokens, ch, at);
    assert (tokens + [ch])[..|tokens0|] == tokens[..|tokens0|];
  }

  /** What holds after the rounds for the first `e` characters of `esc`. */
  predicate RoundsInv(q: string, esc: seq<char>, e: nat, s: seq<Sym>, tokens: seq<char>)
    requires e <= |esc|
  {
    && TokensBound(s, tokens) && Erase(s, tokens) == q
    && (forall k :: 0 <= k < |tokens| ==> tokens[k] in esc)
    && (tokens == [] ==> s == Lift(q))
    && (forall d :: 0 <= d < e ==> NoPair(s, esc[d]))
    && (s, tokens) == RoundsUpTo(q, esc, e) && Placed(s, tokens)
  }

  /** The rounds of clSelector::tokenize, one per character of `esc`, in order. */
  method ReplaceAll(q: string, esc: seq<char>) returns (s: seq<Sym>, tokens: seq<char>)
    ensures TokensBound(s, tokens) && Erase(s, tokens) == q
    ensures forall k :: 0 <= k < |tokens| ==> tokens[k] in esc
    ensures tokens == [] ==> s == Lift(q)
    ensures forall d :: 0 <= d < |esc| ==> NoPair(s, esc[d])
    ensures (s, tokens) == RoundsUpTo(q, esc, |esc|) && Placed(s, tokens)
  {
    s := Lift(q);
    tokens := [];
    EraseLift(q);
    for e := 0 to |esc|
      invariant RoundsInv(q, esc, e, s, tokens)
    {
      ghost var before, prev := tokens, s;
      s, tokens := ReplacePairs(s, tokens, esc[e]);
      RoundKept(q, esc, e, prev, before, s, tokens);
    }
  }

  /** One more round keeps the invariant. */
  lemma RoundKept(q: string, esc: seq<char>, e: nat, prev: seq<Sym>, before: seq<char>, s: seq<Sym>, tokens: seq<char>)
    requires e < |esc| && RoundsInv(q, esc, e, prev, before)
    requires TokensBound(s, tokens) && Erase(s, tokens) == Erase(prev, before)
    requires NoPair(s, esc[e])
    requires forall other :: NoPair(prev, other) ==> NoPair(s, other)
    requires |tokens| >= |before| && tokens[..|before|] == before
    requires forall k :: |before| <= k < |tokens| ==> tokens[k] == esc[e]
    requires |tokens| == |before| ==> s == prev
    requires (s, tokens) == PairRounds(prev, before, esc[e])
    requires Placed(prev, before) ==> Placed(s, tokens)
    ensures RoundsInv(q, esc, e + 1, s, tokens)
  {
    TokensFrom(before, tokens, esc, e);
    PairsGone(prev, s, esc, e);
  }

  /** After round `e`, none of the first `e + 1` escapable characters is left behind a backslash. */
  lemma PairsGone(prev: seq<Sym>, s: seq<Sym>, esc: seq<char>, e: nat)
    requires e < |esc|
    requires forall d :: 0 <= d < e ==> NoPair(prev, esc[d])
    requires forall other :: NoPair(prev, other) ==> NoPair(s, other)
    requires NoPair(s, esc[e])
    ensures forall d :: 0 <= d < e + 1 ==> NoPair(s, esc[d])
  {
    forall d | 0 <= d < e + 1 ensures NoPair(s, esc[d]) {
      if d < e {
        assert NoPair(prev, esc[d]);
      }
    }
  }

  /** After a round, every placeholder still stands for an escapable character. */
  lemma TokensFrom(before: seq<char>, tokens: seq<char>, esc: seq<char>, e: nat)
    requires e < |esc|
    requires forall k :: 0 <= k < |before| ==> before[k] in esc
    requires |tokens| >= |before| && tokens[..|before|] == before
    requires forall k :: |before| <= k < |tokens| ==> tokens[k] == esc[e]
    ensures forall k :: 0 <= k < |tokens| ==> tokens[k] in esc
  {
    forall k | 0 <= k < |tokens| ensures tokens[k] in esc {
      if k < |before| {
        assert tokens[k] == tokens[..|before|][k] == before[k];
      }
    }
  }

  /**
   * clSelector::tokenize: for each escapable character in turn, replace every `\\c`
   * by a fresh placeholder; prefix "TK" when anything was replaced.
   */
  method Tokenize(q: string) returns (t: seq<Sym>, tokens: seq<char>)
    ensures Tokenized(q, t, tokens)
  {
    var s;
    s, tokens := ReplaceAll(q, Escapable);
    t := if tokens != [] then [Ch('T'), Ch('K')] + s else s;
    Finished(q, s, tokens, t);
  }

  lemma Finished(q: string, s: seq<Sym>, tokens: seq<char>, t: seq<Sym>)
    requires TokensBound(s, tokens) && Erase(s, tokens) == q
    requires forall k :: 0 <= k < |tokens| ==> tokens[k] in Escapable
    requires tokens == [] ==> s == Lift(q)
    requires forall d :: 0 <= d < |Escapable| ==> NoPair(s, Escapable[d])
    requires (s, tokens) == RoundsUpTo(q, Escapable, |Escapable|) && Placed(s, tokens)
    requires t == if tokens != [] then [Ch('T'), Ch('K')] + s else s
    ensures Tokenized(q, t, tokens)
  {
    NoPairsNoEscape(s);
    assert Body(t, tokens) == s;
  }

  /** A query has exactly one tokenized form: the placeholders and their numbering are fixed by the rounds. */
  lemma TokenizedUnique(q: string, t1: seq<Sym>, tokens1: seq<char>, t2: seq<Sym>, tokens2: seq<char>)
    requires Tokenized(q, t1, tokens1) && Tokenized(q, t2, tokens2)
    ensures t1 == t2 && tokens1 == tokens2
  {
    assert Body(t1, tokens1) == Body(t2, tokens2);
    if tokens1 != [] {
      assert t1 == t1[..2] + t1[2..] && t2 == t2[..2] + t2[2..];
      assert t1[..2] == [Ch('T'), Ch('K')] == t2[..2];
    }
  }

  /** Some backslash in `q` is directly followed by an escapable character. */
  predicate HasEscape(q: string) {
    exists k :: 0 <= k < |q| - 1 && q[k] == '\\' && IsEscapable(q[k + 1])
  }

  /** Tokenize records tokens, and so marks the query with "TK", exactly when the query escapes something. */
  lemma MarkedIffEscaped(q: string, t: seq<Sym>, tokens: seq<char>)
    requires Tokenized(q, t, tokens)
    ensures tokens != [] <==> HasEscape(q)
  {
    if tokens == [] {
      UnmarkedNoEscape(q, t, tokens);
    } else {
      MarkedEscaped(q, t, tokens);
    }
  }

  lemma UnmarkedNoEscape(q: string, t: seq<Sym>, tokens: seq<char>)
    requires Tokenized(q, t, tokens) && tokens == []
    ensures !HasEscape(q)
  {
    var b := Body(t, tokens);
    forall k | 0 <= k < |q| - 1 && q[k] == '\\' ensures !IsEscapable(q[k + 1]) {
      assert b[k] == Ch('\\') && b[k + 1] == Ch(q[k + 1]);
    }
  }

  lemma MarkedEscaped(q: string, t: seq<Sym>, tokens: seq<char>)
    requires Tokenized(q, t, tokens) && tokens != []
    ensures HasEscape(q)
  {
    var b := Body(t, tokens);
    assert Tok(0) in b;
    var k :| 0 <= k < |b| && b[k] == Tok(0);
    var x, y := b[..k], b[k + 1..];
    assert b == x + [Tok(0)] + y;
    EraseSplice(x, [Tok(0)], y, tokens);
    var mid := [Tok(0)];
    assert mid[1..] == [];
    assert Erase(mid, tokens) == ['\\', tokens[0]];
    var n := |Erase(x, tokens)|;
    assert q[n] == '\\' && q[n + 1] == tokens[0];
    assert IsEscapable(tokens[0]);
  }

  /**
   * clSelector::untokenize on a piece of the tokenized query: a piece that is falsy or
   * does not start with "TK" is returned as written; otherwise its placeholders are
   * replaced by their characters and the first two characters are dropped.
   */
  function Untokenize(t: seq<Sym>, tokens: seq<char>): string {
    var raw := Render(t);
    if !Truthy(raw) || !IsPrefix("TK", raw) then raw
    else
      var r := Resolve(t, tokens);
      if |r| >= 2 then r[2..] else ""
  }

  lemma {:induction false} ResolveIsUnescape(t: seq<Sym>, tokens: seq<char>)
    requires TokensBound(t, tokens) && AllEscapable(tokens) && NoEscapeLeft(t)
    ensures Resolve(t, tokens) == Unescape(Erase(t, tokens))
  {
    if t != [] {
      var rest := t[1..];
      ResolveIsUnescape(rest, tokens);
      var er := Erase(rest, tokens);
      BackslashNotEscapable();
      match t[0]
      case Tok(i) =>
        assert Erase(t, tokens) == ['\\', tokens[i]] + er;
      case Ch(c) =>
        assert Erase(t, tokens) == [c] + er;
        if c == '\\' && er != [] {
          assert rest != [];
          assert er[0] == Piece(rest[0], tokens)[0];
          assert !IsEscapable(er[0]);
        }
    }
  }

  lemma {:induction false} ResolveLift(s: string)
    ensures Resolve(Lift(s), []) == s
  {
    if s != [] {
      assert Lift(s)[1..] == Lift(s[1..]);
      ResolveLift(s[1..]);
    }
  }

  /** A leading plain character reads as itself both raw and resolved. */
  lemma CharText(c: char, body: seq<Sym>, tokens: seq<char>)
    ensures Render([Ch(c)] + body) == [c] + Render(body)
    ensures Resolve([Ch(c)] + body, tokens) == [c] + Resolve(body, tokens)
  {
    assert ([Ch(c)] + body)[1..] == body;
  }

  lemma ConsCons<T>(a: T, b: T, s: seq<T>)
    ensures [a, b] + s == [a] + ([b] + s)
  {
  }

  /** The "TK" mark reads as itself both raw and resolved. */
  lemma MarkedText(body: seq<Sym>, tokens: seq<char>)
    ensures Render([Ch('T'), Ch('K')] + body) == "TK" + Render(body)
    ensures Resolve([Ch('T'), Ch('K')] + body, tokens) == "TK" + Resolve(body, tokens)
  {
    CharText('K', body, tokens);
    CharText('T', [Ch('K')] + body, tokens);
    ConsCons(Ch('T'), Ch('K'), body);
    ConsCons('T', 'K', Render(body));
    ConsCons('T', 'K', Resolve(body, tokens));
  }

  /** Without escapes, a query not starting with "TK" comes back unchanged. */
  lemma UntokenizePlain(q: string)
    requires !IsPrefix("TK", q) && NoEscapeLeft(Lift(q))
    ensures Untokenize(Lift(q), []) == Unescape(q)
  {
    RenderLift(q);
    ResolveLift(q);
    EraseLift(q);
    ResolveIsUnescape(Lift(q), []);
  }

  /**
   * The escape round trip: for a query that does not itself start with "TK",
   * untokenizing the whole tokenized query gives the query with every `\c` read as `c`.
   */
  lemma UntokenizeTokenize(q: string, t: seq<Sym>, tokens: seq<char>)
    requires Tokenized(q, t, tokens)
    requires !IsPrefix("TK", q)
    ensures Untokenize(t, tokens) == Unescape(q)
  {
    if tokens == [] {
      UntokenizePlain(q);
    } else {
      var body := t[2..];
      assert t == [Ch('T'), Ch('K')] + body;
      MarkedText(body, tokens);
      ResolveIsUnescape(body, tokens);
    }
  }
}
