/**
 * clSelector: a query is tokenized, split into steps at separators, `>` and `,`, and each
 * step is parsed by the step grammar into a record the query engine walks through.
 */
module Selector {
  import opened Wrappers
  import opened Php
  import opened Tokens
  import opened Grammar
  import opened Assoc

  // ---------------------------------------------------------------------------------------
  // Splitting the tokenized query into steps
  // ---------------------------------------------------------------------------------------

  /** `/`, tab, newline, carriage return and space end the current step. */
  predicate IsSeparator(x: Sym) {
    x == Ch('/') || x == Ch('\t') || x == Ch('\n') || x == Ch('\r') || x == Ch(' ')
  }

  /** The characters the splitter consumes instead of adding them to a step. */
  predicate IsSpecial(x: Sym) {
    x == Ch('>') || x == Ch(',') || IsSeparator(x)
  }

  predicate NoSpecial(b: seq<Sym>) {
    forall k :: 0 <= k < |b| ==> !IsSpecial(b[k])
  }

  /** The text of one step as the splitter collected it, with the flags it carried. */
  datatype Fragment = Fragment(raw: seq<Sym>, direct: bool, add: bool)

  /** The splitter's variables: `$buffer`, `$eos`, `$direct_descendant_flag`, `$add_flag`, and the steps so far. */
  datatype Scan = Scan(buffer: seq<Sym>, eos: bool, direct: bool, add: bool, frags: seq<Fragment>)

  const Start := Scan([], false, false, false, [])

  /** The buffer is emitted when it is not empty and the query or the step has ended. */
  function Emit(st: Scan, last: bool): Scan {
    if st.buffer != [] && (last || st.eos) then
      Scan([], false, false, false, st.frags + [Fragment(st.buffer, st.direct, st.add)])
    else st
  }

  /**
   * What one symbol does to the splitter's variables before the emission test. The loop
   * reads the query byte by byte, and a placeholder's bytes are all name characters, so a
   * placeholder is one symbol except in one case: after a `,` that found the buffer empty,
   * `$eos` stays set, and the first byte of whatever comes next is emitted as a step of its
   * own. For a placeholder that byte is its leading `T`, and the rest of its text goes on
   * as plain characters.
   */
  function Advance(st: Scan, x: Sym): Scan {
    if x == Ch('>') then st.(direct := true)
    else if x == Ch(',') then st.(add := true, eos := true)
    else if IsSeparator(x) then st.(eos := st.buffer != [])
    else if x.Tok? && st.eos && st.buffer == [] then
      Scan(Lift(RenderSym(x)[1..]), false, false, false, st.frags + [Fragment([Ch('T')], st.direct, st.add)])
    else st.(buffer := st.buffer + [x])
  }

  /** One iteration of the loop; `last` is `$eoq`. */
  function Feed(st: Scan, x: Sym, last: bool): Scan {
    Emit(Advance(st, x), last)
  }

  /** The splitter's state after the first `n` symbols. */
  function ScanPrefix(t: seq<Sym>, n: nat): Scan
    requires n <= |t|
  {
    if n == 0 then Start else Feed(ScanPrefix(t, n - 1), t[n - 1], n == |t|)
  }

  /** The steps of a tokenized query, in order. */
  function Split(t: seq<Sym>): seq<Fragment> {
    ScanPrefix(t, |t|).frags
  }

  /** The symbols the splitter keeps: everything but separators, `>` and `,`. */
  function Keep(t: seq<Sym>): seq<Sym> {
    if t == [] then []
    else Keep(t[..|t| - 1]) + (if IsSpecial(t[|t| - 1]) then [] else [t[|t| - 1]])
  }

  /** The text of a list of steps, one after the other. */
  function FragsText(fs: seq<Fragment>): string {
    if fs == [] then [] else FragsText(fs[..|fs| - 1]) + Render(fs[|fs| - 1].raw)
  }

  lemma FragsTextSnoc(fs: seq<Fragment>, f: Fragment)
    ensures FragsText(fs + [f]) == FragsText(fs) + Render(f.raw)
  {
    assert (fs + [f])[..|fs|] == fs;
  }

  lemma EmitText(st: Scan, last: bool)
    ensures FragsText(Emit(st, last).frags) + Render(Emit(st, last).buffer) == FragsText(st.frags) + Render(st.buffer)
  {
    if st.buffer != [] && (last || st.eos) {
      FragsTextSnoc(st.frags, Fragment(st.buffer, st.direct, st.add));
    }
  }

  /** A placeholder cut after its leading `T` still reads as the placeholder. */
  lemma CutTokText(x: Sym)
    requires x.Tok?
    ensures Render([Ch('T')]) + Render(Lift(RenderSym(x)[1..])) == RenderSym(x)
  {
    RenderLift(RenderSym(x)[1..]);
  }

  lemma AdvanceText(st: Scan, x: Sym)
    ensures FragsText(Advance(st, x).frags) + Render(Advance(st, x).buffer)
         == FragsText(st.frags) + Render(st.buffer) + (if IsSpecial(x) then "" else RenderSym(x))
  {
    if IsSpecial(x) {
      SpecialText(st, x);
    } else if x.Tok? && st.eos && st.buffer == [] {
      FragsTextSnoc(st.frags, Fragment([Ch('T')], st.direct, st.add));
      CutTokText(x);
    } else {
      AppendText(st, x);
    }
  }

  lemma SpecialText(st: Scan, x: Sym)
    requires IsSpecial(x)
    ensures FragsText(Advance(st, x).frags) + Render(Advance(st, x).buffer) == FragsText(st.frags) + Render(st.buffer)
  {
    assert Advance(st, x).frags == st.frags && Advance(st, x).buffer == st.buffer;
  }

  lemma AppendText(st: Scan, x: Sym)
    requires !IsSpecial(x) && !(x.Tok? && st.eos && st.buffer == [])
    ensures FragsText(Advance(st, x).frags) + Render(Advance(st, x).buffer)
         == FragsText(st.frags) + Render(st.buffer) + RenderSym(x)
  {
    assert Advance(st, x).frags == st.frags && Advance(st, x).buffer == st.buffer + [x];
    RenderAppend(st.buffer, [x]);
    assert Render([x]) == RenderSym(x) + Render([]);
  }

  lemma FeedText(st: Scan, x: Sym, last: bool)
    ensures FragsText(Feed(st, x, last).frags) + Render(Feed(st, x, last).buffer)
         == FragsText(st.frags) + Render(st.buffer) + (if IsSpecial(x) then "" else RenderSym(x))
  {
    AdvanceText(st, x);
    EmitText(Advance(st, x), last);
  }

  /** The steps so far and the buffer hold exactly the text of the symbols kept so far. */
  lemma {:induction false} ScanText(t: seq<Sym>, n: nat)
    requires n <= |t|
    ensures FragsText(ScanPrefix(t, n).frags) + Render(ScanPrefix(t, n).buffer) == Render(Keep(t[..n]))
  {
    if n > 0 {
      ScanText(t, n - 1);
      ScanStep(t, n);
      FeedText(ScanPrefix(t, n - 1), t[n - 1], n == |t|);
      KeepStep(t, n);
    }
  }

  /** One symbol more adds its text to the kept text, unless the splitter consumes it. */
  lemma KeepStep(t: seq<Sym>, n: nat)
    requires 0 < n <= |t|
    ensures Render(Keep(t[..n])) == Render(Keep(t[..n - 1])) + (if IsSpecial(t[n - 1]) then "" else RenderSym(t[n - 1]))
  {
    var x := t[n - 1];
    assert t[..n][..n - 1] == t[..n - 1];
    var kept := Keep(t[..n - 1]);
    var more := if IsSpecial(x) then [] else [x];
    assert Keep(t[..n]) == kept + more;
    RenderAppend(kept, more);
    assert Render(more) == if IsSpecial(x) then "" else RenderSym(x) by {
      assert Render([x]) == RenderSym(x) + Render([]);
    }
  }

  /** At the end of the query nothing is left in the buffer. */
  lemma ScanEnds(t: seq<Sym>)
    ensures ScanPrefix(t, |t|).buffer == []
  {
    if |t| > 0 {
      var st := ScanPrefix(t, |t| - 1);
      var x := t[|t| - 1];
      if x.Tok? && st.eos && st.buffer == [] {
        assert Lift(RenderSym(x)[1..]) != [];
      }
    }
  }

  /** No character of the query is lost or added: the steps spell out everything but the separators, `>` and `,`. */
  lemma SplitKeepsText(t: seq<Sym>)
    ensures FragsText(Split(t)) == Render(Keep(t))
  {
    ScanText(t, |t|);
    ScanEnds(t);
    assert t[..|t|] == t;
  }

  predicate CleanFrags(fs: seq<Fragment>) {
    forall k :: 0 <= k < |fs| ==> fs[k].raw != [] && NoSpecial(fs[k].raw)
  }

  lemma LiftNoSpecial(s: string)
    requires forall k :: 0 <= k < |s| ==> s[k] != '>' && s[k] != ',' && s[k] != '/' && !IsTrimChar(s[k])
    ensures NoSpecial(Lift(s))
  {
  }

  /** A placeholder's text is letters and digits. */
  lemma TokTextPlain(x: Sym)
    requires x.Tok?
    ensures forall k :: 0 <= k < |RenderSym(x)| ==> RenderSym(x)[k] != '>' && RenderSym(x)[k] != ',' && RenderSym(x)[k] != '/' && !IsTrimChar(RenderSym(x)[k])
  {
    var d := NatToString(x.i);
    assert forall k :: 0 <= k < |d| ==> IsDigit(d[k]);
    assert RenderSym(x) == "TKS" + d + "TKE";
  }

  lemma AdvanceClean(st: Scan, x: Sym)
    requires CleanFrags(st.frags) && NoSpecial(st.buffer)
    ensures CleanFrags(Advance(st, x).frags) && NoSpecial(Advance(st, x).buffer)
  {
    if IsSpecial(x) {
      assert Advance(st, x).frags == st.frags && Advance(st, x).buffer == st.buffer;
    } else if x.Tok? && st.eos && st.buffer == [] {
      TokTextPlain(x);
      LiftNoSpecial(RenderSym(x)[1..]);
    } else {
      assert Advance(st, x).frags == st.frags && Advance(st, x).buffer == st.buffer + [x];
    }
  }

  lemma EmitClean(st: Scan, last: bool)
    requires CleanFrags(st.frags) && NoSpecial(st.buffer)
    ensures CleanFrags(Emit(st, last).frags) && NoSpecial(Emit(st, last).buffer)
  {
  }

  /** Every step is non-empty and holds no separator, `>` or `,`. */
  lemma {:induction false} ScanClean(t: seq<Sym>, n: nat)
    requires n <= |t|
    ensures CleanFrags(ScanPrefix(t, n).frags) && NoSpecial(ScanPrefix(t, n).buffer)
  {
    if n > 0 {
      ScanClean(t, n - 1);
      AdvanceClean(ScanPrefix(t, n - 1), t[n - 1]);
      EmitClean(Advance(ScanPrefix(t, n - 1), t[n - 1]), n == |t|);
    }
  }

  lemma SplitClean(t: seq<Sym>)
    ensures CleanFrags(Split(t))
  {
    ScanClean(t, |t|);
  }

  /** Without a `>` in the query no step is marked direct. */
  lemma {:induction false} ScanNoDirect(t: seq<Sym>, n: nat)
    requires n <= |t| && Ch('>') !in t
    ensures !ScanPrefix(t, n).direct && forall k :: 0 <= k < |ScanPrefix(t, n).frags| ==> !ScanPrefix(t, n).frags[k].direct
  {
    if n > 0 {
      ScanNoDirect(t, n - 1);
      assert t[n - 1] != Ch('>');
    }
  }

  /** Without a `,` in the query no step adds to the results of the one before. */
  lemma {:induction false} ScanNoAdd(t: seq<Sym>, n: nat)
    requires n <= |t| && Ch(',') !in t
    ensures !ScanPrefix(t, n).add && !ScanPrefix(t, n).eos
    ensures forall k :: 0 <= k < |ScanPrefix(t, n).frags| ==> !ScanPrefix(t, n).frags[k].add
  {
    if n > 0 {
      ScanNoAdd(t, n - 1);
      assert t[n - 1] != Ch(',');
    }
  }

  /**
   * The number of symbols after which step `k` has been emitted, counting the first `n`:
   * the symbol t[m - 1] is the one that emitted it.
   */
  function EmittedAt(t: seq<Sym>, k: nat, n: nat): (m: nat)
    requires n <= |t| && k < |ScanPrefix(t, n).frags|
    ensures 0 < m <= n
    decreases n
  {
    if k < |ScanPrefix(t, n - 1).frags| then EmittedAt(t, k, n - 1) else n
  }

  lemma NoStepsAtStart(t: seq<Sym>)
    ensures ScanPrefix(t, 0).frags == []
  {
  }

  /** Symbol t[m - 1] emitted step `k`: the step is among those after `m` symbols and not among those after `m - 1`. */
  predicate EmitsAt(t: seq<Sym>, k: nat, m: nat)
    requires 0 < m <= |t|
  {
    |ScanPrefix(t, m - 1).frags| <= k < |ScanPrefix(t, m).frags|
  }

  /** Step `k` is among the steps after EmittedAt(t, k, n) symbols and not among those after one symbol fewer. */
  lemma {:induction false} EmittedAtEmits(t: seq<Sym>, k: nat, n: nat)
    requires n <= |t| && k < |ScanPrefix(t, n).frags|
    ensures EmitsAt(t, k, EmittedAt(t, k, n))
    decreases n
  {
    if n == 0 {
      NoStepsAtStart(t);
      assert false;
    } else if k < |ScanPrefix(t, n - 1).frags| {
      EmittedAtEmits(t, k, n - 1);
    }
  }

  /** Where the symbols that count for step `k` begin: just after the symbol that emitted step `k - 1`. */
  function OpenedAt(t: seq<Sym>, k: nat, n: nat): nat
    requires n <= |t| && k <= |ScanPrefix(t, n).frags|
  {
    if k == 0 then 0 else EmittedAt(t, k - 1, n)
  }

  /** Some symbol at a position in [a, b) is `x` (see SeenSome), looking from the right. */
  predicate Seen(t: seq<Sym>, x: Sym, a: nat, b: nat)
    requires b <= |t|
    decreases b
  {
    a < b && (t[b - 1] == x || Seen(t, x, a, b - 1))
  }

  /** Seen means what it says: some position in [a, b) holds `x`. */
  lemma {:induction false} SeenSome(t: seq<Sym>, x: Sym, a: nat, b: nat)
    requires b <= |t|
    ensures Seen(t, x, a, b) <==> exists j :: a <= j < b && t[j] == x
    decreases b
  {
    if a < b {
      SeenSome(t, x, a, b - 1);
      if exists j :: a <= j < b && t[j] == x {
        var j :| a <= j < b && t[j] == x;
        assert j == b - 1 || (a <= j < b - 1 && t[j] == x);
      }
    }
  }

  /** The character that sets a flag: `>` for the direct flag, `,` for the add flag. */
  function Mark(direct: bool): Sym {
    if direct then Ch('>') else Ch(',')
  }

  function StateFlag(st: Scan, direct: bool): bool {
    if direct then st.direct else st.add
  }

  function FragFlag(f: Fragment, direct: bool): bool {
    if direct then f.direct else f.add
  }

  /**
   * One iteration and a flag: either nothing is emitted and the flag gathers the symbol,
   * or the first step emitted carries the flag gathered so far with the symbol, a second
   * one (a placeholder cut at the end of the query) carries none, and the flag is cleared.
   */
  lemma FeedMarks(st: Scan, x: Sym, last: bool, direct: bool)
    ensures var r := Feed(st, x, last);
      && |st.frags| <= |r.frags| <= |st.frags| + 2 && r.frags[..|st.frags|] == st.frags
      && (|r.frags| == |st.frags| ==> StateFlag(r, direct) == (StateFlag(st, direct) || x == Mark(direct)))
      && (|r.frags| > |st.frags| ==> !StateFlag(r, direct))
      && (|r.frags| > |st.frags| ==> FragFlag(r.frags[|st.frags|], direct) == (StateFlag(st, direct) || x == Mark(direct)))
      && (|r.frags| == |st.frags| + 2 ==> !FragFlag(r.frags[|st.frags| + 1], direct))
  {
    var a := Advance(st, x);
    if x.Tok? && st.eos && st.buffer == [] {
      assert a.frags == st.frags + [Fragment([Ch('T')], st.direct, st.add)];
    } else {
      assert a.frags == st.frags;
    }
  }

  lemma SeenSnoc(t: seq<Sym>, x: Sym, a: nat, b: nat)
    requires a <= b < |t|
    ensures Seen(t, x, a, b + 1) <==> Seen(t, x, a, b) || t[b] == x
  {
  }

  /** One symbol more keeps the steps emitted so far and emits at most two. */
  lemma ScanStep(t: seq<Sym>, n: nat)
    requires 0 < n <= |t|
    ensures ScanPrefix(t, n) == Feed(ScanPrefix(t, n - 1), t[n - 1], n == |t|)
    ensures |ScanPrefix(t, n - 1).frags| <= |ScanPrefix(t, n).frags| <= |ScanPrefix(t, n - 1).frags| + 2
    ensures ScanPrefix(t, n).frags[..|ScanPrefix(t, n - 1).frags|] == ScanPrefix(t, n - 1).frags
  {
    FeedMarks(ScanPrefix(t, n - 1), t[n - 1], n == |t|, true);
  }

  /** One symbol more keeps the steps emitted so far and emits at most two. */
  lemma ScanExtends(t: seq<Sym>, n: nat)
    requires 0 < n <= |t|
    ensures |ScanPrefix(t, n - 1).frags| <= |ScanPrefix(t, n).frags| <= |ScanPrefix(t, n - 1).frags| + 2
    ensures ScanPrefix(t, n).frags[..|ScanPrefix(t, n - 1).frags|] == ScanPrefix(t, n - 1).frags
  {
    ScanStep(t, n);
  }

  /** A step emitted within the first `n - 1` symbols keeps its emission point and its opening point. */
  lemma EmittedStable(t: seq<Sym>, k: nat, n: nat)
    requires 0 < n <= |t| && k < |ScanPrefix(t, n - 1).frags|
    ensures k < |ScanPrefix(t, n).frags| && EmittedAt(t, k, n) == EmittedAt(t, k, n - 1)
    ensures OpenedAt(t, k, n) == OpenedAt(t, k, n - 1)
  {
    ScanExtends(t, n);
    if k > 0 {
      assert EmittedAt(t, k - 1, n) == EmittedAt(t, k - 1, n - 1);
    }
  }

  /** The pending flag's window still begins where it did. */
  lemma OpenedKept(t: seq<Sym>, n: nat)
    requires 0 < n <= |t|
    ensures |ScanPrefix(t, n - 1).frags| <= |ScanPrefix(t, n).frags|
    ensures OpenedAt(t, |ScanPrefix(t, n - 1).frags|, n) == OpenedAt(t, |ScanPrefix(t, n - 1).frags|, n - 1)
  {
    ScanExtends(t, n);
    var p := |ScanPrefix(t, n - 1).frags|;
    if p > 0 {
      EmittedStable(t, p - 1, n);
    }
  }

  /** A symbol that emits emitted the first new step. */
  lemma FirstEmitted(t: seq<Sym>, n: nat)
    requires 0 < n <= |t| && |ScanPrefix(t, n - 1).frags| < |ScanPrefix(t, n).frags|
    ensures EmittedAt(t, |ScanPrefix(t, n - 1).frags|, n) == n
  {
  }

  /** A symbol that emits two steps emitted the second and opened its window. */
  lemma SecondEmitted(t: seq<Sym>, n: nat)
    requires 0 < n <= |t| && |ScanPrefix(t, n - 1).frags| + 1 < |ScanPrefix(t, n).frags|
    ensures OpenedAt(t, |ScanPrefix(t, n - 1).frags| + 1, n) == n
    ensures EmittedAt(t, |ScanPrefix(t, n - 1).frags| + 1, n) == n
  {
    FirstEmitted(t, n);
  }

  /** A symbol that emits opens the pending flag's window just after itself. */
  lemma ClearedOpened(t: seq<Sym>, n: nat)
    requires 0 < n <= |t| && |ScanPrefix(t, n - 1).frags| < |ScanPrefix(t, n).frags|
    ensures OpenedAt(t, |ScanPrefix(t, n).frags|, n) == n
  {
    ScanExtends(t, n);
    var p, q := |ScanPrefix(t, n - 1).frags|, |ScanPrefix(t, n).frags|;
    if q == p + 1 {
      FirstEmitted(t, n);
    } else {
      SecondEmitted(t, n);
    }
  }

  /** The pending flag is set exactly when its mark was seen since the last emission. */
  predicate PendingMark(t: seq<Sym>, n: nat, direct: bool)
    requires n <= |t|
  {
    StateFlag(ScanPrefix(t, n), direct) <==> Seen(t, Mark(direct), OpenedAt(t, |ScanPrefix(t, n).frags|, n), n)
  }

  /** Step `k` carries the flag exactly when its mark lies in the symbols that count for it. */
  predicate StepMark(t: seq<Sym>, n: nat, k: nat, direct: bool)
    requires n <= |t| && k < |ScanPrefix(t, n).frags|
  {
    FragFlag(ScanPrefix(t, n).frags[k], direct) <==> Seen(t, Mark(direct), OpenedAt(t, k, n), EmittedAt(t, k, n))
  }

  /** The flag invariant after `n` symbols. */
  predicate MarksHold(t: seq<Sym>, n: nat, direct: bool)
    requires n <= |t|
  {
    && PendingMark(t, n, direct)
    && forall k :: 0 <= k < |ScanPrefix(t, n).frags| ==> StepMark(t, n, k, direct)
  }

  lemma OldStepMark(t: seq<Sym>, n: nat, k: nat, direct: bool)
    requires 0 < n <= |t| && k < |ScanPrefix(t, n - 1).frags| && StepMark(t, n - 1, k, direct)
    ensures k < |ScanPrefix(t, n).frags| && StepMark(t, n, k, direct)
  {
    ScanExtends(t, n);
    EmittedStable(t, k, n);
    var p := |ScanPrefix(t, n - 1).frags|;
    assert ScanPrefix(t, n).frags[k] == ScanPrefix(t, n).frags[..p][k];
  }

  /** A symbol that emits nothing gathers itself into the pending flag. */
  lemma FlagGathered(t: seq<Sym>, n: nat, direct: bool)
    requires 0 < n <= |t| && |ScanPrefix(t, n).frags| == |ScanPrefix(t, n - 1).frags|
    ensures StateFlag(ScanPrefix(t, n), direct) == (StateFlag(ScanPrefix(t, n - 1), direct) || t[n - 1] == Mark(direct))
  {
    FeedMarks(ScanPrefix(t, n - 1), t[n - 1], n == |t|, direct);
  }

  /** A symbol that emits hands the pending flag, with itself, to the first new step and clears it. */
  lemma FlagEmitted(t: seq<Sym>, n: nat, direct: bool)
    requires 0 < n <= |t| && |ScanPrefix(t, n - 1).frags| < |ScanPrefix(t, n).frags|
    ensures !StateFlag(ScanPrefix(t, n), direct)
    ensures FragFlag(ScanPrefix(t, n).frags[|ScanPrefix(t, n - 1).frags|], direct)
      == (StateFlag(ScanPrefix(t, n - 1), direct) || t[n - 1] == Mark(direct))
  {
    FeedMarks(ScanPrefix(t, n - 1), t[n - 1], n == |t|, direct);
  }

  /** A second step emitted by one symbol carries no flag. */
  lemma FlagSecond(t: seq<Sym>, n: nat, direct: bool)
    requires 0 < n <= |t| && |ScanPrefix(t, n - 1).frags| + 1 < |ScanPrefix(t, n).frags|
    ensures !FragFlag(ScanPrefix(t, n).frags[|ScanPrefix(t, n - 1).frags| + 1], direct)
  {
    FeedMarks(ScanPrefix(t, n - 1), t[n - 1], n == |t|, direct);
  }

  /** The first step a symbol emits carries the flag gathered since the last emission, with the symbol. */
  lemma FirstNewStepMark(t: seq<Sym>, n: nat, direct: bool)
    requires 0 < n <= |t| && PendingMark(t, n - 1, direct)
    requires |ScanPrefix(t, n - 1).frags| < |ScanPrefix(t, n).frags|
    ensures StepMark(t, n, |ScanPrefix(t, n - 1).frags|, direct)
  {
    var p := |ScanPrefix(t, n - 1).frags|;
    FlagEmitted(t, n, direct);
    OpenedKept(t, n);
    FirstEmitted(t, n);
    SeenSnoc(t, Mark(direct), OpenedAt(t, p, n - 1), n - 1);
  }

  /** A second step emitted by the same symbol carries no flag, and no symbol counts for it. */
  lemma SecondNewStepMark(t: seq<Sym>, n: nat, direct: bool)
    requires 0 < n <= |t|
    requires |ScanPrefix(t, n - 1).frags| + 1 < |ScanPrefix(t, n).frags|
    ensures StepMark(t, n, |ScanPrefix(t, n - 1).frags| + 1, direct)
  {
    FlagSecond(t, n, direct);
    SecondEmitted(t, n);
    assert !Seen(t, Mark(direct), n, n);
  }

  /** A symbol that emits nothing adds itself to the pending flag's window. */
  lemma PendingKept(t: seq<Sym>, n: nat, direct: bool)
    requires 0 < n <= |t| && PendingMark(t, n - 1, direct)
    requires |ScanPrefix(t, n).frags| == |ScanPrefix(t, n - 1).frags|
    ensures PendingMark(t, n, direct)
  {
    var p := |ScanPrefix(t, n - 1).frags|;
    FlagGathered(t, n, direct);
    OpenedKept(t, n);
    SeenSnoc(t, Mark(direct), OpenedAt(t, p, n - 1), n - 1);
  }

  /** A symbol that emits clears the pending flag and starts an empty window. */
  lemma PendingCleared(t: seq<Sym>, n: nat, direct: bool)
    requires 0 < n <= |t|
    requires |ScanPrefix(t, n).frags| > |ScanPrefix(t, n - 1).frags|
    ensures PendingMark(t, n, direct)
  {
    FlagEmitted(t, n, direct);
    ClearedOpened(t, n);
    assert !Seen(t, Mark(direct), n, n);
  }

  lemma PendingStep(t: seq<Sym>, n: nat, direct: bool)
    requires 0 < n <= |t| && PendingMark(t, n - 1, direct)
    ensures PendingMark(t, n, direct)
  {
    ScanExtends(t, n);
    if |ScanPrefix(t, n).frags| == |ScanPrefix(t, n - 1).frags| {
      PendingKept(t, n, direct);
    } else {
      PendingCleared(t, n, direct);
    }
  }

  /** A step the `n`-th symbol emitted carries its mark, given the pending flag's invariant before it. */
  lemma NewStepMark(t: seq<Sym>, n: nat, k: nat, direct: bool)
    requires 0 < n <= |t| && |ScanPrefix(t, n - 1).frags| <= k < |ScanPrefix(t, n).frags|
    requires PendingMark(t, n - 1, direct)
    ensures StepMark(t, n, k, direct)
  {
    if k == |ScanPrefix(t, n - 1).frags| {
      FirstNewStepMark(t, n, direct);
    } else {
      ScanExtends(t, n);
      assert k == |ScanPrefix(t, n - 1).frags| + 1;
      SecondNewStepMark(t, n, direct);
    }
  }

  lemma MarksStep(t: seq<Sym>, n: nat, direct: bool)
    requires 0 < n <= |t| && MarksHold(t, n - 1, direct)
    ensures MarksHold(t, n, direct)
  {
    PendingStep(t, n, direct);
    forall k | 0 <= k < |ScanPrefix(t, n).frags| ensures StepMark(t, n, k, direct) {
      if k < |ScanPrefix(t, n - 1).frags| {
        OldStepMark(t, n, k, direct);
      } else {
        NewStepMark(t, n, k, direct);
      }
    }
  }

  /**
   * After `n` symbols, every step emitted carries a flag exactly when its mark lies between
   * the symbol that emitted the step before it and the symbol that emitted it, and the
   * pending flag is set exactly when its mark was seen since the last emission.
   */
  lemma {:induction false} ScanMarks(t: seq<Sym>, n: nat, direct: bool)
    requires n <= |t|
    ensures MarksHold(t, n, direct)
  {
    if n > 0 {
      ScanMarks(t, n - 1, direct);
      MarksStep(t, n, direct);
    }
  }

  lemma StepFlags(t: seq<Sym>, k: nat)
    requires k < |Split(t)|
    ensures Split(t)[k].direct <==> Seen(t, Ch('>'), OpenedAt(t, k, |t|), EmittedAt(t, k, |t|))
    ensures Split(t)[k].add <==> Seen(t, Ch(','), OpenedAt(t, k, |t|), EmittedAt(t, k, |t|))
  {
    ScanMarks(t, |t|, true);
    ScanMarks(t, |t|, false);
    assert StepMark(t, |t|, k, true) && StepMark(t, |t|, k, false);
  }

  /**
   * Every step is direct exactly when a `>` lies after the symbol that emitted the step
   * before it and at or before the symbol that emitted it, and adds to the results of the
   * step before exactly when a `,` lies there; so without `>` no step is direct and
   * without `,` none adds.
   */
  lemma SplitFlags(t: seq<Sym>)
    ensures forall k :: 0 <= k < |Split(t)| ==>
      && (Split(t)[k].direct <==> Seen(t, Ch('>'), OpenedAt(t, k, |t|), EmittedAt(t, k, |t|)))
      && (Split(t)[k].add <==> Seen(t, Ch(','), OpenedAt(t, k, |t|), EmittedAt(t, k, |t|)))
    ensures Ch('>') !in t ==> forall k :: 0 <= k < |Split(t)| ==> !Split(t)[k].direct
    ensures Ch(',') !in t ==> forall k :: 0 <= k < |Split(t)| ==> !Split(t)[k].add
  {
    forall k | 0 <= k < |Split(t)|
      ensures Split(t)[k].direct <==> Seen(t, Ch('>'), OpenedAt(t, k, |t|), EmittedAt(t, k, |t|))
      ensures Split(t)[k].add <==> Seen(t, Ch(','), OpenedAt(t, k, |t|), EmittedAt(t, k, |t|))
    {
      StepFlags(t, k);
    }
    if Ch('>') !in t {
      ScanNoDirect(t, |t|);
    }
    if Ch(',') !in t {
      ScanNoAdd(t, |t|);
    }
  }

  /** "a > b": the `>` marks the step after it as direct. */
  lemma SplitDirectExample()
    ensures Split(Lift("a > b")) == [Fragment([Ch('a')], false, false), Fragment([Ch('b')], true, false)]
  {
    var t := Lift("a > b");
    assert t == [Ch('a'), Ch(' '), Ch('>'), Ch(' '), Ch('b')];
    var fa := Fragment([Ch('a')], false, false);
    var s1 := Scan([Ch('a')], false, false, false, []);
    var s2 := Scan([], false, false, false, [fa]);
    var s3 := s2.(direct := true);
    assert Advance(Start, Ch('a')) == s1;
    assert ScanPrefix(t, 1) == s1;
    assert Advance(s1, Ch(' ')) == s1.(eos := true);
    assert [] + [fa] == [fa];
    assert ScanPrefix(t, 2) == s2;
    assert Advance(s2, Ch('>')) == s3;
    assert ScanPrefix(t, 3) == s3;
    assert Advance(s3, Ch(' ')) == s3;
    assert ScanPrefix(t, 4) == s3;
    assert Advance(s3, Ch('b')) == s3.(buffer := [Ch('b')]);
    assert [fa] + [Fragment([Ch('b')], true, false)] == [fa, Fragment([Ch('b')], true, false)];
  }

  /**
   * ",bc": a `,` that finds the buffer empty leaves the end-of-step flag set, so the next
   * character is a step of its own, and it is that step that carries the add flag.
   */
  lemma SplitCommaExample()
    ensures Split(Lift(",bc")) == [Fragment([Ch('b')], false, true), Fragment([Ch('c')], false, false)]
  {
    var t := Lift(",bc");
    assert t == [Ch(','), Ch('b'), Ch('c')];
    var fb := Fragment([Ch('b')], false, true);
    var s1 := Scan([], true, false, true, []);
    var s2 := Scan([], false, false, false, [fb]);
    assert Advance(Start, Ch(',')) == s1;
    assert ScanPrefix(t, 1) == s1;
    assert Advance(s1, Ch('b')) == s1.(buffer := [Ch('b')]);
    assert [] + [fb] == [fb];
    assert ScanPrefix(t, 2) == s2;
    assert Advance(s2, Ch('c')) == s2.(buffer := [Ch('c')]);
    assert [fb] + [Fragment([Ch('c')], false, false)] == [fb, Fragment([Ch('c')], false, false)];
  }

  /** "a,b": the `,` ends the step before it and marks that step as adding the next one's results. */
  lemma SplitAddExample()
    ensures Split(Lift("a,b")) == [Fragment([Ch('a')], false, true), Fragment([Ch('b')], false, false)]
  {
    var t := Lift("a,b");
    assert t == [Ch('a'), Ch(','), Ch('b')];
    var fa := Fragment([Ch('a')], false, true);
    var s1 := Scan([Ch('a')], false, false, false, []);
    var s2 := Scan([], false, false, false, [fa]);
    assert Advance(Start, Ch('a')) == s1;
    assert ScanPrefix(t, 1) == s1;
    assert Advance(s1, Ch(',')) == s1.(add := true, eos := true);
    assert [] + [fa] == [fa];
    assert ScanPrefix(t, 2) == s2;
    assert Advance(s2, Ch('b')) == s2.(buffer := [Ch('b')]);
    assert [fa] + [Fragment([Ch('b')], false, false)] == [fa, Fragment([Ch('b')], false, false)];
  }

  // ---------------------------------------------------------------------------------------
  // trim() on a step
  // ---------------------------------------------------------------------------------------

  predicate IsTrimSym(x: Sym) {
    x.Ch? && IsTrimChar(x.c)
  }

  function TrimLeftSyms(b: seq<Sym>): seq<Sym> {
    if b != [] && IsTrimSym(b[0]) then TrimLeftSyms(b[1..]) else b
  }

  function TrimRightSyms(b: seq<Sym>): seq<Sym> {
    if b != [] && IsTrimSym(b[|b| - 1]) then TrimRightSyms(b[..|b| - 1]) else b
  }

  function TrimSyms(b: seq<Sym>): seq<Sym> {
    TrimRightSyms(TrimLeftSyms(b))
  }

  /** A placeholder's text neither starts nor ends with a character trim() removes. */
  lemma RenderSymEdges(x: Sym)
    ensures RenderSym(x) != []
    ensures !IsTrimSym(x) ==> !IsTrimChar(RenderSym(x)[0]) && !IsTrimChar(RenderSym(x)[|RenderSym(x)| - 1])
  {
    if x.Tok? {
      var d := NatToString(x.i);
      assert RenderSym(x) == "TKS" + d + "TKE";
    }
  }

  lemma {:induction false} TrimLeftRender(b: seq<Sym>)
    ensures TrimLeft(Render(b)) == Render(TrimLeftSyms(b))
  {
    if b != [] {
      RenderSymEdges(b[0]);
      if IsTrimSym(b[0]) {
        TrimLeftRender(b[1..]);
        assert Render(b) == [b[0].c] + Render(b[1..]);
        assert Render(b)[1..] == Render(b[1..]);
      } else {
        assert Render(b)[0] == RenderSym(b[0])[0];
      }
    }
  }

  lemma {:induction false} TrimRightRender(b: seq<Sym>)
    ensures TrimRight(Render(b)) == Render(TrimRightSyms(b))
  {
    if b != [] {
      var init, x := b[..|b| - 1], b[|b| - 1];
      assert b == init + [x];
      RenderAppend(init, [x]);
      assert Render([x]) == RenderSym(x) + Render([]);
      RenderSymEdges(x);
      var r := Render(b);
      if IsTrimSym(x) {
        TrimRightRender(init);
        assert r == Render(init) + [x.c];
        assert r[..|r| - 1] == Render(init);
      } else {
        assert r[|r| - 1] == RenderSym(x)[|RenderSym(x)| - 1];
      }
    }
  }

  /** Trimming the symbols is trim() on the step's text: placeholders are never trimmed away. */
  lemma TrimRender(b: seq<Sym>)
    ensures Trim(Render(b)) == Render(TrimSyms(b))
  {
    TrimLeftRender(b);
    TrimRightRender(TrimLeftSyms(b));
  }

  // ---------------------------------------------------------------------------------------
  // The step record
  // ---------------------------------------------------------------------------------------

  /** One attribute test `[name test "value"]`; test and value are empty for `[name]`. */
  datatype Pred = Pred(attrib: string, test: string, value: string)

  /** `$sel->attrib`: a plain attribute name (possibly empty) or the tests of the expressions. */
  datatype AttribSpec = Accessor(name: string) | Predicates(preds: seq<Pred>)

  /** A suffix's value: `true` for a suffix without parentheses, else the text between them. */
  datatype SuffixVal = Flag | Arg(text: string)

  /** One parsed step. */
  datatype Step = Step(
    element: string, isExpression: bool, isAttribGetter: bool, attrib: AttribSpec,
    suffixes: seq<Entry<SuffixVal>>, direct: bool, add: bool)

  /** The exception thrown for a step the grammar refuses: the step's text and the whole query. */
  datatype ParseError = ParseError(step: string, query: string)

  /** `preg_match('/^@.*$/', $query)`: the query starts with `@` and has no newline except a final one. */
  predicate IsAttribGetter(q: string) {
    |q| > 0 && q[0] == '@' && forall k :: 1 <= k < |q| - 1 ==> q[k] != '\n'
  }

  /** The name, test and value of one part of a multiple expression. */
  function PartPred(part: seq<Sym>): Option<Pred> {
    var u := [Ch('[')] + part + [Ch(']')];
    match SearchExp(u, 0)
    case Some(m) => Some(Pred(Render(m.0), Render(m.1), Render(m.2)))
    case None => None
  }

  /** The parts of `[a][b]...`: the text between the outer brackets, cut at each `][`. */
  function ExpParts(exp: seq<Sym>): (r: seq<seq<Sym>>)
    ensures |r| >= 1
  {
    ExplodeSeq(Substr(exp, 1, |exp| - 2), [Ch(']'), Ch('[')])
  }

  /** The tests of the first `n` parts, skipping parts the expression pattern does not match. */
  function PartsPreds(parts: seq<seq<Sym>>, n: nat): (r: seq<Pred>)
    requires n <= |parts|
    ensures |r| <= n
    ensures forall k :: 0 <= k < |r| ==> r[k].attrib != ""
  {
    if n == 0 then []
    else
      var r := PartsPreds(parts, n - 1);
      match PartPred(parts[n - 1])
      case Some(p) => NameRenders(p, parts[n - 1]); r + [p]
      case None => r
  }

  /** A matched part names an attribute. */
  lemma NameRenders(p: Pred, part: seq<Sym>)
    requires PartPred(part) == Some(p)
    ensures p.attrib != ""
  {
    var m := SearchExp([Ch('[')] + part + [Ch(']')], 0).value;
    assert m.0 != [];
    RenderSymEdges(m.0[0]);
    RenderAppend([m.0[0]], m.0[1..]);
    assert m.0 == [m.0[0]] + m.0[1..];
  }

  /** The label and value of one suffix piece such as `eq(2)` or `first`. */
  function SuffixEntry(piece: seq<Sym>, tokens: seq<char>): Entry<SuffixVal> {
    var open, close := IndexOf(piece, Ch('(')), LastIndexOf(piece, Ch(')'));
    if open.Some? && close.Some? then
      Entry(Render(piece[..open.value]), Arg(Untokenize(Substr(piece, open.value + 1, close.value - open.value - 1), tokens)))
    else Entry(Render(piece), Flag)
  }

  /** array_filter keeps the pieces whose text is truthy. */
  predicate Kept(piece: seq<Sym>) {
    Truthy(Render(piece))
  }

  function EntryOf(tokens: seq<char>): seq<Sym> -> Entry<SuffixVal> {
    piece => SuffixEntry(piece, tokens)
  }

  /** The suffix map after the first `n` pieces; pieces that are falsy text are skipped. */
  function SuffixFold(pieces: seq<seq<Sym>>, n: nat, tokens: seq<char>): seq<Entry<SuffixVal>>
    requires n <= |pieces|
  {
    PutEach(pieces, n, Kept, EntryOf(tokens))
  }

  /** The pieces of the suffix group, cut at each `:`. */
  function SuffixPieces(c: Caps): seq<seq<Sym>> {
    Explode(c.suffix, Ch(':'))
  }

  /** The map the suffix loop builds, empty when the suffix group is falsy. */
  function SuffixBase(c: Caps, tokens: seq<char>): seq<Entry<SuffixVal>> {
    if Truthy(Render(c.suffix)) then SuffixFold(SuffixPieces(c), |SuffixPieces(c)|, tokens) else []
  }

  /** The `eq` alias: a truthy index stands for `:eq(index)` unless the map already has `eq`. */
  function EqAlias(m: seq<Entry<SuffixVal>>, index: seq<Sym>): seq<Entry<SuffixVal>> {
    if Get(m, "eq").None? && Truthy(Render(index)) then Put(m, "eq", Arg(Render(index))) else m
  }

  /** `$sel->suffixes`. */
  function SuffixesOf(c: Caps, tokens: seq<char>): seq<Entry<SuffixVal>> {
    EqAlias(SuffixBase(c, tokens), c.index)
  }

  /** The step record built from a step's captures, as clSelector's constructor does. */
  function StepOf(c: Caps, tokens: seq<char>, query: string, direct: bool, add: bool): Step {
    var getter := IsAttribGetter(query);
    var el := Untokenize(c.element, tokens);
    var element := if !Truthy(el) && !getter then "*" else el;
    var isExp := Truthy(Untokenize(c.attribExp, tokens));
    if Truthy(Render(c.attribExp)) then
      if StrPos(c.attribExp, [Ch(']'), Ch('[')]).Some? then
        var parts := ExpParts(c.attribExp);
        Step(element, isExp, getter, Predicates(PartsPreds(parts, |parts|)), [], direct, add)
      else
        var p := Pred(Untokenize(c.attribExpName, tokens), Render(c.test), Untokenize(c.value, tokens));
        Step(element, isExp, getter, Predicates([p]), SuffixesOf(c, tokens), direct, add)
    else Step(element, isExp, getter, Accessor(Untokenize(c.attrib, tokens)), SuffixesOf(c, tokens), direct, add)
  }

  /** One step of the split query: trimmed, matched, and turned into a record or an error. */
  function BuildStep(f: Fragment, tokens: seq<char>, query: string, direct: bool): Result<Step, ParseError> {
    var sel := TrimSyms(f.raw);
    match Match(sel)
    case None => Failure(ParseError(Render(sel), query))
    case Some(c) => Success(StepOf(c, tokens, query, f.direct || direct, f.add))
  }

  // ---------------------------------------------------------------------------------------
  // What a step record holds
  // ---------------------------------------------------------------------------------------

  /** Piece `j` is kept by array_filter and carries the label `key`. */
  predicate Labelled(pieces: seq<seq<Sym>>, j: nat, key: string, tokens: seq<char>)
    requires j < |pieces|
  {
    Truthy(Render(pieces[j])) && SuffixEntry(pieces[j], tokens).key == key
  }

  /** The last of the first `n` pieces labelled `key`: the one whose value the suffix map keeps. */
  function LastLabelled(pieces: seq<seq<Sym>>, n: nat, key: string, tokens: seq<char>): (r: Option<nat>)
    requires n <= |pieces|
    ensures r.Some? ==> r.value < n && Labelled(pieces, r.value, key, tokens)
    ensures r.Some? ==> forall j :: r.value < j < n ==> !Labelled(pieces, j, key, tokens)
    ensures r.None? ==> forall j :: 0 <= j < n ==> !Labelled(pieces, j, key, tokens)
  {
    LastKeyed(pieces, n, Kept, EntryOf(tokens), key)
  }

  /** The suffix loop never records a label twice. */
  lemma SuffixFoldUnique(pieces: seq<seq<Sym>>, n: nat, tokens: seq<char>)
    requires n <= |pieces|
    ensures UniqueKeys(SuffixFold(pieces, n, tokens))
  {
    PutEachUnique(pieces, n, Kept, EntryOf(tokens));
  }

  /** The value the piece at `r` gives, if any. */
  function ValueAt(pieces: seq<seq<Sym>>, r: Option<nat>, tokens: seq<char>): Option<SuffixVal>
    requires r.Some? ==> r.value < |pieces|
  {
    match r
    case Some(j) => Some(SuffixEntry(pieces[j], tokens).val)
    case None => None
  }

  /** A label maps to the value of the last piece carrying it, and is absent when no piece carries it. */
  lemma SuffixFoldGet(pieces: seq<seq<Sym>>, n: nat, key: string, tokens: seq<char>)
    requires n <= |pieces|
    ensures Get(SuffixFold(pieces, n, tokens), key) == ValueAt(pieces, LastLabelled(pieces, n, key, tokens), tokens)
  {
    PutEachGet(pieces, n, Kept, EntryOf(tokens), key);
  }

  /**
   * The `eq` alias: an `eq` suffix is kept as it is; without one, `eq` is the index exactly
   * when the index is truthy; every other label is untouched and labels stay unique.
   */
  lemma EqAliasGet(m: seq<Entry<SuffixVal>>, index: seq<Sym>)
    requires UniqueKeys(m)
    ensures UniqueKeys(EqAlias(m, index))
    ensures Get(m, "eq").Some? ==> Get(EqAlias(m, index), "eq") == Get(m, "eq")
    ensures Get(m, "eq").None? ==> (Get(EqAlias(m, index), "eq").Some? <==> Truthy(Render(index)))
    ensures Get(EqAlias(m, index), "eq").Some? ==> Get(EqAlias(m, index), "eq").value == Arg(Render(index)) || Get(m, "eq").Some?
    ensures forall k :: k != "eq" ==> Get(EqAlias(m, index), k) == Get(m, k)
  {
    PutSpec(m, "eq", Arg(Render(index)));
  }

  /** `$sel->suffixes` is a map: every label once. */
  lemma SuffixesUnique(c: Caps, tokens: seq<char>)
    ensures UniqueKeys(SuffixesOf(c, tokens))
  {
    var ps := SuffixPieces(c);
    SuffixFoldUnique(ps, |ps|, tokens);
    EqAliasGet(SuffixBase(c, tokens), c.index);
  }

  /** An expression group the grammar allows reads as true before and after untokenize alike. */
  lemma ExpTruth(c: Caps, tokens: seq<char>)
    requires WellFormed(c)
    ensures Truthy(Untokenize(c.attribExp, tokens)) <==> Truthy(Render(c.attribExp))
  {
    var e := c.attribExp;
    if e != [] {
      assert e == [e[0]] + e[1..];
      RenderAppend([e[0]], e[1..]);
      assert Render([e[0]]) == "[" + Render([]);
      var raw := Render(e);
      assert raw[0] == '[';
      assert !IsPrefix("TK", raw);
    }
  }

  /**
   * A step record is flagged direct and add as given, selects `*` when it names no element
   * (unless the query is an attribute getter), is an expression exactly when it holds
   * attribute tests.
   */
  lemma StepOfSpec(c: Caps, tokens: seq<char>, query: string, direct: bool, add: bool)
    requires WellFormed(c)
    ensures
      var s := StepOf(c, tokens, query, direct, add);
      && s.direct == direct
      && s.add == add
      && s.isAttribGetter == IsAttribGetter(query)
      && (Truthy(s.element) || IsAttribGetter(query))
      && (s.isExpression <==> s.attrib.Predicates?)
  {
    ExpTruth(c, tokens);
  }

  /** A step record's suffix map has no repeated labels. */
  lemma StepSuffixesUnique(c: Caps, tokens: seq<char>, query: string, direct: bool, add: bool)
    ensures UniqueKeys(StepOf(c, tokens, query, direct, add).suffixes)
  {
    SuffixesUnique(c, tokens);
  }

  /**
   * A step the grammar refuses is reported with its trimmed text and the whole query; an
   * accepted one is flagged direct when `>` preceded it or the caller asked for direct
   * children, and flagged add after `,`.
   */
  lemma BuildStepSpec(f: Fragment, tokens: seq<char>, query: string, direct: bool)
    ensures BuildStep(f, tokens, query, direct).Failure? <==> Match(TrimSyms(f.raw)).None?
    ensures BuildStep(f, tokens, query, direct).Failure? ==>
      BuildStep(f, tokens, query, direct).error == ParseError(Trim(Render(f.raw)), query)
    ensures BuildStep(f, tokens, query, direct).Success? ==>
      BuildStep(f, tokens, query, direct).value == StepOf(Match(TrimSyms(f.raw)).value, tokens, query, f.direct || direct, f.add)
      && WellFormed(Match(TrimSyms(f.raw)).value)
  {
    TrimRender(f.raw);
    MatchWellFormed(TrimSyms(f.raw));
  }

  /** The values in order, or the first error: a loop that stops at the first exception. */
  function Collect<T, E>(rs: seq<Result<T, E>>): Result<seq<T>, E> {
    if rs == [] then Success([])
    else
      match Collect(rs[..|rs| - 1])
      case Failure(e) => Failure(e)
      case Success(vs) =>
        match rs[|rs| - 1]
        case Failure(e) => Failure(e)
        case Success(v) => Success(vs + [v])
  }

  /** `f` applied to each item, in order. */
  function MapEach<A, B>(f: A -> B, xs: seq<A>): (r: seq<B>)
    ensures |r| == |xs| && forall k :: 0 <= k < |xs| ==> r[k] == f(xs[k])
  {
    seq(|xs|, k requires 0 <= k < |xs| => f(xs[k]))
  }

  lemma MapEachAppend<A, B>(f: A -> B, xs: seq<A>, ys: seq<A>)
    ensures MapEach(f, xs + ys) == MapEach(f, xs) + MapEach(f, ys)
  {
    var l, r := MapEach(f, xs + ys), MapEach(f, xs) + MapEach(f, ys);
    forall k | 0 <= k < |l| ensures l[k] == r[k] {
      if k >= |xs| {
        assert (xs + ys)[k] == ys[k - |xs|];
      }
    }
  }

  /** Each step of the split query built on its own. */
  function BuildEach(fs: seq<Fragment>, tokens: seq<char>, query: string, direct: bool): (r: seq<Result<Step, ParseError>>)
    ensures |r| == |fs| && forall k :: 0 <= k < |fs| ==> r[k] == BuildStep(fs[k], tokens, query, direct)
  {
    MapEach(f => BuildStep(f, tokens, query, direct), fs)
  }

  /** The steps of a tokenized query: `$this->selectors`, or the constructor's exception. */
  function CompileSteps(query: string, t: seq<Sym>, tokens: seq<char>, direct: bool): Result<seq<Step>, ParseError> {
    Collect(BuildEach(Split(t), tokens, query, direct))
  }

  lemma CollectSnoc<T, E>(rs: seq<Result<T, E>>, x: Result<T, E>)
    ensures Collect(rs + [x]) ==
      match Collect(rs)
      case Failure(e) => Failure(e)
      case Success(vs) => (match x case Failure(e) => Failure(e) case Success(v) => Success(vs + [v]))
  {
    assert (rs + [x])[..|rs|] == rs;
  }

  /** Once an error has occurred, what comes after it changes nothing. */
  lemma {:induction false} CollectStops<T, E>(rs: seq<Result<T, E>>, more: seq<Result<T, E>>)
    requires Collect(rs).Failure?
    ensures Collect(rs + more) == Collect(rs)
    decreases |more|
  {
    if more != [] {
      var init := more[..|more| - 1];
      CollectStops(rs, init);
      assert rs + more == (rs + init) + [more[|more| - 1]];
      CollectSnoc(rs + init, more[|more| - 1]);
    } else {
      assert rs + more == rs;
    }
  }

  /** Collecting succeeds exactly when every item does, and then yields their values in order. */
  lemma {:induction false} CollectAll<T, E>(rs: seq<Result<T, E>>)
    ensures Collect(rs).Success? <==> forall k :: 0 <= k < |rs| ==> rs[k].Success?
    ensures Collect(rs).Success? ==> |Collect(rs).value| == |rs| && forall k :: 0 <= k < |rs| ==> Collect(rs).value[k] == rs[k].value
  {
    if rs != [] {
      var init := rs[..|rs| - 1];
      CollectAll(init);
      assert forall k :: 0 <= k < |init| ==> init[k] == rs[k];
    }
  }

  /**
   * The compiled selector has one step per fragment of the split query, carrying that
   * fragment's direct and add flags (direct also when the caller asks for it); compilation
   * fails exactly when some fragment does not match the step grammar.
   */
  lemma CompiledSteps(query: string, t: seq<Sym>, tokens: seq<char>, direct: bool)
    ensures CompileSteps(query, t, tokens, direct).Failure? <==>
      exists k :: 0 <= k < |Split(t)| && Match(TrimSyms(Split(t)[k].raw)).None?
    ensures CompileSteps(query, t, tokens, direct).Success? ==>
      var steps := CompileSteps(query, t, tokens, direct).value;
      && |steps| == |Split(t)|
      && forall k :: 0 <= k < |steps| ==>
        && steps[k].direct == (Split(t)[k].direct || direct)
        && steps[k].add == Split(t)[k].add
        && steps[k].isAttribGetter == IsAttribGetter(query)
        && (steps[k].isExpression <==> steps[k].attrib.Predicates?)
  {
    var fs := Split(t);
    var rs := BuildEach(fs, tokens, query, direct);
    CollectAll(rs);
    forall k | 0 <= k < |fs|
      ensures rs[k] == BuildStep(fs[k], tokens, query, direct)
      ensures rs[k].Failure? <==> Match(TrimSyms(fs[k].raw)).None?
      ensures rs[k].Success? ==>
        rs[k].value.direct == (fs[k].direct || direct) && rs[k].value.add == fs[k].add
        && rs[k].value.isAttribGetter == IsAttribGetter(query)
        && (rs[k].value.isExpression <==> rs[k].value.attrib.Predicates?)
    {
      BuildStepSpec(fs[k], tokens, query, direct);
      if rs[k].Success? {
        StepOfSpec(Match(TrimSyms(fs[k].raw)).value, tokens, query, fs[k].direct || direct, fs[k].add);
      }
    }
  }

  /** A failed collection reports the first error. */
  lemma {:induction false} CollectFirstError<T, E>(rs: seq<Result<T, E>>)
    requires Collect(rs).Failure?
    ensures exists k :: 0 <= k < |rs| && rs[k] == Failure(Collect(rs).error) && forall j :: 0 <= j < k ==> rs[j].Success?
  {
    var init := rs[..|rs| - 1];
    if Collect(init).Failure? {
      CollectFirstError(init);
      var k :| 0 <= k < |init| && init[k] == Failure(Collect(init).error) && forall j :: 0 <= j < k ==> init[j].Success?;
      assert Collect(rs) == Collect(init);
      assert rs[k] == init[k];
      assert forall j :: 0 <= j < k ==> rs[j] == init[j];
    } else {
      CollectAll(init);
      var k := |rs| - 1;
      assert rs[k] == Failure(Collect(rs).error);
      assert forall j :: 0 <= j < k ==> rs[j] == init[j];
    }
  }

  lemma BuildEachAppend(fs: seq<Fragment>, gs: seq<Fragment>, tokens: seq<char>, query: string, direct: bool)
    ensures BuildEach(fs + gs, tokens, query, direct) == BuildEach(fs, tokens, query, direct) + BuildEach(gs, tokens, query, direct)
  {
    MapEachAppend(f => BuildStep(f, tokens, query, direct), fs, gs);
  }

  lemma EmitGrows(st: Scan, last: bool)
    ensures IsPrefix(st.frags, Emit(st, last).frags)
  {
    var e := Emit(st, last).frags;
    assert e[..|st.frags|] == st.frags;
  }

  /** A step that fails to parse ends the constructor with its error. */
  lemma StopsAtFailure(t: seq<Sym>, fs: seq<Fragment>, tokens: seq<char>, query: string, direct: bool)
    requires IsPrefix(fs, Split(t))
    requires Collect(BuildEach(fs, tokens, query, direct)).Failure?
    ensures CompileSteps(query, t, tokens, direct) == Collect(BuildEach(fs, tokens, query, direct))
  {
    var more := Split(t)[|fs|..];
    assert Split(t) == fs + more;
    BuildEachAppend(fs, more, tokens, query, direct);
    CollectStops(BuildEach(fs, tokens, query, direct), BuildEach(more, tokens, query, direct));
  }

  /** Steps once emitted stay: the steps after `n` symbols begin the steps after `m >= n` symbols. */
  lemma {:induction false} ScanGrows(t: seq<Sym>, n: nat, m: nat)
    requires n <= m <= |t|
    ensures IsPrefix(ScanPrefix(t, n).frags, ScanPrefix(t, m).frags)
    decreases m - n
  {
    if n < m {
      ScanGrows(t, n, m - 1);
      ScanStep(t, m);
      PrefixTrans(ScanPrefix(t, n).frags, ScanPrefix(t, m - 1).frags, ScanPrefix(t, m).frags);
    }
  }

  /** An error after `n` symbols is the constructor's error: the later steps are never built. */
  lemma FailureEnds(t: seq<Sym>, n: nat, fs: seq<Fragment>, tokens: seq<char>, query: string, direct: bool)
    requires n <= |t|
    requires IsPrefix(fs, ScanPrefix(t, n).frags)
    requires Collect(BuildEach(fs, tokens, query, direct)).Failure?
    ensures CompileSteps(query, t, tokens, direct) == Collect(BuildEach(fs, tokens, query, direct))
  {
    ScanGrows(t, n, |t|);
    var a, b := ScanPrefix(t, n).frags, Split(t);
    assert b[..|fs|] == b[..|a|][..|fs|];
    StopsAtFailure(t, fs, tokens, query, direct);
  }

  // ---------------------------------------------------------------------------------------
  // The constructor's loops
  // ---------------------------------------------------------------------------------------

  /** The suffix loop: each non-empty piece sets its label to its value. */
  method FoldSuffixes(pieces: seq<seq<Sym>>, tokens: seq<char>) returns (m: seq<Entry<SuffixVal>>)
    ensures m == SuffixFold(pieces, |pieces|, tokens)
  {
    m := [];
    for n := 0 to |pieces|
      invariant m == SuffixFold(pieces, n, tokens)
    {
      if Truthy(Render(pieces[n])) {
        var x := SuffixEntry(pieces[n], tokens);
        m := Put(m, x.key, x.val);
      }
    }
  }

  /** `$sel->suffixes`: the suffix loop when the group is truthy, then the `eq` alias. */
  method BuildSuffixes(c: Caps, tokens: seq<char>) returns (m: seq<Entry<SuffixVal>>)
    ensures m == SuffixesOf(c, tokens)
  {
    m := [];
    if Truthy(Render(c.suffix)) {
      m := FoldSuffixes(SuffixPieces(c), tokens);
    }
    if Get(m, "eq").None? && Truthy(Render(c.index)) {
      m := Put(m, "eq", Arg(Render(c.index)));
    }
  }

  /** The loop over the parts of a multiple expression: each part that matches adds its test. */
  method BuildPreds(exp: seq<Sym>) returns (ps: seq<Pred>)
    ensures ps == PartsPreds(ExpParts(exp), |ExpParts(exp)|)
  {
    var parts := ExpParts(exp);
    ps := [];
    for n := 0 to |parts|
      invariant ps == PartsPreds(parts, n)
    {
      var p := PartPred(parts[n]);
      if p.Some? {
        ps := ps + [p.value];
      }
    }
  }

  /** The body of the constructor's emission branch: trim, match, and build the record. */
  method MakeStep(f: Fragment, tokens: seq<char>, query: string, direct: bool) returns (r: Result<Step, ParseError>)
    ensures r == BuildStep(f, tokens, query, direct)
  {
    var sel := TrimSyms(f.raw);
    var m := Match(sel);
    if m.None? {
      return Failure(ParseError(Render(sel), query));
    }
    var c := m.value;
    var getter := IsAttribGetter(query);
    var element := Untokenize(c.element, tokens);
    if !Truthy(element) && !getter {
      element := "*";
    }
    var isExp := Truthy(Untokenize(c.attribExp, tokens));
    var attrib: AttribSpec;
    var suffixes: seq<Entry<SuffixVal>> := [];
    if Truthy(Render(c.attribExp)) {
      if StrPos(c.attribExp, [Ch(']'), Ch('[')]).Some? {
        var ps := BuildPreds(c.attribExp);
        attrib := Predicates(ps);
      } else {
        attrib := Predicates([Pred(Untokenize(c.attribExpName, tokens), Render(c.test), Untokenize(c.value, tokens))]);
        suffixes := BuildSuffixes(c, tokens);
      }
    } else {
      attrib := Accessor(Untokenize(c.attrib, tokens));
      suffixes := BuildSuffixes(c, tokens);
    }
    r := Success(Step(element, isExp, getter, attrib, suffixes, f.direct || direct, f.add));
  }

  /** The emission branch: build the buffered step and append it, or stop with its error. */
  method EmitStep(f: Fragment, ghost frags: seq<Fragment>, out: seq<Step>, tokens: seq<char>, query: string, direct: bool)
    returns (out': seq<Step>, err: Option<ParseError>)
    requires Collect(BuildEach(frags, tokens, query, direct)) == Success(out)
    ensures err.None? ==> Collect(BuildEach(frags + [f], tokens, query, direct)) == Success(out')
    ensures err.Some? ==> Collect(BuildEach(frags + [f], tokens, query, direct)) == Failure(err.value)
  {
    var step := MakeStep(f, tokens, query, direct);
    assert BuildEach(frags + [f], tokens, query, direct) == BuildEach(frags, tokens, query, direct) + [step];
    CollectSnoc(BuildEach(frags, tokens, query, direct), step);
    if step.Failure? {
      return out, Some(step.error);
    }
    return out + [step.value], None;
  }

  /** The first half of an iteration: what the symbol `x` does to the variables. */
  method Absorb(x: Sym, buffer: seq<Sym>, eos: bool, ddf: bool, add: bool, ghost frags: seq<Fragment>,
                out: seq<Step>, tokens: seq<char>, query: string, direct: bool)
    returns (buffer': seq<Sym>, eos': bool, ddf': bool, add': bool, ghost frags': seq<Fragment>,
             out': seq<Step>, err: Option<ParseError>)
    requires Collect(BuildEach(frags, tokens, query, direct)) == Success(out)
    ensures frags' == Advance(Scan(buffer, eos, ddf, add, frags), x).frags
    ensures err.None? ==> Scan(buffer', eos', ddf', add', frags') == Advance(Scan(buffer, eos, ddf, add, frags), x)
    ensures err.None? ==> Collect(BuildEach(frags', tokens, query, direct)) == Success(out')
    ensures err.Some? ==> Collect(BuildEach(frags', tokens, query, direct)) == Failure(err.value)
  {
    buffer', eos', ddf', add', frags', out', err := buffer, eos, ddf, add, frags, out, None;
    if x == Ch('>') {
      ddf' := true;
    } else if x == Ch(',') {
      add', eos' := true, true;
    } else if IsSeparator(x) {
      eos' := buffer != [];
    } else if x.Tok? && eos && buffer == [] {
      // the placeholder's leading `T` is a step of its own
      var head := Fragment([Ch('T')], ddf, add);
      out', err := EmitStep(head, frags, out, tokens, query, direct);
      frags' := frags + [head];
      buffer', eos', ddf', add' := Lift(RenderSym(x)[1..]), false, false, false;
    } else {
      buffer' := buffer + [x];
    }
  }

  /** The second half of an iteration: emit the buffer at the end of a step or of the query. */
  method Flush(eoq: bool, buffer: seq<Sym>, eos: bool, ddf: bool, add: bool, ghost frags: seq<Fragment>,
               out: seq<Step>, tokens: seq<char>, query: string, direct: bool)
    returns (buffer': seq<Sym>, eos': bool, ddf': bool, add': bool, ghost frags': seq<Fragment>,
             out': seq<Step>, err: Option<ParseError>)
    requires Collect(BuildEach(frags, tokens, query, direct)) == Success(out)
    ensures frags' == Emit(Scan(buffer, eos, ddf, add, frags), eoq).frags
    ensures err.None? ==> Scan(buffer', eos', ddf', add', frags') == Emit(Scan(buffer, eos, ddf, add, frags), eoq)
    ensures err.None? ==> Collect(BuildEach(frags', tokens, query, direct)) == Success(out')
    ensures err.Some? ==> Collect(BuildEach(frags', tokens, query, direct)) == Failure(err.value)
  {
    buffer', eos', ddf', add', frags', out', err := buffer, eos, ddf, add, frags, out, None;
    if buffer != [] && (eoq || eos) {
      var f := Fragment(buffer, ddf, add);
      out', err := EmitStep(f, frags, out, tokens, query, direct);
      frags' := frags + [f];
      buffer', eos', ddf', add' := [], false, false, false;
    }
  }

  /** One iteration of the constructor's loop, on the symbol `x`; `eoq` says it is the last one. */
  method Consume(x: Sym, eoq: bool, buffer: seq<Sym>, eos: bool, ddf: bool, add: bool, ghost frags: seq<Fragment>,
                 out: seq<Step>, tokens: seq<char>, query: string, direct: bool)
    returns (buffer': seq<Sym>, eos': bool, ddf': bool, add': bool, ghost frags': seq<Fragment>,
             out': seq<Step>, err: Option<ParseError>)
    requires Collect(BuildEach(frags, tokens, query, direct)) == Success(out)
    ensures IsPrefix(frags', Feed(Scan(buffer, eos, ddf, add, frags), x, eoq).frags)
    ensures err.None? ==> Scan(buffer', eos', ddf', add', frags') == Feed(Scan(buffer, eos, ddf, add, frags), x, eoq)
    ensures err.None? ==> Collect(BuildEach(frags', tokens, query, direct)) == Success(out')
    ensures err.Some? ==> Collect(BuildEach(frags', tokens, query, direct)) == Failure(err.value)
  {
    ghost var before := Scan(buffer, eos, ddf, add, frags);
    buffer', eos', ddf', add', frags', out', err := Absorb(x, buffer, eos, ddf, add, frags, out, tokens, query, direct);
    if err.None? {
      buffer', eos', ddf', add', frags', out', err := Flush(eoq, buffer', eos', ddf', add', frags', out', tokens, query, direct);
      PrefixOfItself(frags');
    } else {
      EmitGrows(Advance(before, x), eoq);
    }
  }

  lemma PrefixOfItself<T>(s: seq<T>)
    ensures IsPrefix(s, s)
  {
    assert s[..|s|] == s;
  }

  /** The constructor's loop over the tokenized query, emitting a step whenever one ends. */
  method SplitAndBuild(t: seq<Sym>, tokens: seq<char>, query: string, direct: bool) returns (r: Result<seq<Step>, ParseError>)
    ensures r == CompileSteps(query, t, tokens, direct)
  {
    var buffer: seq<Sym> := [];
    var eos, ddf, add := false, false, false;
    var out: seq<Step> := [];
    ghost var frags: seq<Fragment> := [];
    for c := 0 to |t|
      invariant Scan(buffer, eos, ddf, add, frags) == ScanPrefix(t, c)
      invariant Collect(BuildEach(frags, tokens, query, direct)) == Success(out)
    {
      var err: Option<ParseError>;
      assert ScanPrefix(t, c + 1) == Feed(ScanPrefix(t, c), t[c], c == |t| - 1);
      buffer, eos, ddf, add, frags, out, err := Consume(t[c], c == |t| - 1, buffer, eos, ddf, add, frags, out, tokens, query, direct);
      if err.Some? {
        FailureEnds(t, c + 1, frags, tokens, query, direct);
        return Failure(err.value);
      }
    }
    assert frags == Split(t);
    r := Success(out);
  }

  /** clSelector's constructor: tokenize the query, then split it into steps and build each. */
  method Compile(query: string, direct: bool) returns (r: Result<seq<Step>, ParseError>, t: seq<Sym>, tokens: seq<char>)
    ensures Tokenized(query, t, tokens)
    ensures r == CompileSteps(query, t, tokens, direct)
  {
    t, tokens := Tokenize(query);
    r := SplitAndBuild(t, tokens, query, direct);
  }

  // ---------------------------------------------------------------------------------------
  // The selector object: read-only steps and a cursor
  // ---------------------------------------------------------------------------------------

  /** A constructed clSelector: its steps cannot be changed, only the cursor `i` moves. */
  class Selector {
    const query: string
    const steps: seq<Step>
    const tokens: seq<char>
    var i: nat

    constructor (query: string, steps: seq<Step>, tokens: seq<char>)
      ensures this.query == query && this.steps == steps && this.tokens == tokens && i == 0
    {
      this.query, this.steps, this.tokens := query, steps, tokens;
      i := 0;
    }

    /** `valid()`: the cursor is on a step. */
    predicate Valid()
      reads this
    {
      i < |steps|
    }

    /** `current()`: the step under the cursor. */
    function Current(): (s: Step)
      reads this
      requires Valid()
      ensures s in steps
    {
      steps[i]
    }

    /** `has_suffix($name)`: the value of that suffix in the current step, if it has one. */
    function HasSuffix(name: string): (r: Option<SuffixVal>)
      reads this
      requires Valid()
      ensures r.Some? <==> exists a :: 0 <= a < |steps[i].suffixes| && steps[i].suffixes[a].key == name
      ensures r.Some? ==> exists a :: 0 <= a < |steps[i].suffixes| && steps[i].suffixes[a] == Entry(name, r.value)
    {
      GetSome(steps[i].suffixes, name);
      Get(steps[i].suffixes, name)
    }

    /** `offsetGet($k)`: the step at position `k`, if there is one. */
    function At(k: int): (r: Option<Step>)
      ensures r.Some? <==> 0 <= k < |steps|
      ensures r.Some? ==> r.value == steps[k]
    {
      if 0 <= k < |steps| then Some(steps[k]) else None
    }

    /** `next()`. */
    method Next()
      modifies this
      ensures i == old(i) + 1
    {
      i := i + 1;
    }

    /** `rewind()`. */
    method Rewind()
      modifies this
      ensures i == 0
    {
      i := 0;
    }
  }

  /** `new clSelector($query, $direct)`: a selector over the query's steps, or the parse error it throws. */
  method NewSelector(query: string, direct: bool) returns (r: Result<Selector, ParseError>, ghost t: seq<Sym>, ghost tokens: seq<char>)
    ensures Tokenized(query, t, tokens)
    ensures r.Failure? ==> CompileSteps(query, t, tokens, direct) == Failure(r.error)
    ensures r.Success? ==> CompileSteps(query, t, tokens, direct) == Success(r.value.steps)
    ensures r.Success? ==> fresh(r.value) && r.value.i == 0 && r.value.query == query && r.value.tokens == tokens
  {
    var steps: Result<seq<Step>, ParseError>;
    var t', tokens' := [], [];
    steps, t', tokens' := Compile(query, direct);
    t, tokens := t', tokens';
    if steps.Failure? {
      return Failure(steps.error), t, tokens;
    }
    var sel := new Selector(query, steps.value, tokens');
    r := Success(sel);
  }
}
