/** An independent reference for the tokenizer, a stack of unclosed brackets, and what the token
    ranges look like: ordered, inside the input, nested or disjoint. */
module JsmnNesting {
  import opened Bits
  import opened JsmnSpec

  // ---- The reference: an explicit stack ---------------------------------------------------------

  /** An unclosed bracket and where it opened. */
  datatype Bracket = Bracket(kind: Kind, at: int)

  datatype Scanner = At(pos: nat, stack: seq<Bracket>) | Halt(error: Error)

  /** One lexeme: push an opening bracket, pop a matching closing one, skip everything else. */
  function Advance(js: seq<byte>, p: nat, stack: seq<Bracket>): (r: Scanner)
    requires !AtEnd(js, p)
    ensures r.At? ==> p < r.pos <= |js|
  {
    var c := js[p];
    if c == 0x7B then At(p + 1, stack + [Bracket(Object, p)])
    else if c == 0x5B then At(p + 1, stack + [Bracket(Array, p)])
    else if c == 0x7D || c == 0x5D then
      if stack == [] || stack[|stack| - 1].kind != (if c == 0x7D then Object else Array) then Halt(Inval)
      else At(p + 1, stack[..|stack| - 1])
    else if c == 0x22 then
      var r := ScanString(js, p + 1);
      if r.Found? then At(r.end + 1, stack) else Halt(r.error)
    else if IsBlank(c) || c == 0x3A || c == 0x2C then At(p + 1, stack)
    else
      var r := ScanPrimitive(js, p);
      if r.Found? then At(r.end, stack) else Halt(r.error)
  }

  datatype Verdict = Balanced | Unbalanced(error: Error)

  /** Whether the rest of the input closes exactly the brackets on the stack. */
  function Judge(js: seq<byte>, p: nat, stack: seq<Bracket>): Verdict
    decreases |js| - p
  {
    if AtEnd(js, p) then if stack == [] then Balanced else Unbalanced(Part)
    else
      match Advance(js, p, stack)
      case Halt(e) => Unbalanced(e)
      case At(q, s) => Judge(js, q, s)
  }

  // ---- The stack hidden in the token array ------------------------------------------------------

  /** The open tokens, in index order. */
  function Opens(toks: seq<Token>): seq<Bracket> {
    if toks == [] then []
    else
      var last := toks[|toks| - 1];
      Opens(toks[..|toks| - 1]) + if IsOpen(last) then [Bracket(last.kind, last.start)] else []
  }

  lemma OpensAppend(toks: seq<Token>, t: Token)
    ensures Opens(toks + [t]) == Opens(toks) + if IsOpen(t) then [Bracket(t.kind, t.start)] else []
  {
    assert (toks + [t])[..|toks|] == toks;
  }

  lemma {:induction false} OpensGrown(toks: seq<Token>, super: int)
    requires -1 <= super < |toks|
    ensures Opens(Grown(toks, super)) == Opens(toks)
    decreases |toks|
  {
    if super != -1 {
      var n := |toks| - 1;
      assert Grown(toks, super)[..n] == Grown(toks[..n], if super < n then super else -1);
      OpensGrown(toks[..n], if super < n then super else -1);
    }
  }

  lemma {:induction false} LastOpenPrefix(toks: seq<Token>, n: nat)
    requires n <= |toks|
    ensures LastOpen(toks, n) == LastOpen(toks[..n], n)
    decreases n
  {
    if n > 0 {
      LastOpenPrefix(toks, n - 1);
      LastOpenPrefix(toks[..n], n - 1);
      assert toks[..n][..n - 1] == toks[..n - 1];
    }
  }

  /** Scanning the array backwards for an open token finds the top of the stack. */
  lemma {:induction false} TopOfStack(toks: seq<Token>)
    ensures var i := LastOpen(toks, |toks|);
            var s := Opens(toks);
            (i == -1 <==> s == []) &&
            (i >= 0 ==> s[|s| - 1] == Bracket(toks[i].kind, toks[i].start) && s[..|s| - 1] == Opens(toks[..i]))
    decreases |toks|
  {
    if toks != [] {
      var n := |toks| - 1;
      TopOfStack(toks[..n]);
      LastOpenPrefix(toks, n);
      var i := LastOpen(toks, |toks|);
      if i >= 0 {
        assert toks[..n][..i] == toks[..i];
      }
    }
  }

  /** Only open tokens matter, so tokens after the last open one may be dropped. */
  lemma {:induction false} OpensUpTo(toks: seq<Token>, i: nat)
    requires i <= |toks| && forall k | i <= k < |toks| :: !IsOpen(toks[k])
    ensures Opens(toks) == Opens(toks[..i])
    decreases |toks|
  {
    if i < |toks| {
      var n := |toks| - 1;
      OpensUpTo(toks[..n], i);
      assert toks[..n][..i] == toks[..i];
    } else {
      assert toks[..i] == toks;
    }
  }

  /** Closing the last open token pops the stack. */
  lemma ClosePops(toks: seq<Token>, end: nat)
    requires LastOpen(toks, |toks|) >= 0
    ensures var i := LastOpen(toks, |toks|);
            var s := Opens(toks);
            s != [] && Opens(toks[i := toks[i].(end := end)]) == s[..|s| - 1]
  {
    TopOfStack(toks);
    var i := LastOpen(toks, |toks|);
    var closed := toks[i := toks[i].(end := end)];
    OpensUpTo(closed, i);
    assert closed[..i] == toks[..i];
  }

  /** The tokenizer ran out of tokens, or stands where the reference does with its stack as open tokens. */
  predicate Agree(r: Outcome, s: Scanner) {
    match r
    case Next(st) => s == At(st.pos, Opens(st.toks))
    case Fail(e) => e == NoMem || s == Halt(e)
  }

  lemma OpenPushes(st: State, kind: Kind, cap: nat)
    requires Valid(st) && IsBracket(kind)
    ensures Agree(OpenBracket(st, kind, cap), At(st.pos + 1, Opens(st.toks) + [Bracket(kind, st.pos)]))
  {
    OpensGrown(st.toks, st.super);
    OpensAppend(Grown(st.toks, st.super), Token(kind, st.pos, -1, 0));
  }

  lemma CloseMatches(st: State, kind: Kind)
    requires Valid(st)
    ensures var stack := Opens(st.toks);
            Agree(CloseBracket(st, kind),
                  if stack == [] || stack[|stack| - 1].kind != kind then Halt(Inval) else At(st.pos + 1, stack[..|stack| - 1]))
  {
    TopOfStack(st.toks);
    if LastOpen(st.toks, |st.toks|) >= 0 {
      ClosePops(st.toks, st.pos + 1);
    }
  }

  lemma LeafAgrees(st: State, kind: Kind, start: nat, next: nat, r: Scan, cap: nat)
    requires Valid(st)
    ensures Agree(Leaf(st, kind, start, next, r, cap), if r.Found? then At(next, Opens(st.toks)) else Halt(r.error))
  {
    LeafKeepsStack(st, kind, start, r, cap);
  }

  /** Apart from running out of tokens, a step of the tokenizer is a step of the reference. */
  lemma StepAdvancesStack(js: seq<byte>, st: State, cap: nat)
    requires Valid(st) && !AtEnd(js, st.pos)
    ensures Agree(Step(js, st, cap), Advance(js, st.pos, Opens(st.toks)))
  {
    var c := js[st.pos];
    if c == 0x7B {
      OpenPushes(st, Object, cap);
    } else if c == 0x5B {
      OpenPushes(st, Array, cap);
    } else if c == 0x7D {
      CloseMatches(st, Object);
    } else if c == 0x5D {
      CloseMatches(st, Array);
    } else if c == 0x22 {
      var r := ScanString(js, st.pos + 1);
      LeafAgrees(st, String, st.pos + 1, if r.Found? then r.end + 1 else 0, r, cap);
    } else if !IsBlank(c) && c != 0x3A && c != 0x2C {
      var r := ScanPrimitive(js, st.pos);
      LeafAgrees(st, Primitive, st.pos, if r.Found? then r.end else 0, r, cap);
    }
  }

  lemma LeafKeepsStack(st: State, kind: Kind, start: nat, r: Scan, cap: nat)
    requires Valid(st)
    ensures var s := Leaf(st, kind, start, if r.Found? then r.end else 0, r, cap);
            s.Next? ==> Opens(s.st.toks) == Opens(st.toks)
  {
    if r.Found? {
      var t := Token(kind, start, r.end, 0);
      OpensAppend(st.toks, t);
      OpensGrown(st.toks + [t], st.super);
    }
  }

  // ---- At every loop head ---------------------------------------------------------------------------

  /** The tokenizer after n iterations of its loop. */
  function After(js: seq<byte>, cap: nat, n: nat): (r: Outcome)
    ensures r.Next? ==> Valid(r.st)
  {
    if n == 0 then Next(Init)
    else
      match After(js, cap, n - 1)
      case Fail(e) => Fail(e)
      case Next(st) => if AtEnd(js, st.pos) then Next(st) else (StepAdvances(js, st, cap); Step(js, st, cap))
  }

  /** The reference after n lexemes. */
  function ScannerAfter(js: seq<byte>, n: nat): Scanner {
    if n == 0 then At(0, [])
    else
      match ScannerAfter(js, n - 1)
      case Halt(e) => Halt(e)
      case At(p, s) => if AtEnd(js, p) then At(p, s) else Advance(js, p, s)
  }

  /** At every loop head of every parse the open tokens, in index order, are the unclosed brackets. */
  lemma {:induction false} OpenTokensAreTheStack(js: seq<byte>, cap: nat, n: nat)
    ensures Agree(After(js, cap, n), ScannerAfter(js, n))
  {
    if n > 0 {
      OpenTokensAreTheStack(js, cap, n - 1);
      var r := After(js, cap, n - 1);
      if r.Next? && !AtEnd(js, r.st.pos) {
        StepAdvancesStack(js, r.st, cap);
        assert ScannerAfter(js, n) == Advance(js, r.st.pos, Opens(r.st.toks));
        assert After(js, cap, n) == Step(js, r.st, cap);
      }
    }
  }

  // ---- Success -----------------------------------------------------------------------------------

  /** Running out of tokens aside, a parse ends as the reference says. */
  lemma {:induction false} RunIsJudged(js: seq<byte>, st: State, cap: nat)
    requires Valid(st)
    ensures match Run(js, st, cap)
            case Ok(_) => Judge(js, st.pos, Opens(st.toks)) == Balanced
            case Error(e, _) => e == NoMem || Judge(js, st.pos, Opens(st.toks)) == Unbalanced(e)
    decreases |js| - st.pos
  {
    if AtEnd(js, st.pos) {
      TopOfStack(st.toks);
    } else {
      StepAdvances(js, st, cap);
      StepAdvancesStack(js, st, cap);
      var r := Step(js, st, cap);
      if r.Next? {
        RunIsJudged(js, r.st, cap);
      }
    }
  }

  /** Input the reference accepts, the sizing pass counts. */
  lemma {:induction false} BalancedIsCounted(js: seq<byte>, p: nat, stack: seq<Bracket>, count: nat)
    requires Judge(js, p, stack) == Balanced
    ensures CountRun(js, p, count).Counted?
    decreases |js| - p
  {
    if !AtEnd(js, p) {
      var r := Advance(js, p, stack);
      assert CountStep(js, p, count).More? && CountStep(js, p, count).pos == r.pos;
      BalancedIsCounted(js, r.pos, r.stack, CountStep(js, p, count).count);
    }
  }

  /** A parse from the start succeeds exactly when the brackets match, every string and primitive is
      well formed, and there are as many tokens as the sizing pass counts. */
  lemma SucceedsExactlyWhen(js: seq<byte>, cap: nat)
    ensures Run(js, Init, cap).Ok? <==>
            Judge(js, 0, []) == Balanced && CountRun(js, 0, 0).Counted? && CountRun(js, 0, 0).count <= cap
  {
    RunIsJudged(js, Init, cap);
    if Run(js, Init, cap).Ok? {
      SizingAgrees(js, Init, cap);
      RunFits(js, Init, cap);
    } else if CountRun(js, 0, 0).Counted? && CountRun(js, 0, 0).count <= cap {
      SizingSuffices(js, Init, cap);
    }
  }

  lemma {:induction false} RunFits(js: seq<byte>, st: State, cap: nat)
    requires Valid(st) && |st.toks| <= cap
    ensures |Run(js, st, cap).st.toks| <= cap
    decreases |js| - st.pos
  {
    if !AtEnd(js, st.pos) {
      StepAdvances(js, st, cap);
      var r := Step(js, st, cap);
      if r.Next? {
        RunFits(js, r.st, cap);
      }
    }
  }

  // ---- Token ranges --------------------------------------------------------------------------------

  function Opening(k: Kind): byte {
    if k == Object then 0x7B else 0x5B
  }

  function Closing(k: Kind): byte {
    if k == Object then 0x7D else 0x5D
  }

  /** A token lies before p and its text is delimited as its kind says. */
  predicate Delimited(js: seq<byte>, t: Token, p: nat) {
    0 <= t.start < p <= |js| && (t.end == -1 || t.start <= t.end <= p) &&
    match t.kind
    case Undefined => false
    case String => 0 < t.start && js[t.start - 1] == 0x22 && 0 <= t.end < p && js[t.end] == 0x22
    case Primitive => t.start < t.end && forall k | t.start <= k < t.end :: !EndsPrimitive(js[k])
    case _ => js[t.start] == Opening(t.kind) && (t.end != -1 ==> t.start < t.end - 1 && js[t.end - 1] == Closing(t.kind))
  }

  /** Starting in order, and the later token either after the earlier one or inside it. */
  predicate Apart(a: Token, b: Token) {
    a.start < b.start &&
    (a.end == -1 || a.end <= b.start || (b.end != -1 && b.end <= a.end))
  }

  predicate Laid(js: seq<byte>, st: State) {
    (forall i | 0 <= i < |st.toks| :: Delimited(js, st.toks[i], st.pos)) &&
    (forall i, j | 0 <= i < j < |st.toks| :: Apart(st.toks[i], st.toks[j]))
  }

  lemma {:induction false} PrimitiveText(js: seq<byte>, p: nat)
    requires p <= |js| && ScanPrimitive(js, p).Found?
    ensures forall k | p <= k < ScanPrimitive(js, p).end :: !EndsPrimitive(js[k])
    decreases |js| - p
  {
    if !AtEnd(js, p) && !EndsPrimitive(js[p]) {
      PrimitiveText(js, p + 1);
    }
  }

  lemma {:induction false} StringText(js: seq<byte>, p: nat)
    requires ScanString(js, p).Found?
    ensures js[ScanString(js, p).end] == 0x22
    decreases |js| - p
  {
    if js[p] == 0x22 {
    } else if js[p] == 0x5C && p + 1 < |js| {
      StringText(js, if IsEscape(js[p + 1]) then p + 2 else ScanHex(js, p + 2, 4).end);
    } else {
      StringText(js, p + 1);
    }
  }

  /** A new token that starts no earlier than the position keeps the layout. */
  lemma AppendLaid(js: seq<byte>, st: State, t: Token, p: nat)
    requires Laid(js, st) && st.pos <= t.start && st.pos <= p && Delimited(js, t, p)
    ensures Laid(js, State(p, st.super, st.toks + [t]))
  {
    forall i | 0 <= i < |st.toks| ensures Delimited(js, st.toks[i], p) && Apart(st.toks[i], t) {
      assert Delimited(js, st.toks[i], st.pos);
    }
  }

  lemma GrownLaid(js: seq<byte>, st: State, super: int)
    requires Laid(js, st) && -1 <= super < |st.toks|
    ensures Laid(js, st.(toks := Grown(st.toks, super)))
  {
    var r := Grown(st.toks, super);
    forall i | 0 <= i < |r| ensures Delimited(js, r[i], st.pos) {
      assert Delimited(js, st.toks[i], st.pos);
    }
    forall i, j | 0 <= i < j < |r| ensures Apart(r[i], r[j]) {
      assert Apart(st.toks[i], st.toks[j]);
    }
  }

  lemma CloseLaid(js: seq<byte>, st: State, kind: Kind)
    requires Valid(st) && Laid(js, st) && st.pos < |js| && IsBracket(kind) && js[st.pos] == Closing(kind)
    ensures var r := CloseBracket(st, kind);
            r.Next? ==> Laid(js, r.st)
  {
    var i := LastOpen(st.toks, |st.toks|);
    if i >= 0 && st.toks[i].kind == kind {
      var r := CloseBracket(st, kind).st;
      forall k | 0 <= k < |r.toks| ensures Delimited(js, r.toks[k], r.pos) {
        assert Delimited(js, st.toks[k], st.pos);
      }
      forall a, b | 0 <= a < b < |r.toks| ensures Apart(r.toks[a], r.toks[b]) {
        assert Apart(st.toks[a], st.toks[b]);
        assert Delimited(js, st.toks[b], st.pos);
      }
    }
  }

  lemma OpenLaid(js: seq<byte>, st: State, kind: Kind, cap: nat)
    requires Valid(st) && Laid(js, st) && !AtEnd(js, st.pos) && IsBracket(kind) && js[st.pos] == Opening(kind)
    ensures var r := OpenBracket(st, kind, cap); r.Next? ==> Laid(js, r.st)
  {
    GrownLaid(js, st, st.super);
    AppendLaid(js, st.(toks := Grown(st.toks, st.super)), Token(kind, st.pos, -1, 0), st.pos + 1);
  }

  lemma LeafLaid(js: seq<byte>, st: State, kind: Kind, start: nat, end: nat, next: nat, cap: nat)
    requires Valid(st) && Laid(js, st) && st.pos <= start && st.pos <= next && Delimited(js, Token(kind, start, end, 0), next)
    ensures var r := Leaf(st, kind, start, next, Found(end), cap); r.Next? ==> Laid(js, r.st)
  {
    var t := Token(kind, start, end, 0);
    AppendLaid(js, st, t, next);
    GrownLaid(js, State(next, st.super, st.toks + [t]), st.super);
  }

  lemma StringLaid(js: seq<byte>, st: State, cap: nat)
    requires Valid(st) && Laid(js, st) && !AtEnd(js, st.pos) && js[st.pos] == 0x22
    ensures var r := Step(js, st, cap); r.Next? ==> Laid(js, r.st)
  {
    var scan := ScanString(js, st.pos + 1);
    if scan.Found? {
      StringText(js, st.pos + 1);
      LeafLaid(js, st, String, st.pos + 1, scan.end, scan.end + 1, cap);
    }
  }

  lemma PrimitiveLaid(js: seq<byte>, st: State, cap: nat)
    requires Valid(st) && Laid(js, st) && !AtEnd(js, st.pos)
    ensures var scan := ScanPrimitive(js, st.pos);
            scan.Found? && st.pos < scan.end ==>
              var r := Leaf(st, Primitive, st.pos, scan.end, scan, cap); r.Next? ==> Laid(js, r.st)
  {
    var scan := ScanPrimitive(js, st.pos);
    if scan.Found? && st.pos < scan.end {
      PrimitiveText(js, st.pos);
      LeafLaid(js, st, Primitive, st.pos, scan.end, scan.end, cap);
    }
  }

  lemma SkipLaid(js: seq<byte>, st: State, super: int)
    requires Laid(js, st) && st.pos < |js|
    ensures Laid(js, State(st.pos + 1, super, st.toks))
  {
    forall i | 0 <= i < |st.toks| ensures Delimited(js, st.toks[i], st.pos + 1) {
      assert Delimited(js, st.toks[i], st.pos);
    }
  }

  lemma StepLaid(js: seq<byte>, st: State, cap: nat)
    requires Valid(st) && Laid(js, st) && !AtEnd(js, st.pos)
    ensures var r := Step(js, st, cap);
            r.Next? ==> Laid(js, r.st)
  {
    var c := js[st.pos];
    if c == 0x7B || c == 0x5B {
      OpenLaid(js, st, if c == 0x7B then Object else Array, cap);
    } else if c == 0x7D || c == 0x5D {
      CloseLaid(js, st, if c == 0x7D then Object else Array);
    } else if c == 0x22 {
      StringLaid(js, st, cap);
    } else if IsBlank(c) || c == 0x3A || c == 0x2C {
      var r := Step(js, st, cap).st;
      SkipLaid(js, st, r.super);
    } else {
      PrimitiveLaid(js, st, cap);
    }
  }

  lemma {:induction false} RunLaid(js: seq<byte>, st: State, cap: nat)
    requires Valid(st) && Laid(js, st)
    ensures Laid(js, Run(js, st, cap).st)
    decreases |js| - st.pos
  {
    if !AtEnd(js, st.pos) {
      StepAdvances(js, st, cap);
      StepLaid(js, st, cap);
      var r := Step(js, st, cap);
      if r.Next? {
        RunLaid(js, r.st, cap);
      }
    }
  }

  /** After a successful parse every token is a closed range of the input, delimited as its kind says;
      the ranges start in order and any two are nested or disjoint. */
  lemma TokenRanges(js: seq<byte>, cap: nat)
    requires Run(js, Init, cap).Ok?
    ensures var toks := Run(js, Init, cap).st.toks;
            (forall i | 0 <= i < |toks| :: Delimited(js, toks[i], |js|) && toks[i].end != -1) &&
            (forall i, j | 0 <= i < j < |toks| :: toks[i].start < toks[j].start &&
               (toks[i].end <= toks[j].start || toks[j].end <= toks[i].end))
  {
    RunLaid(js, Init, cap);
    var st := Run(js, Init, cap).st;
    NoneOpen(js, Init, cap);
    forall i | 0 <= i < |st.toks| ensures Delimited(js, st.toks[i], |js|) && st.toks[i].end != -1 {
      assert Delimited(js, st.toks[i], st.pos);
    }
    forall i, j | 0 <= i < j < |st.toks| ensures Apart(st.toks[i], st.toks[j]) {
    }
  }

  lemma {:induction false} NoneOpen(js: seq<byte>, st: State, cap: nat)
    requires Valid(st) && Run(js, st, cap).Ok?
    ensures var r := Run(js, st, cap).st;
            LastOpen(r.toks, |r.toks|) == -1
    decreases |js| - st.pos
  {
    if !AtEnd(js, st.pos) {
      StepAdvances(js, st, cap);
      NoneOpen(js, Step(js, st, cap).st, cap);
    }
  }
}
