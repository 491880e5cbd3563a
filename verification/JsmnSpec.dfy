/** The JSON tokenizer jsmn (default build) as a step function on the parser's state. */
module JsmnSpec {
  import opened Bits

  datatype Kind = Undefined | Object | Array | String | Primitive

  datatype Token = Token(kind: Kind, start: int, end: int, size: int)

  datatype Error = NoMem | Inval | Part

  /** Parser fields and the tokens allocated so far; toknext is |toks|. */
  datatype State = State(pos: nat, super: int, toks: seq<Token>)

  datatype Outcome = Next(st: State) | Fail(error: Error)

  // ---- Scanning strings and primitives ----------------------------------------------------------

  datatype Scan = Found(end: nat) | Bad(error: Error)

  predicate AtEnd(js: seq<byte>, p: nat) {
    p >= |js| || js[p] == 0
  }

  predicate IsHex(c: byte) {
    48 <= c <= 57 || 65 <= c <= 70 || 97 <= c <= 102
  }

  predicate IsEscape(c: byte) {
    c == 0x22 || c == 0x2F || c == 0x5C || c == 0x62 || c == 0x66 || c == 0x72 || c == 0x6E || c == 0x74
  }

  predicate IsBlank(c: byte) {
    c == 0x09 || c == 0x0D || c == 0x0A || c == 0x20
  }

  /** The characters after which a primitive ends. */
  predicate EndsPrimitive(c: byte) {
    c == 0x3A || IsBlank(c) || c == 0x2C || c == 0x5D || c == 0x7D
  }

  /** Up to n hexadecimal digits of a \u escape; the end of the input cuts them short. */
  function ScanHex(js: seq<byte>, p: nat, n: nat): (r: Scan)
    ensures r.Found? ==> p <= r.end <= p + n && (p <= |js| ==> r.end <= |js|)
    ensures r.Bad? ==> r.error == Inval
    decreases n
  {
    if n == 0 || AtEnd(js, p) then Found(p)
    else if !IsHex(js[p]) then Bad(Inval)
    else ScanHex(js, p + 1, n - 1)
  }

  /** From inside a string to its closing quote. */
  function ScanString(js: seq<byte>, p: nat): (r: Scan)
    ensures r.Found? ==> p <= r.end < |js|
    ensures r.Bad? ==> r.error != NoMem
    decreases |js| - p
  {
    if AtEnd(js, p) then Bad(Part)
    else if js[p] == 0x22 then Found(p)
    else if js[p] == 0x5C && p + 1 < |js| then
      if IsEscape(js[p + 1]) then ScanString(js, p + 2)
      else if js[p + 1] == 0x75 then
        var h := ScanHex(js, p + 2, 4);
        if h.Found? then ScanString(js, h.end) else h
      else Bad(Inval)
    else ScanString(js, p + 1)
  }

  function ScanPrimitive(js: seq<byte>, p: nat): (r: Scan)
    ensures r.Found? && p <= |js| ==> p <= r.end <= |js|
    ensures r.Found? && !AtEnd(js, p) && !EndsPrimitive(js[p]) ==> p < r.end
    ensures r.Bad? ==> r.error == Inval
    decreases |js| - p
  {
    if AtEnd(js, p) || EndsPrimitive(js[p]) then Found(p)
    else if js[p] < 32 || js[p] >= 127 then Bad(Inval)
    else ScanPrimitive(js, p + 1)
  }

  // ---- Tokens -------------------------------------------------------------------------------------

  predicate IsOpen(t: Token) {
    t.start != -1 && t.end == -1
  }

  /** The largest index below n of an open token, or -1. */
  function LastOpen(toks: seq<Token>, n: nat): (i: int)
    requires n <= |toks|
    ensures -1 <= i < n
    ensures i >= 0 ==> IsOpen(toks[i])
    ensures forall k | i < k < n :: !IsOpen(toks[k])
  {
    if n == 0 then -1 else if IsOpen(toks[n - 1]) then n - 1 else LastOpen(toks, n - 1)
  }

  predicate IsBracket(k: Kind) {
    k == Object || k == Array
  }

  /** The largest index below n of an open object or array, or the default. */
  function LastOpenBracket(toks: seq<Token>, n: nat, default: int): (i: int)
    requires n <= |toks| && -1 <= default < |toks|
    ensures -1 <= i < |toks|
  {
    if n == 0 then default
    else if IsBracket(toks[n - 1].kind) && IsOpen(toks[n - 1]) then n - 1
    else LastOpenBracket(toks, n - 1, default)
  }

  /** The tokens with the size of the superior one increased. */
  function Grown(toks: seq<Token>, super: int): (r: seq<Token>)
    requires -1 <= super < |toks|
    ensures |r| == |toks|
  {
    if super == -1 then toks else toks[super := toks[super].(size := toks[super].size + 1)]
  }

  predicate Valid(st: State) {
    -1 <= st.super < |st.toks|
  }

  // ---- One character of jsmn_parse ------------------------------------------------------------

  function OpenBracket(st: State, kind: Kind, cap: nat): Outcome
    requires Valid(st)
  {
    if |st.toks| >= cap then Fail(NoMem)
    else Next(State(st.pos + 1, |st.toks|, Grown(st.toks, st.super) + [Token(kind, st.pos, -1, 0)]))
  }

  function CloseBracket(st: State, kind: Kind): Outcome
    requires Valid(st)
  {
    var i := LastOpen(st.toks, |st.toks|);
    if i == -1 || st.toks[i].kind != kind then Fail(Inval)
    else
      var toks := st.toks[i := st.toks[i].(end := st.pos + 1)];
      Next(State(st.pos + 1, LastOpen(toks, i + 1), toks))
  }

  /** A string or primitive token, whose scan ended as r. */
  function Leaf(st: State, kind: Kind, start: nat, next: nat, r: Scan, cap: nat): Outcome
    requires Valid(st)
  {
    match r
    case Bad(e) => Fail(e)
    case Found(end) =>
      if |st.toks| >= cap then Fail(NoMem)
      else Next(State(next, st.super, Grown(st.toks + [Token(kind, start, end, 0)], st.super)))
  }

  function Comma(st: State): State
    requires Valid(st)
  {
    if st.super != -1 && !IsBracket(st.toks[st.super].kind)
    then State(st.pos + 1, LastOpenBracket(st.toks, |st.toks|, st.super), st.toks)
    else st.(pos := st.pos + 1)
  }

  function Step(js: seq<byte>, st: State, cap: nat): Outcome
    requires Valid(st) && !AtEnd(js, st.pos)
  {
    var c := js[st.pos];
    if c == 0x7B then OpenBracket(st, Object, cap)
    else if c == 0x5B then OpenBracket(st, Array, cap)
    else if c == 0x7D then CloseBracket(st, Object)
    else if c == 0x5D then CloseBracket(st, Array)
    else if c == 0x22 then
      var r := ScanString(js, st.pos + 1);
      Leaf(st, String, st.pos + 1, if r.Found? then r.end + 1 else 0, r, cap)
    else if IsBlank(c) then Next(st.(pos := st.pos + 1))
    else if c == 0x3A then Next(State(st.pos + 1, |st.toks| - 1, st.toks))
    else if c == 0x2C then Next(Comma(st))
    else
      var r := ScanPrimitive(js, st.pos);
      Leaf(st, Primitive, st.pos, if r.Found? then r.end else 0, r, cap)
  }

  lemma StepAdvances(js: seq<byte>, st: State, cap: nat)
    requires Valid(st) && !AtEnd(js, st.pos)
    ensures var r := Step(js, st, cap);
            r.Next? ==> Valid(r.st) && st.pos < r.st.pos <= |js| && |st.toks| <= |r.st.toks| <= |st.toks| + 1
  {
  }

  // ---- The whole loop -------------------------------------------------------------------------------

  datatype Result = Ok(st: State) | Error(error: Error, st: State)

  function Run(js: seq<byte>, st: State, cap: nat): (r: Result)
    requires Valid(st)
    ensures Valid(r.st)
    decreases |js| - st.pos
  {
    if AtEnd(js, st.pos) then
      if LastOpen(st.toks, |st.toks|) == -1 then Ok(st) else Error(Part, st)
    else
      StepAdvances(js, st, cap);
      match Step(js, st, cap)
      case Fail(e) => Error(e, st)
      case Next(st') => Run(js, st', cap)
  }

  const Init: State := State(0, -1, [])

  // ---- Resuming -----------------------------------------------------------------------------------

  /** More room changes a step only if the step ran out of it. */
  lemma StepMoreRoom(js: seq<byte>, st: State, cap: nat, cap': nat)
    requires Valid(st) && !AtEnd(js, st.pos) && cap <= cap'
    ensures Step(js, st, cap) == Fail(NoMem) || Step(js, st, cap') == Step(js, st, cap)
  {
  }

  /** After NOMEM, parsing on with a larger array gives what the larger array gives from the start. */
  lemma {:induction false} Resume(js: seq<byte>, st: State, cap: nat, cap': nat)
    requires Valid(st) && cap <= cap'
    requires Run(js, st, cap).Error? && Run(js, st, cap).error == NoMem
    ensures Run(js, Run(js, st, cap).st, cap') == Run(js, st, cap')
    decreases |js| - st.pos
  {
    StepMoreRoom(js, st, cap, cap');
    StepAdvances(js, st, cap);
    var r := Step(js, st, cap);
    if r.Next? {
      Resume(js, r.st, cap, cap');
    }
  }

  // ---- The sizing pass ------------------------------------------------------------------------------

  datatype Count = Counted(count: nat) | CountError(error: Error)

  datatype Tally = More(pos: nat, count: nat) | Stop(error: Error)

  /** One character of the pass with no token array: brackets are counted but not matched. */
  function CountStep(js: seq<byte>, p: nat, count: nat): (r: Tally)
    requires !AtEnd(js, p)
    ensures r.More? ==> p < r.pos <= |js| && count <= r.count <= count + 1
  {
    var c := js[p];
    if c == 0x7B || c == 0x5B then More(p + 1, count + 1)
    else if c == 0x22 then
      var r := ScanString(js, p + 1);
      if r.Found? then More(r.end + 1, count + 1) else Stop(r.error)
    else if c == 0x7D || c == 0x5D || IsBlank(c) || c == 0x3A || c == 0x2C then More(p + 1, count)
    else
      var r := ScanPrimitive(js, p);
      if r.Found? then More(r.end, count + 1) else Stop(r.error)
  }

  function CountRun(js: seq<byte>, p: nat, count: nat): (r: Count)
    ensures r.Counted? ==> r.count >= count
    decreases |js| - p
  {
    if AtEnd(js, p) then Counted(count)
    else
      match CountStep(js, p, count)
      case Stop(e) => CountError(e)
      case More(q, n) => CountRun(js, q, n)
  }

  /** A step that succeeds adds the tokens the sizing pass counts. */
  lemma StepCounts(js: seq<byte>, st: State, cap: nat)
    requires Valid(st) && !AtEnd(js, st.pos)
    ensures match Step(js, st, cap)
            case Next(st') => CountStep(js, st.pos, |st.toks|) == More(st'.pos, |st'.toks|)
            case Fail(e) =>
              e != NoMem ||
              (|st.toks| >= cap && CountStep(js, st.pos, |st.toks|).More? &&
               CountStep(js, st.pos, |st.toks|).count == |st.toks| + 1)
  {
  }

  /** A successful parse and the sizing pass agree on the number of tokens. */
  lemma {:induction false} SizingAgrees(js: seq<byte>, st: State, cap: nat)
    requires Valid(st) && Run(js, st, cap).Ok?
    ensures CountRun(js, st.pos, |st.toks|) == Counted(|Run(js, st, cap).st.toks|)
    decreases |js| - st.pos
  {
    if !AtEnd(js, st.pos) {
      StepAdvances(js, st, cap);
      StepCounts(js, st, cap);
      SizingAgrees(js, Step(js, st, cap).st, cap);
    }
  }

  /** With as many tokens as the sizing pass asked for, a parse never runs out of them. */
  lemma {:induction false} SizingSuffices(js: seq<byte>, st: State, cap: nat)
    requires Valid(st) && CountRun(js, st.pos, |st.toks|).Counted? && CountRun(js, st.pos, |st.toks|).count <= cap
    ensures Run(js, st, cap).Error? ==> Run(js, st, cap).error != NoMem
    decreases |js| - st.pos
  {
    if !AtEnd(js, st.pos) {
      StepAdvances(js, st, cap);
      StepCounts(js, st, cap);
      var r := Step(js, st, cap);
      if r.Next? {
        SizingSuffices(js, r.st, cap);
      }
    }
  }
}
