/** The tokenizer on JSON texts: what it makes of them are just their tokens. */
module JsmnSizes {
  import opened Bits
  import opened Folding
  import opened Jsmn
  import opened JsmnNesting
  import opened JsmnSpec
  import opened JsmnTrees

  // ---- Text that stands somewhere -------------------------------------------------------------------------

  predicate Stands(js: seq<byte>, p: nat, t: seq<byte>) {
    p + |t| <= |js| && forall i | 0 <= i < |t| :: js[p + i] == t[i]
  }

  lemma StandsSplit(js: seq<byte>, p: nat, a: seq<byte>, b: seq<byte>)
    requires Stands(js, p, a + b)
    ensures Stands(js, p, a) && Stands(js, p + |a|, b)
  {
    assert forall i | 0 <= i < |a| :: (a + b)[i] == a[i];
    forall i | 0 <= i < |b| ensures js[p + |a| + i] == b[i] {
      assert (a + b)[|a| + i] == b[i];
      assert js[p + (|a| + i)] == (a + b)[|a| + i];
    }
  }

  lemma ByteStands(js: seq<byte>, p: nat, c: byte, rest: seq<byte>, whole: seq<byte>)
    requires whole == [c] + rest && Stands(js, p, whole)
    ensures p < |js| && js[p] == c && Stands(js, p + 1, rest)
  {
    StandsSplit(js, p, [c], rest);
    assert js[p + 0] == [c][0];
  }

  lemma ThenByte(js: seq<byte>, p: nat, t: seq<byte>, c: byte, whole: seq<byte>)
    requires whole == t + [c] && Stands(js, p, whole)
    ensures Stands(js, p, t) && p + |t| < |js| && js[p + |t|] == c
  {
    StandsSplit(js, p, t, [c]);
    ByteStands(js, p + |t|, c, [], [c]);
  }

  lemma StandsRest(js: seq<byte>, p: nat, t: seq<byte>, n: nat)
    requires Stands(js, p, t) && n <= |t|
    ensures Stands(js, p + n, t[n..])
  {
    assert t == t[..n] + t[n..];
    StandsSplit(js, p, t[..n], t[n..]);
  }

  // ---- Strings and primitives ------------------------------------------------------------------------------

  lemma HexScans(js: seq<byte>, p: nat, n: nat)
    requires n == 4 && p + 4 <= |js| && HexDigit(js[p]) && HexDigit(js[p + 1]) && HexDigit(js[p + 2]) && HexDigit(js[p + 3])
    ensures ScanHex(js, p, n) == Found(p + 4)
  {
    assert ScanHex(js, p + 4, 0) == Found(p + 4);
    assert ScanHex(js, p + 3, 1) == ScanHex(js, p + 4, 0);
    assert ScanHex(js, p + 2, 2) == ScanHex(js, p + 3, 1);
    assert ScanHex(js, p + 1, 3) == ScanHex(js, p + 2, 2);
  }

  lemma EscapeScans(js: seq<byte>, p: nat)
    requires p + 1 < |js| && js[p] == 0x5C && Escaped(js[p + 1])
    ensures ScanString(js, p) == ScanString(js, p + 2)
  {
  }

  lemma UnicodeScans(js: seq<byte>, p: nat)
    requires p + 6 <= |js| && js[p] == 0x5C && js[p + 1] == 0x75
    requires HexDigit(js[p + 2]) && HexDigit(js[p + 3]) && HexDigit(js[p + 4]) && HexDigit(js[p + 5])
    ensures ScanString(js, p) == ScanString(js, p + 6)
  {
    HexScans(js, p + 2, 4);
  }

  /** A string is scanned up to its closing quote. */
  lemma {:induction false} BodyScans(js: seq<byte>, p: nat, b: seq<byte>)
    requires Body(b) && Stands(js, p, b) && p + |b| < |js| && js[p + |b|] == 0x22
    ensures ScanString(js, p) == Found(p + |b|)
    decreases |b|
  {
    if b != [] {
      assert js[p + 0] == b[0];
      if b[0] == 0x5C {
        assert js[p + 1] == b[1];
        if b[1] == 0x75 {
          assert js[p + 2] == b[2] && js[p + 3] == b[3] && js[p + 4] == b[4] && js[p + 5] == b[5];
          StandsRest(js, p, b, 6);
          BodyScans(js, p + 6, b[6..]);
          UnicodeScans(js, p);
        } else {
          StandsRest(js, p, b, 2);
          BodyScans(js, p + 2, b[2..]);
          EscapeScans(js, p);
        }
      } else {
        StandsRest(js, p, b, 1);
        BodyScans(js, p + 1, b[1..]);
      }
    }
  }

  /** The text ends, or a blank, comma, colon or closing bracket follows. */
  predicate Ends(js: seq<byte>, p: nat) {
    p >= |js| || js[p] == 0 || Blanks([js[p]]) || js[p] == 0x2C || js[p] == 0x3A || js[p] == 0x5D || js[p] == 0x7D
  }

  lemma EndsIs(js: seq<byte>, p: nat)
    requires Ends(js, p)
    ensures AtEnd(js, p) || EndsPrimitive(js[p])
  {
    if p < |js| && Blanks([js[p]]) {
      assert [js[p]][0] == js[p];
    }
  }

  /** A primitive is scanned up to what ends it. */
  lemma {:induction false} PlainScans(js: seq<byte>, p: nat, t: seq<byte>)
    requires Stands(js, p, t) && Ends(js, p + |t|)
    requires forall i | 0 <= i < |t| :: 0x20 < t[i] < 0x7F && t[i] != 0x2C && t[i] != 0x3A && t[i] != 0x5D && t[i] != 0x7D
    ensures ScanPrimitive(js, p) == Found(p + |t|)
    decreases |t|
  {
    if t == [] {
      EndsIs(js, p);
    } else {
      assert js[p + 0] == t[0];
      StandsRest(js, p, t, 1);
      PlainScans(js, p + 1, t[1..]);
    }
  }

  // ---- Runs -------------------------------------------------------------------------------------------------

  /** A parse from one state goes on as from another; folded. */
  ghost predicate Goes(js: seq<byte>, cap: nat, a: State, b: State)
    requires Valid(a) && Valid(b)
  {
    forall g: nat :: Guard(g) ==> Run(js, a, cap) == Run(js, b, cap)
  }

  lemma GoesOn(js: seq<byte>, cap: nat, a: State, b: State, c: State)
    requires Valid(a) && Valid(b) && Valid(c) && Goes(js, cap, a, b) && Goes(js, cap, b, c)
    ensures Goes(js, cap, a, c)
  {
    assert Guard(0);
  }

  lemma StepGoes(js: seq<byte>, cap: nat, a: State, b: State)
    requires Valid(a) && !AtEnd(js, a.pos) && Step(js, a, cap) == Next(b)
    ensures Valid(b) && Goes(js, cap, a, b)
  {
    StepAdvances(js, a, cap);
  }

  lemma {:induction false} BlanksGo(js: seq<byte>, cap: nat, st: State, b: seq<byte>, st': State)
    requires Valid(st) && Blanks(b) && Stands(js, st.pos, b) && st' == State(st.pos + |b|, st.super, st.toks)
    ensures Goes(js, cap, st, st')
    decreases |b|
  {
    if b == [] {
      assert st == st';
    } else {
      assert js[st.pos + 0] == b[0];
      var next := State(st.pos + 1, st.super, st.toks);
      StepGoes(js, cap, st, next);
      StandsRest(js, st.pos, b, 1);
      BlanksGo(js, cap, next, b[1..], st');
      GoesOn(js, cap, st, next, st');
    }
  }

  lemma GrownAppend(toks: seq<Token>, t: Token, super: int)
    requires -1 <= super < |toks|
    ensures Grown(toks + [t], super) == Grown(toks, super) + [t]
  {
  }

  /** A string becomes a token, and counts for the superior one. */
  lemma StringGoes(js: seq<byte>, cap: nat, st: State, b: seq<byte>, st': State)
    requires Valid(st) && Body(b) && Stands(js, st.pos, Quoted(b)) && |st.toks| < cap
    requires st' == State(st.pos + |Quoted(b)|, st.super, Grown(st.toks, st.super) + [Token(String, st.pos + 1, st.pos + 1 + |b|, 0)])
    ensures Goes(js, cap, st, st')
  {
    var p := st.pos;
    ByteStands(js, p, 0x22, b + [0x22], Quoted(b));
    ThenByte(js, p + 1, b, 0x22, b + [0x22]);
    BodyScans(js, p + 1, b);
    GrownAppend(st.toks, Token(String, p + 1, p + 1 + |b|, 0), st.super);
    StepGoes(js, cap, st, st');
  }

  lemma PrimGoes(js: seq<byte>, cap: nat, st: State, t: seq<byte>, st': State)
    requires Valid(st) && Plain(t) && Stands(js, st.pos, t) && Ends(js, st.pos + |t|) && |st.toks| < cap
    requires st' == State(st.pos + |t|, st.super, Grown(st.toks, st.super) + [Token(Primitive, st.pos, st.pos + |t|, 0)])
    ensures Goes(js, cap, st, st')
  {
    assert js[st.pos + 0] == t[0];
    PlainScans(js, st.pos, t);
    GrownAppend(st.toks, Token(Primitive, st.pos, st.pos + |t|, 0), st.super);
    StepGoes(js, cap, st, st');
  }

  // ---- Brackets -----------------------------------------------------------------------------------------------

  /** o is the last open token, or there is none; all open tokens are brackets. */
  predicate Innermost(toks: seq<Token>, o: int) {
    -1 <= o < |toks| && (o >= 0 ==> IsOpen(toks[o])) && (forall k | o < k < |toks| :: !IsOpen(toks[k])) &&
    forall k | 0 <= k < |toks| :: IsOpen(toks[k]) ==> IsBracket(toks[k].kind)
  }

  lemma {:induction false} InnermostIs(toks: seq<Token>, n: nat, o: int, default: int)
    requires Innermost(toks, o) && o < n <= |toks| && -1 <= default < |toks|
    ensures LastOpen(toks, n) == o && LastOpenBracket(toks, n, default) == if o == -1 then default else o
    decreases n
  {
    if n > 0 && o < n - 1 {
      InnermostIs(toks, n - 1, o, default);
    }
  }

  predicate Closed(toks: seq<Token>) {
    forall k | 0 <= k < |toks| :: toks[k].end != -1
  }

  lemma {:induction false} TokensClosed(v: Json, p: nat)
    ensures Closed(Tokens(v, p))
    decreases v
  {
    match v {
      case Arr(gap, items) => ItemsClosed(items, p + 1 + |gap|);
      case Obj(gap, members) => MembersClosed(members, p + 1 + |gap|);
      case _ =>
    }
  }

  lemma {:induction false} ItemsClosed(items: Items, p: nat)
    ensures Closed(ItemsTokens(items, p))
    decreases items
  {
    match items {
      case NoItems =>
      case Item(before, value, after, others) =>
        var q := p + |before|;
        TokensClosed(value, q);
        ItemsClosed(others, q + |Text(value)| + |after| + 1);
    }
  }

  lemma {:induction false} MembersClosed(members: Members, p: nat)
    ensures Closed(MembersTokens(members, p))
    decreases members
  {
    match members {
      case NoMembers =>
      case Member(before, key, colon, gap, value, after, others) =>
        var r := p + |before| + |Quoted(key)| + |colon| + 1 + |gap|;
        TokensClosed(value, r);
        MembersClosed(others, r + |Text(value)| + |after| + 1);
    }
  }

  lemma GrownInnermost(toks: seq<Token>, o: int, super: int, more: seq<Token>)
    requires Innermost(toks, o) && -1 <= super < |toks| && Closed(more)
    ensures Innermost(Grown(toks, super) + more, o)
  {
    var all := Grown(toks, super) + more;
    forall k | 0 <= k < |all| ensures IsOpen(all[k]) <==> k < |toks| && IsOpen(toks[k]) {
      if k >= |toks| {
        assert all[k] == more[k - |toks|];
      }
    }
  }

  lemma OpenGoes(js: seq<byte>, cap: nat, st: State, kind: Kind, o: int, st': State)
    requires Valid(st) && Innermost(st.toks, o) && |st.toks| < cap && st.pos < |js| && IsBracket(kind)
    requires js[st.pos] == if kind == Object then 0x7B else 0x5B
    requires st' == State(st.pos + 1, |st.toks|, Grown(st.toks, st.super) + [Token(kind, st.pos, -1, 0)])
    ensures Goes(js, cap, st, st') && Innermost(st'.toks, |st.toks|)
  {
    StepGoes(js, cap, st, st');
    GrownInnermost(st.toks, o, st.super, []);
    assert Grown(st.toks, st.super) + [] == Grown(st.toks, st.super);
  }

  lemma CloseGoes(js: seq<byte>, cap: nat, st: State, kind: Kind, o: nat, outer: int, st': State)
    requires Valid(st) && Innermost(st.toks, o) && st.toks[o].kind == kind && st.pos < |js| && IsBracket(kind)
    requires js[st.pos] == (if kind == Object then 0x7D else 0x5D) && Innermost(st.toks[..o], outer)
    requires st' == State(st.pos + 1, outer, st.toks[o := st.toks[o].(end := st.pos + 1)])
    ensures Goes(js, cap, st, st') && Innermost(st'.toks, outer)
  {
    InnermostIs(st.toks, |st.toks|, o, -1);
    forall k | outer < k < |st'.toks| ensures !IsOpen(st'.toks[k]) {
      assert k < o ==> st'.toks[k] == st.toks[..o][k];
    }
    assert outer >= 0 ==> st'.toks[outer] == st.toks[..o][outer];
    InnermostIs(st'.toks, o + 1, outer, -1);
    StepGoes(js, cap, st, st');
  }

  lemma CommaGoes(js: seq<byte>, cap: nat, st: State, o: nat, st': State)
    requires Valid(st) && Innermost(st.toks, o) && st.pos < |js| && js[st.pos] == 0x2C
    requires st.super == o || (st.super != -1 && !IsBracket(st.toks[st.super].kind))
    requires st' == State(st.pos + 1, o, st.toks)
    ensures Goes(js, cap, st, st')
  {
    InnermostIs(st.toks, |st.toks|, o, st.super);
    StepGoes(js, cap, st, st');
  }

  /** A comma, and what follows. */
  lemma CommaThen(js: seq<byte>, cap: nat, st: State, o: nat, others: seq<byte>, st': State)
    requires Valid(st) && Innermost(st.toks, o) && Stands(js, st.pos, [0x2C] + others)
    requires st.super == o || (st.super != -1 && !IsBracket(st.toks[st.super].kind))
    requires st' == State(st.pos + 1, o, st.toks)
    ensures Goes(js, cap, st, st') && Stands(js, st'.pos, others)
  {
    ByteStands(js, st.pos, 0x2C, others, [0x2C] + others);
    CommaGoes(js, cap, st, o, st');
  }

  lemma ColonGoes(js: seq<byte>, cap: nat, st: State, st': State)
    requires Valid(st) && st.pos < |js| && js[st.pos] == 0x3A && st' == State(st.pos + 1, |st.toks| - 1, st.toks)
    ensures Goes(js, cap, st, st')
  {
    StepGoes(js, cap, st, st');
  }

  // ---- Values ---------------------------------------------------------------------------------------------------

  predicate IsLeaf(v: Json) {
    v.Str? || v.Prim?
  }

  /** The state behind a value: its tokens are there, and it counts for the superior token; behind an array or object
      the innermost bracket is the superior token. */
  function Behind(st: State, v: Json, o: int): State
    requires Valid(st)
  {
    State(st.pos + |Text(v)|, if IsLeaf(v) then st.super else o, Grown(st.toks, st.super) + Tokens(v, st.pos))
  }

  /** The token o has n more members or elements. */
  function Sized(toks: seq<Token>, o: nat, n: nat): (r: seq<Token>)
    requires o < |toks|
    ensures |r| == |toks|
  {
    toks[o := toks[o].(size := toks[o].size + n)]
  }

  lemma SizedAgain(toks: seq<Token>, o: nat, x: seq<Token>, n: nat, y: seq<Token>)
    requires o < |toks|
    ensures Sized(Grown(toks, o) + x, o, n) + y == Sized(toks, o, n + 1) + (x + y)
  {
  }

  lemma SizedNone(toks: seq<Token>, o: nat)
    requires o < |toks|
    ensures Sized(toks, o, 0) + [] == toks
  {
  }

  lemma SizedInnermost(toks: seq<Token>, o: int, i: nat, n: nat, more: seq<Token>)
    requires Innermost(toks, o) && i < |toks| && Closed(more)
    ensures Innermost(Sized(toks, i, n) + more, o)
  {
    var all := Sized(toks, i, n) + more;
    forall k | 0 <= k < |all| ensures IsOpen(all[k]) <==> k < |toks| && IsOpen(toks[k]) {
      if k >= |toks| {
        assert all[k] == more[k - |toks|];
      }
    }
  }

  /** What is needed to run over a value. */
  ghost predicate Ready(js: seq<byte>, cap: nat, st: State, v: Json, o: int) {
    Valid(st) && Formed(v) && Stands(js, st.pos, Text(v)) && Ends(js, st.pos + |Text(v)|) && Innermost(st.toks, o) &&
    |st.toks| + |Tokens(v, st.pos)| <= cap
  }

  lemma LeafGoes(js: seq<byte>, cap: nat, st: State, v: Json, o: int)
    requires Ready(js, cap, st, v, o) && IsLeaf(v)
    ensures Valid(Behind(st, v, o)) && Goes(js, cap, st, Behind(st, v, o))
  {
    match v {
      case Str(body) => StringGoes(js, cap, st, body, Behind(st, v, o));
      case Prim(text) => PrimGoes(js, cap, st, text, Behind(st, v, o));
    }
  }

  /** The state inside a bracket, behind the gap. */
  function Inside(st: State, kind: Kind, gap: seq<byte>): (r: State)
    requires Valid(st)
    ensures Valid(r)
  {
    State(st.pos + 1 + |gap|, |st.toks|, Grown(st.toks, st.super) + [Token(kind, st.pos, -1, 0)])
  }

  lemma EnterGoes(js: seq<byte>, cap: nat, st: State, kind: Kind, gap: seq<byte>, o: int, c: byte, rest: seq<byte>, whole: seq<byte>)
    requires Valid(st) && Innermost(st.toks, o) && |st.toks| < cap && IsBracket(kind) && Blanks(gap)
    requires c == (if kind == Object then 0x7B else 0x5B) && whole == [c] + (gap + rest) && Stands(js, st.pos, whole)
    ensures Goes(js, cap, st, Inside(st, kind, gap)) && Innermost(Inside(st, kind, gap).toks, |st.toks|)
    ensures Stands(js, st.pos + 1 + |gap|, rest)
  {
    ByteStands(js, st.pos, c, gap + rest, whole);
    StandsSplit(js, st.pos + 1, gap, rest);
    var first := State(st.pos + 1, |st.toks|, Grown(st.toks, st.super) + [Token(kind, st.pos, -1, 0)]);
    OpenGoes(js, cap, st, kind, o, first);
    BlanksGo(js, cap, first, gap, Inside(st, kind, gap));
    GoesOn(js, cap, st, first, Inside(st, kind, gap));
  }

  /** Behind the n members or elements of a bracket, whose tokens are these, it is closed. */
  lemma LeaveGoes(js: seq<byte>, cap: nat, st: State, kind: Kind, gap: seq<byte>, o: int, n: nat, inner: seq<Token>, last: State, end: State)
    requires Valid(st) && Innermost(st.toks, o) && IsBracket(kind) && Valid(last) && Closed(inner)
    requires last.toks == Sized(Inside(st, kind, gap).toks, |st.toks|, n) + inner
    requires last.pos < |js| && js[last.pos] == if kind == Object then 0x7D else 0x5D
    requires end == State(last.pos + 1, o, Grown(st.toks, st.super) + ([Token(kind, st.pos, last.pos + 1, n)] + inner))
    ensures Valid(end) && Goes(js, cap, last, end)
  {
    var i := |st.toks|;
    OpenInnermost(st, kind, gap, o);
    SizedInnermost(Inside(st, kind, gap).toks, i, i, n, inner);
    assert last.toks[..i] == Grown(st.toks, st.super) + [];
    GrownInnermost(st.toks, o, st.super, []);
    assert last.toks[i] == Token(kind, st.pos, -1, n);
    assert end.toks == last.toks[i := last.toks[i].(end := last.pos + 1)];
    CloseGoes(js, cap, last, kind, i, o, end);
  }

  lemma OpenInnermost(st: State, kind: Kind, gap: seq<byte>, o: int)
    requires Valid(st) && Innermost(st.toks, o) && IsBracket(kind)
    ensures Innermost(Inside(st, kind, gap).toks, |st.toks|)
  {
    GrownInnermost(st.toks, o, st.super, []);
    assert Grown(st.toks, st.super) + [] == Grown(st.toks, st.super);
  }

  // ---- Elements and members -------------------------------------------------------------------------------------

  /** What follows an element or member: blanks, and a comma with the others. */
  function Rest(after: seq<byte>, more: bool, others: seq<byte>): seq<byte> {
    after + if more then [0x2C] + others else []
  }

  lemma RestEnds(js: seq<byte>, p: nat, after: seq<byte>, more: bool, others: seq<byte>)
    requires Blanks(after) && Stands(js, p, Rest(after, more, others)) && p + |Rest(after, more, others)| < |js|
    requires js[p + |Rest(after, more, others)|] == 0x5D || js[p + |Rest(after, more, others)|] == 0x7D
    ensures Ends(js, p)
  {
    if after != [] || more {
      assert js[p + 0] == Rest(after, more, others)[0];
    }
  }

  lemma BehindIs(st: State, v: Json, o: int)
    requires Valid(st) && Innermost(st.toks, o)
    ensures Valid(Behind(st, v, o)) && Innermost(Behind(st, v, o).toks, o)
  {
    TokensClosed(v, st.pos);
    GrownInnermost(st.toks, o, st.super, Tokens(v, st.pos));
  }

  lemma {:induction false} ValueGoes(js: seq<byte>, cap: nat, st: State, v: Json, o: int)
    requires Ready(js, cap, st, v, o)
    ensures Valid(Behind(st, v, o)) && Innermost(Behind(st, v, o).toks, o) && Goes(js, cap, st, Behind(st, v, o))
    decreases v, 2
  {
    BehindIs(st, v, o);
    match v {
      case Str(_) => LeafGoes(js, cap, st, v, o);
      case Prim(_) => LeafGoes(js, cap, st, v, o);
      case Arr(gap, items) => ArrayGoes(js, cap, st, v, gap, items, o);
      case Obj(gap, members) => ObjectGoes(js, cap, st, v, gap, members, o);
    }
  }

  lemma {:induction false} ArrayGoes(js: seq<byte>, cap: nat, st: State, v: Json, gap: seq<byte>, items: Items, o: int)
    requires Ready(js, cap, st, v, o) && v == Arr(gap, items)
    ensures Valid(Behind(st, v, o)) && Goes(js, cap, st, Behind(st, v, o))
    decreases v, 1
  {
    var inner, text := ItemsTokens(items, st.pos + 1 + |gap|), ItemsText(items);
    var first := Inside(st, Array, gap);
    EnterGoes(js, cap, st, Array, gap, o, 0x5B, text + [0x5D], Text(v));
    ThenByte(js, first.pos, text, 0x5D, text + [0x5D]);
    var last := State(first.pos + |text|, |st.toks|, Sized(first.toks, |st.toks|, ItemCount(items)) + inner);
    ItemsGo(js, cap, first, items, |st.toks|, last);
    ItemsClosed(items, first.pos);
    LeaveGoes(js, cap, st, Array, gap, o, ItemCount(items), inner, last, Behind(st, v, o));
    GoesOn(js, cap, st, first, last);
    GoesOn(js, cap, st, last, Behind(st, v, o));
  }

  lemma {:induction false} ObjectGoes(js: seq<byte>, cap: nat, st: State, v: Json, gap: seq<byte>, members: Members, o: int)
    requires Ready(js, cap, st, v, o) && v == Obj(gap, members)
    ensures Valid(Behind(st, v, o)) && Goes(js, cap, st, Behind(st, v, o))
    decreases v, 1
  {
    var inner, text := MembersTokens(members, st.pos + 1 + |gap|), MembersText(members);
    var first := Inside(st, Object, gap);
    EnterGoes(js, cap, st, Object, gap, o, 0x7B, text + [0x7D], Text(v));
    ThenByte(js, first.pos, text, 0x7D, text + [0x7D]);
    var last := MembersGo(js, cap, first, members, |st.toks|, Sized(first.toks, |st.toks|, MemberCount(members)) + inner);
    MembersClosed(members, first.pos);
    LeaveGoes(js, cap, st, Object, gap, o, MemberCount(members), inner, last, Behind(st, v, o));
    GoesOn(js, cap, st, first, last);
    GoesOn(js, cap, st, last, Behind(st, v, o));
  }

  /** An element, and the blanks that follow. */
  lemma {:induction false} ItemGoes(js: seq<byte>, cap: nat, st: State, items: Items, o: nat, end: State)
    requires ItemsReady(js, cap, st, items, o) && items.Item? && end == BehindItem(st, items, o)
    ensures Valid(end) && Goes(js, cap, st, end) && Innermost(end.toks, o)
    ensures items.others.Item? ==> Stands(js, end.pos, [0x2C] + ItemsText(items.others))
    decreases items, 0
  {
    var v, rest := items.value, Rest(items.after, items.others.Item?, ItemsText(items.others));
    StandsSplit(js, st.pos, items.before, Text(v) + rest);
    var first := State(st.pos + |items.before|, o, st.toks);
    BlanksGo(js, cap, st, items.before, first);
    StandsSplit(js, first.pos, Text(v), rest);
    RestEnds(js, first.pos + |Text(v)|, items.after, items.others.Item?, ItemsText(items.others));
    ValueGoes(js, cap, first, v, o);
    var second := Behind(first, v, o);
    StandsSplit(js, second.pos, items.after, if items.others.Item? then [0x2C] + ItemsText(items.others) else []);
    BlanksGo(js, cap, second, items.after, end);
    GoesOn(js, cap, st, first, second);
    GoesOn(js, cap, st, second, end);
  }

  /** What is needed to run over the elements of an array. */
  ghost predicate ItemsReady(js: seq<byte>, cap: nat, st: State, items: Items, o: nat) {
    Valid(st) && FormedItems(items) && st.super == o && Innermost(st.toks, o) &&
    Stands(js, st.pos, ItemsText(items)) && st.pos + |ItemsText(items)| < |js| && js[st.pos + |ItemsText(items)|] == 0x5D &&
    |st.toks| + |ItemsTokens(items, st.pos)| <= cap
  }

  /** The states behind an element, and behind the comma. */
  function BehindItem(st: State, items: Items, o: nat): State
    requires items.Item? && o < |st.toks|
  {
    var q := st.pos + |items.before|;
    State(q + |Text(items.value)| + |items.after|, o, Grown(st.toks, o) + Tokens(items.value, q))
  }

  function AtNextItem(st: State, items: Items, o: nat): State
    requires items.Item? && o < |st.toks|
  {
    var s := BehindItem(st, items, o);
    State(s.pos + 1, o, s.toks)
  }

  lemma {:induction false} NextItem(js: seq<byte>, cap: nat, st: State, items: Items, o: nat)
    requires ItemsReady(js, cap, st, items, o) && items.Item? && items.others.Item?
    ensures ItemsReady(js, cap, AtNextItem(st, items, o), items.others, o) && Goes(js, cap, st, AtNextItem(st, items, o))
    decreases items, 1
  {
    var next, second, others := BehindItem(st, items, o), AtNextItem(st, items, o), ItemsText(items.others);
    ItemGoes(js, cap, st, items, o, next);
    CommaThen(js, cap, next, o, others, second);
    ItemsEnd(st, items, o);
    GoesOn(js, cap, st, next, second);
  }

  lemma {:induction false} ItemsGo(js: seq<byte>, cap: nat, st: State, items: Items, o: nat, end: State)
    requires ItemsReady(js, cap, st, items, o)
    requires end == State(st.pos + |ItemsText(items)|, o, Sized(st.toks, o, ItemCount(items)) + ItemsTokens(items, st.pos))
    ensures Valid(end) && Goes(js, cap, st, end)
    decreases items, 2
  {
    if items.NoItems? {
      SizedNone(st.toks, o);
    } else if items.others.NoItems? {
      OneMore(st.toks, o, Tokens(items.value, st.pos + |items.before|));
      ItemGoes(js, cap, st, items, o, end);
    } else {
      NextItem(js, cap, st, items, o);
      ItemsEnd(st, items, o);
      ItemsGo(js, cap, AtNextItem(st, items, o), items.others, o, end);
      GoesOn(js, cap, st, AtNextItem(st, items, o), end);
    }
  }

  /** The end of the elements is that of the others. */
  lemma ItemsEnd(st: State, items: Items, o: nat)
    requires Valid(st) && items.Item? && items.others.Item? && o < |st.toks|
    ensures var second := AtNextItem(st, items, o);
            st.pos + |ItemsText(items)| == second.pos + |ItemsText(items.others)| &&
            Sized(st.toks, o, ItemCount(items)) + ItemsTokens(items, st.pos)
            == Sized(second.toks, o, ItemCount(items.others)) + ItemsTokens(items.others, second.pos) &&
            |second.toks| + |ItemsTokens(items.others, second.pos)| == |st.toks| + |ItemsTokens(items, st.pos)|
  {
    SizedAgain(st.toks, o, Tokens(items.value, st.pos + |items.before|), ItemCount(items.others),
               ItemsTokens(items.others, AtNextItem(st, items, o).pos));
  }

  lemma OneMore(toks: seq<Token>, o: nat, x: seq<Token>)
    requires o < |toks|
    ensures Grown(toks, o) + x == Sized(toks, o, 1) + (x + [])
  {
  }

  /** The state behind a key, its colon and the blanks after that: the key is the superior token. */
  function BehindKey(st: State, members: Members, o: nat): State
    requires Valid(st) && members.Member? && o < |st.toks|
  {
    var q := st.pos + |members.before|;
    State(q + |Quoted(members.key)| + |members.colon| + 1 + |members.gap|, |st.toks|,
          Grown(st.toks, o) + [Token(String, q + 1, q + 1 + |members.key|, 0)])
  }

  lemma KeyStands(js: seq<byte>, p: nat, before: seq<byte>, key: seq<byte>, colon: seq<byte>, gap: seq<byte>, rest: seq<byte>)
    requires Stands(js, p, before + (Quoted(key) + (colon + ([0x3A] + (gap + rest)))))
    ensures var q := p + |before|; var r := q + |Quoted(key)|; var c := r + |colon|;
            Stands(js, p, before) && Stands(js, q, Quoted(key)) && Stands(js, r, colon) && c < |js| && js[c] == 0x3A &&
            Stands(js, c + 1, gap) && Stands(js, c + 1 + |gap|, rest)
  {
    var q := p + |before|;
    var r := q + |Quoted(key)|;
    var c := r + |colon|;
    StandsSplit(js, p, before, Quoted(key) + (colon + ([0x3A] + (gap + rest))));
    StandsSplit(js, q, Quoted(key), colon + ([0x3A] + (gap + rest)));
    StandsSplit(js, r, colon, [0x3A] + (gap + rest));
    ByteStands(js, c, 0x3A, gap + rest, [0x3A] + (gap + rest));
    StandsSplit(js, c + 1, gap, rest);
  }

  /** A key and its colon. */
  lemma KeyGoes(js: seq<byte>, cap: nat, st: State, members: Members, o: nat, rest: seq<byte>)
    requires Valid(st) && members.Member? && FormedMembers(members) && st.super == o && Innermost(st.toks, o) && |st.toks| < cap
    requires Stands(js, st.pos, members.before + (Quoted(members.key) + (members.colon + ([0x3A] + (members.gap + rest)))))
    ensures Valid(BehindKey(st, members, o)) && Goes(js, cap, st, BehindKey(st, members, o))
    ensures Innermost(BehindKey(st, members, o).toks, o) && Stands(js, BehindKey(st, members, o).pos, rest)
  {
    KeyStands(js, st.pos, members.before, members.key, members.colon, members.gap, rest);
    var q := st.pos + |members.before|;
    var toks := Grown(st.toks, o) + [Token(String, q + 1, q + 1 + |members.key|, 0)];
    var first := State(q, o, st.toks);
    var second := State(q + |Quoted(members.key)|, o, toks);
    BlanksGo(js, cap, st, members.before, first);
    StringGoes(js, cap, first, members.key, second);
    GoesOn(js, cap, st, first, second);
    ColonPart(js, cap, second, members.colon, members.gap, BehindKey(st, members, o));
    GoesOn(js, cap, st, second, BehindKey(st, members, o));
    GrownInnermost(st.toks, o, o, [Token(String, q + 1, q + 1 + |members.key|, 0)]);
  }

  lemma ColonPart(js: seq<byte>, cap: nat, st: State, colon: seq<byte>, gap: seq<byte>, end: State)
    requires Valid(st) && st.toks != [] && Blanks(colon) && Blanks(gap) && Stands(js, st.pos, colon)
    requires st.pos + |colon| < |js| && js[st.pos + |colon|] == 0x3A && Stands(js, st.pos + |colon| + 1, gap)
    requires end == State(st.pos + |colon| + 1 + |gap|, |st.toks| - 1, st.toks)
    ensures Goes(js, cap, st, end)
  {
    var first := State(st.pos + |colon|, st.super, st.toks);
    var second := State(st.pos + |colon| + 1, |st.toks| - 1, st.toks);
    BlanksGo(js, cap, st, colon, first);
    ColonGoes(js, cap, first, second);
    GoesOn(js, cap, st, first, second);
    BlanksGo(js, cap, second, gap, end);
    GoesOn(js, cap, st, second, end);
  }

  /** The state behind a member: the key, with its size, and the value. */
  function BehindMember(st: State, members: Members, o: nat): State
    requires Valid(st) && members.Member? && o < |st.toks|
  {
    var q := st.pos + |members.before|;
    var r := BehindKey(st, members, o).pos;
    State(r + |Text(members.value)| + |members.after|, if IsLeaf(members.value) then |st.toks| else o,
          Grown(st.toks, o) + ([Token(String, q + 1, q + 1 + |members.key|, 1)] + Tokens(members.value, r)))
  }

  lemma KeyGrows(toks: seq<Token>, key: Token, k: nat, more: seq<Token>)
    requires k == |toks|
    ensures Grown(toks + [key], k) + more == toks + ([key.(size := key.size + 1)] + more)
  {
  }

  lemma BehindMemberIs(st: State, members: Members, o: nat)
    requires Valid(st) && members.Member? && st.super == o && Innermost(st.toks, o) && Valid(BehindKey(st, members, o))
    ensures var b := Behind(BehindKey(st, members, o), members.value, o);
            BehindMember(st, members, o) == State(b.pos + |members.after|, b.super, b.toks)
  {
    var q := st.pos + |members.before|;
    KeyGrows(Grown(st.toks, o), Token(String, q + 1, q + 1 + |members.key|, 0), |st.toks|,
             Tokens(members.value, BehindKey(st, members, o).pos));
  }

  /** The text of members is that of the first, from its value on, and of the others. */
  function ValueText(members: Members): seq<byte>
    requires members.Member?
  {
    Text(members.value) + Rest(members.after, members.others.Member?, MembersText(members.others))
  }

  /** What is needed to run over the members of an object. */
  ghost predicate MembersReady(js: seq<byte>, cap: nat, st: State, members: Members, o: nat) {
    Valid(st) && FormedMembers(members) && st.super == o && Innermost(st.toks, o) &&
    Stands(js, st.pos, MembersText(members)) && st.pos + |MembersText(members)| < |js| && js[st.pos + |MembersText(members)|] == 0x7D &&
    |st.toks| + |MembersTokens(members, st.pos)| <= cap
  }

  lemma {:induction false} MemberGoes(js: seq<byte>, cap: nat, st: State, members: Members, o: nat)
    requires MembersReady(js, cap, st, members, o) && members.Member?
    ensures var end := BehindMember(st, members, o);
            Valid(end) && Goes(js, cap, st, end) && Innermost(end.toks, o) &&
            (members.others.Member? ==> Stands(js, end.pos, [0x2C] + MembersText(members.others)))
    decreases members, 0
  {
    var v, more, others := members.value, members.others.Member?, MembersText(members.others);
    KeyGoes(js, cap, st, members, o, ValueText(members));
    var first := BehindKey(st, members, o);
    StandsSplit(js, first.pos, Text(v), Rest(members.after, more, others));
    RestEnds(js, first.pos + |Text(v)|, members.after, more, others);
    ValueGoes(js, cap, first, v, o);
    BehindMemberIs(st, members, o);
    var second, end := Behind(first, v, o), BehindMember(st, members, o);
    StandsSplit(js, second.pos, members.after, if more then [0x2C] + others else []);
    BlanksGo(js, cap, second, members.after, end);
    GoesOn(js, cap, st, first, second);
    GoesOn(js, cap, st, second, end);
  }

  function AtNextMember(st: State, members: Members, o: nat): State
    requires Valid(st) && members.Member? && o < |st.toks|
  {
    var s := BehindMember(st, members, o);
    State(s.pos + 1, o, s.toks)
  }

  lemma {:induction false} NextMember(js: seq<byte>, cap: nat, st: State, members: Members, o: nat, second: State)
    requires MembersReady(js, cap, st, members, o) && members.Member? && members.others.Member? && second == AtNextMember(st, members, o)
    ensures MembersReady(js, cap, second, members.others, o) && Goes(js, cap, st, second)
    decreases members, 1
  {
    var next, others := BehindMember(st, members, o), MembersText(members.others);
    MemberGoes(js, cap, st, members, o);
    SuperIs(st, members, o);
    CommaThen(js, cap, next, o, others, second);
    GoesOn(js, cap, st, next, second);
    MembersEnd(st, members, o, members.others, second, MembersTokens(members.others, second.pos));
    MembersEndAt(st, members, o, second);
  }

  lemma {:induction false} MembersGo(js: seq<byte>, cap: nat, st: State, members: Members, o: nat, toks: seq<Token>) returns (end: State)
    requires MembersReady(js, cap, st, members, o)
    requires toks == Sized(st.toks, o, MemberCount(members)) + MembersTokens(members, st.pos)
    ensures Valid(end) && Goes(js, cap, st, end) && end.pos == st.pos + |MembersText(members)| && end.toks == toks
    decreases members, 2
  {
    if members.NoMembers? {
      SizedNone(st.toks, o);
      end := st;
    } else if members.others.NoMembers? {
      LastMember(st, members, o, BehindMember(st, members, o));
      MemberGoes(js, cap, st, members, o);
      end := BehindMember(st, members, o);
    } else {
      var next := AtNextMember(st, members, o);
      NextMember(js, cap, st, members, o, next);
      MembersEnd(st, members, o, members.others, next, MembersTokens(members.others, next.pos));
      MembersEndAt(st, members, o, next);
      end := MembersGo(js, cap, next, members.others, o, toks);
      GoesOn(js, cap, st, next, end);
    }
  }

  lemma SuperIs(st: State, members: Members, o: nat)
    requires Valid(st) && members.Member? && o < |st.toks|
    ensures var s := BehindMember(st, members, o);
            s.super == o || (0 <= s.super < |s.toks| && !IsBracket(s.toks[s.super].kind))
  {
  }

  /** The tokens of members are those of the first, and of the others. */
  lemma FirstMember(members: Members, p: nat, r: nat, pair: seq<Token>, next: nat, rest: seq<Token>)
    requires members.Member? && r == p + |members.before| + |Quoted(members.key)| + |members.colon| + 1 + |members.gap|
    requires var q := p + |members.before|; pair == [Token(String, q + 1, q + 1 + |members.key|, 1)] + Tokens(members.value, r)
    requires next == r + |Text(members.value)| + |members.after| + 1 && rest == MembersTokens(members.others, next)
    ensures MembersTokens(members, p) == pair + rest && MemberCount(members) == MemberCount(members.others) + 1
  {
    var q := p + |members.before|;
    Regroup([Token(String, q + 1, q + 1 + |members.key|, 1)], Tokens(members.value, r), rest);
  }

  lemma FirstText(members: Members, p: nat, r: nat, next: nat)
    requires members.Member? && r == p + |members.before| + |Quoted(members.key)| + |members.colon| + 1 + |members.gap|
    requires next == r + |Text(members.value)| + |members.after| + 1
    ensures p + |MembersText(members)| == if members.others.NoMembers? then next - 1 else next + |MembersText(members.others)|
  {
  }

  /** The key and the value behind which a member ends. */
  function PairOf(st: State, members: Members, o: nat): seq<Token>
    requires Valid(st) && members.Member? && o < |st.toks|
  {
    var q := st.pos + |members.before|;
    [Token(String, q + 1, q + 1 + |members.key|, 1)] + Tokens(members.value, BehindKey(st, members, o).pos)
  }

  /** One member or element, with these tokens, and n others. */
  lemma SizedFirst(toks: seq<Token>, o: nat, first: seq<Token>, n: nat, rest: seq<Token>, next: seq<Token>, all: seq<Token>)
    requires o < |toks| && next == Grown(toks, o) + first && all == first + rest
    ensures Sized(toks, o, n + 1) + all == Sized(next, o, n) + rest && |next| + |rest| == |toks| + |all|
  {
    SizedAgain(toks, o, first, n, rest);
  }

  lemma BehindPair(st: State, members: Members, o: nat)
    requires Valid(st) && members.Member? && o < |st.toks|
    ensures var s, k := BehindMember(st, members, o), BehindKey(st, members, o);
            s.toks == Grown(st.toks, o) + PairOf(st, members, o) && s.pos == k.pos + |Text(members.value)| + |members.after| &&
            k.pos == st.pos + |members.before| + |Quoted(members.key)| + |members.colon| + 1 + |members.gap|
  {
  }

  lemma LastMember(st: State, members: Members, o: nat, s: State)
    requires Valid(st) && members.Member? && members.others.NoMembers? && o < |st.toks| && s == BehindMember(st, members, o)
    ensures s.toks == Sized(st.toks, o, MemberCount(members)) + MembersTokens(members, st.pos) && s.pos == st.pos + |MembersText(members)|
  {
    var pair, r := PairOf(st, members, o), BehindKey(st, members, o).pos;
    BehindPair(st, members, o);
    FirstMember(members, st.pos, r, pair, s.pos + 1, []);
    FirstText(members, st.pos, r, s.pos + 1);
    SizedFirst(st.toks, o, pair, 0, [], s.toks, MembersTokens(members, st.pos));
    SizedNone(s.toks, o);
  }

  lemma MembersSplit(st: State, members: Members, o: nat, next: nat, pair: seq<Token>, rest: seq<Token>)
    requires Valid(st) && members.Member? && o < |st.toks| && pair == PairOf(st, members, o)
    requires next == BehindMember(st, members, o).pos + 1 && rest == MembersTokens(members.others, next)
    ensures MembersTokens(members, st.pos) == pair + rest && MemberCount(members) == MemberCount(members.others) + 1
  {
    BehindPair(st, members, o);
    FirstMember(members, st.pos, BehindKey(st, members, o).pos, pair, next, rest);
  }

  /** The end of the members is that of the others. */
  lemma MembersEnd(st: State, members: Members, o: nat, others: Members, s: State, rest: seq<Token>)
    requires Valid(st) && members.Member? && others == members.others && o < |st.toks| && s == AtNextMember(st, members, o)
    requires rest == MembersTokens(others, s.pos)
    ensures Sized(st.toks, o, MemberCount(members)) + MembersTokens(members, st.pos) == Sized(s.toks, o, MemberCount(others)) + rest
    ensures |s.toks| + |rest| == |st.toks| + |MembersTokens(members, st.pos)|
  {
    var pair := PairOf(st, members, o);
    BehindPair(st, members, o);
    MembersSplit(st, members, o, s.pos, pair, rest);
    SizedFirst(st.toks, o, pair, MemberCount(others), rest, s.toks, pair + rest);
  }

  lemma MembersEndAt(st: State, members: Members, o: nat, s: State)
    requires Valid(st) && members.Member? && members.others.Member? && o < |st.toks| && s == AtNextMember(st, members, o)
    ensures s.pos + |MembersText(members.others)| == st.pos + |MembersText(members)|
  {
    BehindPair(st, members, o);
    FirstText(members, st.pos, BehindKey(st, members, o).pos, s.pos);
  }

  lemma Regroup<T>(a: seq<T>, b: seq<T>, c: seq<T>)
    ensures a + (b + c) == (a + b) + c
  {
  }

  // ---- Whole texts ----------------------------------------------------------------------------------------------

  /** A text with blanks around it; behind it the input ends, or has a zero. */
  function Input(before: seq<byte>, v: Json, after: seq<byte>, more: seq<byte>): seq<byte> {
    before + (Text(v) + (after + more))
  }

  lemma AfterEnds(js: seq<byte>, p: nat, after: seq<byte>, more: seq<byte>)
    requires Blanks(after) && Stands(js, p, after + more) && p + |after + more| == |js| && (more == [] || more[0] == 0)
    ensures Stands(js, p, after) && AtEnd(js, p + |after|) && Ends(js, p)
  {
    StandsSplit(js, p, after, more);
    if more != [] {
      assert js[p + |after| + 0] == more[0];
    }
    if after != [] {
      assert js[p + 0] == after[0];
    }
  }

  lemma InputStands(js: seq<byte>, before: seq<byte>, text: seq<byte>, after: seq<byte>, more: seq<byte>)
    requires js == before + (text + (after + more)) && Blanks(after) && (more == [] || more[0] == 0)
    ensures var p := |before|; var q := p + |text|;
            Stands(js, 0, before) && Stands(js, p, text) && Ends(js, q) && Stands(js, q, after) && AtEnd(js, q + |after|)
  {
    StandsSplit(js, 0, before, text + (after + more));
    StandsSplit(js, |before|, text, after + more);
    AfterEnds(js, |before| + |text|, after, more);
  }

  /** From a state from which only blanks and a value are left, and behind which the input ends. */
  lemma TextGoes(js: seq<byte>, cap: nat, st: State, v: Json, after: seq<byte>, end: State)
    requires Ready(js, cap, st, v, -1) && st.super == -1 && Blanks(after) && Stands(js, st.pos + |Text(v)|, after)
    requires end == State(st.pos + |Text(v)| + |after|, -1, st.toks + Tokens(v, st.pos))
    ensures Goes(js, cap, st, end) && Innermost(end.toks, -1)
  {
    var second := Behind(st, v, -1);
    ValueGoes(js, cap, st, v, -1);
    BlanksGo(js, cap, second, after, end);
    GoesOn(js, cap, st, second, end);
  }

  lemma TextEnds(js: seq<byte>, cap: nat, end: State)
    requires Valid(end) && AtEnd(js, end.pos) && Innermost(end.toks, -1)
    ensures Run(js, end, cap) == Ok(end)
  {
    InnermostIs(end.toks, |end.toks|, -1, -1);
  }

  /** With enough tokens the parse succeeds, and gives the tokens of the text. */
  lemma TextTokens(before: seq<byte>, v: Json, after: seq<byte>, more: seq<byte>, cap: nat)
    requires Formed(v) && Blanks(before) && Blanks(after) && (more == [] || more[0] == 0) && |Tokens(v, |before|)| <= cap
    ensures Run(Input(before, v, after, more), Init, cap) == Ok(State(|before| + |Text(v)| + |after|, -1, Tokens(v, |before|)))
  {
    var js, p := Input(before, v, after, more), |before|;
    InputStands(js, before, Text(v), after, more);
    var first := State(p, -1, []);
    var end := State(p + |Text(v)| + |after|, -1, [] + Tokens(v, p));
    BlanksGo(js, cap, Init, before, first);
    TextGoes(js, cap, first, v, after, end);
    GoesOn(js, cap, Init, first, end);
    TextEnds(js, cap, end);
    assert [] + Tokens(v, p) == Tokens(v, p);
    assert Guard(0);
  }

  /** With fewer it fails for the lack of them. */
  lemma TextLacksTokens(before: seq<byte>, v: Json, after: seq<byte>, more: seq<byte>, cap: nat)
    requires Formed(v) && Blanks(before) && Blanks(after) && (more == [] || more[0] == 0) && |Tokens(v, |before|)| > cap
    ensures var r := Run(Input(before, v, after, more), Init, cap); r.Error? && r.error == NoMem
  {
    var js, n := Input(before, v, after, more), |Tokens(v, |before|)|;
    TextTokens(before, v, after, more, n);
    SucceedsExactlyWhen(js, n);
    SizingAgrees(js, Init, n);
    SucceedsExactlyWhen(js, cap);
    RunIsJudged(js, Init, cap);
  }

  /** In place: a new parser leaves the text's tokens in the array, and returns their number. */
  method ParseText(tokens: array<Token>, js: seq<byte>, ghost before: seq<byte>, ghost v: Json, ghost after: seq<byte>, ghost more: seq<byte>)
    returns (r: int)
    requires Formed(v) && Blanks(before) && Blanks(after) && (more == [] || more[0] == 0)
    requires js == Input(before, v, after, more)
    modifies tokens
    ensures var t := Tokens(v, |before|);
            if |t| <= tokens.Length then r == |t| && tokens[..|t|] == t else r == -1
  {
    if |Tokens(v, |before|)| <= tokens.Length {
      TextTokens(before, v, after, more, tokens.Length);
    } else {
      TextLacksTokens(before, v, after, more, tokens.Length);
    }
    var parser := new JsmnParser();
    r := parser.Parse(js, tokens, tokens.Length);
  }

  // ---- Which strings and primitives there are ---------------------------------------------------------------------

  lemma {:induction false} HexFound(js: seq<byte>, p: nat, n: nat, q: nat)
    requires ScanHex(js, p, n) == Found(q)
    ensures AtEnd(js, q) || (q == p + n <= |js| && forall i | p <= i < q :: HexDigit(js[i])) || n == 0
    decreases n
  {
    if n > 0 && q != p {
      HexFound(js, p + 1, n - 1, q);
    }
  }

  lemma UnicodeFound(js: seq<byte>, p: nat, four: nat, e: nat)
    requires four == 4 && p + 1 < |js| && js[p] == 0x5C && js[p + 1] == 0x75 && ScanString(js, p) == Found(e)
    ensures p + 6 <= |js| && HexDigit(js[p + 2]) && HexDigit(js[p + 3]) && HexDigit(js[p + 4]) && HexDigit(js[p + 5])
    ensures ScanString(js, p + 6) == Found(e)
  {
    var h := ScanHex(js, p + 2, four);
    HexFound(js, p + 2, four, h.end);
  }

  lemma SliceRest(js: seq<byte>, p: nat, e: nat, n: nat)
    requires p + n <= e <= |js|
    ensures js[p..e][n..] == js[p + n..e] && forall i | 0 <= i < n :: js[p..e][i] == js[p + i]
  {
  }

  lemma {:induction false} FoundIsBody(js: seq<byte>, p: nat, e: nat)
    requires ScanString(js, p) == Found(e)
    ensures p <= e < |js| && js[e] == 0x22 && Body(js[p..e])
    decreases |js| - p
  {
    if js[p] == 0x22 {
      assert js[p..e] == [];
    } else if js[p] == 0x5C && p + 1 < |js| {
      if js[p + 1] == 0x75 {
        UnicodeFound(js, p, 4, e);
        FoundIsBody(js, p + 6, e);
        SliceRest(js, p, e, 6);
      } else {
        FoundIsBody(js, p + 2, e);
        SliceRest(js, p, e, 2);
      }
    } else {
      FoundIsBody(js, p + 1, e);
      SliceRest(js, p, e, 1);
    }
  }

  /** The tokenizer finds the strings of the grammar, and no others. */
  lemma StringExactly(js: seq<byte>, p: nat, e: nat)
    ensures ScanString(js, p) == Found(e) <==> p <= e < |js| && js[e] == 0x22 && Body(js[p..e])
  {
    if ScanString(js, p) == Found(e) {
      FoundIsBody(js, p, e);
    } else if p <= e < |js| && js[e] == 0x22 && Body(js[p..e]) {
      SliceRest(js, p, e, e - p);
      BodyScans(js, p, js[p..e]);
    }
  }

  /** A primitive goes up to what ends it, if its characters are visible ones of ASCII. */
  lemma {:induction false} PrimitiveExactly(js: seq<byte>, p: nat, e: nat)
    requires p <= |js|
    ensures ScanPrimitive(js, p) == Found(e) <==>
            p <= e <= |js| && Ends(js, e) && forall i | p <= i < e :: !Ends(js, i) && 0x20 <= js[i] < 0x7F
    decreases |js| - p
  {
    if p < |js| {
      EndsBoth(js, p);
      PrimitiveExactly(js, p + 1, e);
    }
  }

  lemma EndsBoth(js: seq<byte>, p: nat)
    ensures Ends(js, p) <==> AtEnd(js, p) || EndsPrimitive(js[p])
  {
    if p < |js| {
      assert [js[p]][0] == js[p];
    }
  }
}
