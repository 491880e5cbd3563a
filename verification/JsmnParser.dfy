/** The tokenizer as the program has it: a parser whose fields move over the input while tokens are
    filled in place, or only counted when there is no token array. */
module Jsmn {
  import opened Bits
  import opened Folding
  import opened JsmnSpec

  function Code(e: Error): int {
    match e
    case NoMem => -1
    case Inval => -2
    case Part => -3
  }

  /** The parser went from one state to the next character's, or stopped where it was. The position
      itself moves past the last character of the lexeme only in the loop of Parse. */
  predicate Took(o: Outcome, code: int, before: State, after: State) {
    match o
    case Next(st) => code == 0 && st == after.(pos := after.pos + 1)
    case Fail(e) => code == Code(e) && after == before
  }

  predicate Tallied(t: Tally, code: int, count: nat, pos: nat) {
    match t
    case More(q, n) => code == 0 && n == count && q == pos + 1
    case Stop(e) => code == Code(e)
  }

  predicate Scanned(r: Scan, code: int, pos: nat) {
    match r
    case Found(end) => code == 0 && pos == end
    case Bad(e) => code == Code(e)
  }

  /** A lexeme that ended as r was recorded as a token, with the position left at last; or nothing changed. */
  predicate Recorded(r: Scan, t: Token, last: int, cap: nat, before: State, code: int, after: State) {
    if r.Bad? then code == Code(r.error) && after == before
    else if |before.toks| >= cap then code == Code(NoMem) && after == before
    else code == 0 && after == State(after.pos, before.super, before.toks + [t]) && after.pos == last
  }

  predicate Sized(c: Count, code: int) {
    match c
    case Counted(n) => code == n
    case CountError(e) => code == Code(e)
  }

  predicate Parsed(r: Result, code: int, after: State) {
    match r
    case Ok(st) => code == |st.toks| && after == st
    case Error(e, st) => code == Code(e) && after == st
  }

  function EndOf(r: Scan): nat {
    if r.Found? then r.end else 0
  }

  class JsmnParser {
    var pos: nat
    var toknext: nat
    var toksuper: int

    constructor ()
      ensures pos == 0 && toknext == 0 && toksuper == -1
    {
      pos := 0;
      toknext := 0;
      toksuper := -1;
    }

    ghost predicate Fits(tokens: array?<Token>, numTokens: nat)
      reads this
    {
      tokens != null ==> numTokens <= tokens.Length && toknext <= tokens.Length && -1 <= toksuper < toknext
    }

    /** Nothing beyond the tokens in use has changed. */
    ghost predicate Untouched(tokens: array<Token>, before: seq<Token>)
      reads this, tokens
    {
      |before| == tokens.Length && forall k | toknext <= k < tokens.Length :: tokens[k] == before[k]
    }

    ghost function Abs(tokens: array<Token>): State
      requires toknext <= tokens.Length
      reads this, tokens
    {
      State(pos, toksuper, tokens[..toknext])
    }

    // ---- Lexemes ----------------------------------------------------------------------------------

    /** The digits of a \u escape; the position is left on the last one. */
    method SkipHex(js: seq<byte>) returns (code: int)
      requires 0 < pos <= |js|
      modifies this`pos
      ensures ScanHex(js, old(pos), 4).Found? ==> code == 0 && pos + 1 == ScanHex(js, old(pos), 4).end
      ensures ScanHex(js, old(pos), 4).Bad? ==> code == Code(Inval)
    {
      var i := 0;
      code := 0;
      while i < 4 && pos < |js| && js[pos] != 0
        invariant 0 <= i <= 4 && old(pos) <= pos <= |js|
        invariant ScanHex(js, pos, 4 - i) == ScanHex(js, old(pos), 4)
      {
        if !(48 <= js[pos] <= 57 || 65 <= js[pos] <= 70 || 97 <= js[pos] <= 102) {
          code := -2;
          return;
        }
        pos := pos + 1;
        i := i + 1;
      }
      pos := pos - 1;
    }

    /** One character of a string, an escape counting as one. */
    method StringCharacter(js: seq<byte>) returns (code: int)
      requires pos < |js| && js[pos] != 0 && js[pos] != 0x22
      modifies this`pos
      ensures code == 0 ==> old(pos) <= pos < |js| && ScanString(js, old(pos)) == ScanString(js, pos + 1)
      ensures code != 0 ==> ScanString(js, old(pos)) == Bad(Inval) && code == Code(Inval)
    {
      code := 0;
      if js[pos] == 0x5C && pos + 1 < |js| {
        pos := pos + 1;
        var c := js[pos];
        if c == 0x22 || c == 0x2F || c == 0x5C || c == 0x62 || c == 0x66 || c == 0x72 || c == 0x6E || c == 0x74 {
        } else if c == 0x75 {
          pos := pos + 1;
          code := SkipHex(js);
        } else {
          code := -2;
        }
      }
    }

    /** To the closing quote of the string whose opening quote is at the position. */
    method FindQuote(js: seq<byte>) returns (code: int)
      requires pos < |js|
      modifies this`pos
      ensures Scanned(ScanString(js, old(pos) + 1), code, pos)
    {
      pos := pos + 1;
      while pos < |js| && js[pos] != 0
        invariant old(pos) < pos <= |js|
        invariant ScanString(js, pos) == ScanString(js, old(pos) + 1)
        decreases |js| - pos
      {
        if js[pos] == 0x22 {
          code := 0;
          return;
        }
        code := StringCharacter(js);
        if code != 0 {
          return;
        }
        pos := pos + 1;
      }
      code := -3;
    }

    method AllocToken(tokens: array<Token>, numTokens: nat) returns (i: int)
      requires numTokens <= tokens.Length && toknext <= tokens.Length
      modifies this`toknext, tokens
      ensures i == -1 <==> old(toknext) >= numTokens
      ensures i == -1 ==> toknext == old(toknext) && tokens[..] == old(tokens[..])
      ensures i != -1 ==> i == old(toknext) && toknext == i + 1 && toknext <= tokens.Length
      ensures i != -1 ==> tokens[i].start == -1 && tokens[i].end == -1 && tokens[i].size == 0
      ensures forall k | 0 <= k < tokens.Length && k != i :: tokens[k] == old(tokens[k])
    {
      if toknext >= numTokens {
        return -1;
      }
      i := toknext;
      toknext := toknext + 1;
      tokens[i] := tokens[i].(start := -1, end := -1, size := 0);
    }

    /** Allocates and fills the token of a string or primitive. */
    method FillToken(tokens: array<Token>, numTokens: nat, kind: Kind, start: nat, end: nat) returns (code: int)
      requires numTokens <= tokens.Length && toknext <= tokens.Length
      modifies this`toknext, tokens
      ensures old(toknext) <= toknext <= tokens.Length && Untouched(tokens, old(tokens[..]))
      ensures old(toknext) >= numTokens ==> code == Code(NoMem) && tokens[..toknext] == old(tokens[..toknext])
      ensures old(toknext) < numTokens ==> code == 0 && tokens[..toknext] == old(tokens[..toknext]) + [Token(kind, start, end, 0)]
    {
      var i := AllocToken(tokens, numTokens);
      if i == -1 {
        return -1;
      }
      tokens[i] := Token(kind, start, end, 0);
      code := 0;
    }

    /** A string, from its opening quote; the position is left on the closing one, or on the opening
        one after an error. */
    method ParseString(js: seq<byte>, tokens: array?<Token>, numTokens: nat) returns (code: int)
      requires pos < |js| && Fits(tokens, numTokens)
      modifies this`pos, this`toknext, tokens
      ensures Fits(tokens, numTokens)
      ensures tokens == null ==> toknext == old(toknext) && Scanned(ScanString(js, old(pos) + 1), code, pos)
      ensures tokens != null ==>
                var r := ScanString(js, old(pos) + 1);
                Recorded(r, Token(String, old(pos) + 1, EndOf(r), 0), EndOf(r), numTokens, old(Abs(tokens)), code, Abs(tokens))
      ensures tokens != null ==> toknext >= old(toknext) && Untouched(tokens, old(tokens[..]))
    {
      var start := pos;
      code := FindQuote(js);
      if code == 0 && tokens != null {
        code := FillToken(tokens, numTokens, String, start + 1, pos);
      }
      if code != 0 {
        pos := start;
      }
    }

    /** To the character after the primitive that starts at the position. */
    method FindEnd(js: seq<byte>) returns (code: int)
      requires pos < |js|
      modifies this`pos
      ensures Scanned(ScanPrimitive(js, old(pos)), code, pos)
    {
      while pos < |js| && js[pos] != 0
        invariant old(pos) <= pos <= |js|
        invariant ScanPrimitive(js, pos) == ScanPrimitive(js, old(pos))
      {
        var c := js[pos];
        if c == 0x3A || c == 0x09 || c == 0x0D || c == 0x0A || c == 0x20 || c == 0x2C || c == 0x5D || c == 0x7D {
          break;
        }
        if c < 32 || c >= 127 {
          code := -2;
          return;
        }
        pos := pos + 1;
      }
      code := 0;
    }

    /** A primitive; the position is left on its last character, or on its first after an error. */
    method ParsePrimitive(js: seq<byte>, tokens: array?<Token>, numTokens: nat) returns (code: int)
      requires !AtEnd(js, pos) && !EndsPrimitive(js[pos]) && Fits(tokens, numTokens)
      modifies this`pos, this`toknext, tokens
      ensures Fits(tokens, numTokens)
      ensures tokens == null ==> toknext == old(toknext) && Scanned(ScanPrimitive(js, old(pos)), code, pos + 1)
      ensures tokens != null ==>
                var r := ScanPrimitive(js, old(pos));
                Recorded(r, Token(Primitive, old(pos), EndOf(r), 0), EndOf(r) - 1, numTokens, old(Abs(tokens)), code, Abs(tokens))
      ensures tokens != null ==> toknext >= old(toknext) && Untouched(tokens, old(tokens[..]))
    {
      var start := pos;
      code := FindEnd(js);
      if code == 0 && tokens != null {
        code := FillToken(tokens, numTokens, Primitive, start, pos);
      }
      pos := if code == 0 then pos - 1 else start;
    }

    // ---- Brackets and separators --------------------------------------------------------------------

    /** Adds one to the size of the superior token. */
    method GrowSuper(tokens: array<Token>)
      requires toknext <= tokens.Length && -1 <= toksuper < toknext
      modifies tokens
      ensures tokens[..toknext] == Grown(old(tokens[..toknext]), toksuper)
      ensures Untouched(tokens, old(tokens[..]))
    {
      if toksuper != -1 {
        tokens[toksuper] := tokens[toksuper].(size := tokens[toksuper].size + 1);
      }
    }

    method OpenBracketToken(tokens: array<Token>, numTokens: nat, kind: Kind) returns (code: int)
      requires Fits(tokens, numTokens)
      modifies this`toknext, this`toksuper, tokens
      ensures Fits(tokens, numTokens)
      ensures Took(OpenBracket(old(Abs(tokens)), kind, numTokens), code, old(Abs(tokens)), Abs(tokens))
      ensures toknext == (if code == 0 then old(toknext) + 1 else old(toknext)) && Untouched(tokens, old(tokens[..]))
    {
      var i := AllocToken(tokens, numTokens);
      if i == -1 {
        return -1;
      }
      ghost var before := old(tokens[..toknext]);
      if toksuper != -1 {
        tokens[toksuper] := tokens[toksuper].(size := tokens[toksuper].size + 1);
      }
      tokens[i] := tokens[i].(kind := kind, start := pos);
      toksuper := toknext - 1;
      code := 0;
      assert tokens[..toknext] == tokens[..i] + [tokens[i]];
      assert tokens[..i] == Grown(before, old(toksuper));
    }

    /** The last open token below n. */
    method FindOpen(tokens: array<Token>, n: nat) returns (i: int)
      requires n <= toknext <= tokens.Length
      ensures i == LastOpen(tokens[..toknext], n)
    {
      i := n - 1;
      while i >= 0
        invariant -1 <= i < n
        invariant LastOpen(tokens[..toknext], i + 1) == LastOpen(tokens[..toknext], n)
      {
        if tokens[i].start != -1 && tokens[i].end == -1 {
          break;
        }
        i := i - 1;
      }
    }

    method CloseBracketToken(tokens: array<Token>, numTokens: nat, kind: Kind) returns (code: int)
      requires Fits(tokens, numTokens)
      modifies this`toksuper, tokens
      ensures Fits(tokens, numTokens)
      ensures Took(CloseBracket(old(Abs(tokens)), kind), code, old(Abs(tokens)), Abs(tokens))
      ensures Untouched(tokens, old(tokens[..]))
    {
      var i := FindOpen(tokens, toknext);
      if i == -1 || tokens[i].kind != kind {
        return -2;
      }
      tokens[i] := tokens[i].(end := pos + 1);
      assert tokens[..toknext] == old(tokens[..toknext])[i := tokens[i]];
      toksuper := FindOpen(tokens, i + 1);
      code := 0;
    }

    /** After a comma, a key is no longer the superior token: the innermost open bracket is again. */
    method CommaToken(tokens: array<Token>, numTokens: nat)
      requires Fits(tokens, numTokens)
      modifies this`toksuper
      ensures Fits(tokens, numTokens)
      ensures Took(Next(Comma(old(Abs(tokens)))), 0, old(Abs(tokens)), Abs(tokens))
    {
      if toksuper != -1 && tokens[toksuper].kind != Array && tokens[toksuper].kind != Object {
        var i := toknext - 1;
        while i >= 0
          invariant -1 <= i < toknext && toksuper == old(toksuper)
          invariant LastOpenBracket(tokens[..toknext], i + 1, toksuper) == LastOpenBracket(tokens[..toknext], toknext, toksuper)
        {
          if tokens[i].kind == Array || tokens[i].kind == Object {
            if tokens[i].start != -1 && tokens[i].end == -1 {
              toksuper := i;
              break;
            }
          }
          i := i - 1;
        }
      }
    }

    // ---- The main loop ---------------------------------------------------------------------------------

    /** A bracket of the switch. */
    method BracketCharacter(js: seq<byte>, tokens: array<Token>, numTokens: nat, count: nat) returns (code: int, count': nat)
      requires Fits(tokens, numTokens) && !AtEnd(js, pos) && js[pos] in {0x7B, 0x5B, 0x7D, 0x5D}
      modifies this, tokens
      ensures Fits(tokens, numTokens)
      ensures Took(Step(js, old(Abs(tokens)), numTokens), code, old(Abs(tokens)), Abs(tokens))
      ensures code == 0 ==> count' - count == toknext - old(toknext)
      ensures toknext >= old(toknext) && Untouched(tokens, old(tokens[..]))
    {
      count' := count;
      var c := js[pos];
      if c == 0x7B || c == 0x5B {
        count' := count + 1;
        code := OpenBracketToken(tokens, numTokens, if c == 0x7B then Object else Array);
      } else {
        code := CloseBracketToken(tokens, numTokens, if c == 0x7D then Object else Array);
      }
    }

    /** A string or a primitive of the switch. */
    method LeafCharacter(js: seq<byte>, tokens: array<Token>, numTokens: nat, count: nat) returns (code: int, count': nat)
      requires Fits(tokens, numTokens) && !AtEnd(js, pos)
      requires js[pos] !in {0x7B, 0x5B, 0x7D, 0x5D, 0x09, 0x0D, 0x0A, 0x20, 0x3A, 0x2C}
      modifies this, tokens
      ensures Fits(tokens, numTokens)
      ensures Took(Step(js, old(Abs(tokens)), numTokens), code, old(Abs(tokens)), Abs(tokens))
      ensures code == 0 ==> count' - count == toknext - old(toknext)
      ensures toknext >= old(toknext) && Untouched(tokens, old(tokens[..]))
    {
      count' := count;
      if js[pos] == 0x22 {
        code := ParseString(js, tokens, numTokens);
      } else {
        code := ParsePrimitive(js, tokens, numTokens);
      }
      if code >= 0 {
        count' := count + 1;
        GrowSuper(tokens);
      }
    }

    /** The switch of the loop for a parse that fills tokens. */
    method Character(js: seq<byte>, tokens: array<Token>, numTokens: nat, count: nat) returns (code: int, count': nat)
      requires Fits(tokens, numTokens) && !AtEnd(js, pos)
      modifies this, tokens
      ensures Fits(tokens, numTokens)
      ensures Took(Step(js, old(Abs(tokens)), numTokens), code, old(Abs(tokens)), Abs(tokens))
      ensures code == 0 ==> count' - count == toknext - old(toknext)
      ensures toknext >= old(toknext) && Untouched(tokens, old(tokens[..]))
    {
      code, count' := 0, count;
      var c := js[pos];
      if c == 0x7B || c == 0x5B || c == 0x7D || c == 0x5D {
        code, count' := BracketCharacter(js, tokens, numTokens, count);
      } else if c == 0x09 || c == 0x0D || c == 0x0A || c == 0x20 {
      } else if c == 0x3A {
        toksuper := toknext - 1;
      } else if c == 0x2C {
        CommaToken(tokens, numTokens);
      } else {
        code, count' := LeafCharacter(js, tokens, numTokens, count);
      }
    }

    /** The switch of the loop for the sizing pass. */
    method CountCharacter(js: seq<byte>, count: nat) returns (code: int, count': nat)
      requires !AtEnd(js, pos)
      modifies this
      ensures Tallied(CountStep(js, old(pos), count), code, count', pos) && toknext == old(toknext)
    {
      code, count' := 0, count;
      var c := js[pos];
      if c == 0x7B || c == 0x5B {
        count' := count + 1;
      } else if c == 0x7D || c == 0x5D {
      } else if c == 0x22 {
        code := ParseString(js, null, 0);
        count' := count + 1;
      } else if c == 0x09 || c == 0x0D || c == 0x0A || c == 0x20 {
      } else if c == 0x3A {
        toksuper := toknext - 1;
      } else if c == 0x2C {
      } else {
        code := ParsePrimitive(js, null, 0);
        count' := count + 1;
      }
    }

    /** What a parse from here on comes to, if a sizing pass comes to total, or a parse to whole. */
    ghost predicate Comes(js: seq<byte>, tokens: array?<Token>, numTokens: nat, count: nat, total: Count, whole: Result)
      reads this, tokens
    {
      Fits(tokens, numTokens) &&
      forall g: nat :: Guard(g) ==>
        if tokens == null then CountRun(js, pos, count) == total else count == toknext && Run(js, Abs(tokens), numTokens) == whole
    }

    /** The parse has ended with this result. */
    ghost predicate Came(tokens: array?<Token>, numTokens: nat, total: Count, whole: Result, code: int)
      reads this, tokens
    {
      Fits(tokens, numTokens) && if tokens == null then Sized(total, code) else Parsed(whole, code, Abs(tokens))
    }

    /** A turn of the loop without a token array. */
    method CountTurn(js: seq<byte>, count: nat, ghost total: Count, ghost whole: Result) returns (code: int, count': nat)
      requires Comes(js, null, 0, count, total, whole) && !AtEnd(js, pos)
      modifies this
      ensures toknext == old(toknext)
      ensures if code >= 0 then pos > old(pos) && Comes(js, null, 0, count', total, whole) else Came(null, 0, total, whole, code)
    {
      assert Guard(0);
      code, count' := CountCharacter(js, count);
      if code >= 0 {
        pos := pos + 1;
      }
    }

    /** A turn of the loop that fills tokens. */
    method TokenTurn(js: seq<byte>, tokens: array<Token>, numTokens: nat, count: nat, ghost total: Count, ghost whole: Result)
      returns (code: int, count': nat)
      requires Comes(js, tokens, numTokens, count, total, whole) && !AtEnd(js, pos)
      modifies this, tokens
      ensures toknext >= old(toknext) && Untouched(tokens, old(tokens[..]))
      ensures if code >= 0 then pos > old(pos) && Comes(js, tokens, numTokens, count', total, whole)
              else Came(tokens, numTokens, total, whole, code)
    {
      assert Guard(0);
      ghost var st := Abs(tokens);
      StepAdvances(js, st, numTokens);
      code, count' := Character(js, tokens, numTokens, count);
      if code >= 0 {
        pos := pos + 1;
      }
    }

    /** The end of the input: an open token is an error. */
    method FinishParse(js: seq<byte>, tokens: array?<Token>, numTokens: nat, count: nat, ghost total: Count, ghost whole: Result)
      returns (r: int)
      requires Comes(js, tokens, numTokens, count, total, whole) && AtEnd(js, pos)
      ensures Came(tokens, numTokens, total, whole, r)
    {
      assert Guard(0);
      if tokens != null {
        var i := FindOpen(tokens, toknext);
        if i >= 0 {
          return -3;
        }
      }
      r := count;
    }

    /** Parses on from where the parser stands. With a token array the result, the tokens and the parser's
        state are those of Run; without one the number of tokens, or the error, is that of the sizing pass. */
    method Parse(js: seq<byte>, tokens: array?<Token>, numTokens: nat) returns (r: int)
      requires Fits(tokens, numTokens)
      modifies this, tokens
      ensures Fits(tokens, numTokens)
      ensures tokens == null ==> Sized(CountRun(js, old(pos), old(toknext)), r) && toknext == old(toknext)
      ensures tokens != null ==> Parsed(Run(js, old(Abs(tokens)), numTokens), r, Abs(tokens))
      ensures tokens != null ==> toknext >= old(toknext) && Untouched(tokens, old(tokens[..]))
    {
      var count := toknext;
      ghost var total := CountRun(js, pos, toknext);
      ghost var whole := if tokens == null then Ok(Init) else Run(js, Abs(tokens), numTokens);
      while pos < |js| && js[pos] != 0
        invariant Comes(js, tokens, numTokens, count, total, whole)
        invariant tokens == null ==> toknext == old(toknext)
        invariant tokens != null ==> toknext >= old(toknext) && Untouched(tokens, old(tokens[..]))
        decreases |js| - pos
      {
        var code;
        if tokens == null {
          code, count := CountTurn(js, count, total, whole);
        } else {
          code, count := TokenTurn(js, tokens, numTokens, count, total, whole);
        }
        if code < 0 {
          return code;
        }
      }
      r := FinishParse(js, tokens, numTokens, count, total, whole);
    }
  }
}
