/** jsmn.h working in place: the parser's fields and the caller's token array. */
module Jsmn {
  import opened JsmnSpec
  import opened JsmnFacts

  /** `for (i = n - 1; i >= 0; i--)` down to the first open token. */
  method FindOpen(tokens: array<Tok>, n: nat, ghost made: nat) returns (i: int)
    requires n <= made <= tokens.Length
    ensures i == LastOpen(tokens[..made], n)
  {
    i := n - 1;
    while i >= 0 && !IsOpen(tokens[i])
      invariant -1 <= i < n && LastOpen(tokens[..made], n) == LastOpen(tokens[..made], i + 1)
    {
      i := i - 1;
    }
  }

  /** The same for open objects and arrays. */
  method FindContainer(tokens: array<Tok>, n: nat) returns (i: int)
    requires n <= tokens.Length
    ensures i == LastOpenContainer(tokens[..n], n)
  {
    i := n - 1;
    while i >= 0 && !(IsContainer(tokens[i]) && IsOpen(tokens[i]))
      invariant -1 <= i < n && LastOpenContainer(tokens[..n], n) == LastOpenContainer(tokens[..n], i + 1)
    {
      i := i - 1;
    }
  }

  class Parser {
    var pos: nat
    var toknext: nat
    var toksuper: int

    constructor ()
      ensures pos == 0 && toknext == 0 && toksuper == -1
    {
      pos, toknext, toksuper := 0, 0, -1;
    }

    ghost predicate Valid(tokens: array<Tok>)
      reads this
    {
      toknext <= tokens.Length && -1 <= toksuper < toknext
    }

    /** The parser's state, with the tokens made so far. */
    ghost function View(tokens: array<Tok>): (st: St)
      requires Valid(tokens)
      reads this, tokens
      ensures st.Valid()
    {
      St(pos, tokens[..toknext], toksuper)
    }

    /** jsmn_alloc_token and jsmn_fill_token. */
    method NewToken(tokens: array<Tok>, ty: Type, start: nat, end: int) returns (ok: bool)
      requires Valid(tokens)
      modifies this`toknext, tokens
      ensures ok <==> old(toknext) < tokens.Length
      ensures Valid(tokens)
      ensures !ok ==> View(tokens) == old(View(tokens))
      ensures ok ==>
                toknext == old(toknext) + 1 && tokens[..toknext] == old(tokens[..toknext]) + [Tok(ty, start, end, 0)]
    {
      if toknext >= tokens.Length {
        return false;
      }
      tokens[toknext] := Tok(ty, start, end, 0);
      toknext := toknext + 1;
      return true;
    }

    /** `tokens[toksuper].size++`, if there is a superior token. */
    method CountChild(tokens: array<Tok>)
      requires Valid(tokens)
      modifies tokens
      ensures tokens[..toknext] == Bump(old(tokens[..toknext]), toksuper)
    {
      if toksuper != -1 {
        var t := tokens[toksuper];
        tokens[toksuper] := t.(size := t.size + 1);
      }
    }

    /** The digits of \uXXXX. */
    method SkipHex(js: string) returns (ok: bool)
      requires pos <= |js|
      modifies this`pos
      ensures pos <= |js|
      ensures ok <==> HexDigits(js, old(pos), 4).Close?
      ensures ok ==> HexDigits(js, old(pos), 4) == Close(pos)
    {
      var i := 0;
      while i < 4 && pos < |js| && js[pos] != '\0'
        invariant 0 <= i <= 4 && pos <= |js|
        invariant HexDigits(js, pos, 4 - i) == HexDigits(js, old(pos), 4)
      {
        if !Hex(js[pos]) {
          return false;
        }
        pos := pos + 1;
        i := i + 1;
      }
      return true;
    }

    /** jsmn_parse_string's loop: on Close, pos stands at the closing quote. */
    method FindQuote(js: string) returns (r: Scan)
      requires pos < |js|
      modifies this`pos
      ensures r == ScanString(js, old(pos) + 1)
      ensures pos == if r.Close? then r.at else old(pos)
    {
      var start := pos;
      pos := pos + 1;
      while pos < |js| && js[pos] != '\0'
        invariant start < pos <= |js| && ScanString(js, pos) == ScanString(js, start + 1)
      {
        var c := js[pos];
        if c == '"' {
          return Close(pos);
        }
        if c == '\\' && pos + 1 < |js| {
          pos := pos + 1;
          if js[pos] == 'u' {
            pos := pos + 1;
            var ok := SkipHex(js);
            if !ok {
              pos := start;
              return BadChar;
            }
          } else if SimpleEscape(js[pos]) {
            pos := pos + 1;
          } else {
            pos := start;
            return BadChar;
          }
        } else {
          pos := pos + 1;
        }
      }
      pos := start;
      return Cut;
    }

    /** jsmn_parse_primitive's loop: on Close, pos stands after the primitive. */
    method FindEnd(js: string) returns (r: Scan)
      requires pos <= |js|
      modifies this`pos
      ensures r == ScanPrimitive(js, old(pos))
      ensures pos == if r.Close? then r.at else old(pos)
    {
      var start := pos;
      while pos < |js| && js[pos] != '\0'
        invariant start <= pos <= |js| && ScanPrimitive(js, pos) == ScanPrimitive(js, start)
      {
        if Delimiter(js[pos]) {
          return Close(pos);
        }
        if !Printable(js[pos]) {
          pos := start;
          return BadChar;
        }
        pos := pos + 1;
      }
      return Close(pos);
    }

    /** A turn of jsmn_parse at an opening bracket. */
    method OpenBracket(tokens: array<Tok>, ty: Type) returns (r: Result)
      requires Valid(tokens)
      modifies this, tokens
      ensures Valid(tokens) && Does(OpenTurn(tokens.Length, old(View(tokens)), ty), old(View(tokens)), View(tokens), r)
    {
      var ok := NewToken(tokens, ty, pos, -1);
      if !ok {
        return NoMem;
      }
      CountChild(tokens);
      toksuper := toknext - 1;
      pos := pos + 1;
      assert tokens[..toknext] == Bump(old(tokens[..toknext]), old(toksuper)) + [Tok(ty, old(pos), -1, 0)];
      return Count(0);
    }

    /** A turn at a closing bracket. */
    method CloseBracket(tokens: array<Tok>, ty: Type) returns (r: Result)
      requires Valid(tokens)
      modifies this, tokens
      ensures Valid(tokens) && Does(CloseTurn(old(View(tokens)), ty), old(View(tokens)), View(tokens), r)
    {
      var i := FindOpen(tokens, toknext, toknext);
      if i == -1 || tokens[i].ty != ty {
        return Inval;
      }
      var next := FindOpen(tokens, i, toknext);
      tokens[i] := tokens[i].(end := pos + 1);
      toksuper := next;
      pos := pos + 1;
      return Count(0);
    }

    /** A turn that makes a string or a primitive. */
    method Leaf(js: string, tokens: array<Tok>, quoted: bool) returns (r: Result)
      requires Valid(tokens) && More(js, pos)
      modifies this, tokens
      ensures Valid(tokens)
      ensures quoted ==> Does(StringTurn(js, tokens.Length, old(View(tokens))), old(View(tokens)), View(tokens), r)
      ensures !quoted ==> Does(PrimitiveTurn(js, tokens.Length, old(View(tokens))), old(View(tokens)), View(tokens), r)
    {
      var start := pos;
      var s;
      if quoted {
        s := FindQuote(js);
      } else {
        s := FindEnd(js);
      }
      if s.BadChar? {
        return Inval;
      }
      if s.Cut? {
        return Part;
      }
      var ok;
      if quoted {
        ok := NewToken(tokens, String, start + 1, pos);
      } else {
        ok := NewToken(tokens, Primitive, start, pos);
      }
      if !ok {
        pos := start;
        return NoMem;
      }
      CountChild(tokens);
      ghost var t := if quoted then Tok(String, start + 1, s.at, 0) else Tok(Primitive, start, s.at, 0);
      assert tokens[..toknext] == Bump(old(tokens[..toknext]), old(toksuper)) + [t];
      if quoted {
        pos := pos + 1;
      }
      return Count(0);
    }

    /** A turn at a comma. */
    method Comma(tokens: array<Tok>)
      requires Valid(tokens)
      modifies this
      ensures Valid(tokens) && CommaTurn(old(View(tokens))) == Go(View(tokens))
    {
      if toksuper != -1 && !IsContainer(tokens[toksuper]) {
        var i := FindContainer(tokens, toknext);
        if i != -1 {
          toksuper := i;
        }
      }
      pos := pos + 1;
    }

    /** One turn of jsmn_parse's loop. */
    method Turn(js: string, tokens: array<Tok>) returns (r: Result)
      requires Valid(tokens) && More(js, pos)
      modifies this, tokens
      ensures Valid(tokens) && Does(Step(js, tokens.Length, old(View(tokens))), old(View(tokens)), View(tokens), r)
    {
      var c := js[pos];
      r := Count(0);
      if c == '{' || c == '[' {
        r := OpenBracket(tokens, if c == '{' then Object else Array);
      } else if c == '}' || c == ']' {
        r := CloseBracket(tokens, if c == '}' then Object else Array);
      } else if c == '"' {
        r := Leaf(js, tokens, true);
      } else if Space(c) {
        pos := pos + 1;
      } else if c == ':' {
        toksuper := toknext - 1;
        pos := pos + 1;
      } else if c == ',' {
        Comma(tokens);
      } else {
        r := Leaf(js, tokens, false);
      }
    }

    /** jsmn_parse with a token array. */
    method Parse(js: string, tokens: array<Tok>) returns (r: Result)
      requires Valid(tokens)
      modifies this, tokens
      ensures Valid(tokens) && (r, View(tokens)) == Run(js, tokens.Length, old(View(tokens)))
    {
      var count := toknext;
      while pos < |js| && js[pos] != '\0'
        invariant Valid(tokens) && count == toknext
        invariant Run(js, tokens.Length, View(tokens)) == Run(js, tokens.Length, old(View(tokens)))
        decreases |js| - pos
      {
        ghost var st := View(tokens);
        StepAdvances(js, tokens.Length, st);
        var made := toknext;
        r := Turn(js, tokens);
        if !r.Count? {
          return;
        }
        if toknext > made {
          count := count + 1;
        }
      }
      var i := FindOpen(tokens, toknext, toknext);
      if i != -1 {
        return Part;
      }
      return Count(count);
    }

    /** jsmn_parse with tokens NULL. */
    method CountTokens(js: string) returns (r: Result)
      modifies this
      ensures r == RunCount(js, old(pos), old(toknext))
    {
      var count := toknext;
      while pos < |js| && js[pos] != '\0'
        invariant RunCount(js, pos, count) == RunCount(js, old(pos), old(toknext))
        decreases |js| - pos
      {
        var c := js[pos];
        if c == '"' {
          var s := FindQuote(js);
          if !s.Close? {
            return if s.BadChar? then Inval else Part;
          }
          count := count + 1;
          pos := pos + 1;
        } else if c == '{' || c == '[' {
          count := count + 1;
          pos := pos + 1;
        } else if c == ':' {
          toksuper := toknext - 1;
          pos := pos + 1;
        } else if c == '}' || c == ']' || Space(c) || c == ',' {
          pos := pos + 1;
        } else {
          var s := FindEnd(js);
          if !s.Close? {
            return if s.BadChar? then Inval else Part;
          }
          count := count + 1;
        }
      }
      return Count(count);
    }
  }

  /** A turn went from st to st', or stopped with an error and left st. */
  ghost predicate Does(t: JsmnSpec.Turn, st: St, st': St, r: Result) {
    match t
    case Go(s) => r == Count(0) && st' == s
    case Halt(e) => r == e && !e.Count? && st' == st
  }
}
