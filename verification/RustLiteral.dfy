/**
 The string-literal reader of the fingerprint build script (build_fingerprint.rs), over
 characters with byte offsets.
 */
module RustLiteral {
  import opened Wrappers
  import Text

  // Bytes of a character in UTF-8.
  function Width(c: char): nat {
    var n := c as int;
    if n < 0x80 then 1 else if n < 0x800 then 2 else if n < 0x1_0000 then 3 else 4
  }

  function ByteLength(s: string): nat {
    if s == "" then 0 else Width(s[0]) + ByteLength(s[1..])
  }

  function Unescaped(c: char): char {
    if c == 'n' then '\n' else if c == 'r' then '\r' else if c == 't' then '\t' else c
  }

  // A run of plain characters and backslash pairs.
  predicate IsBody(s: string) {
    s == ""
    || (s[0] == '\\' && |s| >= 2 && IsBody(s[2..]))
    || (s[0] != '\\' && s[0] != '"' && IsBody(s[1..]))
  }

  function Decoded(s: string): string
    requires IsBody(s)
  {
    if s == "" then ""
    else if s[0] == '\\' then [Unescaped(s[1])] + Decoded(s[2..])
    else [s[0]] + Decoded(s[1..])
  }

  // Where the body that starts a text ends, if a quote closes it.
  function BodyEnd(s: string): Option<nat> {
    if s == "" then None
    else if s[0] == '"' then Some(0)
    else
      var step := if s[0] == '\\' then 2 else 1;
      if |s| < step then None
      else
        var end := BodyEnd(s[step..]);
        if end.None? then None else Some(end.value + step)
  }

  function Literal(source: string): Option<(string, nat)> {
    if source == "" || source[0] != '"' then None
    else
      var end := BodyEnd(source[1..]);
      if end.None? then None
      else
        BodyEndIsQuote(source[1..], end.value);
        Some((Decoded(source[1..][..end.value]), ByteLength(source[..end.value + 2])))
  }

  // The end found is the first quote that is not escaped: the text before it is a body, and
  // no other split of the text has that form.
  lemma {:induction false} BodyEndIsQuote(s: string, n: nat)
    ensures BodyEnd(s) == Some(n) <==> n < |s| && s[n] == '"' && IsBody(s[..n])
    decreases |s|
  {
    if s != "" && s[0] != '"' {
      var step := if s[0] == '\\' then 2 else 1;
      if step <= |s| && step <= n {
        BodyEndIsQuote(s[step..], n - step);
        if n <= |s| { assert s[..n][step..] == s[step..][..n - step]; }
      }
    }
  }

  // The reader succeeds exactly on a quote, a body and a closing quote.
  lemma LiteralIff(source: string, body: string, rest: string)
    ensures IsBody(body) ==>
              Literal("\"" + body + "\"" + rest) == Some((Decoded(body), ByteLength("\"" + body + "\"")))
    ensures Literal(source).Some? <==>
              exists n: nat :: n + 1 < |source| && source[0] == '"' && source[n + 1] == '"' && IsBody(source[1..][..n])
  {
    if IsBody(body) {
      var s := "\"" + body + "\"" + rest;
      assert s[1..] == body + "\"" + rest && s[1..][..|body|] == body;
      BodyEndIsQuote(s[1..], |body|);
      assert s[..|body| + 2] == "\"" + body + "\"";
    }
    if Literal(source).Some? {
      var n := BodyEnd(source[1..]).value;
      BodyEndIsQuote(source[1..], n);
      assert source[n + 1] == '"';
    }
    if exists n: nat :: n + 1 < |source| && source[0] == '"' && source[n + 1] == '"' && IsBody(source[1..][..n]) {
      var n: nat :| n + 1 < |source| && source[0] == '"' && source[n + 1] == '"' && IsBody(source[1..][..n]);
      BodyEndIsQuote(source[1..], n);
    }
  }

  // The three escapes that stand for something else, and the bytes of a character.
  lemma CharactersExactly(c: char)
    ensures Unescaped('n') == '\n' && Unescaped('r') == '\r' && Unescaped('t') == '\t'
    ensures c !in "nrt" ==> Unescaped(c) == c
    ensures c <= '\U{7F}' ==> Width(c) == 1
    ensures '\U{80}' <= c <= '\U{7FF}' ==> Width(c) == 2
    ensures '\U{800}' <= c <= '\U{FFFF}' ==> Width(c) == 3
    ensures '\U{10000}' <= c ==> Width(c) == 4
  {}

  // ---------- The loop ----------

  lemma {:induction false} BodyConcat(a: string, b: string)
    requires IsBody(a) && IsBody(b)
    ensures IsBody(a + b) && Decoded(a + b) == Decoded(a) + Decoded(b)
  {
    if a == "" {
      assert a + b == b;
    } else {
      var step := if a[0] == '\\' then 2 else 1;
      var token, rest := a[..step], a[step..];
      BodyConcat(rest, b);
      PrependToken(token, rest, b, Decoded(b));
      assert a == token + rest;
    }
  }

  function TokenValue(token: string): char
    requires token != ""
  {
    if |token| == 1 then token[0] else Unescaped(token[1])
  }

  predicate IsToken(token: string) {
    if |token| == 1 then token[0] != '\\' && token[0] != '"' else |token| == 2 && token[0] == '\\'
  }

  lemma PrependToken(token: string, rest: string, b: string, decoded: string)
    requires IsToken(token) && IsBody(rest) && IsBody(rest + b)
    requires Decoded(rest + b) == Decoded(rest) + decoded
    ensures IsBody(token + rest) && IsBody(token + rest + b)
    ensures Decoded(token + rest + b) == Decoded(token + rest) + decoded
  {
    BodyToken(token, rest);
    BodyToken(token, rest + b);
    Text.Associative(token, rest, b);
    Text.Associative([TokenValue(token)], Decoded(rest), decoded);
  }

  // A body is a first token and a body.
  lemma BodyToken(token: string, rest: string)
    requires IsBody(rest)
    requires IsToken(token)
    ensures IsBody(token + rest)
    ensures Decoded(token + rest) == [TokenValue(token)] + Decoded(rest)
  {
    assert (token + rest)[|token|..] == rest;
  }

  lemma {:induction false} BodyEndAfter(a: string, b: string)
    requires IsBody(a)
    ensures BodyEnd(a + b) == if BodyEnd(b).None? then None else Some(|a| + BodyEnd(b).value)
  {
    if a == "" {
      assert a + b == b;
    } else {
      var step := if a[0] == '\\' then 2 else 1;
      assert (a + b)[step..] == a[step..] + b;
      BodyEndAfter(a[step..], b);
    }
  }

  lemma {:induction false} ByteLengthConcat(a: string, b: string)
    ensures ByteLength(a + b) == ByteLength(a) + ByteLength(b)
  {
    if a == "" {
      assert a + b == b;
    } else {
      assert (a + b)[1..] == a[1..] + b;
      ByteLengthConcat(a[1..], b);
    }
  }

  lemma ByteLengthStep(s: string, i: nat)
    requires i < |s|
    ensures ByteLength(s[..i + 1]) == ByteLength(s[..i]) + Width(s[i])
  {
    assert s[..i + 1] == s[..i] + [s[i]];
    ByteLengthConcat(s[..i], [s[i]]);
    assert [s[i]][1..] == "";
  }

  // One token more in the body read so far.
  lemma BodyStep(s: string, i: nat, step: nat)
    requires i + step <= |s| && IsBody(s[..i])
    requires (step == 1 && s[i] != '\\' && s[i] != '"') || (step == 2 && s[i] == '\\')
    ensures IsBody(s[..i + step])
    ensures Decoded(s[..i + step]) == Decoded(s[..i]) + [if step == 1 then s[i] else Unescaped(s[i + 1])]
  {
    var token := s[i..i + step];
    assert token[step..] == "";
    assert IsBody(token);
    assert s[..i + step] == s[..i] + token;
    BodyConcat(s[..i], token);
  }

  method RustStringLiteral(source: string) returns (r: Option<(string, nat)>)
    ensures r == Literal(source)
  {
    if |source| == 0 || source[0] != '"' {
      return None;
    }
    var value := "";
    var escaped := false;
    var offset := 1;
    ghost var s := source[1..];
    assert source[..1] == "\"" && "\""[1..] == "";
    for i := 1 to |source|
      invariant offset == ByteLength(source[..i])
      invariant escaped ==> i >= 2 && source[i - 1] == '\\'
      invariant var n := if escaped then i - 2 else i - 1;
                IsBody(s[..n]) && value == Decoded(s[..n])
    {
      var character := source[i];
      ByteLengthStep(source, i);
      ghost var n := if escaped then i - 2 else i - 1;
      if escaped {
        BodyStep(s, n, 2);
        value := value + [Unescaped(character)];
        escaped := false;
      } else if character == '\\' {
        escaped := true;
      } else if character == '"' {
        BodyEndIsQuote(s, n);
        return Some((value, offset + Width(character)));
      } else {
        BodyStep(s, n, 1);
        value := value + [character];
      }
      offset := offset + Width(character);
    }
    ghost var n := if escaped then |s| - 1 else |s|;
    assert s == s[..n] + s[n..];
    BodyEndAfter(s[..n], s[n..]);
    return None;
  }

  // ---------- Round trip ----------

  function Escaped(c: char): string {
    if c == '\n' then "\\n" else if c == '\r' then "\\r" else if c == '\t' then "\\t"
    else if c == '"' then "\\\"" else if c == '\\' then "\\\\" else [c]
  }

  function Escape(value: string): string {
    if value == "" then "" else Escaped(value[0]) + Escape(value[1..])
  }

  lemma {:induction false} EscapeIsBody(value: string)
    ensures IsBody(Escape(value)) && Decoded(Escape(value)) == value
  {
    if value != "" {
      EscapeIsBody(value[1..]);
      BodyToken(Escaped(value[0]), Escape(value[1..]));
    }
  }

  // Every string survives being written as a literal, whatever text follows it.
  lemma EscapeRoundTrip(value: string, rest: string)
    ensures Literal("\"" + Escape(value) + "\"" + rest)
         == Some((value, ByteLength("\"" + Escape(value) + "\"")))
  {
    EscapeIsBody(value);
    LiteralIff("", Escape(value), rest);
  }
}
