/** What the lexer hands to the parser (crates/csilgen-core/src/lexer.rs), without positions. */
module Tokens {
  import opened Bytes
  import A = Ast

  /** `Other` stands for the tokens that mean nothing inside a type expression (keywords, service
      arrows, the signs of rules) and for text that does not lex as meant; `Comparison(Eq)` is `=`.
      Documentation comments are not part of the model. */
  datatype Token =
    | LeftBrace | RightBrace | LeftBracket | RightBracket | LeftParen | RightParen
    | Comma | Colon | Arrow | Dot
    | Slash | DoubleSlash | Range | RangeInclusive
    | Optional | ZeroOrMore | OneOrMore
    | LiteralControl(op: A.LiteralOp) | PlainControl(plain: A.PlainOp) | RegexControl | SizeControl
    | BitsControl | AndControl | WithinControl
    | At(at: AtKind) | Comparison(comparison: A.CompareOp) | Ampersand | Pipe
    | Socket(lexeme: string) | Plug(lexeme: string)
    | Integer(i: i64) | Float(bits: nat) | TextString(s: string) | ByteString(b: seq<byte>)
    | Identifier(name: string) | Builtin(name: string) | Other(lexeme: string)
    | Comment(text: string) | Whitespace(text: string) | Newline
    | Eof

  /** What stands behind an `@`. */
  datatype AtKind =
    | AtVisibility(visibility: A.Visibility)
    | AtDependsOn
    | AtDescription
    | AtSizeBound(bound: A.SizeBound)
    | AtValueLimit(limit: A.ValueLimit)
    | AtCustom(name: string)

  type Input = seq<Token>

  datatype ParseError =
    | ExpectedToken(expected: string, found: Token)
    | ExpectedIdentifier(found: Token, context: string)
    | MetadataError(found: Token)

  const BUILTINS := {"int", "uint", "nint", "text", "tstr", "bytes", "bstr", "bool", "true", "false", "null",
    "undefined", "float", "float16", "float32", "float64", "any", "timestamp", "decimal"}

  const KEYWORDS := {"service", "options", "include", "from", "as"}

  /** The control operators, by the word behind their dot. */
  const OPERATORS: map<string, Token> := map[
    "size" := SizeControl, "regex" := RegexControl, "regexp" := RegexControl,
    "default" := LiteralControl(A.Default), "ge" := LiteralControl(A.GreaterEqual),
    "le" := LiteralControl(A.LessEqual), "gt" := LiteralControl(A.GreaterThan),
    "lt" := LiteralControl(A.LessThan), "eq" := LiteralControl(A.Equal), "ne" := LiteralControl(A.NotEqual),
    "bits" := BitsControl, "and" := AndControl, "within" := WithinControl,
    "json" := PlainControl(A.Json), "cbor" := PlainControl(A.Cbor), "cborseq" := PlainControl(A.Cborseq)]

  /** The annotations with a meaning of their own, by the word behind their `@`. */
  const ANNOTATIONS: map<string, AtKind> := map[
    "send-only" := AtVisibility(A.SendOnly), "receive-only" := AtVisibility(A.ReceiveOnly),
    "bidirectional" := AtVisibility(A.Bidirectional), "depends-on" := AtDependsOn, "description" := AtDescription,
    "min-length" := AtSizeBound(A.MinLength), "max-length" := AtSizeBound(A.MaxLength),
    "min-items" := AtSizeBound(A.MinItems), "max-items" := AtSizeBound(A.MaxItems),
    "min-value" := AtValueLimit(A.MinValue), "max-value" := AtValueLimit(A.MaxValue)]

  /** How an `@` with this word lexes. */
  function AtWord(word: string): Token {
    if !IsWordText(word) then Other(word)
    else At(if word in ANNOTATIONS then ANNOTATIONS[word] else AtCustom(word))
  }

  predicate SpellsOperator(word: string) {
    word in OPERATORS
  }

  function Operator(word: string): Token
    requires SpellsOperator(word)
  {
    OPERATORS[word]
  }

  predicate IsLetter(c: char) {
    'a' <= c <= 'z' || 'A' <= c <= 'Z' || c == '_'
  }

  predicate IsDigit(c: char) {
    '0' <= c <= '9'
  }

  predicate IsWordText(s: string) {
    forall c | c in s :: IsLetter(c) || IsDigit(c) || c == '-'
  }

  /** The digits at the front of `s`. */
  function Digits(s: string): (k: nat)
    ensures k <= |s|
  {
    if s == [] || !IsDigit(s[0]) then 0 else 1 + Digits(s[1..])
  }

  /** Text that lexes as one word: not a number, nor a number with something behind it. */
  predicate IsWord(w: string) {
    && w != "" && IsWordText(w)
    && var unsigned := if w[0] == '-' then w[1..] else w;
       var k := Digits(unsigned);
       k > 0 ==> k < |unsigned| && IsLetter(unsigned[k])
  }

  /** How the text of a name lexes. */
  function Word(w: string): Token {
    if w in BUILTINS then Builtin(w) else if w in KEYWORDS || !IsWord(w) then Other(w) else Identifier(w)
  }

  /** What the escapes of a printed text lex to; nothing if the text does not end where it is meant to,
      at a quote of its own or an escaped one. */
  function Unescaped(s: string): Option<string> {
    if s == "" then Some("")
    else if s[0] == '"' then None
    else if s[0] != '\\' then
      var rest := Unescaped(s[1..]);
      if rest.Some? then Some([s[0]] + rest.value) else None
    else if |s| == 1 then None
    else
      var rest := Unescaped(s[2..]);
      if rest.Some? then Some(Escape(s[1]) + rest.value) else None
  }

  /** The text of a backslash and the character behind it. */
  function Escape(c: char): string {
    if c == 'n' then "\n"
    else if c == 't' then "\t"
    else if c == 'r' then "\r"
    else if c == '\\' || c == '"' then [c]
    else ['\\', c]
  }

  /** How a text literal that is printed without escapes lexes. */
  function Quoted(s: string): Token {
    match Unescaped(s)
    case Some(text) => TextString(text)
    case None => Other(s)
  }

  predicate IsName(w: string) {
    Word(w).Identifier?
  }

  predicate IsTrivia(t: Token) {
    t.Whitespace? || t.Comment? || t.Newline?
  }

  /** The next token; nothing stands behind the end of the file. */
  function Peek(ts: Input): Token {
    if ts == [] then Eof else ts[0]
  }

  function Skip(ts: Input): (rest: Input)
    ensures |rest| <= |ts| && !IsTrivia(Peek(rest))
  {
    if ts != [] && IsTrivia(ts[0]) then Skip(ts[1..]) else ts
  }

  lemma SkipOne(t: Token, rest: Input)
    ensures Peek([t] + rest) == t && ([t] + rest)[1..] == rest
    ensures IsTrivia(t) ==> Skip([t] + rest) == Skip(rest)
    ensures !IsTrivia(t) ==> Skip([t] + rest) == [t] + rest
  {
    assert ([t] + rest)[1..] == rest;
  }

  lemma SkipNothing(ts: Input)
    requires !IsTrivia(Peek(ts))
    ensures Skip(ts) == ts
  {
  }

  function DebugName(t: Token): string {
    match t
    case LeftBrace => "LeftBrace"
    case RightBrace => "RightBrace"
    case LeftBracket => "LeftBracket"
    case RightBracket => "RightBracket"
    case RightParen => "RightParen"
    case Colon => "Colon"
    case Arrow => "Arrow"
    case Comparison(Eq) => "Assign"
    case _ => ""
  }

  /** No other token has the name of `expected`. */
  function Consume(ts: Input, expected: Token): (r: Result<Input, ParseError>)
    requires DebugName(expected) != ""
    ensures r.Ok? ==> |r.value| < |ts|
  {
    if Peek(ts) == expected then Ok(ts[1..]) else Err(ExpectedToken(DebugName(expected), Peek(ts)))
  }
}
