/** Parsing what was printed, for literals and the conditions of `@depends-on`: which printed ones are
    read, as what, and which come back as themselves. */
module ConditionRoundTrip {
  import opened Bytes
  import opened Ast
  import opened Tokens
  import opened AnnotationParser
  import opened AnnotationPrinter

  // ---- words -----------------------------------------------------------------------------------------

  /** The first token of a type or a literal: no trivia, no mark that means something before it. */
  predicate Opens(t: Token) {
    t.Builtin? || t.Identifier? || t.LeftBrace? || t.LeftBracket? || t.Socket? || t.Plug? || t.Integer? || t.TextString?
    || t.ByteString?
  }

  /** A delimiter ends an entry, with or without white space before it. */
  predicate IsDelimiter(t: Token) {
    t in {Comma, RightBrace, RightBracket, RightParen}
  }

  lemma OpensIsNoTrivia()
    ensures forall t :: Opens(t) ==> !IsTrivia(t)
  {
  }

  lemma OpensSkips(ts: Input)
    requires Opens(Peek(ts))
    ensures Skip(ts) == ts && !IsDelimiter(Peek(ts)) && Peek(ts) != Eof
  {
  }

  lemma NoDotInBuiltins(name: string)
    requires name in BUILTINS
    ensures '.' !in name && Word(name) == Token.Builtin(name)
  {
  }

  lemma WholeName(name: string, rest: Input)
    requires '.' !in name
    ensures PrintName(name, rest) == [Word(name)] + rest
  {
    hide Word;
    assert FirstDot(name) == |name| && name[..|name|] == name && name[|name|..] == "";
  }

  lemma NamePart(w: string)
    requires IsName(w)
    ensures Word(w) == Identifier(w) && '.' !in w
  {
  }

  lemma KeyToken(name: string)
    requires IsKeyName(name)
    ensures Word(name) == Identifier(name) || Word(name) == Token.Builtin(name)
    ensures '.' !in name
  {
    hide IsWord;
    if name in BUILTINS {
      NoDotInBuiltins(name);
    } else {
      NamePart(name);
    }
  }

  lemma WordIsNoTrivia(w: string)
    ensures !IsTrivia(Word(w)) && (Word(w).Identifier? || Word(w).Builtin? || Word(w).Other?)
  {
  }

  // ---- literals ----------------------------------------------------------------------------------------

  /** A printed literal is read with its texts as they lex. */
  lemma {:induction false} LiteralReads(lit: LiteralValue, rest: Input)
    requires LexesLiteral(lit)
    ensures ParseLiteral(PrintLiteral(lit, rest)) == Ok((ReadLiteral(lit), rest))
    ensures Opens(Peek(PrintLiteral(lit, rest)))
    decreases lit, 0
  {
    hide ParseElements, PrintElements, ReadElements, Skip, Unescaped;
    match lit {
      case List(elements) =>
        var close := [RightBracket] + rest;
        SkipOne(LeftBracket, PrintElements(elements, close));
        SkipOne(RightBracket, rest);
        ElementsRead(elements, rest);
      case _ => SkipOne(Peek(PrintLiteral(lit, rest)), rest);
    }
  }

  lemma {:induction false} ElementsRead(elements: seq<LiteralValue>, rest: Input)
    requires forall e | e in elements :: LexesLiteral(e)
    ensures var text := PrintElements(elements, [RightBracket] + rest);
            Skip(text) == text && ParseElements(text) == Ok((ReadElements(elements), [RightBracket] + rest))
    decreases elements, 1
  {
    hide ParseLiteral, PrintLiteral, ParseElements, ReadLiteral, Skip, LexesLiteral, Opens;
    var close := [RightBracket] + rest;
    SkipOne(RightBracket, rest);
    if elements == [] {
      NoElements(close);
    } else {
      var more := PrintMoreElements(elements[1..], close);
      var first := ReadLiteral(elements[0]);
      LiteralReads(elements[0], more);
      OpensSkips(PrintLiteral(elements[0], more));
      if elements[1..] != [] {
        var text := PrintElements(elements[1..], close);
        assert more == [Comma] + ([SPACE] + text);
        SkipOne(Comma, [SPACE] + text);
        SkipOne(SPACE, text);
        ElementsRead(elements[1..], rest);
        OneElement(PrintLiteral(elements[0], more), first, more);
      } else {
        OneElement(PrintLiteral(elements[0], more), first, more);
        assert ReadElements(elements) == [first];
      }
    }
  }

  lemma NoElements(ts: Input)
    requires Peek(ts) == RightBracket
    ensures ParseElements(ts) == Ok(([], ts))
  {
  }

  /** One element read, the list goes on behind a comma and ends anywhere else. */
  lemma OneElement(text: Input, e: LiteralValue, behind: Input)
    requires Opens(Peek(text)) && ParseLiteral(text) == Ok((e, behind)) && Skip(behind) == behind
    ensures Peek(behind) != Comma ==> ParseElements(text) == Ok(([e], behind))
    ensures Peek(behind) == Comma && ParseElements(Skip(behind[1..])).Ok? ==>
              var (more, left) := ParseElements(Skip(behind[1..])).value;
              ParseElements(text) == Ok(([e] + more, left))
  {
    hide ParseLiteral, Skip;
  }

  /** A literal without floats and with texts that end where they are meant to comes back exactly when
      all its texts lex as themselves. */
  lemma {:induction false} LiteralComesBack(lit: LiteralValue)
    ensures FaithfulLiteral(lit) <==> LexesLiteral(lit) && ReadLiteral(lit) == lit
    decreases lit, 0
  {
    hide ReadElements, Unescaped;
    match lit {
      case List(elements) => ElementsComeBack(elements);
      case _ =>
    }
  }

  lemma {:induction false} ElementsComeBack(elements: seq<LiteralValue>)
    ensures (forall e | e in elements :: FaithfulLiteral(e))
       <==> (forall e | e in elements :: LexesLiteral(e)) && ReadElements(elements) == elements
    decreases elements, 1
  {
    hide ReadLiteral, LexesLiteral, FaithfulLiteral;
    if elements != [] {
      LiteralComesBack(elements[0]);
      ElementsComeBack(elements[1..]);
      assert elements == [elements[0]] + elements[1..];
      assert ReadElements(elements)[1..] == ReadElements(elements[1..]);
    }
  }

  lemma {:induction false} LiteralRoundTrip(lit: LiteralValue, rest: Input)
    requires FaithfulLiteral(lit)
    ensures ParseLiteral(PrintLiteral(lit, rest)) == Ok((lit, rest))
    ensures Opens(Peek(PrintLiteral(lit, rest)))
  {
    hide *;
    LiteralComesBack(lit);
    LiteralReads(lit, rest);
  }

  // ---- field paths ---------------------------------------------------------------------------------------

  lemma {:induction false} PathReads(path: string, parts: string, rest: Input)
    requires (parts != "" ==> parts[0] == '.') && AreFieldNames(parts) && Peek(rest) != Dot
    ensures ParsePath(path, PrintParts(parts, rest)) == Ok((path + parts, rest))
    decreases |parts|
  {
    hide Word, ParsePath, IsKeyName, SpellsOperator, FirstPart, MoreParts;
    if parts == "" {
      assert path + parts == path;
      PathEnds(path, rest);
    } else {
      var part, more := FirstPart(parts), MoreParts(parts);
      KeyToken(part);
      PathReads(path + "." + part, more, rest);
      PathGoesOn(path, part, PrintParts(more, rest));
      assert path + parts == path + "." + part + more;
    }
  }

  lemma PathEnds(path: string, rest: Input)
    requires Peek(rest) != Dot
    ensures ParsePath(path, rest) == Ok((path, rest))
  {
  }

  lemma PathGoesOn(path: string, part: string, behind: Input)
    requires Word(part) == Identifier(part) || Word(part) == Token.Builtin(part)
    ensures ParsePath(path, [Dot] + ([Word(part)] + behind)) == ParsePath(path + "." + part, behind)
  {
    hide Word, Skip;
    WordIsNoTrivia(part);
    SkipOne(Word(part), behind);
    assert ([Dot] + ([Word(part)] + behind))[1..] == [Word(part)] + behind;
  }

  /** A token that goes on no condition and ends none. */
  predicate StopsHere(t: Token) {
    t !in {Ampersand, Pipe, RightParen, Dot} && !t.Comparison? && !IsTrivia(t)
  }

  /** What was read fails, here or at what comes next. */
  predicate Stuck<T>(r: Parsed<T>) {
    r.Ok? ==> StopsHere(Peek(r.value.1))
  }

  lemma OperatorStops(word: string)
    requires SpellsOperator(word)
    ensures StopsHere(Operator(word))
  {
  }

  lemma {:induction false} PathSticks(path: string, parts: string, rest: Input)
    requires (parts != "" ==> parts[0] == '.') && !AreFieldNames(parts)
    ensures Stuck(ParsePath(path, PrintParts(parts, rest)))
    decreases |parts|
  {
    hide Word, SpellsOperator, FirstPart, MoreParts, Operator, StopsHere;
    var part, more := FirstPart(parts), MoreParts(parts);
    if SpellsOperator(part) {
      OperatorStops(part);
      StopEndsPath(path, Operator(part), PrintParts(more, rest));
    } else if !IsKeyName(part) {
      BadPartFails(path, part, PrintParts(more, rest));
    } else {
      KeyToken(part);
      PathSticks(path + "." + part, more, rest);
      PathGoesOn(path, part, PrintParts(more, rest));
    }
  }

  lemma StopEndsPath(path: string, t: Token, behind: Input)
    requires StopsHere(t)
    ensures Stuck(ParsePath(path, [t] + behind))
  {
  }

  lemma BadPartFails(path: string, part: string, behind: Input)
    requires Word(part).Other?
    ensures ParsePath(path, [Dot] + ([Word(part)] + behind)).Err?
  {
    hide Word, Skip;
    WordIsNoTrivia(part);
    SkipOne(Word(part), behind);
    assert ([Dot] + ([Word(part)] + behind))[1..] == [Word(part)] + behind;
  }

  // ---- comparisons ---------------------------------------------------------------------------------------

  /** What may stand behind a comparison. */
  predicate EndsTerm(rest: Input) {
    Peek(rest) != Dot && Peek(Skip(rest)) in {Ampersand, Pipe, RightParen}
  }

  lemma {:induction false} ComparisonReads(c: Condition, rest: Input)
    requires ReadableAtom(c) && LexesCondition(c) && EndsTerm(rest)
    ensures var text := PrintCondition(c, rest);
            && Skip(text) == text && ParseComparison(text).Ok?
            && ParseComparison(text).value.0 == ReadAtom(c) && Skip(ParseComparison(text).value.1) == Skip(rest)
  {
    hide Word, FirstDot, AreFieldNames, PrintParts, ParsePath, ParseLiteral, PrintLiteral, ReadLiteral, LexesLiteral,
      Skip, IsPathText, PrintOperand;
    var k := FirstDot(c.field);
    var behind := PrintOperand(c.op, c.value, rest);
    var parts := PrintParts(c.field[k..], behind);
    OperandReads(c.op, c.value, rest);
    KeyToken(c.field[..k]);
    WordIsNoTrivia(c.field[..k]);
    SkipOne(Word(c.field[..k]), parts);
    PathReads(c.field[..k], c.field[k..], behind);
    assert c.field[..k] + c.field[k..] == c.field;
    SkipNothing(Skip(rest));
  }

  lemma {:induction false} OperandReads(op: Option<CompareOp>, value: Option<LiteralValue>, rest: Input)
    requires LexesOperand(value) && EndsTerm(rest)
    ensures var behind := PrintOperand(op, value, rest);
            && Peek(behind) != Dot
            && if op.None? || value.None? then behind == rest && !Peek(Skip(behind)).Comparison?
               else
                 && Peek(Skip(behind)) == Comparison(op.value)
                 && ParseLiteral(Skip(Skip(behind)[1..])) == Ok((ReadLiteral(value.value), rest))
  {
    hide ParseLiteral, PrintLiteral, ReadLiteral, LexesLiteral, Skip, Opens;
    if op.Some? && value.Some? {
      var text := PrintLiteral(value.value, rest);
      LiteralReads(value.value, rest);
      OpensSkips(text);
      SkipOne(SPACE, [Comparison(op.value)] + ([SPACE] + text));
      SkipOne(Comparison(op.value), [SPACE] + text);
      SkipOne(SPACE, text);
    }
  }

  /** A comparison that is missing, or whose field is no path. */
  lemma {:induction false} AtomSticks(c: Condition, rest: Input)
    requires IsAtom(c) && !ReadableAtom(c) && EndsTerm(rest)
    ensures Stuck(ParseComparison(Skip(PrintCondition(c, rest))))
  {
    hide Word, FirstDot, AreFieldNames, PrintParts, ParsePath, ParseLiteral, Skip, PrintOperand;
    if c.Compare? {
      var k := FirstDot(c.field);
      var behind := PrintOperand(c.op, c.value, rest);
      var parts := PrintParts(c.field[k..], behind);
      WordIsNoTrivia(c.field[..k]);
      SkipOne(Word(c.field[..k]), parts);
      if IsKeyName(c.field[..k]) {
        KeyToken(c.field[..k]);
        PathSticks(c.field[..k], c.field[k..], behind);
        StuckPath(Word(c.field[..k]), parts);
      }
    }
  }

  lemma StuckPath(t: Token, parts: Input)
    requires (t.Identifier? || t.Builtin?) && Stuck(ParsePath(t.name, parts))
    ensures Stuck(ParseComparison([t] + parts))
  {
    hide ParsePath, ParseLiteral, Skip;
    assert ([t] + parts)[1..] == parts;
    if ParsePath(t.name, parts).Ok? {
      SkipNothing(ParsePath(t.name, parts).value.1);
    }
  }

  // ---- conjunctions --------------------------------------------------------------------------------------

  /** Comparisons without parts that do not lex. */
  predicate AreAtoms(atoms: seq<Condition>) {
    forall c | c in atoms :: IsAtom(c) && LexesCondition(c)
  }

  lemma MoreSkips(ts: Input)
    ensures ParseMoreComparisons(ts) == ParseMoreComparisons(Skip(ts))
    ensures ParseMoreConjunctions(ts) == ParseMoreConjunctions(Skip(ts))
  {
    hide Skip, ParseComparison, ParseConjunction;
    SkipNothing(Skip(ts));
  }

  lemma MarkEnds(mark: Token, rest: Input)
    requires mark == Ampersand || mark == Pipe
    ensures EndsTerm([SPACE] + ([mark] + rest)) && Skip([SPACE] + ([mark] + rest)) == [mark] + rest
    ensures ([mark] + rest)[1..] == rest
  {
    hide Skip;
    SkipOne(SPACE, [mark] + rest);
    SkipOne(mark, rest);
  }

  lemma MoreTermsEnd(terms: seq<Condition>, mark: Token, rest: Input)
    requires EndsTerm(rest) && (mark == Ampersand || mark == Pipe)
    ensures EndsTerm(PrintMoreTerms(terms, mark, rest))
  {
    hide Skip, EndsTerm, PrintCondition;
    if terms != [] {
      MarkEnds(mark, [SPACE] + PrintCondition(terms[0], PrintMoreTerms(terms[1..], mark, rest)));
    }
  }

  lemma {:induction false} MoreComparisonsRead(atoms: seq<Condition>, rest: Input)
    requires AreAtoms(atoms) && EndsTerm(rest) && Peek(Skip(rest)) != Ampersand
    ensures var r := ParseMoreComparisons(PrintMoreTerms(atoms, Ampersand, rest));
            if AreReadable(atoms) then r == Ok((ReadAtoms(atoms), Skip(rest))) else Stuck(r)
    decreases |atoms|
  {
    hide Skip, EndsTerm, PrintCondition, ParseComparison, ReadableAtom, ReadAtom, IsAtom, LexesCondition, StopsHere;
    if atoms == [] {
    } else {
      var more := PrintMoreTerms(atoms[1..], Ampersand, rest);
      var text := PrintCondition(atoms[0], more);
      MoreTermsEnd(atoms[1..], Ampersand, rest);
      MarkEnds(Ampersand, [SPACE] + text);
      SkipOne(SPACE, text);
      if ReadableAtom(atoms[0]) {
        ComparisonReads(atoms[0], more);
        MoreSkips(ParseComparison(text).value.1);
        MoreSkips(more);
        MoreComparisonsRead(atoms[1..], rest);
        assert AreReadable(atoms) <==> AreReadable(atoms[1..]);
      } else {
        AtomSticks(atoms[0], more);
        StuckMore(Skip(text));
        assert !AreReadable(atoms);
      }
    }
  }

  /** Behind a stuck comparison no other is read. */
  lemma StuckMore(ts: Input)
    requires Stuck(ParseComparison(ts))
    ensures ParseComparison(ts).Ok? ==>
              var left := ParseComparison(ts).value.1;
              Skip(left) == left && ParseMoreComparisons(left) == Ok(([], left))
  {
    hide ParseComparison, Skip;
    if ParseComparison(ts).Ok? {
      SkipNothing(ParseComparison(ts).value.1);
    }
  }

  /** Comparisons with `&` between them are read as one conjunction, unless one is not read. */
  lemma {:induction false} ConjunctionReads(atoms: seq<Condition>, rest: Input)
    requires atoms != [] && AreAtoms(atoms) && EndsTerm(rest) && Peek(Skip(rest)) != Ampersand
    ensures var text := PrintTerms(atoms, Ampersand, rest);
            if AreReadable(atoms) then
              Skip(text) == text && ParseConjunction(text) == Ok((Conjoined(atoms), Skip(rest)))
            else Stuck(ParseConjunction(Skip(text)))
  {
    hide Skip, EndsTerm, PrintCondition, ParseComparison, ParseMoreComparisons, ReadableAtom, ReadAtom, IsAtom,
      LexesCondition, StopsHere;
    var more := PrintMoreTerms(atoms[1..], Ampersand, rest);
    var text := PrintCondition(atoms[0], more);
    MoreTermsEnd(atoms[1..], Ampersand, rest);
    MoreComparisonsRead(atoms[1..], rest);
    if ReadableAtom(atoms[0]) {
      ComparisonReads(atoms[0], more);
      MoreSkips(ParseComparison(text).value.1);
      MoreSkips(more);
      assert AreReadable(atoms) <==> AreReadable(atoms[1..]);
    } else {
      AtomSticks(atoms[0], more);
      StuckMore(Skip(text));
      assert !AreReadable(atoms);
    }
  }

  // ---- disjunctions --------------------------------------------------------------------------------------

  /** Each list of comparisons as one term. */
  function Wrapped(terms: seq<seq<Condition>>): (r: seq<Condition>)
    ensures |r| == |terms|
  {
    if terms == [] then [] else [All(terms[0])] + Wrapped(terms[1..])
  }

  predicate AreTerms(terms: seq<seq<Condition>>) {
    forall i :: 0 <= i < |terms| ==> |terms[i]| > 0 && AreAtoms(terms[i])
  }

  lemma ParenEnds(rest: Input)
    ensures EndsTerm([RightParen] + rest) && Skip([RightParen] + rest) == [RightParen] + rest
  {
    hide Skip;
    SkipOne(RightParen, rest);
  }

  lemma AllText(atoms: seq<Condition>, rest: Input)
    ensures PrintCondition(All(atoms), rest) == PrintTerms(atoms, Ampersand, rest)
  {
  }

  /** The first of some terms, with the others behind it. */
  lemma {:induction false} FirstTerm(terms: seq<seq<Condition>>, rest: Input)
    requires terms != [] && AreTerms(terms)
    ensures var more := PrintMoreTerms(Wrapped(terms[1..]), Pipe, [RightParen] + rest);
            var text := PrintCondition(All(terms[0]), more);
            if AreReadable(terms[0]) then
              && Skip(text) == text && ParseConjunction(text) == Ok((Conjoined(terms[0]), Skip(more)))
              && ParseMoreConjunctions(Skip(more)) == ParseMoreConjunctions(more)
            else Stuck(ParseConjunction(Skip(text)))
  {
    hide Skip, EndsTerm, PrintCondition, ParseConjunction, AreReadable, AreAtoms, Conjoined, StopsHere, PrintTerms,
      PrintMoreTerms;
    var close := [RightParen] + rest;
    var more := PrintMoreTerms(Wrapped(terms[1..]), Pipe, close);
    ParenEnds(rest);
    AllText(terms[0], more);
    MoreTermsEnd(Wrapped(terms[1..]), Pipe, close);
    NoAmpersand(terms[1..], close);
    ConjunctionReads(terms[0], more);
    MoreSkips(more);
  }

  lemma {:induction false} MoreConjunctionsRead(terms: seq<seq<Condition>>, rest: Input)
    requires AreTerms(terms)
    ensures NonEmpty(terms)
    ensures var close := [RightParen] + rest;
            var r := ParseMoreConjunctions(PrintMoreTerms(Wrapped(terms), Pipe, close));
            if AllReadable(terms) then r == Ok((AllConjoined(terms), close)) else Stuck(r)
    decreases |terms|
  {
    hide Skip, EndsTerm, PrintCondition, ParseConjunction, AreReadable, AreAtoms, Conjoined, StopsHere;
    var close := [RightParen] + rest;
    ParenEnds(rest);
    if terms != [] {
      assert Wrapped(terms)[1..] == Wrapped(terms[1..]);
      var text := PrintCondition(All(terms[0]), PrintMoreTerms(Wrapped(terms[1..]), Pipe, close));
      MarkEnds(Pipe, [SPACE] + text);
      SkipOne(SPACE, text);
      FirstTerm(terms, rest);
      MoreConjunctionsRead(terms[1..], rest);
      if AreReadable(terms[0]) {
        assert AllReadable(terms) <==> AllReadable(terms[1..]);
      } else {
        StuckMoreConjunctions(Skip(text));
        assert !AllReadable(terms);
      }
    }
  }

  lemma NoAmpersand(terms: seq<seq<Condition>>, rest: Input)
    requires Peek(Skip(rest)) != Ampersand
    ensures Peek(Skip(PrintMoreTerms(Wrapped(terms), Pipe, rest))) != Ampersand
  {
    hide Skip, PrintCondition;
    if terms != [] {
      MarkEnds(Pipe, [SPACE] + PrintCondition(All(terms[0]), PrintMoreTerms(Wrapped(terms)[1..], Pipe, rest)));
    }
  }

  lemma StuckMoreConjunctions(ts: Input)
    requires Stuck(ParseConjunction(ts))
    ensures ParseConjunction(ts).Ok? ==>
              var left := ParseConjunction(ts).value.1;
              Skip(left) == left && ParseMoreConjunctions(left) == Ok(([], left))
  {
    hide ParseConjunction, Skip;
    if ParseConjunction(ts).Ok? {
      SkipNothing(ParseConjunction(ts).value.1);
    }
  }

  lemma {:induction false} DisjunctionReads(terms: seq<seq<Condition>>, rest: Input)
    requires terms != [] && AreTerms(terms)
    ensures NonEmpty(terms)
    ensures var close := [RightParen] + rest;
            var text := PrintTerms(Wrapped(terms), Pipe, close);
            if AllReadable(terms) then Skip(text) == text && ParseCondition(text) == Ok((Disjoined(terms), close))
            else Stuck(ParseCondition(Skip(text)))
  {
    hide Skip, EndsTerm, PrintCondition, ParseConjunction, ParseMoreConjunctions, AreReadable, AreAtoms, Conjoined,
      StopsHere;
    var close := [RightParen] + rest;
    assert Wrapped(terms)[1..] == Wrapped(terms[1..]);
    FirstTerm(terms, rest);
    MoreConjunctionsRead(terms[1..], rest);
    if AreReadable(terms[0]) {
      assert AllReadable(terms) <==> AllReadable(terms[1..]);
    } else {
      StuckMoreConjunctions(Skip(PrintTerms(Wrapped(terms), Pipe, close)));
      assert !AllReadable(terms);
    }
  }

  // ---- a condition prints as its terms -------------------------------------------------------------------

  const AND := [SPACE, Ampersand, SPACE]

  lemma MarkText(terms: seq<Condition>, mark: Token, rest: Input)
    requires terms != []
    ensures PrintTerms(terms, mark, rest) == PrintCondition(terms[0], PrintMoreTerms(terms[1..], mark, rest))
    ensures PrintMoreTerms(terms, mark, rest) == [SPACE, mark, SPACE] + PrintTerms(terms, mark, rest)
  {
    hide PrintCondition;
  }

  lemma {:induction false} TermsConcat(a: seq<Condition>, b: seq<Condition>, mark: Token, rest: Input)
    requires a != []
    ensures PrintTerms(a + b, mark, rest) == PrintTerms(a, mark, PrintMoreTerms(b, mark, rest))
    decreases |a|
  {
    hide PrintCondition, PrintTerms, PrintMoreTerms;
    var more := PrintMoreTerms(b, mark, rest);
    assert (a + b)[1..] == a[1..] + b;
    MarkText(a, mark, more);
    MarkText(a + b, mark, rest);
    if a[1..] == [] {
      NoTerms(a[1..], mark, more);
      assert a[1..] + b == b;
    } else {
      TermsConcat(a[1..], b, mark, rest);
      MarkText(a[1..], mark, more);
      MarkText(a[1..] + b, mark, rest);
    }
  }

  lemma NoTerms(terms: seq<Condition>, mark: Token, rest: Input)
    requires |terms| == 0
    ensures PrintMoreTerms(terms, mark, rest) == rest
  {
  }

  lemma {:induction false} WrappedConcat(a: seq<seq<Condition>>, b: seq<seq<Condition>>)
    ensures Wrapped(a + b) == Wrapped(a) + Wrapped(b)
    decreases |a|
  {
    if a == [] {
      assert a + b == b;
    } else {
      assert (a + b)[1..] == a[1..] + b;
      WrappedConcat(a[1..], b);
    }
  }

  function Text(terms: seq<seq<Condition>>, rest: Input): Input {
    PrintTerms(Wrapped(terms), Pipe, rest)
  }

  lemma LoneText(atoms: seq<Condition>, rest: Input)
    ensures Text([atoms], rest) == PrintTerms(atoms, Ampersand, rest)
  {
    hide PrintCondition, PrintTerms;
    assert Wrapped([atoms]) == [All(atoms)];
    MarkText([All(atoms)], Pipe, rest);
    NoTerms([All(atoms)][1..], Pipe, rest);
    AllText(atoms, rest);
  }

  lemma {:induction false} GluedText(a: seq<seq<Condition>>, b: seq<seq<Condition>>, rest: Input)
    requires a != [] && b != [] && NonEmpty(a) && NonEmpty(b)
    ensures Text(Glued(a, b), rest) == Text(a, AND + Text(b, rest))
  {
    hide PrintCondition, PrintTerms, PrintMoreTerms;
    var front, x, y, back := a[..|a| - 1], a[|a| - 1], b[0], b[1..];
    var behind := PrintMoreTerms(Wrapped(back), Pipe, rest);
    assert Glued(a, b) == front + ([x + y] + back) && a == front + [x] && b == [y] + back;
    // the joined term
    AllText(x + y, behind);
    AllText(x, PrintMoreTerms(y, Ampersand, behind));
    AllText(y, behind);
    TermsConcat(x, y, Ampersand, behind);
    MarkText(y, Ampersand, behind);
    // what follows it
    assert Wrapped([x + y] + back) == [All(x + y)] + Wrapped(back);
    assert ([All(x + y)] + Wrapped(back))[1..] == Wrapped(back);
    MarkText([All(x + y)] + Wrapped(back), Pipe, rest);
    assert Wrapped(b) == [All(y)] + Wrapped(back) && Wrapped(b)[1..] == Wrapped(back);
    MarkText(Wrapped(b), Pipe, rest);
    LoneText(x, AND + Text(b, rest));
    // what stands before it
    var tail := AND + Text(b, rest);
    assert Text([x], tail) == Text([x + y] + back, rest);
    if front == [] {
      assert Glued(a, b) == [x + y] + back && a == [x];
    } else {
      WrappedConcat(front, [x + y] + back);
      WrappedConcat(front, [x]);
      TermsConcat(Wrapped(front), Wrapped([x + y] + back), Pipe, rest);
      TermsConcat(Wrapped(front), Wrapped([x]), Pipe, tail);
      MarkText(Wrapped([x + y] + back), Pipe, rest);
      MarkText(Wrapped([x]), Pipe, tail);
    }
  }

  lemma {:induction false} TermsText(c: Condition, rest: Input)
    ensures Text(Terms(c), rest) == PrintCondition(c, rest)
    decreases c, 0
  {
    hide Text, PrintTerms, PrintMoreTerms, TermsOfAny, TermsOfAll;
    if IsAtom(c) {
      LoneText([c], rest);
      MarkText([c], Ampersand, rest);
      NoTerms([c][1..], Ampersand, rest);
    } else if c.Any? {
      AnyText(c.terms, rest);
    } else {
      AllOfText(c.terms, rest);
    }
  }

  lemma {:induction false} AnyText(terms: seq<Condition>, rest: Input)
    requires terms != []
    ensures Text(TermsOfAny(terms), rest) == PrintTerms(terms, Pipe, rest)
    decreases terms, 1
  {
    hide PrintCondition, PrintTerms, PrintMoreTerms, Terms, Wrapped;
    var more := PrintMoreTerms(terms[1..], Pipe, rest);
    TermsText(terms[0], more);
    MarkText(terms, Pipe, rest);
    if |terms| == 1 {
      NoTerms(terms[1..], Pipe, rest);
      assert Terms(terms[0]) + [] == Terms(terms[0]);
    } else {
      var tail := TermsOfAny(terms[1..]);
      AnyText(terms[1..], rest);
      WrappedConcat(Terms(terms[0]), tail);
      TermsConcat(Wrapped(Terms(terms[0])), Wrapped(tail), Pipe, rest);
      MarkText(Wrapped(tail), Pipe, rest);
      MarkText(terms[1..], Pipe, rest);
    }
  }

  lemma {:induction false} AllOfText(terms: seq<Condition>, rest: Input)
    requires terms != []
    ensures Text(TermsOfAll(terms), rest) == PrintTerms(terms, Ampersand, rest)
    decreases terms, 1
  {
    hide PrintCondition, PrintTerms, PrintMoreTerms, Terms, Wrapped, Text, Glued;
    var more := PrintMoreTerms(terms[1..], Ampersand, rest);
    TermsText(terms[0], more);
    MarkText(terms, Ampersand, rest);
    if |terms| == 1 {
      NoTerms(terms[1..], Ampersand, rest);
    } else {
      AllOfText(terms[1..], rest);
      GluedText(Terms(terms[0]), TermsOfAll(terms[1..]), rest);
      MarkText(terms[1..], Ampersand, rest);
    }
  }

  lemma {:induction false} TermsAreAtoms(c: Condition)
    requires LexesCondition(c)
    ensures AreTerms(Terms(c))
    decreases c, 0
  {
    hide TermsOfAny, TermsOfAll;
    if IsAtom(c) {
    } else if c.Any? {
      TermsOfAnyAreAtoms(c.terms);
    } else {
      TermsOfAllAreAtoms(c.terms);
    }
  }

  lemma {:induction false} TermsOfAnyAreAtoms(terms: seq<Condition>)
    requires terms != [] && forall t | t in terms :: LexesCondition(t)
    ensures AreTerms(TermsOfAny(terms))
    decreases terms, 1
  {
    hide Terms, LexesCondition, AreAtoms;
    TermsAreAtoms(terms[0]);
    if |terms| > 1 {
      TermsOfAnyAreAtoms(terms[1..]);
    }
  }

  lemma {:induction false} TermsOfAllAreAtoms(terms: seq<Condition>)
    requires terms != [] && forall t | t in terms :: LexesCondition(t)
    ensures AreTerms(TermsOfAll(terms))
    decreases terms, 1
  {
    hide Terms, LexesCondition, AreAtoms, Glued;
    TermsAreAtoms(terms[0]);
    if |terms| > 1 {
      TermsOfAllAreAtoms(terms[1..]);
      GluedAreAtoms(Terms(terms[0]), TermsOfAll(terms[1..]));
    }
  }

  lemma GluedAreAtoms(a: seq<seq<Condition>>, b: seq<seq<Condition>>)
    requires a != [] && b != [] && AreTerms(a) && AreTerms(b)
    ensures NonEmpty(a) && NonEmpty(b) && AreTerms(Glued(a, b))
  {
    hide IsAtom, LexesCondition;
  }

  /** A printed condition is read as the disjunction of the conjunctions of its comparisons, wherever `All`
      and `Any` stood, unless a comparison in it is not read. */
  lemma {:induction false} ConditionReads(c: Condition, rest: Input)
    requires LexesCondition(c)
    ensures var close := [RightParen] + rest;
            var text := PrintCondition(c, close);
            if ReadableCondition(c) then Skip(text) == text && ParseCondition(text) == Ok((ReadCondition(c), close))
            else Stuck(ParseCondition(Skip(text)))
  {
    hide Terms, PrintCondition, ParseCondition, Skip, Disjoined, Wrapped, ReadableAtom, AreTerms, StopsHere;
    TermsAreAtoms(c);
    TermsText(c, [RightParen] + rest);
    DisjunctionReads(Terms(c), rest);
  }

  // ---- which conditions come back ------------------------------------------------------------------------

  /** The comparisons of a conjunction. */
  function AtomsOf(c: Condition): seq<Condition> {
    if c.All? then c.terms else [c]
  }

  function AllAtomsOf(terms: seq<Condition>): (r: seq<seq<Condition>>)
    ensures |r| == |terms|
  {
    if terms == [] then [] else [AtomsOf(terms[0])] + AllAtomsOf(terms[1..])
  }

  /** `FaithfulCondition` without what it says of the comparisons' parts. */
  predicate IsFlat(c: Condition) {
    IsFlatConjunction(c) || (c.Any? && |c.terms| >= 2 && forall t | t in c.terms :: IsFlatConjunction(t))
  }

  predicate IsFlatConjunction(c: Condition) {
    c.Compare? || (c.All? && |c.terms| >= 2 && forall t | t in c.terms :: t.Compare?)
  }

  lemma {:induction false} ComparesTogether(terms: seq<Condition>)
    requires terms != [] && forall t | t in terms :: t.Compare?
    ensures TermsOfAll(terms) == [terms]
    decreases |terms|
  {
    assert Terms(terms[0]) == [[terms[0]]];
    if |terms| > 1 {
      ComparesTogether(terms[1..]);
      GluedAlone([terms[0]], terms[1..]);
      assert terms == [terms[0]] + terms[1..];
    } else {
      assert terms == [terms[0]];
    }
  }

  lemma GluedAlone(a: seq<Condition>, b: seq<Condition>)
    requires a != [] && b != []
    ensures Glued([a], [b]) == [a + b]
  {
  }

  lemma {:induction false} FlatConjunctionTerms(c: Condition)
    requires IsFlatConjunction(c)
    ensures Terms(c) == [AtomsOf(c)] && AtomsOf(c) != []
  {
    if c.All? {
      ComparesTogether(c.terms);
    }
  }

  lemma {:induction false} FlatAnyTerms(terms: seq<Condition>)
    requires terms != [] && forall t | t in terms :: IsFlatConjunction(t)
    ensures TermsOfAny(terms) == AllAtomsOf(terms)
    decreases |terms|
  {
    hide Terms, IsFlatConjunction, AtomsOf;
    FlatConjunctionTerms(terms[0]);
    if |terms| > 1 {
      FlatAnyTerms(terms[1..]);
    } else {
      assert AllAtomsOf(terms) == [AtomsOf(terms[0])];
    }
  }

  lemma {:induction false} AtomsComeBack(atoms: seq<Condition>)
    ensures ReadAtoms(atoms) == atoms <==> forall c | c in atoms :: ReadAtom(c) == c
    decreases |atoms|
  {
    hide ReadAtom;
    if atoms != [] {
      AtomsComeBack(atoms[1..]);
      assert atoms == [atoms[0]] + atoms[1..];
      assert ReadAtoms(atoms)[1..] == ReadAtoms(atoms[1..]);
    }
  }

  /** A comparison that lexes is faithful exactly when it is read as itself. */
  lemma AtomComesBack(c: Condition)
    requires c.Compare? && LexesCondition(c)
    ensures FaithfulComparison(c) <==> ReadableAtom(c) && ReadAtom(c) == c
  {
    hide IsFieldPath, ReadLiteral, LexesLiteral, FaithfulLiteral, IsPathText;
    if c.value.Some? {
      LiteralComesBack(c.value.value);
    }
  }

  lemma {:induction false} ConjunctionComesBack(c: Condition)
    requires IsFlatConjunction(c) && LexesCondition(c)
    ensures AtomsOf(c) != []
    ensures FaithfulConjunction(c) <==> AreReadable(AtomsOf(c)) && Conjoined(AtomsOf(c)) == c
  {
    hide ReadAtom, ReadableAtom, FaithfulComparison, LexesCondition;
    if c.Compare? {
      AtomComesBack(c);
    } else {
      AtomsComeBack(c.terms);
      forall t | t in c.terms ensures FaithfulComparison(t) <==> ReadableAtom(t) && ReadAtom(t) == t {
        TermLexes(c, t);
        AtomComesBack(t);
      }
      assert !FaithfulComparison(c) by { AllIsNoComparison(c); }
    }
  }

  lemma TermLexes(c: Condition, t: Condition)
    requires LexesCondition(c) && !c.Compare? && t in c.terms
    ensures LexesCondition(t)
  {
  }

  lemma AllIsNoComparison(c: Condition)
    ensures !c.Compare? ==> !FaithfulComparison(c)
  {
  }

  lemma {:induction false} ConjunctionsComeBack(terms: seq<Condition>)
    requires forall t | t in terms :: IsFlatConjunction(t) && LexesCondition(t)
    ensures NonEmpty(AllAtomsOf(terms))
    ensures (forall t | t in terms :: FaithfulConjunction(t))
       <==> AllReadable(AllAtomsOf(terms)) && AllConjoined(AllAtomsOf(terms)) == terms
    decreases |terms|
  {
    hide Conjoined, AreReadable, FaithfulConjunction, IsFlatConjunction, LexesCondition, AtomsOf;
    if terms != [] {
      var atoms := AllAtomsOf(terms);
      ConjunctionComesBack(terms[0]);
      ConjunctionsComeBack(terms[1..]);
      assert atoms[1..] == AllAtomsOf(terms[1..]) && atoms[0] == AtomsOf(terms[0]);
      assert terms == [terms[0]] + terms[1..];
      assert AllReadable(atoms) <==> AreReadable(atoms[0]) && AllReadable(atoms[1..]);
      assert AllConjoined(atoms)[1..] == AllConjoined(atoms[1..]);
    } else {
      assert AllAtomsOf(terms) == [];
    }
  }

  lemma FlatByTerms(c: Condition)
    requires FaithfulCondition(c)
    ensures IsFlat(c)
  {
    hide IsFieldPath, FaithfulLiteral;
  }

  lemma {:induction false} ReadIsFlat(c: Condition)
    requires ReadableCondition(c)
    ensures IsFlat(ReadCondition(c))
  {
    hide Terms, ReadableAtom;
    var terms := Terms(c);
    forall i | 0 <= i < |terms| ensures IsFlatConjunction(Conjoined(terms[i])) {
      assert AreReadable(terms[i]);
      ConjoinedIsFlat(terms[i]);
    }
    ConjoinedAt(terms);
  }

  lemma {:induction false} ConjoinedIsFlat(atoms: seq<Condition>)
    requires atoms != [] && AreReadable(atoms)
    ensures IsFlatConjunction(Conjoined(atoms))
  {
    ReadAtomsAt(atoms);
    forall i | 0 <= i < |atoms| ensures ReadAtom(atoms[i]).Compare? {
      assert ReadableAtom(atoms[i]);
    }
  }

  lemma {:induction false} ReadAtomsAt(atoms: seq<Condition>)
    ensures forall i :: 0 <= i < |atoms| ==> ReadAtoms(atoms)[i] == ReadAtom(atoms[i])
    decreases |atoms|
  {
    hide ReadAtom;
    if atoms != [] {
      ReadAtomsAt(atoms[1..]);
    }
  }

  lemma {:induction false} ConjoinedAt(terms: seq<seq<Condition>>)
    requires NonEmpty(terms)
    ensures forall i :: 0 <= i < |terms| ==> AllConjoined(terms)[i] == Conjoined(terms[i])
    decreases |terms|
  {
    hide Conjoined;
    if terms != [] {
      ConjoinedAt(terms[1..]);
    }
  }

  /** A condition that lexes is faithful exactly when it is read, and as itself. */
  lemma {:induction false} ConditionComesBack(c: Condition)
    requires LexesCondition(c)
    ensures FaithfulCondition(c) <==> ReadableCondition(c) && ReadCondition(c) == c
  {
    hide ReadableAtom, FaithfulComparison, TermsOfAny, TermsOfAll, IsFlatConjunction, Conjoined, FaithfulConjunction,
      AreReadable, LexesCondition;
    if FaithfulCondition(c) {
      FlatByTerms(c);
    } else if ReadableCondition(c) {
      ReadIsFlat(c);
    }
    if IsFlat(c) {
      if IsFlatConjunction(c) {
        FlatConjunctionTerms(c);
        ConjunctionComesBack(c);
        AnyIsNoConjunction(c);
      } else {
        FlatAnyTerms(c.terms);
        forall t | t in c.terms ensures LexesCondition(t) {
          TermLexes(c, t);
        }
        ConjunctionsComeBack(c.terms);
        AnyIsNoConjunction(c);
      }
    }
  }

  /** `a | b` below an `&` with `c` is read as `a` or both `b` and `c`. */
  lemma AnyBelowAllIsLost(a: Condition, b: Condition, c: Condition)
    requires a.Compare? && b.Compare? && c.Compare?
    ensures ReadCondition(All([Any([a, b]), c])) == Any([ReadAtom(a), All([ReadAtom(b), ReadAtom(c)])])
  {
    hide ReadAtom;
    var any, all := Any([a, b]), All([Any([a, b]), c]);
    assert any.terms[1..] == [b] && all.terms[1..] == [c];
    assert Terms(a) == [[a]] && Terms(b) == [[b]] && Terms(c) == [[c]];
    assert TermsOfAny([b]) == [[b]] + [] == [[b]];
    assert Terms(any) == TermsOfAny(any.terms) == [[a]] + [[b]] == [[a], [b]];
    assert TermsOfAll([c]) == [[c]];
    assert Terms(all) == TermsOfAll(all.terms) == Glued([[a], [b]], [[c]]);
    assert [[a], [b]][..1] == [[a]] && [b] + [c] == [b, c] && [[c]][1..] == [];
    assert Terms(all) == [[a], [b, c]];
    assert [b, c][1..] == [c] && [[a], [b, c]][1..] == [[b, c]];
    assert ReadAtoms([c]) == [ReadAtom(c)] && ReadAtoms([b, c]) == [ReadAtom(b), ReadAtom(c)];
    assert AllConjoined([[b, c]]) == [Conjoined([b, c])];
  }

  lemma AnyIsNoConjunction(c: Condition)
    ensures c.Any? ==> !FaithfulConjunction(c) && !IsFlatConjunction(c)
  {
  }

  // ---- what is faithful lexes ------------------------------------------------------------------------------

  lemma BuiltinIsWordText(name: string)
    requires name in BUILTINS
    ensures IsWordText(name)
  {
  }

  lemma KeyNameIsWordText(name: string)
    requires IsKeyName(name)
    ensures IsWordText(name)
  {
    hide IsWordText;
    if name in BUILTINS {
      BuiltinIsWordText(name);
    }
  }

  lemma WordTextIsPathText(name: string)
    requires IsWordText(name)
    ensures IsPathText(name)
  {
  }

  lemma PathTextConcat(a: string, b: string)
    requires IsPathText(a) && IsPathText(b)
    ensures IsPathText(a + b)
  {
  }

  lemma {:induction false} FieldNamesLex(parts: string)
    requires (parts != "" ==> parts[0] == '.') && AreFieldNames(parts)
    ensures IsPathText(parts)
    decreases |parts|
  {
    hide IsKeyName, IsWordText, SpellsOperator, FirstPart, MoreParts;
    if parts != "" {
      var part, more := FirstPart(parts), MoreParts(parts);
      KeyNameIsWordText(part);
      WordTextIsPathText(part);
      FieldNamesLex(more);
      PathTextConcat(".", part);
      PathTextConcat("." + part, more);
    }
  }

  lemma FieldPathLexes(path: string)
    requires IsFieldPath(path)
    ensures IsPathText(path)
  {
    hide IsKeyName, IsWordText, AreFieldNames, IsPathText;
    var k := FirstDot(path);
    KeyNameIsWordText(path[..k]);
    WordTextIsPathText(path[..k]);
    FieldNamesLex(path[k..]);
    PathTextConcat(path[..k], path[k..]);
    assert path[..k] + path[k..] == path;
  }

  lemma FaithfulComparisonLexes(c: Condition)
    requires FaithfulComparison(c)
    ensures LexesCondition(c)
  {
    hide IsFieldPath, IsPathText, FaithfulLiteral, LexesLiteral;
    FieldPathLexes(c.field);
    if c.value.Some? {
      LiteralComesBack(c.value.value);
    }
  }

  lemma FaithfulConjunctionLexes(c: Condition)
    requires FaithfulConjunction(c)
    ensures LexesCondition(c)
  {
    hide FaithfulComparison;
    if FaithfulComparison(c) {
      FaithfulComparisonLexes(c);
    } else {
      forall t | t in c.terms ensures LexesCondition(t) {
        FaithfulComparisonLexes(t);
      }
    }
  }

  lemma FaithfulConditionLexes(c: Condition)
    requires FaithfulCondition(c)
    ensures LexesCondition(c)
  {
    hide FaithfulConjunction;
    if FaithfulConjunction(c) {
      FaithfulConjunctionLexes(c);
    } else {
      forall t | t in c.terms ensures LexesCondition(t) {
        FaithfulConjunctionLexes(t);
      }
    }
  }
}
