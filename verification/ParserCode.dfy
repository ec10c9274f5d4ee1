/** The parser as it runs: a cursor over the lexer's tokens, lists filled in loops, lookaheads that
    scan with a local index. */
module ParserCode {
  import opened Bytes
  import opened Ast
  import opened Tokens
  import opened AnnotationParser
  import opened TypeParser

  /** A method that started where `spec` starts returned `r` and left `left` unread. */
  predicate Follows<T(==)>(spec: Parsed<T>, r: Result<T, ParseError>, left: Input) {
    match spec
    case Ok(parsed) => r == Ok(parsed.0) && left == parsed.1
    case Err(e) => r == Err(e)
  }

  /** One more item in front of a parsed list. */
  ghost function Cons<T>(item: T, parsed: Parsed<seq<T>>): Parsed<seq<T>> {
    match parsed
    case Ok((items, left)) => Ok(([item] + items, left))
    case Err(e) => Err(e)
  }

  /** What a loop that has collected `done` ends with. */
  ghost function Onto<T>(done: seq<T>, parsed: Parsed<seq<T>>): Parsed<seq<T>> {
    match parsed
    case Ok((items, left)) => Ok((done + items, left))
    case Err(e) => Err(e)
  }

  lemma OntoStep<T>(done: seq<T>, item: T, parsed: Parsed<seq<T>>)
    ensures Onto(done, Cons(item, parsed)) == Onto(done + [item], parsed)
  {
    if parsed.Ok? {
      assert done + ([item] + parsed.value.0) == (done + [item]) + parsed.value.0;
    }
  }

  lemma OntoNothing<T>(parsed: Parsed<seq<T>>)
    ensures Onto([], parsed) == parsed
  {
    if parsed.Ok? {
      assert [] + parsed.value.0 == parsed.value.0;
    }
  }

  lemma OntoEnd<T>(done: seq<T>, left: Input)
    ensures Onto(done, Ok(([], left))) == Ok((done, left))
  {
    assert done + [] == done;
  }

  class Parser {
    const tokens: seq<Token>
    var current: nat

    ghost predicate Valid()
      reads this
    {
      current < |tokens| && tokens[|tokens| - 1] == Eof
    }

    ghost function Left(): Input
      requires Valid()
      reads this
    {
      tokens[current..]
    }

    constructor (tokens: seq<Token>)
      requires tokens != [] && tokens[|tokens| - 1] == Eof
      ensures Valid() && Left() == tokens && this.tokens == tokens
    {
      this.tokens := tokens;
      current := 0;
    }

    method Next() returns (t: Token)
      requires Valid()
      ensures t == Peek(Left())
    {
      t := tokens[current];
    }

    /** The cursor stays on the end of the file. */
    method Advance()
      requires Valid()
      modifies this
      ensures Valid() && Left() == if Peek(old(Left())) == Eof then old(Left()) else old(Left())[1..]
    {
      if tokens[current] != Eof {
        assert tokens[current..][1..] == tokens[current + 1..];
        current := current + 1;
      }
    }

    method SkipTrivia()
      requires Valid()
      modifies this
      ensures Valid() && Left() == Skip(old(Left())) && current >= old(current)
    {
      while IsTrivia(tokens[current])
        invariant Valid() && Skip(Left()) == Skip(old(Left())) && current >= old(current)
        decreases |tokens| - current
      {
        assert tokens[current..][1..] == tokens[current + 1..];
        current := current + 1;
      }
    }

    method MatchToken(t: Token) returns (ok: bool)
      requires Valid() && t != Eof
      modifies this
      ensures Valid() && ok == (Peek(old(Left())) == t)
      ensures Left() == if ok then old(Left())[1..] else old(Left())
    {
      ok := tokens[current] == t;
      if ok {
        Advance();
      }
    }

    method ConsumeToken(t: Token) returns (failed: Option<ParseError>)
      requires Valid() && DebugName(t) != ""
      modifies this
      ensures Valid()
      ensures match Consume(old(Left()), t)
              case Ok(left) => failed.None? && Left() == left && current > old(current)
              case Err(e) => failed == Some(e)
    {
      if tokens[current] == t {
        Advance();
        return None;
      }
      return Some(ExpectedToken(DebugName(t), tokens[current]));
    }

    // ---- type expressions ----------------------------------------------------------------------------

    method ParseTypeExpression() returns (r: Result<TypeExpression, ParseError>)
      requires Valid()
      modifies this
      ensures Valid() && Follows(ParseType(old(Left())), r, Left())
      decreases |tokens| - current, 3
    {
      hide ParsePrimary, TypeParser.ParseRange, ParseArms, Skip, Onto, Cons;
      var t := Next();
      if IsRangeMark(t) {
        r := ParseRange(None);
        return;
      }
      ghost var start := Left();
      r := ParsePrimaryType();
      if r.Err? { return; }
      assert |Left()| < |start|;
      t := Next();
      if IsRangeMark(t) && r.value.Literal? && (r.value.lit.Integer? || r.value.lit.Float?) {
        r := ParseRange(Some(r.value.lit));
        return;
      }
      if IsChoiceMark(t) {
        Advance();
        var more := ParseMoreArms();
        if more.Err? { return Err(more.error); }
        r := Ok(Choice([r.value] + more.value));
      }
    }

    /** The loop over the arms behind the first. */
    method ParseMoreArms() returns (r: Result<seq<TypeExpression>, ParseError>)
      requires Valid()
      modifies this
      ensures Valid() && Follows(ParseArms(old(Left())), r, Left())
      decreases |tokens| - current, 3
    {
      hide ParsePrimary, Skip, Onto, Cons;
      ghost var start := Left();
      var choices: seq<TypeExpression> := [];
      OntoNothing(ParseArms(start));
      while true
        invariant Valid() && current >= old(current)
        invariant ParseArms(start) == Onto(choices, ParseArms(Left()))
        decreases |tokens| - current
      {
        ghost var before := Left();
        SkipTrivia();
        assert |Left()| <= |before|;
        var arm := ParsePrimaryType();
        if arm.Err? {
          ArmsFail(before, choices);
          return Err(arm.error);
        }
        var t := Next();
        ArmsStep(before, choices);
        choices := choices + [arm.value];
        if !IsChoiceMark(t) {
          break;
        }
        Advance();
      }
      r := Ok(choices);
    }

    method ParseRange(start: Option<LiteralValue>) returns (r: Result<TypeExpression, ParseError>)
      requires Valid() && IsRangeMark(Peek(Left()))
      modifies this
      ensures Valid() && Follows(TypeParser.ParseRange(start, old(Left())), r, Left())
    {
      hide Skip, RangeType;
      var mark := Next();
      Advance();
      SkipTrivia();
      var t := Next();
      var end: Option<LiteralValue> := None;
      if t.Integer? {
        Advance();
        end := Some(LiteralValue.Integer(t.i));
      } else if t.Float? {
        Advance();
        end := Some(LiteralValue.Float(t.bits));
      }
      if start.None? && end.None? {
        return Err(ExpectedToken("a numeric range bound", t));
      }
      var t' := LowerRange(start, end, mark == Token.RangeInclusive);
      r := Ok(t');
    }

    /** `start..end` as a number type with its bounds. */
    method LowerRange(start: Option<LiteralValue>, end: Option<LiteralValue>, exclusive: bool)
      returns (t: TypeExpression)
      ensures t == RangeType(start, end, exclusive)
    {
      var isFloat := (start.Some? && start.value.Float?) || (end.Some? && end.value.Float?);
      var constraints := [];
      if start.Some? {
        constraints := constraints + [WithLiteral(GreaterEqual, start.value)];
      }
      if end.Some? {
        constraints := constraints + [WithLiteral(if exclusive then LessThan else LessEqual, end.value)];
      }
      ghost var lower := if start.Some? then [WithLiteral(GreaterEqual, start.value)] else [];
      ghost var upper := if end.Some? then [WithLiteral(if exclusive then LessThan else LessEqual, end.value)] else [];
      assert constraints == lower + upper;
      t := Constrained(TypeExpression.Builtin(if isFloat then "float" else "int"), constraints);
    }

    method ParsePrimaryType() returns (r: Result<TypeExpression, ParseError>)
      requires Valid()
      modifies this
      ensures Valid() && Follows(ParsePrimary(old(Left())), r, Left())
      decreases |tokens| - current, 2
    {
      hide ParseType, ParseBase, ParseControls, KeyAhead, TypeParser.ParseEntries, Skip;
      var t := Next();
      if t == LeftParen {
        Advance();
        SkipTrivia();
        var keyed := CheckForGroupKey();
        if keyed {
          var entries := ParseGroupEntries(RightParen);
          if entries.Err? { return Err(entries.error); }
          var failed := ConsumeToken(RightParen);
          if failed.Some? { return Err(failed.value); }
          return Ok(Group(GroupExpression(entries.value)));
        }
        r := ParseTypeExpression();
        if r.Err? { return; }
        SkipTrivia();
        var failed := ConsumeToken(RightParen);
        if failed.Some? { return Err(failed.value); }
        return;
      }
      var base := ParseBaseType();
      if base.Err? { return base; }
      SkipTrivia();
      var ops := ParseControlOperators();
      if ops.Err? { return Err(ops.error); }
      r := Ok(if ops.value == [] then base.value else Constrained(base.value, ops.value));
    }

    method ParseBaseType() returns (r: Result<TypeExpression, ParseError>)
      requires Valid()
      modifies this
      ensures Valid() && Follows(ParseBase(old(Left())), r, Left())
      decreases |tokens| - current, 1
    {
      hide ParseArray, ParseMap, ParseGroup, ParseDotted, MapAhead, Skip;
      var t := Next();
      match t {
        case Builtin(name) =>
          Advance();
          return Ok(TypeExpression.Builtin(name));
        case Identifier(name) =>
          Advance();
          var full := ParseDottedParts(name);
          if full.Err? { return Err(full.error); }
          return Ok(Reference(full.value));
        case LeftBrace =>
          var isMap := CheckForMapSyntax();
          if isMap {
            r := ParseMapType();
          } else {
            r := ParseGroupType();
          }
        case LeftBracket => r := ParseArrayType();
        case Socket(lexeme) =>
          Advance();
          return Ok(TypeExpression.Socket(StripPrefix(lexeme, "$")));
        case Plug(lexeme) =>
          Advance();
          return Ok(TypeExpression.Plug(StripPrefix(lexeme, "$$")));
        case Integer(i) =>
          Advance();
          return Ok(Literal(LiteralValue.Integer(i)));
        case Float(bits) =>
          Advance();
          return Ok(Literal(LiteralValue.Float(bits)));
        case TextString(s) =>
          Advance();
          return Ok(Literal(Text(s)));
        case ByteString(b) =>
          Advance();
          return Ok(Literal(LiteralValue.ByteString(b)));
        case _ => return Err(ExpectedToken("type expression", t));
      }
    }

    method ParseDottedParts(first: string) returns (r: Result<string, ParseError>)
      requires Valid()
      modifies this
      ensures Valid() && Follows(ParseDotted(first, old(Left())), r, Left())
    {
      var name := first;
      while tokens[current] == Dot
        invariant Valid() && ParseDotted(name, Left()) == ParseDotted(first, old(Left()))
        decreases |tokens| - current
      {
        ghost var before := Left();
        Advance();
        var t := Next();
        if !t.Identifier? {
          return Err(ExpectedIdentifier(t, "identifier after '.'"));
        }
        name := name + "." + t.name;
        Advance();
        assert Left() == before[2..];
      }
      return Ok(name);
    }

    // ---- arrays and maps -------------------------------------------------------------------------------

    method ParseArrayType() returns (r: Result<TypeExpression, ParseError>)
      requires Valid()
      modifies this
      ensures Valid() && Follows(ParseArray(old(Left())), r, Left())
      decreases |tokens| - current, 0
    {
      hide ParseMembers, Skip;
      var failed := ConsumeToken(LeftBracket);
      if failed.Some? { return Err(failed.value); }
      SkipTrivia();
      var members := ParseArrayMembers();
      if members.Err? { return Err(members.error); }
      failed := ConsumeToken(RightBracket);
      if failed.Some? { return Err(failed.value); }
      if |members.value| == 1 && members.value[0].key.None? {
        return Ok(Array(members.value[0].valueType, members.value[0].occurrence));
      }
      return Ok(Tuple(GroupExpression(members.value)));
    }

    /** The loop over the members, up to the closing bracket. */
    method ParseArrayMembers() returns (r: Result<seq<GroupEntry>, ParseError>)
      requires Valid()
      modifies this
      ensures Valid() && Follows(ParseMembers(old(Left())), r, Left())
      decreases |tokens| - current, 6
    {
      hide ParseMembers, ParseMember, Skip, Onto, Cons;
      ghost var start := Left();
      var members: seq<GroupEntry> := [];
      OntoNothing(ParseMembers(start));
      while tokens[current] != RightBracket && tokens[current] != Eof
        invariant Valid() && current >= old(current)
        invariant ParseMembers(start) == Onto(members, ParseMembers(Left()))
        decreases |tokens| - current
      {
        ghost var before, done := Left(), members;
        var member := ParseArrayMember();
        MembersStep(before, done);
        if member.Err? { return Err(member.error); }
        members := members + [member.value];
        SkipTrivia();
        var comma := MatchToken(Comma);
        if comma {
          SkipTrivia();
          continue;
        }
        if tokens[current] != RightBracket {
          return Err(ExpectedToken("comma or ]", tokens[current]));
        }
      }
      MembersEnd(Left());
      OntoEnd(members, Left());
      return Ok(members);
    }

    method ParseArrayMember() returns (r: Result<GroupEntry, ParseError>)
      requires Valid()
      modifies this
      ensures Valid() && Follows(ParseMember(old(Left())), r, Left())
      decreases |tokens| - current, 5
    {
      hide ParseType, TypeParser.ParseKey, KeyAhead, TypeAhead, ReadOccurrence, Skip;
      var occurrence: Option<Occurrence> := None;
      var ahead := ArrayMemberStartsWithOccurrence();
      if ahead {
        var found := ParseOccurrence();
        occurrence := Some(found);
      }
      SkipTrivia();
      var hasKey := CheckForGroupKey();
      if hasKey {
        var keyed := ParseGroupKey();
        if keyed.Err? { return Err(keyed.error); }
        SkipTrivia();
        var value := ParseTypeExpression();
        if value.Err? { return Err(value.error); }
        return Ok(GroupEntry(Some(keyed.value.0), value.value, if occurrence.Some? then occurrence else keyed.value.1,
            [], []));
      }
      var value := ParseTypeExpression();
      if value.Err? { return Err(value.error); }
      return Ok(GroupEntry(None, value.value, occurrence, [], []));
    }

    method ParseMapType() returns (r: Result<TypeExpression, ParseError>)
      requires Valid()
      modifies this
      ensures Valid() && Follows(ParseMap(old(Left())), r, Left())
      decreases |tokens| - current, 0
    {
      hide ParseMapBody, ReadOccurrence, Skip, Consume;
      var failed := ConsumeToken(LeftBrace);
      if failed.Some? { return Err(failed.value); }
      SkipTrivia();
      var occurrence: Option<Occurrence> := None;
      if IsOccurrence(tokens[current]) {
        var found := ParseOccurrence();
        occurrence := Some(found);
      }
      r := ParseMapBehindOccurrence(occurrence);
    }

    method ParseMapBehindOccurrence(occurrence: Option<Occurrence>) returns (r: Result<TypeExpression, ParseError>)
      requires Valid()
      modifies this
      ensures Valid() && Follows(ParseMapBody(occurrence, old(Left())), r, Left())
      decreases |tokens| - current, 4
    {
      hide ParseType, Skip, Consume;
      SkipTrivia();
      var key := ParseTypeExpression();
      if key.Err? { return key; }
      SkipTrivia();
      var failed := ConsumeToken(Arrow);
      if failed.Some? { return Err(failed.value); }
      SkipTrivia();
      var value := ParseTypeExpression();
      if value.Err? { return value; }
      SkipTrivia();
      failed := ConsumeToken(RightBrace);
      if failed.Some? { return Err(failed.value); }
      return Ok(Map(key.value, value.value, occurrence));
    }

    // ---- groups ----------------------------------------------------------------------------------------

    method ParseGroupType() returns (r: Result<TypeExpression, ParseError>)
      requires Valid()
      modifies this
      ensures Valid() && Follows(ParseGroup(old(Left())), r, Left())
      decreases |tokens| - current, 0
    {
      hide TypeParser.ParseEntries;
      var failed := ConsumeToken(LeftBrace);
      if failed.Some? { return Err(failed.value); }
      var entries := ParseGroupEntries(RightBrace);
      if entries.Err? { return Err(entries.error); }
      failed := ConsumeToken(RightBrace);
      if failed.Some? { return Err(failed.value); }
      return Ok(Group(GroupExpression(entries.value)));
    }

    method ParseGroupEntries(close: Token) returns (r: Result<seq<GroupEntry>, ParseError>)
      requires Valid() && (close == RightBrace || close == RightParen)
      modifies this
      ensures Valid() && Follows(TypeParser.ParseEntries(old(Left()), close), r, Left())
      decreases |tokens| - current, 8
    {
      hide ParseMoreEntries, ParseEntry, Skip, Onto, Cons;
      SkipTrivia();
      ghost var start := Left();
      var entries: seq<GroupEntry> := [];
      OntoNothing(ParseMoreEntries(start, close));
      while tokens[current] != close && tokens[current] != Eof
        invariant Valid() && current >= old(current)
        invariant ParseMoreEntries(start, close) == Onto(entries, ParseMoreEntries(Left(), close))
        decreases |tokens| - current
      {
        ghost var before, done := Left(), entries;
        var entry := ParseGroupEntry();
        EntriesStep(before, close, done);
        if entry.Err? { return Err(entry.error); }
        entries := entries + [entry.value];
        SkipTrivia();
        var comma := MatchToken(Comma);
        if comma {
          SkipTrivia();
          continue;
        }
        if tokens[current] != close {
          return Err(ExpectedToken(if close == RightBrace then "comma or }" else "comma or )", tokens[current]));
        }
      }
      EntriesEnd(Left(), close);
      OntoEnd(entries, Left());
      return Ok(entries);
    }

    method ParseGroupEntry() returns (r: Result<GroupEntry, ParseError>)
      requires Valid()
      modifies this
      ensures Valid() && Follows(ParseEntry(old(Left())), r, Left())
      decreases |tokens| - current, 6
    {
      hide ParseEntryValue, ParseOptionalKey, Skip, ParseAnnotations;
      SkipTrivia();
      var metadata := ParseMetadataAnnotations();
      if metadata.Err? { return Err(metadata.error); }
      SkipTrivia();
      var isOptional := MatchToken(Token.Optional);
      if isOptional {
        SkipTrivia();
      }
      var keyed := ParseKeyIfAny();
      if keyed.Err? { return Err(keyed.error); }
      var (key, occurrence) := keyed.value;
      if isOptional {
        occurrence := Some(Occurrence.Optional);
      }
      r := ParseGroupEntryValue(key, occurrence, metadata.value);
    }

    /** The value, and the `?` and the annotations that may stand behind it. */
    method ParseGroupEntryValue(key: Option<GroupKey>, occurrence: Option<Occurrence>, metadata: seq<Annotation>)
      returns (r: Result<GroupEntry, ParseError>)
      requires Valid()
      modifies this
      ensures Valid() && Follows(ParseEntryValue(key, occurrence, metadata, old(Left())), r, Left())
      decreases |tokens| - current, 5
    {
      hide ParseType, Skip, ParseAnnotations, ParseEntryValue;
      EntryValueParts(key, occurrence, metadata, Left());
      SkipTrivia();
      var value := ParseTypeExpression();
      if value.Err? { return Err(value.error); }
      SkipTrivia();
      var behind := MatchToken(Token.Optional);
      if behind {
        SkipTrivia();
      }
      var more := ParseMetadataAnnotations();
      if more.Err? { return Err(more.error); }
      var found := if behind then Some(Occurrence.Optional) else occurrence;
      return Ok(GroupEntry(key, value.value, found, metadata + more.value, []));
    }

    method ParseKeyIfAny() returns (r: Result<(Option<GroupKey>, Option<Occurrence>), ParseError>)
      requires Valid()
      modifies this
      ensures Valid() && Follows(ParseOptionalKey(old(Left())), r, Left())
      decreases |tokens| - current, 5
    {
      hide TypeParser.ParseKey, KeyAhead;
      var hasKey := CheckForGroupKey();
      if !hasKey {
        return Ok((None, None));
      }
      var keyed := ParseGroupKey();
      if keyed.Err? { return Err(keyed.error); }
      return Ok((Some(keyed.value.0), keyed.value.1));
    }

    method ParseGroupKey() returns (r: Result<(GroupKey, Option<Occurrence>), ParseError>)
      requires Valid()
      modifies this
      ensures Valid() && Follows(TypeParser.ParseKey(old(Left())), r, Left())
      decreases |tokens| - current, 4
    {
      hide ParseType, ParseBareKey, ColonBehind, Skip;
      var t := Next();
      if t.Identifier? || t.Builtin? {
        Advance();
        SkipTrivia();
        r := ParseBareKeyMark(t.name);
      } else if t.TextString? || t.Integer? {
        Advance();
        r := ColonBehindKey(LiteralKey(if t.TextString? then Text(t.s) else LiteralValue.Integer(t.i)));
      } else {
        var typ := ParseTypeExpression();
        if typ.Err? { return Err(typ.error); }
        r := ColonBehindKey(TypeKey(typ.value));
      }
    }

    method ColonBehindKey(key: GroupKey) returns (r: Result<(GroupKey, Option<Occurrence>), ParseError>)
      requires Valid()
      modifies this
      ensures Valid() && Follows(ColonBehind(key, old(Left())), r, Left())
    {
      hide Skip, Consume;
      SkipTrivia();
      var failed := ConsumeToken(Colon);
      if failed.Some? { return Err(failed.value); }
      return Ok((key, None));
    }

    /** Behind a bare key: its `?`, if any, and the colon. */
    method ParseBareKeyMark(name: string) returns (r: Result<(GroupKey, Option<Occurrence>), ParseError>)
      requires Valid()
      modifies this
      ensures Valid() && Follows(ParseBareKey(name, old(Left())), r, Left())
    {
      hide Skip;
      var optional := MatchToken(Token.Optional);
      SkipTrivia();
      var failed := ConsumeToken(Colon);
      if failed.Some? { return Err(failed.value); }
      return Ok((Bare(name), if optional then Some(Occurrence.Optional) else None));
    }

    method ParseOccurrence() returns (occurrence: Occurrence)
      requires Valid() && IsOccurrence(Peek(Left()))
      modifies this
      ensures Valid() && (occurrence, Left()) == ReadOccurrence(old(Left())) && current > old(current)
    {
      ghost var start := Left();
      var t := Next();
      Advance();
      match t {
        case Optional => return Occurrence.Optional;
        case OneOrMore => return Occurrence.OneOrMore;
        case ZeroOrMore =>
          var max := Next();
          if max.Integer? {
            Advance();
            assert Left() == start[2..];
            return Between(Some(0), Some(AsU64(max.i)));
          }
          return Occurrence.ZeroOrMore;
        case Integer(count) =>
          var star := MatchToken(Token.ZeroOrMore);
          if !star {
            return Exact(AsU64(count));
          }
          assert Left() == start[2..];
          var max := Next();
          if max.Integer? {
            Advance();
            assert Left() == start[3..];
            return Between(Some(AsU64(count)), Some(AsU64(max.i)));
          }
          return Between(Some(AsU64(count)), None);
      }
    }

    // ---- looking ahead -----------------------------------------------------------------------------------

    method CheckForMapSyntax() returns (isMap: bool)
      requires Valid()
      ensures isMap == MapAhead(Left())
    {
      var i := current;
      var parens, brackets, braces := 0, 0, 0;
      while i < |tokens|
        invariant current <= i <= |tokens|
        invariant ScanBrace(tokens[i..], parens, brackets, braces) == MapAhead(Left())
      {
        assert tokens[i..][1..] == tokens[i + 1..];
        var own := parens == 0 && brackets == 0 && braces == 1;
        match tokens[i] {
          case LeftBrace => braces := braces + 1;
          case RightBrace =>
            braces := braces - 1;
            if braces == 0 {
              return false;
            }
          case LeftParen => parens := parens + 1;
          case RightParen => parens := parens - 1;
          case LeftBracket => brackets := brackets + 1;
          case RightBracket => brackets := brackets - 1;
          case Arrow => if own { return true; }
          case Comma => if own { return false; }
          case _ =>
        }
        i := i + 1;
      }
      return false;
    }

    method CheckForGroupKey() returns (isKey: bool)
      requires Valid()
      ensures isKey == KeyAhead(Left())
    {
      hide BehindBracket, ColonAhead;
      var i := current;
      var isBuiltin := tokens[i].Builtin?;
      assert tokens[i..][1..] == tokens[i + 1..];
      if tokens[i].Identifier? || tokens[i].Builtin? || tokens[i].TextString? || tokens[i].Integer? {
        i := i + 1;
      } else if tokens[i].LeftBracket? {
        var behind := SkipBrackets(i + 1);
        if behind.None? {
          return false;
        }
        i := behind.value;
      } else {
        return false;
      }
      isKey := ScanForColon(i, isBuiltin);
    }

    /** The first index behind the bracket that closes the one before `start`. */
    method SkipBrackets(start: nat) returns (behind: Option<nat>)
      requires Valid() && start <= |tokens|
      ensures behind.Some? ==> behind.value <= |tokens|
      ensures BehindBracket(tokens[start..], 1) == if behind.Some? then Some(tokens[behind.value..]) else None
    {
      var i: nat, depth: nat := start, 1;
      while i < |tokens| && depth > 0
        invariant i <= |tokens|
        invariant BehindBracket(tokens[i..], depth) == BehindBracket(tokens[start..], 1)
      {
        assert tokens[i..][1..] == tokens[i + 1..];
        match tokens[i] {
          case LeftBracket => depth := depth + 1;
          case RightBracket => depth := depth - 1;
          case _ =>
        }
        i := i + 1;
      }
      if depth != 0 {
        return None;
      }
      return Some(i);
    }

    method ScanForColon(start: nat, isBuiltin: bool) returns (found: bool)
      requires Valid() && start <= |tokens|
      ensures found == ColonAhead(tokens[start..], !isBuiltin)
    {
      var i := start;
      while i < |tokens|
        invariant start <= i <= |tokens|
        invariant ColonAhead(tokens[i..], !isBuiltin) == ColonAhead(tokens[start..], !isBuiltin)
      {
        assert tokens[i..][1..] == tokens[i + 1..];
        match tokens[i] {
          case Whitespace(_) => i := i + 1;
          case Newline => i := i + 1;
          case Optional => i := i + 1;
          case Colon => return true;
          case Arrow => return !isBuiltin;
          case _ => return false;
        }
      }
      return false;
    }

    method ArrayMemberStartsWithOccurrence() returns (starts: bool)
      requires Valid()
      ensures starts == OccurrenceAhead(Left())
    {
      var t := Next();
      if !t.Integer? {
        return t == Token.Optional || t == Token.ZeroOrMore || t == Token.OneOrMore;
      }
      var i := current + 1;
      assert Left()[1..] == tokens[i..];
      while i < |tokens|
        invariant i <= |tokens| && TypeAhead(tokens[i..]) == TypeAhead(Left()[1..])
      {
        assert tokens[i..][1..] == tokens[i + 1..];
        match tokens[i] {
          case Whitespace(_) => i := i + 1;
          case Newline => i := i + 1;
          case Comma => return false;
          case RightBracket => return false;
          case _ => return true;
        }
      }
      return false;
    }

    // ---- control operators -------------------------------------------------------------------------------

    method ParseControlOperators() returns (r: Result<seq<ControlOperator>, ParseError>)
      requires Valid()
      modifies this
      ensures Valid() && Follows(ParseControls(old(Left())), r, Left())
      decreases |tokens| - current, 1
    {
      hide ParseControl, ParseControls, Skip, Onto, Cons;
      ghost var start := Left();
      var ops: seq<ControlOperator> := [];
      OntoNothing(ParseControls(start));
      while IsControl(tokens[current])
        invariant Valid() && current >= old(current)
        invariant ParseControls(start) == Onto(ops, ParseControls(Left()))
        decreases |tokens| - current
      {
        ghost var before, done := Left(), ops;
        var op := ParseControlOperator();
        ControlsStep(before, done);
        if op.Err? { return Err(op.error); }
        ops := ops + [op.value];
        SkipTrivia();
      }
      ControlsEnd(Left());
      OntoEnd(ops, Left());
      return Ok(ops);
    }

    method ParseControlOperator() returns (r: Result<ControlOperator, ParseError>)
      requires Valid() && IsControl(Peek(Left()))
      modifies this
      ensures Valid() && Follows(ParseControl(old(Left())), r, Left())
      decreases |tokens| - current, 0
    {
      hide ParseLiteral, ParseSize, ParseType, ParseWordControl, Skip;
      var t := Next();
      Advance();
      if t.PlainControl? {
        return Ok(Plain(t.plain));
      }
      SkipTrivia();
      if t.LiteralControl? {
        var value := ParseLiteralValue();
        if value.Err? { return Err(value.error); }
        r := Ok(WithLiteral(t.op, value.value));
      } else if t.SizeControl? {
        var size := ParseSizeConstraint();
        if size.Err? { return Err(size.error); }
        r := Ok(Size(size.value));
      } else if t.AndControl? || t.WithinControl? {
        var operand := ParseTypeExpression();
        if operand.Err? { return Err(operand.error); }
        r := Ok(if t.AndControl? then And(operand.value) else Within(operand.value));
      } else {
        r := ParseWordOperand(t);
      }
    }

    /** The operand of `.regex` or `.bits`. */
    method ParseWordOperand(t: Token) returns (r: Result<ControlOperator, ParseError>)
      requires Valid() && (t.RegexControl? || t.BitsControl?)
      modifies this
      ensures Valid() && Follows(ParseWordControl(t, old(Left())), r, Left())
    {
      var word := Next();
      if t.RegexControl? {
        if !word.TextString? {
          return Err(ExpectedToken("string literal for regex pattern", word));
        }
        Advance();
        return Ok(Regex(word.s));
      }
      if !word.TextString? && !word.Identifier? {
        return Err(ExpectedToken("bits expression", word));
      }
      Advance();
      return Ok(Bits(if word.TextString? then word.s else word.name));
    }

    method ParseSizeConstraint() returns (r: Result<SizeConstraint, ParseError>)
      requires Valid()
      modifies this
      ensures Valid() && Follows(ParseSize(old(Left())), r, Left())
    {
      hide SizeAndParen, Skip, AsU64, Consume, DebugName;
      var t := Next();
      if t.Integer? {
        Advance();
        return Ok(ExactSize(AsU64(t.i)));
      } else if t.LeftParen? {
        Advance();
        SkipTrivia();
        r := ParseSizeAndParen();
      } else {
        return Err(ExpectedToken("integer or parenthesized range for size constraint", t));
      }
    }

    method ParseSizeAndParen() returns (r: Result<SizeConstraint, ParseError>)
      requires Valid()
      modifies this
      ensures Valid() && Follows(SizeAndParen(old(Left())), r, Left())
    {
      hide ParseSizeInParens, Skip, Consume;
      r := ParseParenthesizedSize();
      if r.Err? { return; }
      SkipTrivia();
      var failed := ConsumeToken(RightParen);
      if failed.Some? { return Err(failed.value); }
    }

    method ParseParenthesizedSize() returns (r: Result<SizeConstraint, ParseError>)
      requires Valid()
      modifies this
      ensures Valid() && Follows(ParseSizeInParens(old(Left())), r, Left())
    {
      hide Skip, AsU64, ReadUpperBound;
      var t := Next();
      if t.Integer? {
        Advance();
        SkipTrivia();
        var size := ParseUpperBound(AsU64(t.i));
        return Ok(size);
      }
      var range := MatchToken(Token.Range);
      if !range {
        return Err(ExpectedToken("integer or range for size constraint", t));
      }
      SkipTrivia();
      var max := Next();
      if !max.Integer? {
        return Err(ExpectedToken("integer for range maximum", max));
      }
      Advance();
      return Ok(MaxSize(AsU64(max.i)));
    }

    /** Behind the lower bound: `..` and an upper bound, `..` alone, or nothing. */
    method ParseUpperBound(min: u64) returns (size: SizeConstraint)
      requires Valid()
      modifies this
      ensures Valid() && (size, Left()) == ReadUpperBound(min, old(Left()))
    {
      hide Skip;
      var range := MatchToken(Token.Range);
      if !range {
        return ExactSize(min);
      }
      SkipTrivia();
      var max := Next();
      if max.Integer? {
        Advance();
        return SizeRange(min, AsU64(max.i));
      }
      return MinSize(min);
    }

    method ParseLiteralValue() returns (r: Result<LiteralValue, ParseError>)
      requires Valid()
      modifies this
      ensures Valid() && Follows(ParseLiteral(old(Left())), r, Left())
      decreases |tokens| - current, 0
    {
      hide ParseElements, Skip, Consume;
      var t := Next();
      match t {
        case Integer(i) =>
          Advance();
          return Ok(LiteralValue.Integer(i));
        case Float(bits) =>
          Advance();
          return Ok(LiteralValue.Float(bits));
        case TextString(s) =>
          Advance();
          return Ok(Text(s));
        case ByteString(b) =>
          Advance();
          return Ok(LiteralValue.ByteString(b));
        case Builtin(name) =>
          if name != "true" && name != "false" && name != "null" {
            return Err(ExpectedToken("literal value", t));
          }
          Advance();
          return Ok(if name == "null" then Null else Bool(name == "true"));
        case LeftBracket =>
          Advance();
          SkipTrivia();
          var elements := ParseLiteralElements();
          if elements.Err? { return Err(elements.error); }
          var failed := ConsumeToken(RightBracket);
          if failed.Some? { return Err(failed.value); }
          return Ok(List(elements.value));
        case _ => return Err(ExpectedToken("literal value", t));
      }
    }

    method ParseLiteralElements() returns (r: Result<seq<LiteralValue>, ParseError>)
      requires Valid()
      modifies this
      ensures Valid() && Follows(ParseElements(old(Left())), r, Left())
      decreases |tokens| - current, 1
    {
      hide ParseLiteral, ParseElements, Skip, Onto, Cons;
      ghost var start := Left();
      var elements: seq<LiteralValue> := [];
      OntoNothing(ParseElements(start));
      while tokens[current] != RightBracket && tokens[current] != Eof
        invariant Valid() && current >= old(current)
        invariant ParseElements(start) == Onto(elements, ParseElements(Left()))
        decreases |tokens| - current
      {
        ghost var before, done := Left(), elements;
        var element := ParseLiteralValue();
        ElementsStep(before, done);
        if element.Err? { return Err(element.error); }
        elements := elements + [element.value];
        SkipTrivia();
        var comma := MatchToken(Comma);
        if !comma {
          return Ok(elements);
        }
        SkipTrivia();
      }
      ElementsEnd(Left());
      OntoEnd(elements, Left());
      return Ok(elements);
    }

    // ---- annotations -------------------------------------------------------------------------------------

    method ParseMetadataAnnotations() returns (r: Result<seq<Annotation>, ParseError>)
      requires Valid()
      modifies this
      ensures Valid() && Follows(ParseAnnotations(old(Left())), r, Left())
    {
      hide ParseAnnotation, ParseAnnotations, Skip, Onto, Cons;
      ghost var start := Left();
      var metadata: seq<Annotation> := [];
      OntoNothing(ParseAnnotations(start));
      while tokens[current].At?
        invariant Valid()
        invariant ParseAnnotations(start) == Onto(metadata, ParseAnnotations(Left()))
        decreases |tokens| - current
      {
        AnnotationsStep(Left(), metadata);
        var annotation := ParseSingleAnnotation();
        if annotation.Err? { return Err(annotation.error); }
        metadata := metadata + [annotation.value];
        SkipTrivia();
      }
      AnnotationsEnd(Left());
      OntoEnd(metadata, Left());
      return Ok(metadata);
    }

    method ParseSingleAnnotation() returns (r: Result<Annotation, ParseError>)
      requires Valid() && Peek(Left()).At?
      modifies this
      ensures Valid() && Follows(ParseAnnotation(old(Left())), r, Left())
    {
      hide ParseDependsOn, ParseDescription, ParseSizeBound, ParseValueLimit, ParseCustom, Skip;
      var at := tokens[current].at;
      Advance();
      match at {
        case AtVisibility(visibility) => return Ok(Shown(visibility));
        case AtDependsOn => r := ParseDependsOnAnnotation();
        case AtDescription => r := ParseDescriptionAnnotation();
        case AtSizeBound(bound) => r := ParseConstraintAnnotation(bound);
        case AtValueLimit(limit) => r := ParseValueConstraintAnnotation(limit);
        case AtCustom(name) => r := ParseCustomAnnotation(name);
      }
    }

    method ParseDependsOnAnnotation() returns (r: Result<Annotation, ParseError>)
      requires Valid()
      modifies this
      ensures Valid() && Follows(ParseDependsOn(Skip(old(Left()))), r, Left())
    {
      hide ParseCondition, Skip, CloseParen;
      SkipTrivia();
      var open := MatchToken(LeftParen);
      if !open { return Err(MetadataError(tokens[current])); }
      SkipTrivia();
      var condition := ParseDependsCondition();
      if condition.Err? { return Err(condition.error); }
      var c := condition.value;
      var simple := c.Compare? && (c.op == None || c.op == Some(Eq));
      r := CloseParenthesis(if simple then DependsOn(c.field, c.value) else DependsOnExpr(c));
    }

    /** What was read is all there may be in the parentheses. */
    method CloseParenthesis<T(==)>(item: T) returns (r: Result<T, ParseError>)
      requires Valid()
      modifies this
      ensures Valid() && Follows(CloseParen(item, old(Left())), r, Left())
    {
      hide Skip, Consume;
      SkipTrivia();
      var failed := ConsumeToken(RightParen);
      if failed.Some? { return Err(failed.value); }
      return Ok(item);
    }

    method ParseDependsCondition() returns (r: Result<Condition, ParseError>)
      requires Valid()
      modifies this
      ensures Valid() && Follows(ParseCondition(old(Left())), r, Left())
    {
      hide ParseConjunction, ParseMoreConjunctions, Skip, Onto, Cons;
      var first := ParseDependsAnd();
      if first.Err? { return Err(first.error); }
      ghost var behind := Left();
      var terms := [first.value];
      while true
        invariant Valid() && terms != []
        invariant Onto([first.value], ParseMoreConjunctions(behind)) == Onto(terms, ParseMoreConjunctions(Left()))
        decreases |tokens| - current
      {
        ConjunctionsStep(Left(), terms);
        SkipTrivia();
        var more := MatchToken(Pipe);
        if !more { break; }
        SkipTrivia();
        var term := ParseDependsAnd();
        if term.Err? {
          OntoFails([first.value], ParseMoreConjunctions(behind));
          return Err(term.error);
        }
        terms := terms + [term.value];
      }
      OntoParts([first.value], ParseMoreConjunctions(behind));
      return Ok(if |terms| == 1 then terms[0] else Any(terms));
    }

    method ParseDependsAnd() returns (r: Result<Condition, ParseError>)
      requires Valid()
      modifies this
      ensures Valid() && Follows(ParseConjunction(old(Left())), r, Left())
    {
      hide ParseComparison, ParseMoreComparisons, Skip, Onto, Cons;
      var first := ParseDependsCompare();
      if first.Err? { return Err(first.error); }
      ghost var behind := Left();
      var terms := [first.value];
      while true
        invariant Valid() && terms != []
        invariant Onto([first.value], ParseMoreComparisons(behind)) == Onto(terms, ParseMoreComparisons(Left()))
        decreases |tokens| - current
      {
        ComparisonsStep(Left(), terms);
        SkipTrivia();
        var more := MatchToken(Ampersand);
        if !more { break; }
        SkipTrivia();
        var term := ParseDependsCompare();
        if term.Err? {
          OntoFails([first.value], ParseMoreComparisons(behind));
          return Err(term.error);
        }
        terms := terms + [term.value];
      }
      OntoParts([first.value], ParseMoreComparisons(behind));
      return Ok(if |terms| == 1 then terms[0] else All(terms));
    }

    method ParseDependsCompare() returns (r: Result<Condition, ParseError>)
      requires Valid()
      modifies this
      ensures Valid() && Follows(ParseComparison(old(Left())), r, Left())
    {
      hide ParseLiteral, ParsePath, ParseFieldName, Skip;
      var first := ConsumeFieldName();
      if first.Err? { return Err(first.error); }
      var path := ParseFieldPath(first.value);
      if path.Err? { return Err(path.error); }
      SkipTrivia();
      var t := Next();
      if !t.Comparison? {
        return Ok(Compare(path.value, None, None));
      }
      Advance();
      SkipTrivia();
      var value := ParseLiteralValue();
      if value.Err? { return Err(value.error); }
      return Ok(Compare(path.value, Some(t.comparison), Some(value.value)));
    }

    method ParseFieldPath(first: string) returns (r: Result<string, ParseError>)
      requires Valid()
      modifies this
      ensures Valid() && Follows(ParsePath(first, old(Left())), r, Left())
    {
      hide ParseFieldName, Skip;
      var path := first;
      while true
        invariant Valid() && ParsePath(path, Left()) == ParsePath(first, old(Left()))
        decreases |tokens| - current
      {
        var more := MatchToken(Dot);
        if !more { return Ok(path); }
        SkipTrivia();
        var part := ConsumeFieldName();
        if part.Err? { return Err(part.error); }
        path := path + "." + part.value;
      }
    }

    method ConsumeFieldName() returns (r: Result<string, ParseError>)
      requires Valid()
      modifies this
      ensures Valid() && Follows(ParseFieldName(old(Left())), r, Left())
    {
      var t := Next();
      if !t.Identifier? && !t.Builtin? {
        return Err(MetadataError(t));
      }
      Advance();
      return Ok(t.name);
    }

    method ParseDescriptionAnnotation() returns (r: Result<Annotation, ParseError>)
      requires Valid()
      modifies this
      ensures Valid() && Follows(ParseDescription(Skip(old(Left()))), r, Left())
    {
      hide Skip, CloseParen;
      SkipTrivia();
      var open := MatchToken(LeftParen);
      if !open { return Err(ExpectedToken("(", tokens[current])); }
      SkipTrivia();
      var t := Next();
      if !t.TextString? { return Err(ExpectedToken("string literal", t)); }
      Advance();
      r := CloseParenthesis(Description(t.s));
    }

    method ParseConstraintAnnotation(bound: SizeBound) returns (r: Result<Annotation, ParseError>)
      requires Valid()
      modifies this
      ensures Valid() && Follows(ParseSizeBound(bound, Skip(old(Left()))), r, Left())
    {
      hide Skip, CloseParen;
      SkipTrivia();
      var open := MatchToken(LeftParen);
      if !open { return Err(ExpectedToken("(", tokens[current])); }
      SkipTrivia();
      var t := Next();
      if !t.Integer? || t.i < 0 { return Err(ExpectedToken("positive integer", t)); }
      Advance();
      r := CloseParenthesis(Bounded(bound, t.i));
    }

    method ParseValueConstraintAnnotation(limit: ValueLimit) returns (r: Result<Annotation, ParseError>)
      requires Valid()
      modifies this
      ensures Valid() && Follows(ParseValueLimit(limit, Skip(old(Left()))), r, Left())
    {
      hide Skip, CloseParen, ParseLiteral;
      SkipTrivia();
      var open := MatchToken(LeftParen);
      if !open { return Err(ExpectedToken("(", tokens[current])); }
      SkipTrivia();
      var value := ParseLiteralValue();
      if value.Err? { return Err(value.error); }
      r := CloseParenthesis(Limited(limit, value.value));
    }

    method ParseCustomAnnotation(name: string) returns (r: Result<Annotation, ParseError>)
      requires Valid()
      modifies this
      ensures Valid() && Follows(ParseCustom(name, old(Left())), r, Left())
    {
      hide ParseParameters, Skip, Consume;
      if tokens[current] != LeftParen {
        return Ok(Custom(name, []));
      }
      Advance();
      SkipTrivia();
      var parameters := ParseMetadataParameters();
      if parameters.Err? { return Err(parameters.error); }
      var failed := ConsumeToken(RightParen);
      if failed.Some? { return Err(failed.value); }
      return Ok(Custom(name, parameters.value));
    }

    method ParseMetadataParameters() returns (r: Result<seq<Parameter>, ParseError>)
      requires Valid()
      modifies this
      ensures Valid() && Follows(ParseParameters(old(Left())), r, Left())
    {
      hide ParseParameter, ParseParameters, Skip, Onto, Cons;
      ghost var start := Left();
      var parameters: seq<Parameter> := [];
      OntoNothing(ParseParameters(start));
      while tokens[current] != RightParen && tokens[current] != Eof
        invariant Valid()
        invariant ParseParameters(start) == Onto(parameters, ParseParameters(Left()))
        decreases |tokens| - current
      {
        ParametersStep(Left(), parameters);
        var parameter := ParseMetadataParameter();
        if parameter.Err? { return Err(parameter.error); }
        parameters := parameters + [parameter.value];
        SkipTrivia();
        var comma := MatchToken(Comma);
        if comma {
          SkipTrivia();
        } else if tokens[current] != RightParen {
          return Err(ExpectedToken("comma or )", tokens[current]));
        }
      }
      ParametersEnd(Left());
      OntoEnd(parameters, Left());
      return Ok(parameters);
    }

    method ParseMetadataParameter() returns (r: Result<Parameter, ParseError>)
      requires Valid()
      modifies this
      ensures Valid() && Follows(ParseParameter(old(Left())), r, Left())
    {
      hide ParseLiteral, Skip, AssignAhead, Consume;
      var named := CheckForNamedParameter();
      var name: Option<string> := None;
      if named {
        name := Some(tokens[current].name);
        Advance();
        SkipTrivia();
        var failed := ConsumeToken(Comparison(Eq));
        if failed.Some? { return Err(failed.value); }
        SkipTrivia();
      }
      var value := ParseLiteralValue();
      if value.Err? { return Err(value.error); }
      return Ok(Parameter(name, value.value));
    }

    method CheckForNamedParameter() returns (named: bool)
      requires Valid()
      ensures named == NamedAhead(Left())
    {
      if !tokens[current].Identifier? {
        return false;
      }
      var i := current + 1;
      assert Left()[1..] == tokens[i..];
      while i < |tokens|
        invariant i <= |tokens| && AssignAhead(tokens[i..]) == AssignAhead(Left()[1..])
      {
        assert tokens[i..][1..] == tokens[i + 1..];
        match tokens[i] {
          case Whitespace(_) => i := i + 1;
          case Newline => i := i + 1;
          case Comparison(Eq) => return true;
          case _ => return false;
        }
      }
      return false;
    }
  }

  // ---- the loops, one turn at a time --------------------------------------------------------------------

  lemma ArmsFail(ts: Input, done: seq<TypeExpression>)
    requires ParsePrimary(Skip(ts)).Err?
    ensures Onto(done, ParseArms(ts)) == Err(ParsePrimary(Skip(ts)).error)
  {
    hide ParsePrimary, Skip;
  }

  lemma {:induction false} ArmsStep(ts: Input, done: seq<TypeExpression>)
    requires ParsePrimary(Skip(ts)).Ok?
    ensures var (arm, left) := ParsePrimary(Skip(ts)).value;
            Onto(done, ParseArms(ts)) == if IsChoiceMark(Peek(left)) then Onto(done + [arm], ParseArms(left[1..]))
                                         else Ok((done + [arm], left))
  {
    hide ParsePrimary, Skip;
    var (a, l) := ParsePrimary(Skip(ts)).value;
    if IsChoiceMark(Peek(l)) {
      OntoStep(done, a, ParseArms(l[1..]));
    }
  }

  /** One turn of the loop that has collected `done`. */
  ghost function MembersTurn(ts: Input, done: seq<GroupEntry>): Parsed<seq<GroupEntry>>
    requires Peek(ts) != RightBracket && Peek(ts) != Eof
  {
    var (member, ts1) :- ParseMember(ts);
    var ts2 := Skip(ts1);
    if Peek(ts2) == Comma then Onto(done + [member], ParseMembers(Skip(ts2[1..])))
    else if Peek(ts2) == RightBracket then Onto(done + [member], ParseMembers(ts2))
    else Err(ExpectedToken("comma or ]", Peek(ts2)))
  }

  lemma MembersStep(ts: Input, done: seq<GroupEntry>)
    requires Peek(ts) != RightBracket && Peek(ts) != Eof
    ensures Onto(done, ParseMembers(ts)) == MembersTurn(ts, done)
  {
    hide ParseMember, Skip, Onto;
    if ParseMember(ts).Ok? {
      var (m, l) := ParseMember(ts).value;
      if Peek(Skip(l)) == Comma {
        OntoStep(done, m, ParseMembers(Skip(Skip(l)[1..])));
      }
      OntoStep(done, m, ParseMembers(Skip(l)));
      FailsAlike(done);
      assert [m] + [] == [m];
    } else {
      FailsAlike(done);
    }
  }

  lemma FailsAlike<T>(done: seq<T>)
    ensures forall e: ParseError {:trigger Onto(done, Err(e))} :: Onto(done, Err(e)) == Err(e)
  {
  }

  lemma MembersEnd(ts: Input)
    requires Peek(ts) == RightBracket || Peek(ts) == Eof
    ensures ParseMembers(ts) == Ok(([], ts))
  {
  }

  /** What is read as an entry's value, and behind it. */
  lemma EntryValueParts(key: Option<GroupKey>, occurrence: Option<Occurrence>, metadata: seq<Annotation>, ts: Input)
    ensures ParseEntryValue(key, occurrence, metadata, ts)
         == match ParseType(Skip(ts))
            case Err(e) => Err(e)
            case Ok((value, left)) =>
              var behind := Peek(Skip(left)) == Token.Optional;
              var found := if behind then Some(Occurrence.Optional) else occurrence;
              match ParseAnnotations(if behind then Skip(Skip(left)[1..]) else Skip(left))
              case Err(e) => Err(e)
              case Ok((more, rest)) => Ok((GroupEntry(key, value, found, metadata + more, []), rest))
  {
    hide ParseType, Skip, ParseAnnotations;
  }

  /** One turn of the loop that has collected `done`. */
  ghost function EntriesTurn(ts: Input, close: Token, done: seq<GroupEntry>): Parsed<seq<GroupEntry>>
    requires (close == RightBrace || close == RightParen) && Peek(ts) != close && Peek(ts) != Eof
  {
    var (entry, ts1) :- ParseEntry(ts);
    var ts2 := Skip(ts1);
    if Peek(ts2) == Comma then Onto(done + [entry], ParseMoreEntries(Skip(ts2[1..]), close))
    else if Peek(ts2) == close then Onto(done + [entry], ParseMoreEntries(ts2, close))
    else Err(ExpectedToken(if close == RightBrace then "comma or }" else "comma or )", Peek(ts2)))
  }

  lemma EntriesStep(ts: Input, close: Token, done: seq<GroupEntry>)
    requires (close == RightBrace || close == RightParen) && Peek(ts) != close && Peek(ts) != Eof
    ensures Onto(done, ParseMoreEntries(ts, close)) == EntriesTurn(ts, close, done)
  {
    hide ParseEntry, Skip, Onto;
    if ParseEntry(ts).Ok? {
      var (m, l) := ParseEntry(ts).value;
      if Peek(Skip(l)) == Comma {
        OntoStep(done, m, ParseMoreEntries(Skip(Skip(l)[1..]), close));
      }
      OntoStep(done, m, ParseMoreEntries(Skip(l), close));
      FailsAlike(done);
      assert [m] + [] == [m];
    } else {
      FailsAlike(done);
    }
  }

  lemma EntriesEnd(ts: Input, close: Token)
    requires (close == RightBrace || close == RightParen) && (Peek(ts) == close || Peek(ts) == Eof)
    ensures ParseMoreEntries(ts, close) == Ok(([], ts))
  {
  }

  /** One turn of the loop that has collected `done`. */
  ghost function ControlsTurn(ts: Input, done: seq<ControlOperator>): Parsed<seq<ControlOperator>>
    requires IsControl(Peek(ts))
  {
    var (op, ts1) :- ParseControl(ts);
    Onto(done + [op], ParseControls(Skip(ts1)))
  }

  lemma ControlsStep(ts: Input, done: seq<ControlOperator>)
    requires IsControl(Peek(ts))
    ensures Onto(done, ParseControls(ts)) == ControlsTurn(ts, done)
  {
    hide ParseControl, Skip, Onto;
    FailsAlike(done);
    if ParseControl(ts).Ok? {
      var (m, l) := ParseControl(ts).value;
      OntoStep(done, m, ParseControls(Skip(l)));
    }
  }

  lemma ControlsEnd(ts: Input)
    requires !IsControl(Peek(ts))
    ensures ParseControls(ts) == Ok(([], ts))
  {
  }

  /** One turn of the loop that has collected `done`. */
  ghost function AnnotationsTurn(ts: Input, done: seq<Annotation>): Parsed<seq<Annotation>>
    requires Peek(ts).At?
  {
    var (annotation, ts1) :- ParseAnnotation(ts);
    Onto(done + [annotation], ParseAnnotations(Skip(ts1)))
  }

  lemma AnnotationsStep(ts: Input, done: seq<Annotation>)
    requires Peek(ts).At?
    ensures Onto(done, ParseAnnotations(ts)) == AnnotationsTurn(ts, done)
  {
    hide ParseAnnotation, Skip, Onto;
    FailsAlike(done);
    if ParseAnnotation(ts).Ok? {
      var (m, l) := ParseAnnotation(ts).value;
      OntoStep(done, m, ParseAnnotations(Skip(l)));
    }
  }

  lemma AnnotationsEnd(ts: Input)
    requires !Peek(ts).At?
    ensures ParseAnnotations(ts) == Ok(([], ts))
  {
  }

  /** One turn of the loop that has collected `done`. */
  ghost function ConjunctionsTurn(ts: Input, done: seq<Condition>): Parsed<seq<Condition>> {
    var ts1 := Skip(ts);
    if Peek(ts1) != Pipe then Ok((done, ts1))
    else
      var (term, ts2) :- ParseConjunction(Skip(ts1[1..]));
      Onto(done + [term], ParseMoreConjunctions(ts2))
  }

  lemma ConjunctionsStep(ts: Input, done: seq<Condition>)
    ensures Onto(done, ParseMoreConjunctions(ts)) == ConjunctionsTurn(ts, done)
  {
    hide ParseConjunction, Skip, Onto;
    FailsAlike(done);
    OntoEnd(done, Skip(ts));
    if Peek(Skip(ts)) == Pipe && ParseConjunction(Skip(Skip(ts)[1..])).Ok? {
      var (m, l) := ParseConjunction(Skip(Skip(ts)[1..])).value;
      OntoStep(done, m, ParseMoreConjunctions(l));
    }
  }

  /** One turn of the loop that has collected `done`. */
  ghost function ComparisonsTurn(ts: Input, done: seq<Condition>): Parsed<seq<Condition>> {
    var ts1 := Skip(ts);
    if Peek(ts1) != Ampersand then Ok((done, ts1))
    else
      var (term, ts2) :- ParseComparison(Skip(ts1[1..]));
      Onto(done + [term], ParseMoreComparisons(ts2))
  }

  lemma ComparisonsStep(ts: Input, done: seq<Condition>)
    ensures Onto(done, ParseMoreComparisons(ts)) == ComparisonsTurn(ts, done)
  {
    hide ParseComparison, Skip, Onto;
    FailsAlike(done);
    OntoEnd(done, Skip(ts));
    if Peek(Skip(ts)) == Ampersand && ParseComparison(Skip(Skip(ts)[1..])).Ok? {
      var (m, l) := ParseComparison(Skip(Skip(ts)[1..])).value;
      OntoStep(done, m, ParseMoreComparisons(l));
    }
  }

  lemma OntoFails<T>(done: seq<T>, parsed: Parsed<seq<T>>)
    ensures Onto(done, parsed).Err? ==> parsed == Err(Onto(done, parsed).error)
  {
  }

  lemma OntoParts<T>(done: seq<T>, parsed: Parsed<seq<T>>)
    ensures Onto(done, parsed).Ok? ==>
              parsed.Ok? && Onto(done, parsed) == Ok((done + parsed.value.0, parsed.value.1))
  {
  }

  /** One turn of the loop that has collected `done`. */
  ghost function ParametersTurn(ts: Input, done: seq<Parameter>): Parsed<seq<Parameter>>
    requires Peek(ts) != RightParen && Peek(ts) != Eof
  {
    var (parameter, ts1) :- ParseParameter(ts);
    var ts2 := Skip(ts1);
    if Peek(ts2) == Comma then Onto(done + [parameter], ParseParameters(Skip(ts2[1..])))
    else if Peek(ts2) == RightParen then Onto(done + [parameter], ParseParameters(ts2))
    else Err(ExpectedToken("comma or )", Peek(ts2)))
  }

  lemma ParametersStep(ts: Input, done: seq<Parameter>)
    requires Peek(ts) != RightParen && Peek(ts) != Eof
    ensures Onto(done, ParseParameters(ts)) == ParametersTurn(ts, done)
  {
    hide ParseParameter, Skip, Onto;
    FailsAlike(done);
    if ParseParameter(ts).Ok? {
      var (m, l) := ParseParameter(ts).value;
      if Peek(Skip(l)) == Comma {
        OntoStep(done, m, ParseParameters(Skip(Skip(l)[1..])));
      }
      OntoStep(done, m, ParseParameters(Skip(l)));
      assert [m] + [] == [m];
    }
  }

  lemma ParametersEnd(ts: Input)
    requires Peek(ts) == RightParen || Peek(ts) == Eof
    ensures ParseParameters(ts) == Ok(([], ts))
  {
  }

  /** One turn of the loop that has collected `done`. */
  ghost function ElementsTurn(ts: Input, done: seq<LiteralValue>): Parsed<seq<LiteralValue>>
    requires Peek(ts) != RightBracket && Peek(ts) != Eof
  {
    var (element, ts1) :- ParseLiteral(ts);
    var ts2 := Skip(ts1);
    if Peek(ts2) == Comma then Onto(done + [element], ParseElements(Skip(ts2[1..])))
    else Ok((done + [element], ts2))
  }

  lemma ElementsStep(ts: Input, done: seq<LiteralValue>)
    requires Peek(ts) != RightBracket && Peek(ts) != Eof
    ensures Onto(done, ParseElements(ts)) == ElementsTurn(ts, done)
  {
    hide ParseLiteral, Skip, Onto;
    FailsAlike(done);
    if ParseLiteral(ts).Ok? {
      var (m, l) := ParseLiteral(ts).value;
      if Peek(Skip(l)) == Comma {
        OntoStep(done, m, ParseElements(Skip(Skip(l)[1..])));
      }
      OntoStep(done, m, Ok(([], Skip(l))));
      OntoEnd(done + [m], Skip(l));
      assert [m] + [] == [m];
    }
  }

  lemma ElementsEnd(ts: Input)
    requires Peek(ts) == RightBracket || Peek(ts) == Eof
    ensures ParseElements(ts) == Ok(([], ts))
  {
  }
}
