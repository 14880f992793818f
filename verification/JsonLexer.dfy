/** What Reader::readToken finds at each position of a document, and the token stream of a document. */
module JsonLexer {
  import opened Bytes
  import opened JsonNumbers
  import opened JsonStrings
  import opened JsonValues

  datatype Token = Token(kind: Kind, start: nat, end: nat)

  function SkipSpaces(doc: bytes, pos: nat): (r: nat)
    requires pos <= |doc|
    ensures pos <= r <= |doc|
  {
    pos + Blank(doc[pos..])
  }

  /** readString: the position where it stops and whether it stopped at a closing quote. */
  function StringEnd(doc: bytes, pos: nat): (r: (nat, bool))
    requires pos <= |doc|
    ensures pos <= r.0 <= |doc|
    ensures r.1 ==> pos < r.0 && doc[r.0 - 1] == QUOTE
    decreases |doc| - pos
  {
    if pos == |doc| then (pos, false)
    else if doc[pos] == BACKSLASH then
      // getNextChar does not move at the end of the document
      if pos + 1 == |doc| then (pos + 1, false) else StringEnd(doc, pos + 2)
    else if doc[pos] == QUOTE then (pos + 1, true)
    else StringEnd(doc, pos + 1)
  }

  function DigitsEnd(doc: bytes, pos: nat): (r: nat)
    requires pos <= |doc|
    ensures pos <= r <= |doc|
    decreases |doc| - pos
  {
    if pos < |doc| && IsDigit(doc[pos]) then DigitsEnd(doc, pos + 1) else pos
  }

  function FractionEnd(doc: bytes, pos: nat): (r: nat)
    requires pos <= |doc|
    ensures pos <= r <= |doc|
  {
    if pos < |doc| && doc[pos] == DOT then DigitsEnd(doc, pos + 1) else pos
  }

  function ExponentEnd(doc: bytes, pos: nat): (r: nat)
    requires pos <= |doc|
    ensures pos <= r <= |doc|
  {
    if pos < |doc| && (doc[pos] == LOWER_E || doc[pos] == UPPER_E) then
      if pos + 1 < |doc| && (doc[pos + 1] == PLUS || doc[pos + 1] == MINUS)
      then DigitsEnd(doc, pos + 2)
      else DigitsEnd(doc, pos + 1)
    else pos
  }

  /** readNumber, entered after the first character of the number. */
  function NumberEnd(doc: bytes, pos: nat): (r: nat)
    requires pos <= |doc|
    ensures pos <= r <= |doc|
  {
    ExponentEnd(doc, FractionEnd(doc, DigitsEnd(doc, pos)))
  }

  predicate Matches(doc: bytes, pos: nat, pattern: bytes)
    requires pos <= |doc|
  {
    pattern <= doc[pos..]
  }

  /** The character under the cursor; the document is followed by a NUL in memory. */
  function PeekAt(doc: bytes, pos: nat): byte
    requires pos <= |doc|
  {
    if pos < |doc| then doc[pos] else NUL
  }

  function Next(doc: bytes, pos: nat): (r: nat)
    requires pos <= |doc|
    ensures pos <= r <= |doc|
  {
    if pos < |doc| then pos + 1 else pos
  }

  /** The loop of readCStyleComment: stops before the slash that ends the comment. */
  function StarSlash(doc: bytes, pos: nat): (r: nat)
    requires pos <= |doc|
    ensures pos <= r <= |doc|
    decreases |doc| - pos
  {
    if pos == |doc| then pos
    else if doc[pos] == STAR && PeekAt(doc, pos + 1) == SLASH then pos + 1
    else StarSlash(doc, pos + 1)
  }

  /** readCppStyleComment: stops after the line end. */
  function LineEnd(doc: bytes, pos: nat): (r: nat)
    requires pos <= |doc|
    ensures pos <= r <= |doc|
    decreases |doc| - pos
  {
    if pos == |doc| then pos
    else if doc[pos] == NEWLINE then pos + 1
    else if doc[pos] == RETURN then
      if pos + 1 < |doc| && doc[pos + 1] == NEWLINE then pos + 2 else pos + 1
    else LineEnd(doc, pos + 1)
  }

  /** readComment, entered after the first slash. */
  function CommentEnd(doc: bytes, pos: nat): (r: (nat, bool))
    requires pos <= |doc|
    ensures pos <= r.0 <= |doc|
  {
    var c, after := PeekAt(doc, pos), Next(doc, pos);
    if c == STAR then
      var s := StarSlash(doc, after);
      (Next(doc, s), PeekAt(doc, s) == SLASH)
    else if c == SLASH then (LineEnd(doc, after), true)
    else (after, false)
  }

  function Literal(doc: bytes, start: nat, rest: bytes, kind: Kind): (t: Token)
    requires start < |doc|
    ensures start < t.end <= |doc| && t.start == start
  {
    if Matches(doc, start + 1, rest) then Token(kind, start, start + 1 + |rest|)
    else Token(ErrorToken, start, start + 1)
  }

  const TRUE_REST: bytes := [114, 117, 101]
  const FALSE_REST: bytes := [97, 108, 115, 101]
  const NULL_REST: bytes := [117, 108, 108]

  /** The token whose first byte is at start. */
  function TokenFrom(doc: bytes, start: nat): (t: Token)
    requires start < |doc|
    ensures start == t.start < t.end <= |doc|
    ensures t.kind.StringToken? ==> t.start + 2 <= t.end
  {
    var c := doc[start];
    if c in PUNCTUATION then Token(Punctuation(c).kind, start, start + 1)
    else if c == QUOTE then
      var (e, ok) := StringEnd(doc, start + 1);
      Token(if ok then StringToken else ErrorToken, start, e)
    else if c == SLASH then
      var (e, ok) := CommentEnd(doc, start + 1);
      Token(if ok then CommentToken else ErrorToken, start, e)
    else if IsDigit(c) || c == MINUS then Token(NumberToken, start, NumberEnd(doc, start + 1))
    else if c == LOWER_T then Literal(doc, start, TRUE_REST, TrueToken)
    else if c == LOWER_F then Literal(doc, start, FALSE_REST, FalseToken)
    else if c == LOWER_N then Literal(doc, start, NULL_REST, NullToken)
    else Token(if c == NUL then EndOfStream else ErrorToken, start, start + 1)
  }

  /** readToken: moves on from pos unless only white space is left. */
  function TokenAt(doc: bytes, pos: nat): (t: Token)
    requires pos <= |doc|
    ensures pos <= t.start <= t.end <= |doc|
    ensures pos < t.end || t.kind.EndOfStream?
    ensures t.kind.StringToken? ==> t.start + 2 <= t.end
    ensures t.kind.NumberToken? ==> t.start < t.end
  {
    var start := SkipSpaces(doc, pos);
    if start == |doc| then Token(EndOfStream, start, start) else TokenFrom(doc, start)
  }

  function LexemeOf(doc: bytes, t: Token): Lexeme
    requires t.start <= t.end <= |doc|
  {
    Lexeme(t.kind, doc[t.start..t.end])
  }

  /** The tokens a reader sees from pos on, up to the end of the stream. */
  function Lex(doc: bytes, pos: nat): seq<Lexeme>
    requires pos <= |doc|
    decreases |doc| - pos
  {
    var t := TokenAt(doc, pos);
    if t.kind.EndOfStream? then [] else [LexemeOf(doc, t)] + Lex(doc, t.end)
  }

  // ---------- recognising legible tokens ----------

  lemma PlainBytes(doc: bytes, pos: nat, count: nat)
    requires pos + count <= |doc|
    requires forall i :: pos <= i < pos + count ==> doc[i] != BACKSLASH && doc[i] != QUOTE
    ensures StringEnd(doc, pos) == StringEnd(doc, pos + count)
    decreases count
  {
    if count > 0 {
      PlainBytes(doc, pos + 1, count - 1);
    }
  }

  lemma EscapedByteSkipped(doc: bytes, pos: nat, c: byte)
    requires pos <= |doc| && EscapeByte(c) <= doc[pos..]
    ensures StringEnd(doc, pos) == StringEnd(doc, pos + |EscapeByte(c)|)
  {
    var e := EscapeByte(c);
    assert forall i :: 0 <= i < |e| ==> doc[pos..][i] == e[i];
    if |e| == 6 {
      assert StringEnd(doc, pos) == StringEnd(doc, pos + 2);
      PlainBytes(doc, pos + 2, 4);
    }
  }

  /** readString stops at the true closing quote of any escaped byte string. */
  lemma {:induction false} StringEndsAtItsQuote(doc: bytes, pos: nat, s: bytes)
    requires pos <= |doc| && Escaped(s) + [QUOTE] <= doc[pos..]
    ensures StringEnd(doc, pos) == (pos + |Escaped(s)| + 1, true)
    decreases |s|
  {
    hide EscapeByte, StringEnd;
    if s == [] {
      ClosingQuoteHere(doc, pos);
    } else {
      var first, rest := EscapeByte(s[0]), Escaped(s[1..]) + [QUOTE];
      assert Escaped(s) + [QUOTE] == first + rest;
      ClosingQuoteStep(doc, pos, s[0], rest);
      StringEndsAtItsQuote(doc, pos + |first|, s[1..]);
    }
  }

  lemma ClosingQuoteHere(doc: bytes, pos: nat)
    requires pos <= |doc| && [] + [QUOTE] <= doc[pos..]
    ensures StringEnd(doc, pos) == (pos + 1, true)
  {
    assert doc[pos..][0] == QUOTE;
  }

  lemma ClosingQuoteStep(doc: bytes, pos: nat, c: byte, rest: bytes)
    requires pos <= |doc| && EscapeByte(c) + rest <= doc[pos..]
    ensures pos + |EscapeByte(c)| <= |doc| && rest <= doc[pos + |EscapeByte(c)|..]
    ensures StringEnd(doc, pos) == StringEnd(doc, pos + |EscapeByte(c)|)
  {
    hide EscapeByte, StringEnd;
    PrefixSplit(EscapeByte(c), rest, doc[pos..]);
    DropDrop(doc, pos, |EscapeByte(c)|);
    EscapedByteSkipped(doc, pos, c);
  }

  lemma {:induction false} DigitsEndAt(doc: bytes, pos: nat, digits: bytes)
    requires pos <= |doc| && AllDigits(digits) && digits <= doc[pos..]
    requires pos + |digits| < |doc| ==> !IsDigit(doc[pos + |digits|])
    ensures DigitsEnd(doc, pos) == pos + |digits|
    decreases |digits|
  {
    if digits != [] {
      assert doc[pos..][0] == digits[0];
      assert doc[pos + 1..] == doc[pos..][1..];
      DigitsEndAt(doc, pos + 1, digits[1..]);
    }
  }

  predicate ContinuesNumber(c: byte) { IsDigit(c) || c == DOT || c == LOWER_E || c == UPPER_E }

  lemma NumberTokenFrom(doc: bytes, start: nat, n: int)
    requires start < |doc| && SignedText(n) <= doc[start..]
    requires start + |SignedText(n)| < |doc| ==> !ContinuesNumber(doc[start + |SignedText(n)|])
    ensures TokenFrom(doc, start) == Token(NumberToken, start, start + |SignedText(n)|)
  {
    var t := SignedText(n);
    assert doc[start..][..|t|] == t;
    assert doc[start] == t[0];
    SignIsWritten(n);
    assert n >= 0 ==> IsDigit(Decimal(n)[0]);
    assert t[1..] == doc[start + 1..][..|t| - 1];
    DigitsEndAt(doc, start + 1, t[1..]);
  }

  lemma StringTokenFrom(doc: bytes, start: nat, s: bytes)
    requires start < |doc| && Quoted(s) <= doc[start..]
    ensures TokenFrom(doc, start) == Token(StringToken, start, start + |Quoted(s)|)
  {
    hide Escaped, StringEnd;
    assert doc[start..][0] == Quoted(s)[0];
    DropDrop(doc, start, 1);
    assert Quoted(s) == [QUOTE] + (Escaped(s) + [QUOTE]);
    PrefixSplit([QUOTE], Escaped(s) + [QUOTE], doc[start..]);
    StringEndsAtItsQuote(doc, start + 1, s);
  }

  lemma LiteralTokenFrom(doc: bytes, start: nat, l: Lexeme)
    requires start < |doc| && l.text <= doc[start..]
    requires l in [Lexeme(TrueToken, TRUE_TEXT), Lexeme(FalseToken, FALSE_TEXT), Lexeme(NullToken, NULL_TEXT)]
    ensures TokenFrom(doc, start) == Token(l.kind, start, start + |l.text|)
  {
    assert doc[start..][0] == l.text[0];
    assert doc[start + 1..] == doc[start..][1..];
    assert TRUE_TEXT[1..] == TRUE_REST && FALSE_TEXT[1..] == FALSE_REST && NULL_TEXT[1..] == NULL_REST;
    assert l.text[1..] <= doc[start + 1..];
  }

  /** A legible token is recognised as itself wherever it stands, if a number is not run into another number. */
  lemma LegibleTokenFrom(doc: bytes, start: nat, l: Lexeme)
    requires start < |doc| && LegibleLexeme(l) && l.text <= doc[start..]
    requires l.kind.NumberToken? && start + |l.text| < |doc| ==> !ContinuesNumber(doc[start + |l.text|])
    ensures TokenFrom(doc, start) == Token(l.kind, start, start + |l.text|)
  {
    LegibleStartsDark(l);
    assert doc[start..][0] == l.text[0];
    match l.kind
    case StringToken =>
      var s :| l == StringLexeme(s);
      StringTokenFrom(doc, start, s);
    case NumberToken =>
      var n :| l == NumberLexeme(n);
      NumberTokenFrom(doc, start, n);
    case TrueToken => LiteralTokenFrom(doc, start, l);
    case FalseToken => LiteralTokenFrom(doc, start, l);
    case NullToken => LiteralTokenFrom(doc, start, l);
    case _ =>
  }

  lemma LegibleDoesNotContinue(l: Lexeme)
    requires LegibleLexeme(l) && !l.kind.NumberToken?
    ensures l.text != [] && !ContinuesNumber(l.text[0])
  {
    LegibleStartsDark(l);
  }

  /** After a number, the next thing in a rendering does not look like more of the number. */
  lemma AfterNumber(text: bytes, tokens: seq<Lexeme>)
    requires Renders(text, tokens) && Legible(tokens) && text != []
    requires tokens != [] ==> !tokens[0].kind.NumberToken?
    ensures !ContinuesNumber(text[0])
  {
    if Blank(text) == 0 && tokens != [] {
      RendersHead(text, tokens);
      assert text[0..] == text;
      assert text[0] == tokens[0].text[0];
      LegibleDoesNotContinue(tokens[0]);
    }
  }

  lemma LexHead(doc: bytes, pos: nat, tokens: seq<Lexeme>)
    requires pos <= |doc| && Renders(doc[pos..], tokens) && tokens != []
    ensures var start, l := SkipSpaces(doc, pos), tokens[0];
            && l.text != [] && l.text <= doc[start..] && start + |l.text| <= |doc|
            && doc[start..start + |l.text|] == l.text && Renders(doc[start + |l.text|..], tokens[1..])
  {
    hide Blank, Renders;
    var start, l := SkipSpaces(doc, pos), tokens[0];
    RendersHead(doc[pos..], tokens);
    DropDrop(doc, pos, Blank(doc[pos..]));
    DropDrop(doc, start, |l.text|);
    assert doc[start..][..|l.text|] == l.text;
  }

  lemma LexStep(doc: bytes, pos: nat, tokens: seq<Lexeme>)
    requires pos <= |doc| && Renders(doc[pos..], tokens) && Legible(tokens) && tokens != []
    ensures var start, l := SkipSpaces(doc, pos), tokens[0];
            start + |l.text| <= |doc| && TokenAt(doc, pos) == Token(l.kind, start, start + |l.text|)
            && doc[start..start + |l.text|] == l.text
            && Renders(doc[start + |l.text|..], tokens[1..]) && Legible(tokens[1..])
  {
    hide SkipSpaces, Renders, TokenFrom, Legible, LegibleLexeme, ContinuesNumber;
    var start, l := SkipSpaces(doc, pos), tokens[0];
    LexHead(doc, pos, tokens);
    LegibleTail(tokens);
    var after := start + |l.text|;
    if l.kind.NumberToken? && after < |doc| {
      AfterNumber(doc[after..], tokens[1..]);
    }
    LegibleTokenFrom(doc, start, l);
  }

  lemma LegibleTail(tokens: seq<Lexeme>)
    requires Legible(tokens) && tokens != []
    ensures LegibleLexeme(tokens[0]) && Legible(tokens[1..])
    ensures tokens[0].kind.NumberToken? && |tokens| > 1 ==> !tokens[1].kind.NumberToken?
    ensures !tokens[0].kind.EndOfStream?
  {
  }

  lemma LexUnfold(doc: bytes, pos: nat)
    requires pos <= |doc|
    ensures var t := TokenAt(doc, pos);
            Lex(doc, pos) == if t.kind.EndOfStream? then [] else [LexemeOf(doc, t)] + Lex(doc, t.end)
  {
  }

  lemma NothingRendered(doc: bytes, pos: nat)
    requires pos <= |doc| && Renders(doc[pos..], [])
    ensures TokenAt(doc, pos).kind.EndOfStream?
  {
  }

  /** The lexer reads a rendering of legible tokens as exactly those tokens. */
  lemma {:induction false} LexOfRendering(doc: bytes, pos: nat, tokens: seq<Lexeme>)
    requires pos <= |doc| && Renders(doc[pos..], tokens) && Legible(tokens)
    ensures Lex(doc, pos) == tokens
    decreases |tokens|
  {
    hide TokenAt, Lex, Renders, SkipSpaces;
    LexUnfold(doc, pos);
    if tokens == [] {
      NothingRendered(doc, pos);
    } else {
      LexStep(doc, pos, tokens);
      assert LegibleLexeme(tokens[0]);
      LexOfRendering(doc, SkipSpaces(doc, pos) + |tokens[0].text|, tokens[1..]);
      assert [tokens[0]] + tokens[1..] == tokens;
    }
  }

  // ---------- comments ----------

  lemma {:induction false} StarSlashAt(doc: bytes, pos: nat, end: nat)
    requires pos <= end && end + 2 <= |doc| && doc[end] == STAR && doc[end + 1] == SLASH
    requires forall i :: pos <= i < end ==> !(doc[i] == STAR && doc[i + 1] == SLASH)
    ensures StarSlash(doc, pos) == end + 1
    decreases end - pos
  {
    if pos < end {
      StarSlashAt(doc, pos + 1, end);
    }
  }

  lemma {:induction false} NoStarSlash(doc: bytes, pos: nat)
    requires pos <= |doc| && forall i :: pos <= i < |doc| - 1 ==> !(doc[i] == STAR && doc[i + 1] == SLASH)
    ensures StarSlash(doc, pos) == |doc|
    decreases |doc| - pos
  {
    if pos < |doc| {
      NoStarSlash(doc, pos + 1);
    }
  }

  /** A star comment ends with its first star and slash. */
  lemma StarComment(doc: bytes, start: nat, end: nat)
    requires start + 2 <= end && end + 2 <= |doc| && doc[start] == SLASH && doc[start + 1] == STAR
    requires doc[end] == STAR && doc[end + 1] == SLASH
    requires forall i :: start + 2 <= i < end ==> !(doc[i] == STAR && doc[i + 1] == SLASH)
    ensures TokenFrom(doc, start) == Token(CommentToken, start, end + 2)
  {
    hide StringEnd, NumberEnd, LineEnd, StarSlash;
    StarSlashAt(doc, start + 2, end);
  }

  /** Without them it is an error that takes the rest. */
  lemma OpenStarComment(doc: bytes, start: nat)
    requires start + 2 <= |doc| && doc[start] == SLASH && doc[start + 1] == STAR
    requires forall i :: start + 2 <= i < |doc| - 1 ==> !(doc[i] == STAR && doc[i + 1] == SLASH)
    ensures TokenFrom(doc, start) == Token(ErrorToken, start, |doc|)
  {
    hide StringEnd, NumberEnd, LineEnd, StarSlash;
    NoStarSlash(doc, start + 2);
  }

  lemma {:induction false} LineEndAt(doc: bytes, pos: nat, end: nat)
    requires pos <= end <= |doc| && forall i :: pos <= i < end ==> doc[i] != NEWLINE && doc[i] != RETURN
    ensures LineEnd(doc, pos) == LineEnd(doc, end)
    decreases end - pos
  {
    if pos < end {
      LineEndAt(doc, pos + 1, end);
    }
  }

  /** A line comment takes the line end with it, also one of two characters; it may be the last thing. */
  lemma LineComment(doc: bytes, start: nat, end: nat)
    requires start + 2 <= end <= |doc| && doc[start] == SLASH && doc[start + 1] == SLASH
    requires forall i :: start + 2 <= i < end ==> doc[i] != NEWLINE && doc[i] != RETURN
    requires end < |doc| ==> doc[end] == NEWLINE || doc[end] == RETURN
    ensures TokenFrom(doc, start) ==
            Token(CommentToken, start,
                  if end == |doc| then end
                  else if doc[end] == RETURN && end + 1 < |doc| && doc[end + 1] == NEWLINE then end + 2
                  else end + 1)
  {
    hide StringEnd, NumberEnd, StarSlash;
    LineEndAt(doc, start + 2, end);
  }

  /** Words and characters that are no token. */
  lemma OtherCharacters(doc: bytes, start: nat)
    requires start < |doc| && !IsSpace(doc[start])
    ensures var k := TokenFrom(doc, start).kind;
            && (k.TrueToken? <==> Ascii("true") <= doc[start..])
            && (k.FalseToken? <==> Ascii("false") <= doc[start..])
            && (k.NullToken? <==> Ascii("null") <= doc[start..])
            && (k.NumberToken? <==> '0' as int <= doc[start] <= '9' as int || doc[start] == '-' as int)
            && (k.StringToken? ==> doc[start] == '\"' as int)
            && (k.CommentToken? ==> doc[start] == '/' as int)
            && (k.EndOfStream? <==> doc[start] == 0)
  {
    hide StringEnd, NumberEnd, StarSlash, LineEnd, CommentEnd;
    LiteralIs(doc, start, Ascii("true"), TRUE_REST);
    LiteralIs(doc, start, Ascii("false"), FALSE_REST);
    LiteralIs(doc, start, Ascii("null"), NULL_REST);
  }

  lemma LiteralIs(doc: bytes, start: nat, word: bytes, rest: bytes)
    requires start < |doc| && word != [] && word[1..] == rest
    ensures word <= doc[start..] <==> doc[start] == word[0] && Matches(doc, start + 1, rest)
  {
    assert doc[start..] == [doc[start]] + doc[start + 1..];
    assert word == [word[0]] + rest;
    if doc[start] == word[0] && Matches(doc, start + 1, rest) {
      assert doc[start..][..|word|] == word;
    }
    if word <= doc[start..] {
      assert doc[start + 1..][..|rest|] == rest;
    }
  }
}
