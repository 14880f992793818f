/** JSON values, the token sequence that spells a value, and texts that render a token sequence. */
module JsonValues {
  import opened Bytes
  import opened JsonNumbers
  import opened JsonStrings

  datatype Value =
    | Null
    | Bool(b: bool)
    | Int(i: int64)
    | UInt(u: uint64)
    | Real(digits: bytes)
    | Str(s: bytes)
    | Arr(items: seq<Value>)
    | Obj(members: seq<Member>)

  datatype Member = Member(name: bytes, value: Value)

  datatype Kind =
    | ObjectBegin
    | ObjectEnd
    | ArrayBegin
    | ArrayEnd
    | StringToken
    | NumberToken
    | TrueToken
    | FalseToken
    | NullToken
    | ArraySeparator
    | MemberSeparator
    | CommentToken
    | ErrorToken
    | EndOfStream

  datatype Lexeme = Lexeme(kind: Kind, text: bytes)

  const TRUE_TEXT: bytes := [116, 114, 117, 101]
  const FALSE_TEXT: bytes := [102, 97, 108, 115, 101]
  const NULL_TEXT: bytes := [110, 117, 108, 108]

  // ---------- values ----------

  /** CZString::operator<: memcmp on the common length, then the shorter key first. */
  predicate KeyLess(a: bytes, b: bytes) {
    b != [] && (a == [] || a[0] < b[0] || (a[0] == b[0] && KeyLess(a[1..], b[1..])))
  }

  predicate SortedMembers(ms: seq<Member>) {
    forall i, j :: 0 <= i < j < |ms| ==> KeyLess(ms[i].name, ms[j].name)
  }

  /** The trees of the round trip: no doubles, members in map order. */
  ghost predicate Wf(v: Value) {
    match v
    case Real(_) => false
    case Arr(items) => forall i :: 0 <= i < |items| ==> Wf(items[i])
    case Obj(members) => SortedMembers(members) && forall i :: 0 <= i < |members| ==> Wf(members[i].value)
    case _ => true
  }

  ghost predicate NoDoubles(v: Value) {
    match v
    case Real(_) => false
    case Arr(items) => forall i :: 0 <= i < |items| ==> NoDoubles(items[i])
    case Obj(members) => forall i :: 0 <= i < |members| ==> NoDoubles(members[i].value)
    case _ => true
  }

  lemma {:induction false} WfHasNoDoubles(v: Value)
    requires Wf(v)
    ensures NoDoubles(v)
  {
    match v
    case Arr(items) =>
      forall i | 0 <= i < |items| ensures NoDoubles(items[i]) { WfHasNoDoubles(items[i]); }
    case Obj(members) =>
      forall i | 0 <= i < |members| ensures NoDoubles(members[i].value) { WfHasNoDoubles(members[i].value); }
    case _ =>
  }

  /** How deep readValue has to recurse for a value. */
  function Depth(v: Value): (d: nat)
    ensures d > 0
  {
    match v
    case Arr(items) => 1 + ItemsDepth(items)
    case Obj(members) => 1 + MembersDepth(members)
    case _ => 1
  }

  function ItemsDepth(items: seq<Value>): nat {
    if items == [] then 0 else Max(Depth(items[0]), ItemsDepth(items[1..]))
  }

  function MembersDepth(members: seq<Member>): nat {
    if members == [] then 0 else Max(Depth(members[0].value), MembersDepth(members[1..]))
  }

  function Max(a: nat, b: nat): nat { if a < b then b else a }

  function FromNumber(n: Number): Value
    requires n != NotInteger
  {
    if n.IntNumber? then Int(n.i) else UInt(n.u)
  }

  /** The same tree with every integer in the reader's normal form. */
  function Norm(v: Value): Value {
    match v
    case Int(i) => FromNumber(Canonical(i))
    case UInt(u) => FromNumber(Canonical(u))
    case Arr(items) => Arr(NormItems(items))
    case Obj(members) => Obj(NormMembers(members))
    case _ => v
  }

  function NormItems(items: seq<Value>): seq<Value> {
    if items == [] then [] else [Norm(items[0])] + NormItems(items[1..])
  }

  function NormMembers(members: seq<Member>): seq<Member> {
    if members == [] then []
    else [Member(members[0].name, Norm(members[0].value))] + NormMembers(members[1..])
  }

  // ---------- the tokens of a value ----------

  function Punctuation(c: byte): Lexeme {
    Lexeme(if c == LEFT_BRACE then ObjectBegin
           else if c == RIGHT_BRACE then ObjectEnd
           else if c == LEFT_BRACKET then ArrayBegin
           else if c == RIGHT_BRACKET then ArrayEnd
           else if c == COMMA then ArraySeparator
           else MemberSeparator, [c])
  }

  function StringLexeme(s: bytes): Lexeme { Lexeme(StringToken, Quoted(s)) }

  function NumberLexeme(i: int): Lexeme { Lexeme(NumberToken, SignedText(i)) }

  function Tokens(v: Value): seq<Lexeme>
    decreases v, 2
  {
    match v
    case Null => [Lexeme(NullToken, NULL_TEXT)]
    case Bool(b) => [if b then Lexeme(TrueToken, TRUE_TEXT) else Lexeme(FalseToken, FALSE_TEXT)]
    case Int(i) => [NumberLexeme(i)]
    case UInt(u) => [NumberLexeme(u)]
    case Real(digits) => [Lexeme(NumberToken, digits)]
    case Str(s) => [StringLexeme(s)]
    case Arr(items) => [Punctuation(LEFT_BRACKET)] + ItemTokens(items) + [Punctuation(RIGHT_BRACKET)]
    case Obj(members) => [Punctuation(LEFT_BRACE)] + MemberTokens(members) + [Punctuation(RIGHT_BRACE)]
  }

  function ItemTokens(items: seq<Value>): seq<Lexeme>
    decreases items, 0
  {
    if items == [] then [] else Tokens(items[0]) + ItemTail(items[1..])
  }

  function ItemTail(items: seq<Value>): seq<Lexeme>
    decreases items, 1
  {
    if items == [] then [] else [Punctuation(COMMA)] + ItemTokens(items)
  }

  function MemberTokens(members: seq<Member>): seq<Lexeme>
    decreases members, 0
  {
    if members == [] then []
    else [StringLexeme(members[0].name)]
         + ([Punctuation(COLON)] + (Tokens(members[0].value) + MemberTail(members[1..])))
  }

  function MemberTail(members: seq<Member>): seq<Lexeme>
    decreases members, 1
  {
    if members == [] then [] else [Punctuation(COMMA)] + MemberTokens(members)
  }

  // ---------- texts ----------

  const COLON_SPACE: bytes := [COLON, SPACE]

  /** How FastWriter writes a token; its YAML mode puts a space after every colon. */
  function TokenText(l: Lexeme, yaml: bool): bytes {
    if yaml && l.kind.MemberSeparator? then COLON_SPACE else l.text
  }

  /** The tokens one after the other, with nothing else in between. */
  function Spell(tokens: seq<Lexeme>, yaml: bool): bytes {
    if tokens == [] then [] else TokenText(tokens[0], yaml) + Spell(tokens[1..], yaml)
  }

  lemma {:induction false} SpellAppend(s: seq<Lexeme>, t: seq<Lexeme>, yaml: bool)
    ensures Spell(s + t, yaml) == Spell(s, yaml) + Spell(t, yaml)
  {
    if s == [] {
      assert s + t == t;
    } else {
      assert (s + t)[1..] == s[1..] + t;
      SpellAppend(s[1..], t, yaml);
    }
  }

  /** Number of leading white-space bytes. */
  function Blank(text: bytes): (n: nat)
    ensures n <= |text|
    ensures forall i :: 0 <= i < n ==> IsSpace(text[i])
    ensures n < |text| ==> !IsSpace(text[n])
  {
    if text == [] || !IsSpace(text[0]) then 0 else 1 + Blank(text[1..])
  }

  lemma {:induction false} BlankIs(text: bytes, n: nat)
    requires n <= |text|
    requires forall i :: 0 <= i < n ==> IsSpace(text[i])
    requires n < |text| ==> !IsSpace(text[n])
    ensures Blank(text) == n
  {
    if n > 0 {
      BlankIs(text[1..], n - 1);
    }
  }

  predicate AllSpace(text: bytes) { Blank(text) == |text| }

  /** Says that text consists of the given token texts in order, with only white space around them. */
  predicate Renders(text: bytes, tokens: seq<Lexeme>) {
    if tokens == [] then AllSpace(text)
    else
      var t := tokens[0].text;
      var s := text[Blank(text)..];
      t <= s && t != [] && Renders(s[|t|..], tokens[1..])
  }

  lemma SpaceThenRenders(a: bytes, b: bytes, t: seq<Lexeme>)
    requires Renders(a, []) && Renders(b, t)
    ensures Renders(a + b, t)
  {
    BlankIs(a + b, |a| + Blank(b));
    if t != [] {
      assert (a + b)[Blank(a + b)..] == b[Blank(b)..];
    }
  }

  lemma RendersHead(a: bytes, s: seq<Lexeme>)
    requires Renders(a, s) && s != []
    ensures s[0].text != [] && s[0].text <= a[Blank(a)..]
    ensures Renders(a[Blank(a)..][|s[0].text|..], s[1..])
  {
  }

  lemma BlankAppend(a: bytes, b: bytes, u: bytes)
    requires u != [] && u <= a[Blank(a)..]
    ensures Blank(a + b) == Blank(a) && u <= (a + b)[Blank(a)..]
    ensures (a + b)[Blank(a)..][|u|..] == a[Blank(a)..][|u|..] + b
  {
    var n := Blank(a);
    assert a[n..][0] == u[0];
    BlankIs(a + b, n);
    assert (a + b)[n..] == a[n..] + b;
  }

  lemma RendersCons(text: bytes, l: Lexeme, tokens: seq<Lexeme>)
    requires l.text != [] && l.text <= text[Blank(text)..]
    requires Renders(text[Blank(text)..][|l.text|..], tokens)
    ensures Renders(text, [l] + tokens)
  {
    assert ([l] + tokens)[1..] == tokens;
  }

  lemma {:induction false} RendersAppend(a: bytes, s: seq<Lexeme>, b: bytes, t: seq<Lexeme>)
    requires Renders(a, s) && Renders(b, t)
    ensures Renders(a + b, s + t)
    decreases |s|
  {
    hide Blank, Renders;
    if s == [] {
      assert s + t == t;
      SpaceThenRenders(a, b, t);
    } else {
      RendersHead(a, s);
      BlankAppend(a, b, s[0].text);
      RendersAppend(a[Blank(a)..][|s[0].text|..], s[1..], b, t);
      RendersCons(a + b, s[0], s[1..] + t);
      assert s + t == [s[0]] + (s[1..] + t);
    }
  }

  predicate StartsDark(l: Lexeme) { l.text != [] && !IsSpace(l.text[0]) }

  /** A token text, with or without white space after it, renders the token. */
  lemma RendersOne(l: Lexeme, space: bytes)
    requires StartsDark(l) && AllSpace(space)
    ensures Renders(l.text + space, [l])
  {
    BlankIs(l.text + space, 0);
    assert (l.text + space)[0..][|l.text|..] == space;
  }

  lemma {:induction false} SpellRenders(tokens: seq<Lexeme>, yaml: bool)
    requires forall i :: 0 <= i < |tokens| ==> LegibleLexeme(tokens[i])
    ensures Renders(Spell(tokens, yaml), tokens)
  {
    hide LegibleLexeme, Renders;
    if tokens == [] {
      RendersNothing();
    } else {
      TokenTextRenders(tokens[0], yaml);
      SpellRenders(tokens[1..], yaml);
      RendersAppend(TokenText(tokens[0], yaml), [tokens[0]], Spell(tokens[1..], yaml), tokens[1..]);
      assert [tokens[0]] + tokens[1..] == tokens;
    }
  }

  lemma RendersNothing()
    ensures Renders([], [])
  {
  }

  lemma TokenTextRenders(l: Lexeme, yaml: bool)
    requires LegibleLexeme(l)
    ensures Renders(TokenText(l, yaml), [l])
  {
    LegibleStartsDark(l);
    if yaml && l.kind.MemberSeparator? {
      RendersOne(l, [SPACE]);
    } else {
      RendersOne(l, []);
      assert l.text + [] == l.text;
    }
  }

  // ---------- legibility: what makes token texts recognisable again ----------

  ghost predicate LegibleLexeme(l: Lexeme) {
    match l.kind
    case StringToken => exists s :: l == StringLexeme(s)
    case NumberToken => exists i :: l == NumberLexeme(i)
    case TrueToken => l.text == TRUE_TEXT
    case FalseToken => l.text == FALSE_TEXT
    case NullToken => l.text == NULL_TEXT
    case CommentToken => false
    case ErrorToken => false
    case EndOfStream => false
    case _ => |l.text| == 1 && l == Punctuation(l.text[0]) && l.text[0] in PUNCTUATION
  }

  const PUNCTUATION: bytes := [LEFT_BRACE, RIGHT_BRACE, LEFT_BRACKET, RIGHT_BRACKET, COMMA, COLON]

  /** Every token is well formed and no two numbers touch. */
  ghost predicate Legible(tokens: seq<Lexeme>) {
    && (forall i :: 0 <= i < |tokens| ==> LegibleLexeme(tokens[i]))
    && (forall i :: 0 <= i < |tokens| - 1 ==> !(tokens[i].kind.NumberToken? && tokens[i + 1].kind.NumberToken?))
  }

  lemma LegibleStartsDark(l: Lexeme)
    requires LegibleLexeme(l)
    ensures StartsDark(l)
  {
    if l.kind.NumberToken? {
      var i :| l == NumberLexeme(i);
      SignIsWritten(i);
      assert i >= 0 ==> IsDigit(Decimal(i)[0]);
    }
  }

  lemma LegibleConcat(s: seq<Lexeme>, t: seq<Lexeme>)
    requires Legible(s) && Legible(t)
    requires s != [] && t != [] ==> !s[|s| - 1].kind.NumberToken? || !t[0].kind.NumberToken?
    ensures Legible(s + t)
  {
    hide LegibleLexeme;
  }

  lemma LegibleOne(l: Lexeme)
    requires LegibleLexeme(l)
    ensures Legible([l])
  {
  }

  lemma LegiblePunctuation(c: byte)
    requires c in PUNCTUATION
    ensures LegibleLexeme(Punctuation(c)) && !Punctuation(c).kind.NumberToken?
  {
  }

  lemma WrapLegible(open: byte, inner: seq<Lexeme>, close: byte)
    requires open in PUNCTUATION && close in PUNCTUATION && Legible(inner)
    ensures Legible([Punctuation(open)] + inner + [Punctuation(close)])
  {
    LegiblePunctuation(open);
    LegiblePunctuation(close);
    LegibleOne(Punctuation(open));
    LegibleOne(Punctuation(close));
    LegibleConcat([Punctuation(open)], inner);
    LegibleConcat([Punctuation(open)] + inner, [Punctuation(close)]);
  }

  lemma NameLegible(name: bytes, rest: seq<Lexeme>)
    requires Legible(rest)
    ensures Legible([StringLexeme(name)] + ([Punctuation(COLON)] + rest))
  {
    LegiblePunctuation(COLON);
    assert LegibleLexeme(StringLexeme(name));
    LegibleConcat([Punctuation(COLON)], rest);
    LegibleConcat([StringLexeme(name)], [Punctuation(COLON)] + rest);
  }

  lemma {:induction false} TokensLegible(v: Value)
    requires NoDoubles(v)
    ensures Tokens(v) != [] && Legible(Tokens(v))
    decreases v, 2
  {
    match v
    case Int(i) => LegibleOne(NumberLexeme(i));
    case UInt(u) => LegibleOne(NumberLexeme(u));
    case Str(s) => LegibleOne(StringLexeme(s));
    case Arr(items) =>
      ItemTokensLegible(items);
      WrapLegible(LEFT_BRACKET, ItemTokens(items), RIGHT_BRACKET);
    case Obj(members) =>
      MemberTokensLegible(members);
      WrapLegible(LEFT_BRACE, MemberTokens(members), RIGHT_BRACE);
    case _ =>
  }

  lemma {:induction false} ItemTokensLegible(items: seq<Value>)
    requires forall i :: 0 <= i < |items| ==> NoDoubles(items[i])
    ensures Legible(ItemTokens(items))
    decreases items, 0
  {
    if items != [] {
      TokensLegible(items[0]);
      if |items| > 1 {
        ItemTokensLegible(items[1..]);
        LegibleConcat([Punctuation(COMMA)], ItemTokens(items[1..]));
      }
      LegibleConcat(Tokens(items[0]), ItemTail(items[1..]));
    }
  }

  lemma {:induction false} MemberTokensLegible(members: seq<Member>)
    requires forall i :: 0 <= i < |members| ==> NoDoubles(members[i].value)
    ensures Legible(MemberTokens(members))
    decreases members, 0
  {
    if members != [] {
      TokensLegible(members[0].value);
      if |members| > 1 {
        MemberTokensLegible(members[1..]);
        LegibleConcat([Punctuation(COMMA)], MemberTokens(members[1..]));
      }
      LegibleConcat(Tokens(members[0].value), MemberTail(members[1..]));
      NameLegible(members[0].name, Tokens(members[0].value) + MemberTail(members[1..]));
    }
  }
}
