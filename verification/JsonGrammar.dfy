/** The language that Reader::parse accepts, as syntax trees with the comments it passes over, and what each tree means.
    It is wider than JSON's: behind a comment any token passes for the comma between two members, and a comma may
    stand before the closing brace when the last name is empty. What follows the value is not looked at. */
module JsonGrammar {
  import opened Bytes
  import opened Sequences
  import opened JsonNumbers
  import opened JsonStrings
  import opened JsonValues
  import opened JsonLexer
  import opened JsonParsing
  import opened JsonRoundTrip

  /** A value with the comments in front of it. last holds the comments before a closing brace. */
  datatype Syntax =
    | Scalar(comments: seq<Lexeme>, token: Lexeme)
    | List(comments: seq<Lexeme>, items: seq<Item>)
    | Dict(comments: seq<Lexeme>, fields: seq<Field>, last: seq<Lexeme>)

  /** An array's item with the comments behind it. */
  datatype Item = Item(value: Syntax, comments: seq<Lexeme>)

  /** An object's member, with the comments in front of its name and what separates it from the next. */
  datatype Field = Field(comments: seq<Lexeme>, name: Lexeme, value: Syntax, end: seq<Lexeme>)

  // ---------- words ----------

  function Words(x: Syntax): seq<Lexeme>
    decreases x, 1
  {
    match x
    case Scalar(cs, token) => cs + [token]
    case List(cs, items) => cs + ([Punctuation(LEFT_BRACKET)] + ItemWords(items))
    case Dict(cs, fields, last) =>
      cs + ([Punctuation(LEFT_BRACE)] + (FieldWords(fields) + (last + [Punctuation(RIGHT_BRACE)])))
  }

  /** The items with commas between them, and the closing bracket. */
  function ItemWords(items: seq<Item>): seq<Lexeme>
    decreases items, 0
  {
    if items == [] then [Punctuation(RIGHT_BRACKET)]
    else
      Words(items[0].value) + (items[0].comments +
        (if |items| == 1 then [Punctuation(RIGHT_BRACKET)] else [Punctuation(COMMA)] + ItemWords(items[1..])))
  }

  function FieldWords(fields: seq<Field>): seq<Lexeme>
    decreases fields, 0
  {
    if fields == [] then []
    else
      var f := fields[0];
      f.comments + ([f.name] + ([Punctuation(COLON)] + (Words(f.value) + (f.end + FieldWords(fields[1..])))))
  }

  predicate AllComments(ws: seq<Lexeme>) { forall i :: 0 <= i < |ws| ==> ws[i].kind.CommentToken? }

  /** A comma; or comments, and then any token but a closing brace. */
  predicate Separates(ws: seq<Lexeme>) {
    ws == [Punctuation(COMMA)]
    || (|ws| >= 2 && AllComments(ws[..|ws| - 1])
        && !ws[|ws| - 1].kind.CommentToken? && !ws[|ws| - 1].kind.ObjectEnd?)
  }

  predicate Legal(inp: Input, x: Syntax)
    decreases x, 1
  {
    && AllComments(x.comments) && (inp.allowComments || x.comments == [])
    && match x
       case Scalar(_, _) => true
       case List(_, items) => LegalItems(inp, items)
       case Dict(_, fields, last) => LegalFields(inp, fields) && AllComments(last)
  }

  predicate LegalItems(inp: Input, items: seq<Item>)
    decreases items, 0
  {
    items == [] || (Legal(inp, items[0].value) && AllComments(items[0].comments) && LegalItems(inp, items[1..]))
  }

  predicate LegalFields(inp: Input, fields: seq<Field>)
    decreases fields, 0
  {
    fields == [] ||
    var f := fields[0];
    && AllComments(f.comments) && Legal(inp, f.value) && LegalFields(inp, fields[1..])
    && (Separates(f.end) || (|fields| == 1 && f.end == []))
    && (|fields| == 1 && f.end != [] ==> NameOf(f) == Some([]))
  }

  // ---------- meaning ----------

  /** The text of a string token. */
  function TextOf(token: Lexeme): Option<bytes> {
    if !token.kind.StringToken? || |token.text| < 2 then None
    else
      match Unescape(token.text[1..|token.text| - 1])
      case Text(s) => Some(s)
      case Malformed(_) => None
  }

  function NameOf(f: Field): Option<bytes> { TextOf(f.name) }

  function ScalarMeaning(inp: Input, token: Lexeme): Option<Value> {
    match token.kind
    case TrueToken => Some(Bool(true))
    case FalseToken => Some(Bool(false))
    case NullToken => Some(Null)
    case StringToken => if TextOf(token).Some? then Some(Str(TextOf(token).value)) else None
    case NumberToken =>
      if NumberMeaning(token.text) != NotInteger then Some(FromNumber(NumberMeaning(token.text)))
      else if inp.readsAsDouble(token.text) then Some(Real(token.text))
      else None
    case _ => None
  }

  function Meaning(inp: Input, x: Syntax): Option<Value>
    decreases x, 1
  {
    match x
    case Scalar(_, token) => ScalarMeaning(inp, token)
    case List(_, items) =>
      var vs := ItemMeanings(inp, items);
      if vs.Some? then Some(Arr(vs.value)) else None
    case Dict(_, fields, _) =>
      var ms := FieldMeanings(inp, [], fields);
      if ms.Some? then Some(Obj(ms.value)) else None
  }

  function ItemMeanings(inp: Input, items: seq<Item>): Option<seq<Value>>
    decreases items, 0
  {
    if items == [] then Some([])
    else
      var first, rest := Meaning(inp, items[0].value), ItemMeanings(inp, items[1..]);
      if first.Some? && rest.Some? then Some([first.value] + rest.value) else None
  }

  /** The map after the fields have been stored in it one after the other. */
  function FieldMeanings(inp: Input, ms: seq<Member>, fields: seq<Field>): Option<seq<Member>>
    decreases fields, 0
  {
    if fields == [] then Some(ms)
    else
      var name, v := NameOf(fields[0]), Meaning(inp, fields[0].value);
      if name.Some? && v.Some? then FieldMeanings(inp, Stored(ms, name.value, v.value), fields[1..]) else None
  }

  function Nesting(x: Syntax): nat
    decreases x, 1
  {
    match x
    case Scalar(_, _) => 1
    case List(_, items) => 1 + ItemNesting(items)
    case Dict(_, fields, _) => 1 + FieldNesting(fields)
  }

  function ItemNesting(items: seq<Item>): nat
    decreases items, 0
  {
    if items == [] then 0 else Max(Nesting(items[0].value), ItemNesting(items[1..]))
  }

  function FieldNesting(fields: seq<Field>): nat
    decreases fields, 0
  {
    if fields == [] then 0 else Max(Nesting(fields[0].value), FieldNesting(fields[1..]))
  }

  // ---------- words in a document ----------

  /** The words are the tokens from p on, and the last one ends at q. */
  predicate Spans(doc: bytes, p: nat, ws: seq<Lexeme>, q: nat)
    requires p <= |doc|
    decreases |ws|
  {
    if ws == [] then p == q
    else
      var t := TokenAt(doc, p);
      LexemeOf(doc, t) == ws[0] && Spans(doc, t.end, ws[1..], q)
  }

  lemma {:induction false} SpansInside(doc: bytes, p: nat, ws: seq<Lexeme>, q: nat)
    requires p <= |doc| && Spans(doc, p, ws, q)
    ensures p <= q <= |doc|
    decreases |ws|
  {
    hide TokenAt, LexemeOf;
    if ws != [] {
      SpansInside(doc, TokenAt(doc, p).end, ws[1..], q);
    }
  }

  lemma {:induction false} SpansJoin(doc: bytes, p: nat, a: seq<Lexeme>, m: nat, b: seq<Lexeme>, q: nat)
    requires p <= |doc| && m <= |doc| && Spans(doc, p, a, m) && Spans(doc, m, b, q)
    ensures Spans(doc, p, a + b, q)
    decreases |a|
  {
    hide TokenAt, LexemeOf;
    if a == [] {
      assert a + b == b;
    } else {
      assert (a + b)[1..] == a[1..] + b;
      SpansJoin(doc, TokenAt(doc, p).end, a[1..], m, b, q);
    }
  }

  lemma {:induction false} SpansSplit(doc: bytes, p: nat, a: seq<Lexeme>, b: seq<Lexeme>, q: nat) returns (m: nat)
    requires p <= |doc| && Spans(doc, p, a + b, q)
    ensures m <= |doc| && Spans(doc, p, a, m) && Spans(doc, m, b, q)
    decreases |a|
  {
    hide TokenAt, LexemeOf;
    if a == [] {
      assert a + b == b;
      m := p;
    } else {
      assert (a + b)[1..] == a[1..] + b;
      m := SpansSplit(doc, TokenAt(doc, p).end, a[1..], b, q);
    }
  }

  /** One token in front. */
  lemma SpansCons(doc: bytes, p: nat, w: Lexeme, ws: seq<Lexeme>, q: nat)
    requires p <= |doc|
    ensures Spans(doc, p, [w] + ws, q)
            <==> LexemeOf(doc, TokenAt(doc, p)) == w && Spans(doc, TokenAt(doc, p).end, ws, q)
  {
    hide TokenAt, LexemeOf;
    assert ([w] + ws)[1..] == ws;
  }

  /** The punctuation tokens are single characters. */
  lemma PunctuationText(doc: bytes, p: nat)
    requires p <= |doc|
    ensures var l := LexemeOf(doc, TokenAt(doc, p));
            && (l.kind.ObjectBegin? <==> l == Punctuation(LEFT_BRACE))
            && (l.kind.ObjectEnd? <==> l == Punctuation(RIGHT_BRACE))
            && (l.kind.ArrayBegin? <==> l == Punctuation(LEFT_BRACKET))
            && (l.kind.ArrayEnd? <==> l == Punctuation(RIGHT_BRACKET))
            && (l.kind.ArraySeparator? <==> l == Punctuation(COMMA))
            && (l.kind.MemberSeparator? <==> l == Punctuation(COLON))
  {
    hide SkipSpaces, StringEnd, CommentEnd, NumberEnd, Literal;
    var t := TokenAt(doc, p);
    if t.start < |doc| {
      PunctuationFrom(doc, t.start);
    }
  }

  lemma PunctuationFrom(doc: bytes, start: nat)
    requires start < |doc|
    ensures var l := LexemeOf(doc, TokenFrom(doc, start));
            && (l.kind.ObjectBegin? <==> l == Punctuation(LEFT_BRACE))
            && (l.kind.ObjectEnd? <==> l == Punctuation(RIGHT_BRACE))
            && (l.kind.ArrayBegin? <==> l == Punctuation(LEFT_BRACKET))
            && (l.kind.ArrayEnd? <==> l == Punctuation(RIGHT_BRACKET))
            && (l.kind.ArraySeparator? <==> l == Punctuation(COMMA))
            && (l.kind.MemberSeparator? <==> l == Punctuation(COLON))
  {
    hide StringEnd, CommentEnd, NumberEnd;
    assert doc[start..start + 1] == [doc[start]];
  }

  /** The comments that NextToken passes over. */
  lemma {:induction false} CommentsBefore(inp: Input, p: nat) returns (cs: seq<Lexeme>, m: nat)
    requires p <= |inp.doc|
    ensures AllComments(cs) && (inp.allowComments || cs == [])
    ensures m <= |inp.doc| && Spans(inp.doc, p, cs, m) && TokenAt(inp.doc, m) == NextToken(inp, p)
    decreases |inp.doc| - p
  {
    hide TokenAt;
    var t := TokenAt(inp.doc, p);
    if inp.allowComments && t.kind.CommentToken? {
      var rest;
      rest, m := CommentsBefore(inp, t.end);
      cs := [LexemeOf(inp.doc, t)] + rest;
      SpansCons(inp.doc, p, LexemeOf(inp.doc, t), rest, m);
    } else {
      cs, m := [], p;
    }
  }

  /** The comments that PastComments passes over. */
  lemma {:induction false} CommentsHere(doc: bytes, p: nat) returns (cs: seq<Lexeme>, m: nat)
    requires p <= |doc|
    ensures AllComments(cs) && (cs == [] <==> !TokenAt(doc, p).kind.CommentToken?) && (cs == [] ==> m == p)
    ensures m <= |doc| && Spans(doc, p, cs, m) && TokenAt(doc, m) == PastComments(doc, TokenAt(doc, p))
    ensures !TokenAt(doc, m).kind.CommentToken?
    decreases |doc| - p
  {
    hide TokenAt;
    var t := TokenAt(doc, p);
    if t.kind.CommentToken? {
      var rest;
      rest, m := CommentsHere(doc, t.end);
      cs := [LexemeOf(doc, t)] + rest;
      SpansCons(doc, p, LexemeOf(doc, t), rest, m);
    } else {
      cs, m := [], p;
    }
  }

  // ---------- what the reader's functions do ----------

  lemma SwitchOnNext(inp: Input, pos: nat, depth: nat, old_: Value)
    requires pos <= |inp.doc|
    ensures var t, r := NextToken(inp, pos), ReadValue(inp, pos, depth, old_);
            if depth >= STACK_LIMIT then r.DepthExceeded?
            else
              && (t.kind.NumberToken? ==> r == ReadNumber(inp, t, old_))
              && (t.kind.StringToken? ==> r == ReadText(inp.doc, t, old_))
              && (t.kind.TrueToken? ==> r == Done(t.end, Bool(true)))
              && (t.kind.FalseToken? ==> r == Done(t.end, Bool(false)))
              && (t.kind.NullToken? ==> r == Done(t.end, Null))
              && (t.kind.ObjectBegin? ==> r == ReadMembers(inp, t.end, depth + 1, [], []))
              && (t.kind.ArrayBegin? ==>
                    var s := SkipSpaces(inp.doc, t.end);
                    r == if PeekAt(inp.doc, s) == RIGHT_BRACKET then Done(TokenAt(inp.doc, s).end, Arr([]))
                         else ReadItems(inp, s, depth + 1, []))
              && (r.Done? ==> !t.kind.ObjectEnd? && !t.kind.ArrayEnd? && !t.kind.ArraySeparator?
                              && !t.kind.MemberSeparator? && !t.kind.CommentToken? && !t.kind.ErrorToken?
                              && !t.kind.EndOfStream?)
  {
    hide NextToken, TokenAt, SkipSpaces, ReadNumber, ReadText, ReadMembers, ReadItems;
  }

  lemma ItemsUnfold(inp: Input, pos: nat, depth: nat, acc: seq<Value>)
    requires pos <= |inp.doc|
    ensures var first, r := ReadValue(inp, pos, depth, Null), ReadItems(inp, pos, depth, acc);
            && (first.DepthExceeded? ==> r.DepthExceeded?)
            && (r.Done? ==> first.Done?)
            && (first.Done? ==>
                  var t := PastComments(inp.doc, TokenAt(inp.doc, first.current));
                  && (t.kind.ArrayEnd? ==> r == Done(t.end, Arr(acc + [first.value])))
                  && (t.kind.ArraySeparator? ==> r == ReadItems(inp, t.end, depth, acc + [first.value]))
                  && (r.Done? ==> t.kind.ArrayEnd? || t.kind.ArraySeparator?))
  {
    hide ReadValue, TokenAt, PastComments;
  }

  lemma MembersUnfold(inp: Input, pos: nat, depth: nat, ms: seq<Member>, name: bytes)
    requires pos <= |inp.doc|
    ensures var t, r := PastComments(inp.doc, TokenAt(inp.doc, pos)), ReadMembers(inp, pos, depth, ms, name);
            && (t.kind.ObjectEnd? && name == [] ==> r == Done(t.end, Obj(ms)))
            && (t.kind.StringToken? && TokenAt(inp.doc, t.end).kind.MemberSeparator?
                && TextOf(LexemeOf(inp.doc, t)).Some? ==>
                  var key := TextOf(LexemeOf(inp.doc, t)).value;
                  r == ReadMemberValue(inp, TokenAt(inp.doc, t.end).end, depth, WithSlot(ms, key), LowerBound(ms, key)))
            && (r.Done? ==> (t.kind.ObjectEnd? && name == [])
                            || (t.kind.StringToken? && TokenAt(inp.doc, t.end).kind.MemberSeparator?
                                && TextOf(LexemeOf(inp.doc, t)).Some?))
  {
    hide TokenAt, PastComments, ReadMemberValue, Unescape, WithSlot, LowerBound;
    var t := PastComments(inp.doc, TokenAt(inp.doc, pos));
    if t.kind.StringToken? {
      SliceOfSlice(inp.doc, t.start, t.end, 1, t.end - t.start - 1);
    }
  }

  lemma MemberValueUnfold(inp: Input, pos: nat, depth: nat, ms: seq<Member>, i: nat)
    requires pos <= |inp.doc| && i < |ms|
    ensures var first, r := ReadValue(inp, pos, depth, ms[i].value), ReadMemberValue(inp, pos, depth, ms, i);
            && (first.DepthExceeded? ==> r.DepthExceeded?)
            && (r.Done? ==> first.Done?)
            && (first.Done? ==>
                  var comma := TokenAt(inp.doc, first.current);
                  var last := PastComments(inp.doc, comma);
                  if comma.kind.ObjectEnd? || comma.kind.ArraySeparator? || comma.kind.CommentToken? then
                    r == if last.kind.ObjectEnd? then Done(last.end, Obj(StoreAt(ms, i, first.value)))
                         else ReadMembers(inp, last.end, depth, StoreAt(ms, i, first.value), ms[i].name)
                  else r.Failed?)
  {
    hide ReadValue, ReadMembers, TokenAt, PastComments;
  }

  /** A scalar's token means what the reader makes of it. */
  lemma ScalarRead(inp: Input, pos: nat, depth: nat, old_: Value)
    requires pos <= |inp.doc| && depth < STACK_LIMIT
    requires !NextToken(inp, pos).kind.ArrayBegin? && !NextToken(inp, pos).kind.ObjectBegin?
    ensures var t, r := NextToken(inp, pos), ReadValue(inp, pos, depth, old_);
            var v := ScalarMeaning(inp, LexemeOf(inp.doc, t));
            if v.Some? then r == Done(t.end, v.value) else !r.Done?
  {
    hide NextToken, ReadValue, Unescape, NumberMeaning;
    SwitchOnNext(inp, pos, depth, old_);
    var t := NextToken(inp, pos);
    if t.kind.StringToken? {
      SliceOfSlice(inp.doc, t.start, t.end, 1, t.end - t.start - 1);
    }
  }

  // ---------- everything that is accepted is in the language ----------

  predicate Derives(inp: Input, pos: nat, x: Syntax, end: nat, v: Value)
    requires pos <= |inp.doc|
  {
    Legal(inp, x) && Spans(inp.doc, pos, Words(x), end) && Meaning(inp, x) == Some(v)
  }

  predicate DerivesItems(inp: Input, pos: nat, items: seq<Item>, end: nat, vs: seq<Value>)
    requires pos <= |inp.doc|
  {
    LegalItems(inp, items) && Spans(inp.doc, pos, ItemWords(items), end) && ItemMeanings(inp, items) == Some(vs)
  }

  predicate DerivesFields(inp: Input, pos: nat, ms: seq<Member>, fields: seq<Field>, last: seq<Lexeme>, end: nat,
                          all: seq<Member>)
    requires pos <= |inp.doc|
  {
    && LegalFields(inp, fields) && AllComments(last) && FieldMeanings(inp, ms, fields) == Some(all)
    && Spans(inp.doc, pos, FieldWords(fields) + (last + [Punctuation(RIGHT_BRACE)]), end)
  }

  lemma DerivesScalar(inp: Input, pos: nat, cs: seq<Lexeme>, m: nat, v: Value)
    requires pos <= |inp.doc| && m <= |inp.doc| && AllComments(cs) && (inp.allowComments || cs == [])
    requires Spans(inp.doc, pos, cs, m) && ScalarMeaning(inp, LexemeOf(inp.doc, TokenAt(inp.doc, m))) == Some(v)
    ensures var t := TokenAt(inp.doc, m); Derives(inp, pos, Scalar(cs, LexemeOf(inp.doc, t)), t.end, v)
  {
    hide TokenAt, AllComments, ScalarMeaning;
    var t := TokenAt(inp.doc, m);
    SpansCons(inp.doc, m, LexemeOf(inp.doc, t), [], t.end);
    assert [LexemeOf(inp.doc, t)] + [] == [LexemeOf(inp.doc, t)];
    SpansJoin(inp.doc, pos, cs, m, [LexemeOf(inp.doc, t)], t.end);
  }

  lemma DerivesList(inp: Input, pos: nat, cs: seq<Lexeme>, m: nat, items: seq<Item>, end: nat, vs: seq<Value>)
    requires pos <= |inp.doc| && m <= |inp.doc| && AllComments(cs) && (inp.allowComments || cs == [])
    requires Spans(inp.doc, pos, cs, m) && TokenAt(inp.doc, m).kind.ArrayBegin?
    requires DerivesItems(inp, TokenAt(inp.doc, m).end, items, end, vs)
    ensures Derives(inp, pos, List(cs, items), end, Arr(vs))
  {
    hide TokenAt, AllComments, LegalItems, ItemMeanings, ItemWords, Punctuation;
    PunctuationText(inp.doc, m);
    SpansCons(inp.doc, m, Punctuation(LEFT_BRACKET), ItemWords(items), end);
    SpansJoin(inp.doc, pos, cs, m, [Punctuation(LEFT_BRACKET)] + ItemWords(items), end);
  }

  lemma DerivesDict(inp: Input, pos: nat, cs: seq<Lexeme>, m: nat, fields: seq<Field>, last: seq<Lexeme>, end: nat,
                    all: seq<Member>)
    requires pos <= |inp.doc| && m <= |inp.doc| && AllComments(cs) && (inp.allowComments || cs == [])
    requires Spans(inp.doc, pos, cs, m) && TokenAt(inp.doc, m).kind.ObjectBegin?
    requires DerivesFields(inp, TokenAt(inp.doc, m).end, [], fields, last, end, all)
    ensures Derives(inp, pos, Dict(cs, fields, last), end, Obj(all))
  {
    hide TokenAt, AllComments, LegalFields, FieldMeanings, FieldWords, Punctuation;
    PunctuationText(inp.doc, m);
    var rest := FieldWords(fields) + (last + [Punctuation(RIGHT_BRACE)]);
    SpansCons(inp.doc, m, Punctuation(LEFT_BRACE), rest, end);
    SpansJoin(inp.doc, pos, cs, m, [Punctuation(LEFT_BRACE)] + rest, end);
  }

  lemma {:induction false} AcceptedValue(inp: Input, pos: nat, depth: nat, old_: Value) returns (x: Syntax)
    requires pos <= |inp.doc| && ReadValue(inp, pos, depth, old_).Done?
    ensures var r := ReadValue(inp, pos, depth, old_); Derives(inp, pos, x, r.current, r.value)
    ensures depth + Nesting(x) <= STACK_LIMIT
    decreases |inp.doc| - pos, 0
  {
    hide TokenAt, NextToken, ReadItems, ReadMembers, Derives, DerivesItems, DerivesFields, ScalarMeaning, AllComments;
    hide SkipSpaces, Spans, ReadValue;
    var cs, m := CommentsBefore(inp, pos);
    var t := NextToken(inp, pos);
    SwitchOnNext(inp, pos, depth, old_);
    if t.kind.ArrayBegin? {
      var items, vs := AcceptedArray(inp, t.end, depth + 1);
      x := List(cs, items);
      DerivesList(inp, pos, cs, m, items, ReadValue(inp, pos, depth, old_).current, vs);
    } else if t.kind.ObjectBegin? {
      var fields, last := AcceptedMembers(inp, t.end, depth + 1, [], []);
      x := Dict(cs, fields, last);
      var r := ReadValue(inp, pos, depth, old_);
      DerivesDict(inp, pos, cs, m, fields, last, r.current, r.value.members);
    } else {
      ScalarRead(inp, pos, depth, old_);
      x := Scalar(cs, LexemeOf(inp.doc, t));
      DerivesScalar(inp, pos, cs, m, ReadValue(inp, pos, depth, old_).value);
    }
  }

  /** What readArray does behind the opening bracket. */
  function ReadArrayRest(inp: Input, pos: nat, depth: nat): Outcome
    requires pos <= |inp.doc|
  {
    var s := SkipSpaces(inp.doc, pos);
    if PeekAt(inp.doc, s) == RIGHT_BRACKET then Done(TokenAt(inp.doc, s).end, Arr([]))
    else ReadItems(inp, s, depth, [])
  }

  lemma SpansSkipSpaces(doc: bytes, p: nat, ws: seq<Lexeme>, q: nat)
    requires p <= |doc| && ws != []
    ensures Spans(doc, SkipSpaces(doc, p), ws, q) <==> Spans(doc, p, ws, q)
  {
    hide TokenAt, SkipSpaces;
    SpacesDoNotMatter(doc, p);
  }

  lemma EmptyArray(inp: Input, pos: nat)
    requires pos <= |inp.doc| && TokenAt(inp.doc, pos).kind.ArrayEnd?
    ensures DerivesItems(inp, pos, [], TokenAt(inp.doc, pos).end, [])
  {
    hide TokenAt, Punctuation;
    PunctuationText(inp.doc, pos);
    SpansCons(inp.doc, pos, Punctuation(RIGHT_BRACKET), [], TokenAt(inp.doc, pos).end);
    assert [Punctuation(RIGHT_BRACKET)] + [] == [Punctuation(RIGHT_BRACKET)];
  }

  lemma ItemWordsNotEmpty(items: seq<Item>)
    ensures ItemWords(items) != []
    decreases items
  {
    if items != [] && |items| != 1 {
      ItemWordsNotEmpty(items[1..]);
    }
  }

  lemma {:induction false} AcceptedArray(inp: Input, pos: nat, depth: nat) returns (items: seq<Item>, vs: seq<Value>)
    requires pos <= |inp.doc| && depth <= STACK_LIMIT && ReadArrayRest(inp, pos, depth).Done?
    ensures var r := ReadArrayRest(inp, pos, depth);
            DerivesItems(inp, pos, items, r.current, vs) && r.value == Arr(vs)
    ensures depth + ItemNesting(items) <= STACK_LIMIT
    decreases |inp.doc| - pos, 2
  {
    hide TokenAt, SkipSpaces, ReadItems, Spans, LegalItems, ItemMeanings, ItemWords;
    SpacesDoNotMatter(inp.doc, pos);
    var s := SkipSpaces(inp.doc, pos);
    if PeekAt(inp.doc, s) == RIGHT_BRACKET {
      items, vs := [], [];
      EmptyArray(inp, pos);
    } else {
      items, vs := AcceptedItems(inp, s, depth, []);
      ItemWordsNotEmpty(items);
      SpansSkipSpaces(inp.doc, pos, ItemWords(items), ReadItems(inp, s, depth, []).current);
    }
  }

  /** An item read, what follows it, and the items behind. */
  lemma DerivesItemsCons(inp: Input, pos: nat, item: Item, v: Value, c: nat, m: nat,
                         rest: seq<Item>, end: nat, vs: seq<Value>)
    requires pos <= |inp.doc| && c <= |inp.doc| && m <= |inp.doc| && Derives(inp, pos, item.value, c, v)
    requires AllComments(item.comments) && Spans(inp.doc, c, item.comments, m)
    requires var t := TokenAt(inp.doc, m);
             if rest == [] then t.kind.ArrayEnd? && end == t.end && vs == []
             else t.kind.ArraySeparator? && DerivesItems(inp, t.end, rest, end, vs)
    ensures DerivesItems(inp, pos, [item] + rest, end, [v] + vs)
  {
    hide TokenAt, AllComments, Legal, Meaning, Words, Punctuation;
    var t := TokenAt(inp.doc, m);
    PunctuationText(inp.doc, m);
    var tail := if rest == [] then [Punctuation(RIGHT_BRACKET)] else [Punctuation(COMMA)] + ItemWords(rest);
    assert ([item] + rest)[1..] == rest;
    assert ItemWords([item] + rest) == Words(item.value) + (item.comments + tail);
    if rest == [] {
      SpansCons(inp.doc, m, Punctuation(RIGHT_BRACKET), [], end);
      assert [Punctuation(RIGHT_BRACKET)] + [] == tail;
    } else {
      SpansCons(inp.doc, m, Punctuation(COMMA), ItemWords(rest), end);
    }
    hide Spans, ItemWords, ItemMeanings;
    SpansJoin(inp.doc, c, item.comments, m, tail, end);
    SpansJoin(inp.doc, pos, Words(item.value), c, item.comments + tail, end);
    ItemMeaningsCons(inp, item, rest);
  }

  lemma ItemMeaningsCons(inp: Input, item: Item, rest: seq<Item>)
    ensures ItemMeanings(inp, [item] + rest) ==
            if Meaning(inp, item.value).Some? && ItemMeanings(inp, rest).Some?
            then Some([Meaning(inp, item.value).value] + ItemMeanings(inp, rest).value) else None
    ensures LegalItems(inp, [item] + rest) <==>
            Legal(inp, item.value) && AllComments(item.comments) && LegalItems(inp, rest)
    ensures ItemNesting([item] + rest) == Max(Nesting(item.value), ItemNesting(rest))
  {
    hide Legal, Meaning, AllComments, Nesting;
    assert ([item] + rest)[1..] == rest;
  }

  lemma {:induction false} AcceptedItems(inp: Input, pos: nat, depth: nat, acc: seq<Value>)
    returns (items: seq<Item>, vs: seq<Value>)
    requires pos <= |inp.doc| && ReadItems(inp, pos, depth, acc).Done?
    ensures var r := ReadItems(inp, pos, depth, acc);
            DerivesItems(inp, pos, items, r.current, vs) && r.value == Arr(acc + vs)
    ensures depth + ItemNesting(items) <= STACK_LIMIT && items != []
    decreases |inp.doc| - pos, 1
  {
    hide TokenAt, ReadItems, ReadValue, PastComments, Derives, DerivesItems, AllComments, Spans;
    ItemsUnfold(inp, pos, depth, acc);
    var first, r := ReadValue(inp, pos, depth, Null), ReadItems(inp, pos, depth, acc);
    var x := AcceptedValue(inp, pos, depth, Null);
    var cs, m := CommentsHere(inp.doc, first.current);
    var t := TokenAt(inp.doc, m);
    var rest, more := [], [];
    if t.kind.ArraySeparator? {
      rest, more := AcceptedItems(inp, t.end, depth, acc + [first.value]);
      Associate(acc, [first.value], more);
    } else {
      assert acc + ([first.value] + []) == acc + [first.value];
    }
    items, vs := [Item(x, cs)] + rest, [first.value] + more;
    DerivesItemsCons(inp, pos, Item(x, cs), first.value, first.current, m, rest, r.current, more);
    ItemMeaningsCons(inp, Item(x, cs), rest);
  }

  lemma FieldsCons(inp: Input, ms: seq<Member>, f: Field, rest: seq<Field>, tail: seq<Lexeme>)
    ensures FieldWords([f] + rest) + tail
            == f.comments + ([f.name] + ([Punctuation(COLON)] + (Words(f.value) + (f.end + (FieldWords(rest) + tail)))))
    ensures FieldNesting([f] + rest) == Max(Nesting(f.value), FieldNesting(rest))
    ensures LegalFields(inp, [f] + rest) <==>
            && AllComments(f.comments) && Legal(inp, f.value) && LegalFields(inp, rest)
            && (Separates(f.end) || (rest == [] && f.end == []))
            && (rest == [] && f.end != [] ==> NameOf(f) == Some([]))
    ensures FieldMeanings(inp, ms, [f] + rest) ==
            if NameOf(f).Some? && Meaning(inp, f.value).Some?
            then FieldMeanings(inp, Stored(ms, NameOf(f).value, Meaning(inp, f.value).value), rest) else None
  {
    hide Legal, Meaning, AllComments, Nesting, Words, Punctuation, Separates, NameOf, Stored;
    assert ([f] + rest)[1..] == rest;
    var v, colon := Words(f.value), [Punctuation(COLON)];
    Associate(f.end, FieldWords(rest), tail);
    Associate(v, f.end + FieldWords(rest), tail);
    Associate(colon, v + (f.end + FieldWords(rest)), tail);
    Associate([f.name], colon + (v + (f.end + FieldWords(rest))), tail);
    Associate(f.comments, [f.name] + (colon + (v + (f.end + FieldWords(rest)))), tail);
  }

  /** Where the words of a field lie, and what comes behind it. */
  lemma FieldSpans(doc: bytes, pos: nat, f: Field, m: nat, c: nat, e: nat, after: seq<Lexeme>, end: nat)
    requires pos <= |doc| && m <= |doc| && c <= |doc| && e <= |doc| && Spans(doc, pos, f.comments, m)
    requires var t := TokenAt(doc, m);
             && LexemeOf(doc, t) == f.name && TokenAt(doc, t.end).kind.MemberSeparator?
             && Spans(doc, TokenAt(doc, t.end).end, Words(f.value), c)
    requires Spans(doc, c, f.end, e) && Spans(doc, e, after, end)
    ensures Spans(doc, pos,
                  f.comments + ([f.name] + ([Punctuation(COLON)] + (Words(f.value) + (f.end + after)))), end)
  {
    hide TokenAt, Words, Punctuation, Spans;
    var t := TokenAt(doc, m);
    PunctuationText(doc, t.end);
    SpansJoin(doc, c, f.end, e, after, end);
    SpansJoin(doc, TokenAt(doc, t.end).end, Words(f.value), c, f.end + after, end);
    var v := Words(f.value) + (f.end + after);
    SpansCons(doc, t.end, Punctuation(COLON), v, end);
    SpansCons(doc, m, f.name, [Punctuation(COLON)] + v, end);
    SpansJoin(doc, pos, f.comments, m, [f.name] + ([Punctuation(COLON)] + v), end);
  }

  /** The tokens between two members. */
  lemma SeparatorSpans(doc: bytes, c: nat, cs: seq<Lexeme>, e: nat)
    requires c <= |doc| && e <= |doc| && AllComments(cs) && Spans(doc, c, cs, e)
    requires !TokenAt(doc, e).kind.CommentToken? && !TokenAt(doc, e).kind.ObjectEnd?
    requires cs == [] ==> TokenAt(doc, e).kind.ArraySeparator?
    ensures var t := TokenAt(doc, e);
            Spans(doc, c, cs + [LexemeOf(doc, t)], t.end) && Separates(cs + [LexemeOf(doc, t)])
  {
    hide TokenAt, Punctuation;
    var t := TokenAt(doc, e);
    PunctuationText(doc, e);
    SpansCons(doc, e, LexemeOf(doc, t), [], t.end);
    assert [LexemeOf(doc, t)] + [] == [LexemeOf(doc, t)];
    SpansJoin(doc, c, cs, e, [LexemeOf(doc, t)], t.end);
    assert (cs + [LexemeOf(doc, t)])[..|cs|] == cs;
  }

  lemma ClosingSpans(doc: bytes, c: nat, cs: seq<Lexeme>, e: nat)
    requires c <= |doc| && e <= |doc| && Spans(doc, c, cs, e) && TokenAt(doc, e).kind.ObjectEnd?
    ensures Spans(doc, c, cs + [Punctuation(RIGHT_BRACE)], TokenAt(doc, e).end)
    ensures Spans(doc, c, FieldWords([]) + (cs + [Punctuation(RIGHT_BRACE)]), TokenAt(doc, e).end)
  {
    hide TokenAt, Punctuation;
    PunctuationText(doc, e);
    SpansCons(doc, e, Punctuation(RIGHT_BRACE), [], TokenAt(doc, e).end);
    assert [Punctuation(RIGHT_BRACE)] + [] == [Punctuation(RIGHT_BRACE)];
    SpansJoin(doc, c, cs, e, [Punctuation(RIGHT_BRACE)], TokenAt(doc, e).end);
    assert [] + (cs + [Punctuation(RIGHT_BRACE)]) == cs + [Punctuation(RIGHT_BRACE)];
  }

  lemma DerivesFieldsCons(inp: Input, pos: nat, ms: seq<Member>, f: Field, m: nat, c: nat, e: nat, v: Value,
                          rest: seq<Field>, last: seq<Lexeme>, end: nat, all: seq<Member>)
    requires pos <= |inp.doc| && m <= |inp.doc| && AllComments(f.comments) && Spans(inp.doc, pos, f.comments, m)
    requires var t := TokenAt(inp.doc, m);
             && LexemeOf(inp.doc, t) == f.name && NameOf(f).Some? && TokenAt(inp.doc, t.end).kind.MemberSeparator?
             && Derives(inp, TokenAt(inp.doc, t.end).end, f.value, c, v)
    requires c <= |inp.doc| && e <= |inp.doc| && Spans(inp.doc, c, f.end, e)
    requires DerivesFields(inp, e, Stored(ms, NameOf(f).value, v), rest, last, end, all)
    requires Separates(f.end) || (rest == [] && f.end == [])
    requires rest == [] && f.end != [] ==> NameOf(f) == Some([])
    ensures DerivesFields(inp, pos, ms, [f] + rest, last, end, all)
  {
    hide TokenAt, AllComments, Legal, Meaning, Words, Punctuation, Separates, NameOf, Stored, Spans, FieldWords;
    var tail := last + [Punctuation(RIGHT_BRACE)];
    FieldsCons(inp, ms, f, rest, tail);
    FieldSpans(inp.doc, pos, f, m, c, e, FieldWords(rest) + tail, end);
  }

  lemma {:induction false} AcceptedMembers(inp: Input, pos: nat, depth: nat, ms: seq<Member>, name: bytes)
    returns (fields: seq<Field>, last: seq<Lexeme>)
    requires pos <= |inp.doc| && depth <= STACK_LIMIT && ReadMembers(inp, pos, depth, ms, name).Done?
    ensures var r := ReadMembers(inp, pos, depth, ms, name);
            r.value.Obj? && DerivesFields(inp, pos, ms, fields, last, r.current, r.value.members)
    ensures depth + FieldNesting(fields) <= STACK_LIMIT && (fields == [] ==> name == [])
    decreases |inp.doc| - pos, 1
  {
    hide TokenAt, ReadMembers, ReadValue, ReadMemberValue, PastComments, Derives, AllComments, Spans, TextOf;
    hide LowerBound, WithSlot, DerivesFields;
    MembersUnfold(inp, pos, depth, ms, name);
    var cs, m := CommentsHere(inp.doc, pos);
    var t, r := TokenAt(inp.doc, m), ReadMembers(inp, pos, depth, ms, name);
    if t.kind.ObjectEnd? {
      fields, last := [], cs;
      NoFields(inp, pos, ms, cs, m);
    } else {
      var key := TextOf(LexemeOf(inp.doc, t)).value;
      var p, slots, i := TokenAt(inp.doc, t.end).end, WithSlot(ms, key), LowerBound(ms, key);
      MemberValueUnfold(inp, p, depth, slots, i);
      var x := AcceptedValue(inp, p, depth, slots[i].value);
      var first := ReadValue(inp, p, depth, slots[i].value);
      var stored := StoreAt(slots, i, first.value);
      var ecs, e := CommentsHere(inp.doc, first.current);
      var u := TokenAt(inp.doc, e);
      if u.kind.ObjectEnd? {
        var f := Field(cs, LexemeOf(inp.doc, t), x, []);
        fields, last := [f], ecs;
        NoFields(inp, first.current, stored, ecs, e);
        SpansNothing(inp.doc, first.current);
        DerivesFieldsCons(inp, pos, ms, f, m, first.current, first.current, first.value, [], last, r.current,
                          r.value.members);
        FieldsCons(inp, ms, f, [], []);
        NoFieldNesting();
        assert [f] + [] == [f];
      } else {
        var f := Field(cs, LexemeOf(inp.doc, t), x, ecs + [LexemeOf(inp.doc, u)]);
        var rest;
        rest, last := AcceptedMembers(inp, u.end, depth, stored, key);
        fields := [f] + rest;
        SeparatorSpans(inp.doc, first.current, ecs, e);
        DerivesFieldsCons(inp, pos, ms, f, m, first.current, u.end, first.value, rest, last, r.current,
                          r.value.members);
        FieldsCons(inp, ms, f, rest, []);
      }
    }
  }

  lemma NoFieldNesting()
    ensures FieldNesting([]) == 0
  {
  }

  lemma SpansNothing(doc: bytes, p: nat)
    requires p <= |doc|
    ensures Spans(doc, p, [], p)
  {
  }

  lemma NoFields(inp: Input, pos: nat, ms: seq<Member>, cs: seq<Lexeme>, m: nat)
    requires pos <= |inp.doc| && m <= |inp.doc| && AllComments(cs) && Spans(inp.doc, pos, cs, m)
    requires TokenAt(inp.doc, m).kind.ObjectEnd?
    ensures DerivesFields(inp, pos, ms, [], cs, TokenAt(inp.doc, m).end, ms)
  {
    hide TokenAt, AllComments, Spans;
    ClosingSpans(inp.doc, pos, cs, m);
  }

  // ---------- everything in the language is accepted ----------

  lemma {:induction false} NextTokenIs(inp: Input, p: nat, cs: seq<Lexeme>, m: nat)
    requires p <= |inp.doc| && m <= |inp.doc| && Spans(inp.doc, p, cs, m)
    requires AllComments(cs) && (inp.allowComments || cs == []) && !TokenAt(inp.doc, m).kind.CommentToken?
    ensures NextToken(inp, p) == TokenAt(inp.doc, m)
    decreases |cs|
  {
    hide TokenAt;
    if cs != [] {
      NextTokenIs(inp, TokenAt(inp.doc, p).end, cs[1..], m);
    }
  }

  lemma {:induction false} PastCommentsIs(doc: bytes, p: nat, cs: seq<Lexeme>, m: nat)
    requires p <= |doc| && m <= |doc| && Spans(doc, p, cs, m) && AllComments(cs)
    requires !TokenAt(doc, m).kind.CommentToken?
    ensures PastComments(doc, TokenAt(doc, p)) == TokenAt(doc, m)
    ensures if cs == [] then TokenAt(doc, p) == TokenAt(doc, m) else TokenAt(doc, p).kind.CommentToken?
    decreases |cs|
  {
    hide TokenAt;
    if cs != [] {
      PastCommentsIs(doc, TokenAt(doc, p).end, cs[1..], m);
    }
  }

  lemma SplitHead(doc: bytes, p: nat, cs: seq<Lexeme>, w: Lexeme, rest: seq<Lexeme>, q: nat) returns (m: nat)
    requires p <= |doc| && Spans(doc, p, cs + ([w] + rest), q)
    ensures m <= |doc| && Spans(doc, p, cs, m) && LexemeOf(doc, TokenAt(doc, m)) == w
    ensures Spans(doc, TokenAt(doc, m).end, rest, q)
  {
    hide TokenAt, Spans;
    m := SpansSplit(doc, p, cs, [w] + rest, q);
    SpansCons(doc, m, w, rest, q);
  }

  function Fits(depth: nat, nesting: nat, c: nat, v: Value): Outcome {
    if depth + nesting <= STACK_LIMIT then Done(c, v) else DepthExceeded
  }

  lemma ScalarAccepted(inp: Input, pos: nat, depth: nat, old_: Value, x: Syntax, c: nat, v: Value)
    requires pos <= |inp.doc| && Derives(inp, pos, x, c, v) && x.Scalar?
    ensures ReadValue(inp, pos, depth, old_) == Fits(depth, Nesting(x), c, v)
  {
    hide TokenAt, NextToken, ReadValue, Unescape, NumberMeaning, AllComments, Spans;
    assert [x.token] + [] == [x.token];
    var m := SplitHead(inp.doc, pos, x.comments, x.token, [], c);
    assert TokenAt(inp.doc, m).end == c by { SpansEmpty(inp.doc, TokenAt(inp.doc, m).end, c); }
    NextTokenIs(inp, pos, x.comments, m);
    SwitchOnNext(inp, pos, depth, old_);
    if depth < STACK_LIMIT {
      ScalarRead(inp, pos, depth, old_);
    }
  }

  lemma SpansEmpty(doc: bytes, p: nat, q: nat)
    requires p <= |doc| && Spans(doc, p, [], q)
    ensures p == q
  {
  }

  lemma {:induction false} ValueAccepted(inp: Input, pos: nat, depth: nat, old_: Value, x: Syntax, c: nat, v: Value)
    requires pos <= |inp.doc| && Derives(inp, pos, x, c, v)
    ensures ReadValue(inp, pos, depth, old_) == Fits(depth, Nesting(x), c, v)
    decreases x, 2
  {
    hide ReadValue, Derives, Nesting;
    match x
    case Scalar(_, _) => ScalarAccepted(inp, pos, depth, old_, x, c, v);
    case List(_, _) => ListAccepted(inp, pos, depth, old_, x, c, v);
    case Dict(_, _, _) => DictAccepted(inp, pos, depth, old_, x, c, v);
  }

  lemma {:induction false} ListAccepted(inp: Input, pos: nat, depth: nat, old_: Value, x: Syntax, c: nat, v: Value)
    requires pos <= |inp.doc| && Derives(inp, pos, x, c, v) && x.List?
    ensures ReadValue(inp, pos, depth, old_) == Fits(depth, Nesting(x), c, v)
    decreases x, 1
  {
    hide TokenAt, NextToken, ReadValue, ReadItems, ReadMembers, AllComments, Spans, Punctuation;
    hide ItemWords, ItemMeanings, LegalItems, SkipSpaces;
    SwitchOnNext(inp, pos, depth, old_);
    var m := SplitHead(inp.doc, pos, x.comments, Punctuation(LEFT_BRACKET), ItemWords(x.items), c);
    PunctuationText(inp.doc, m);
    NextTokenIs(inp, pos, x.comments, m);
    if depth < STACK_LIMIT {
      ArrayAccepted(inp, TokenAt(inp.doc, m).end, depth + 1, x.items, c, v.items);
    }
  }

  lemma {:induction false} DictAccepted(inp: Input, pos: nat, depth: nat, old_: Value, x: Syntax, c: nat, v: Value)
    requires pos <= |inp.doc| && Derives(inp, pos, x, c, v) && x.Dict?
    ensures ReadValue(inp, pos, depth, old_) == Fits(depth, Nesting(x), c, v)
    decreases x, 1
  {
    hide TokenAt, NextToken, ReadValue, ReadItems, ReadMembers, AllComments, Spans, Punctuation;
    hide FieldWords, FieldMeanings, LegalFields, SkipSpaces;
    SwitchOnNext(inp, pos, depth, old_);
    var rest := FieldWords(x.fields) + (x.last + [Punctuation(RIGHT_BRACE)]);
    var m := SplitHead(inp.doc, pos, x.comments, Punctuation(LEFT_BRACE), rest, c);
    PunctuationText(inp.doc, m);
    NextTokenIs(inp, pos, x.comments, m);
    if depth < STACK_LIMIT {
      FieldsAccepted(inp, TokenAt(inp.doc, m).end, depth + 1, [], [], x.fields, x.last, c, v.members);
    }
  }

  lemma FirstWord(inp: Input, x: Syntax)
    requires Legal(inp, x) && Meaning(inp, x).Some?
    ensures Words(x) != [] && !Words(x)[0].kind.ArrayEnd?
  {
    hide ItemWords, FieldWords;
  }

  lemma {:induction false} ArrayAccepted(inp: Input, pos: nat, depth: nat, items: seq<Item>, c: nat, vs: seq<Value>)
    requires pos <= |inp.doc| && depth <= STACK_LIMIT && DerivesItems(inp, pos, items, c, vs)
    ensures ReadArrayRest(inp, pos, depth) == Fits(depth, ItemNesting(items), c, Arr(vs))
    decreases items, 1
  {
    hide TokenAt, SkipSpaces, ReadItems, Spans, Words, Punctuation, Legal, Meaning;
    SpacesDoNotMatter(inp.doc, pos);
    var s := SkipSpaces(inp.doc, pos);
    PunctuationText(inp.doc, pos);
    if items == [] {
      assert [Punctuation(RIGHT_BRACKET)] + [] == ItemWords(items);
      SpansCons(inp.doc, pos, Punctuation(RIGHT_BRACKET), [], c);
      SpansEmpty(inp.doc, TokenAt(inp.doc, pos).end, c);
    } else {
      FirstWord(inp, items[0].value);
      var ws := ItemWords(items);
      assert ws == [ws[0]] + ws[1..];
      SpansCons(inp.doc, pos, ws[0], ws[1..], c);
      SpansSkipSpaces(inp.doc, pos, ws, c);
      ItemsAccepted(inp, s, depth, [], items, c, vs);
      assert [] + vs == vs;
    }
  }

  lemma {:induction false} ItemsAccepted(inp: Input, pos: nat, depth: nat, acc: seq<Value>,
                                         items: seq<Item>, c: nat, vs: seq<Value>)
    requires pos <= |inp.doc| && items != [] && DerivesItems(inp, pos, items, c, vs)
    ensures ReadItems(inp, pos, depth, acc) == Fits(depth, ItemNesting(items), c, Arr(acc + vs))
    decreases items, 0
  {
    hide TokenAt, ReadItems, ReadValue, PastComments, AllComments, Spans, Words, Legal, Meaning, Punctuation;
    hide ItemMeanings, LegalItems, ItemNesting;
    var item, rest := items[0], items[1..];
    assert items == [item] + rest;
    ItemMeaningsCons(inp, item, rest);
    var v := Meaning(inp, item.value).value;
    var after := if rest == [] then [Punctuation(RIGHT_BRACKET)] else [Punctuation(COMMA)] + ItemWords(rest);
    var p := SpansSplit(inp.doc, pos, Words(item.value), item.comments + after, c);
    ValueAccepted(inp, pos, depth, Null, item.value, p, v);
    ItemsUnfold(inp, pos, depth, acc);
    var w, more := after[0], after[1..];
    assert after == [w] + more;
    var m := SplitHead(inp.doc, p, item.comments, w, more, c);
    PunctuationText(inp.doc, m);
    PastCommentsIs(inp.doc, p, item.comments, m);
    if rest == [] {
      assert more == [];
      SpansEmpty(inp.doc, TokenAt(inp.doc, m).end, c);
      NoItemsLeft(inp);
      assert acc + vs == acc + [v];
    } else {
      assert more == ItemWords(rest);
      ItemsAccepted(inp, TokenAt(inp.doc, m).end, depth, acc + [v], rest, c, vs[1..]);
      Associate(acc, [v], vs[1..]);
    }
  }

  lemma NoItemsLeft(inp: Input)
    ensures ItemMeanings(inp, []) == Some([]) && ItemNesting([]) == 0
  {
  }

  /** The parts of a field in a document. */
  lemma SplitField(doc: bytes, pos: nat, f: Field, after: seq<Lexeme>, end: nat) returns (m: nat, c: nat, e: nat)
    requires pos <= |doc|
    requires Spans(doc, pos,
                   f.comments + ([f.name] + ([Punctuation(COLON)] + (Words(f.value) + (f.end + after)))), end)
    ensures m <= |doc| && c <= |doc| && e <= |doc| && Spans(doc, pos, f.comments, m)
    ensures var t := TokenAt(doc, m);
            && LexemeOf(doc, t) == f.name && TokenAt(doc, t.end).kind.MemberSeparator?
            && Spans(doc, TokenAt(doc, t.end).end, Words(f.value), c)
    ensures Spans(doc, c, f.end, e) && Spans(doc, e, after, end)
  {
    hide TokenAt, Words, Punctuation, Spans;
    var v := Words(f.value) + (f.end + after);
    m := SplitHead(doc, pos, f.comments, f.name, [Punctuation(COLON)] + v, end);
    var p := TokenAt(doc, m).end;
    PunctuationText(doc, p);
    SpansCons(doc, p, Punctuation(COLON), v, end);
    c := SpansSplit(doc, TokenAt(doc, p).end, Words(f.value), f.end + after, end);
    e := SpansSplit(doc, c, f.end, after, end);
  }

  lemma SeparatorParts(ws: seq<Lexeme>)
    requires Separates(ws)
    ensures var cs, w := ws[..|ws| - 1], ws[|ws| - 1];
            && AllComments(cs) && !w.kind.CommentToken? && !w.kind.ObjectEnd? && (cs == [] ==> w == Punctuation(COMMA))
            && ws == cs + ([w] + [])
  {
  }

  /** What ReadMemberValue finds behind a value. */
  lemma SplitSeparator(doc: bytes, c: nat, ws: seq<Lexeme>, e: nat)
    requires c <= |doc| && e <= |doc| && Separates(ws) && Spans(doc, c, ws, e)
    ensures var comma := TokenAt(doc, c);
            var last := PastComments(doc, comma);
            && (comma.kind.ArraySeparator? || comma.kind.CommentToken?)
            && !last.kind.ObjectEnd? && last.end == e
  {
    hide TokenAt, PastComments, Spans, Separates, AllComments, Punctuation;
    SeparatorParts(ws);
    var cs, w := ws[..|ws| - 1], ws[|ws| - 1];
    var m := SplitHead(doc, c, cs, w, [], e);
    PunctuationText(doc, m);
    SpansEmpty(doc, TokenAt(doc, m).end, e);
    PastCommentsIs(doc, c, cs, m);
  }

  lemma {:induction false} FieldsAccepted(inp: Input, pos: nat, depth: nat, ms: seq<Member>, name: bytes,
                                          fields: seq<Field>, last: seq<Lexeme>, end: nat, all: seq<Member>)
    requires pos <= |inp.doc| && depth <= STACK_LIMIT && DerivesFields(inp, pos, ms, fields, last, end, all)
    requires fields == [] ==> name == []
    ensures ReadMembers(inp, pos, depth, ms, name) == Fits(depth, FieldNesting(fields), end, Obj(all))
    decreases fields, 0
  {
    hide TokenAt, ReadMembers, ReadValue, ReadMemberValue, PastComments, AllComments, Spans, TextOf, LowerBound;
    hide WithSlot, Legal, Meaning, FieldWords, FieldMeanings, LegalFields, FieldNesting, Separates, Words, Punctuation;
    MembersUnfold(inp, pos, depth, ms, name);
    var tail := last + [Punctuation(RIGHT_BRACE)];
    if fields == [] {
      NoFieldsLeft(inp, ms, tail);
      ClosingFound(inp.doc, pos, last, end);
    } else {
      var f, rest := fields[0], fields[1..];
      assert fields == [f] + rest;
      FieldsCons(inp, ms, f, rest, tail);
      var m, c, e := SplitField(inp.doc, pos, f, FieldWords(rest) + tail, end);
      assert f.name.kind.StringToken? by { NameIsString(f); }
      PastCommentsIs(inp.doc, pos, f.comments, m);
      var key, v := NameOf(f).value, Meaning(inp, f.value).value;
      var p, slots, i := TokenAt(inp.doc, TokenAt(inp.doc, m).end).end, WithSlot(ms, key), LowerBound(ms, key);
      ValueAccepted(inp, p, depth, slots[i].value, f.value, c, v);
      MemberValueUnfold(inp, p, depth, slots, i);
      assert StoreAt(slots, i, v) == Stored(ms, key, v);
      if f.end == [] {
        NothingSeparates();
        NoFieldsLeft(inp, Stored(ms, key, v), tail);
        SpansEmpty(inp.doc, c, e);
        ClosingFound(inp.doc, c, last, end);
      } else {
        assert Separates(f.end);
        SplitSeparator(inp.doc, c, f.end, e);
        FieldsAccepted(inp, e, depth, Stored(ms, key, v), key, rest, last, end, all);
      }
    }
  }

  lemma NothingSeparates()
    ensures !Separates([])
  {
  }

  lemma NameIsString(f: Field)
    requires NameOf(f).Some?
    ensures f.name.kind.StringToken?
  {
  }

  lemma NoFieldsLeft(inp: Input, ms: seq<Member>, tail: seq<Lexeme>)
    ensures FieldMeanings(inp, ms, []) == Some(ms) && FieldNesting([]) == 0 && FieldWords([]) + tail == tail
  {
  }

  lemma ClosingFound(doc: bytes, p: nat, cs: seq<Lexeme>, end: nat)
    requires p <= |doc| && AllComments(cs) && Spans(doc, p, cs + [Punctuation(RIGHT_BRACE)], end)
    ensures var comma := TokenAt(doc, p);
            var t := PastComments(doc, comma);
            t.kind.ObjectEnd? && t.end == end && (comma.kind.ObjectEnd? || comma.kind.CommentToken?)
  {
    hide TokenAt, PastComments, Spans, AllComments, Punctuation;
    assert [Punctuation(RIGHT_BRACE)] + [] == [Punctuation(RIGHT_BRACE)];
    var m := SplitHead(doc, p, cs, Punctuation(RIGHT_BRACE), [], end);
    PunctuationText(doc, m);
    SpansEmpty(doc, TokenAt(doc, m).end, end);
    PastCommentsIs(doc, p, cs, m);
  }

  // ---------- the language of parse ----------

  /** A document in the language: it begins with the words of a tree that is nested at most 1000 deep. */
  predicate Accepts(inp: Input, x: Syntax, end: nat, v: Value) {
    Derives(inp, 0, x, end, v) && Nesting(x) <= STACK_LIMIT && (inp.strictRoot ==> IsContainer(v))
  }

  /** parse succeeds if and only if the document is in the language, and then gives the meaning of its tree. */
  lemma ParseAccepts(inp: Input, root: Value, v: Value)
    ensures Parse(inp, root) == Parsed(true, v, []) <==> exists x, end :: Accepts(inp, x, end, v)
  {
    hide ReadValue, Derives, Nesting;
    var r := ReadValue(inp, 0, 0, root);
    if Parse(inp, root) == Parsed(true, v, []) {
      var x := AcceptedValue(inp, 0, 0, root);
      assert Accepts(inp, x, r.current, v);
    }
    if x, end :| Accepts(inp, x, end, v) {
      ValueAccepted(inp, 0, 0, root, x, end, v);
    }
  }

  // ---------- what is reported otherwise ----------

  /** The errors of readValue, readArray and readObject, and the token that each is reported at. */
  lemma ReportedErrors(inp: Input, pos: nat, depth: nat, old_: Value, acc: seq<Value>, ms: seq<Member>, name: bytes)
    requires pos <= |inp.doc| && depth < STACK_LIMIT
    ensures var t, r := NextToken(inp, pos), ReadValue(inp, pos, depth, old_);
            t.kind in {ObjectEnd, ArrayEnd, ArraySeparator, MemberSeparator, CommentToken, ErrorToken, EndOfStream} ==>
              r.Failed? && r.error == ErrorInfo(ValueExpected, t) && r.value == old_
    ensures var first, r := ReadValue(inp, pos, depth, Null), ReadItems(inp, pos, depth, acc);
            first.Done? ==>
              var t := PastComments(inp.doc, TokenAt(inp.doc, first.current));
              !t.kind.ArrayEnd? && !t.kind.ArraySeparator? ==>
                r.Failed? && r.error == ErrorInfo(MissingItemSeparator, t) && r.value == Arr(acc + [first.value])
    ensures var t, r := PastComments(inp.doc, TokenAt(inp.doc, pos)), ReadMembers(inp, pos, depth, ms, name);
            && (!t.kind.StringToken? && !(t.kind.ObjectEnd? && name == []) ==>
                  r.Failed? && r.error == ErrorInfo(MissingMemberName, t) && r.value == Obj(ms))
            && (t.kind.StringToken? && TextOf(LexemeOf(inp.doc, t)).Some? ==>
                  var colon := TokenAt(inp.doc, t.end);
                  !colon.kind.MemberSeparator? ==>
                    r.Failed? && r.error == ErrorInfo(MissingColon, colon) && r.value == Obj(ms))
  {
    hide TokenAt, NextToken, PastComments, ReadNumber, ReadText, ReadMemberValue, WithSlot, LowerBound, Unescape;
    hide SkipSpaces;
    var t := PastComments(inp.doc, TokenAt(inp.doc, pos));
    if t.kind.StringToken? {
      SliceOfSlice(inp.doc, t.start, t.end, 1, t.end - t.start - 1);
    }
  }

  /**
   * After an error the reader goes on behind the first token of the awaited kind,
   * or stops at the end of the stream.
   */
  lemma {:induction false} RecoversAt(doc: bytes, pos: nat, skipUntil: Kind) returns (passed: seq<Lexeme>, m: nat)
    requires pos <= |doc|
    ensures m <= |doc| && Spans(doc, pos, passed, m) && Recover(doc, pos, skipUntil) == TokenAt(doc, m).end
    ensures forall i :: 0 <= i < |passed| ==> passed[i].kind != skipUntil && !passed[i].kind.EndOfStream?
    ensures TokenAt(doc, m).kind == skipUntil || TokenAt(doc, m).kind.EndOfStream?
    decreases |doc| - pos
  {
    hide TokenAt;
    var t := TokenAt(doc, pos);
    if t.kind == skipUntil || t.kind.EndOfStream? {
      passed, m := [], pos;
    } else {
      var rest;
      rest, m := RecoversAt(doc, t.end, skipUntil);
      passed := [LexemeOf(doc, t)] + rest;
      SpansCons(doc, pos, LexemeOf(doc, t), rest, m);
    }
  }
}
