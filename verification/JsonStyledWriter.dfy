/** Json::StyledWriter, without comments: the same tokens as FastWriter's with layout around them. */
module JsonStyledWriter {
  import opened Bytes
  import opened JsonNumbers
  import opened JsonStrings
  import opened JsonValues
  import opened JsonWriters

  /** The tree StyledWriter really writes: member names go through c_str(), so a NUL ends them. */
  function Truncated(v: Value): Value {
    match v
    case Arr(items) => Arr(TruncatedItems(items))
    case Obj(members) => Obj(TruncatedMembers(members))
    case _ => v
  }

  function TruncatedItems(items: seq<Value>): (r: seq<Value>)
    ensures |r| == |items| && forall i :: 0 <= i < |items| ==> r[i] == Truncated(items[i])
  {
    if items == [] then [] else [Truncated(items[0])] + TruncatedItems(items[1..])
  }

  function TruncatedMembers(members: seq<Member>): (r: seq<Member>)
    ensures |r| == |members|
    ensures forall i :: 0 <= i < |members| ==> r[i] == Member(CString(members[i].name), Truncated(members[i].value))
  {
    if members == [] then []
    else [Member(CString(members[0].name), Truncated(members[0].value))] + TruncatedMembers(members[1..])
  }

  function StyledTokens(v: Value): seq<Lexeme> { Tokens(Truncated(v)) }

  lemma {:induction false} TruncatedHasNoDoubles(v: Value)
    requires NoDoubles(v)
    ensures NoDoubles(Truncated(v))
  {
    match v
    case Arr(items) =>
      forall i | 0 <= i < |items| ensures NoDoubles(Truncated(items[i])) { TruncatedHasNoDoubles(items[i]); }
    case Obj(members) =>
      forall i | 0 <= i < |members| ensures NoDoubles(Truncated(members[i].value)) {
        TruncatedHasNoDoubles(members[i].value);
      }
    case _ =>
  }

  /** Scalars and empty containers; these are the only children of a single-line array. */
  predicate IsFlat(v: Value) {
    match v
    case Arr(items) => items == []
    case Obj(members) => members == []
    case _ => true
  }

  lemma FlatIsNotTruncated(v: Value)
    requires IsFlat(v)
    ensures Truncated(v) == v
  {
  }

  /** Says that now extends before by a text that renders the given tokens. */
  ghost predicate Appends(before: bytes, now: bytes, tokens: seq<Lexeme>) {
    before <= now && Renders(now[|before|..], tokens)
  }

  lemma AppendsMore(d0: bytes, d1: bytes, d2: bytes, s: seq<Lexeme>, t: seq<Lexeme>)
    requires Appends(d0, d1, s) && Appends(d1, d2, t)
    ensures Appends(d0, d2, s + t)
  {
    hide Renders;
    RendersAppend(d1[|d0|..], s, d2[|d1|..], t);
    assert d2[|d0|..] == d1[|d0|..] + d2[|d1|..];
  }

  lemma SpaceThenAppends(d0: bytes, d1: bytes, d2: bytes, t: seq<Lexeme>)
    requires Appends(d0, d1, []) && Appends(d1, d2, t)
    ensures Appends(d0, d2, t)
  {
    AppendsMore(d0, d1, d2, [], t);
    assert [] + t == t;
  }

  lemma AppendsText(d: bytes, text: bytes, tokens: seq<Lexeme>)
    requires Renders(text, tokens)
    ensures Appends(d, d + text, tokens)
  {
    assert (d + text)[|d|..] == text;
  }

  lemma SpacesRender(text: bytes)
    requires forall i :: 0 <= i < |text| ==> IsSpace(text[i])
    ensures Renders(text, [])
  {
    BlankIs(text, |text|);
  }

  lemma PunctuationRenders(c: byte, spaces: bytes)
    requires c in PUNCTUATION && forall i :: 0 <= i < |spaces| ==> IsSpace(spaces[i])
    ensures Renders([c] + spaces, [Punctuation(c)]) && Renders([c], [Punctuation(c)])
  {
    LegiblePunctuation(c);
    BlankIs(spaces, |spaces|);
    RendersOne(Punctuation(c), spaces);
    RendersOne(Punctuation(c), []);
    assert [c] + [] == [c];
  }

  lemma PlainRenders(v: Value)
    requires NoDoubles(v)
    ensures Renders(Plain(v), Tokens(v))
  {
    TokensLegible(v);
    SpellRenders(Tokens(v), false);
  }

  lemma NameRenders(name: bytes)
    ensures Renders(Quoted(name), [StringLexeme(name)])
  {
    assert LegibleLexeme(StringLexeme(name));
    LegibleStartsDark(StringLexeme(name));
    RendersOne(StringLexeme(name), []);
    assert Quoted(name) + [] == Quoted(name);
  }

  ghost predicate AllIntegral(items: seq<Value>) { forall i :: 0 <= i < |items| ==> NoDoubles(items[i]) }

  ghost predicate AllFlat(items: seq<Value>) { forall i :: 0 <= i < |items| ==> IsFlat(items[i]) }

  /** What childValues_ has to hold for the items. */
  function ChildTexts(items: seq<Value>): (texts: seq<bytes>)
    ensures |texts| == |items|
  {
    seq(|items|, i requires 0 <= i < |items| => Plain(items[i]))
  }

  lemma ChildRenders(items: seq<Value>, k: nat)
    requires AllIntegral(items) && AllFlat(items) && k < |items|
    ensures |TruncatedItems(items)| == |items| && Renders(ChildTexts(items)[k], Tokens(TruncatedItems(items)[k]))
  {
    hide Renders, Tokens, Plain;
    PlainRenders(items[k]);
    FlatIsNotTruncated(items[k]);
  }

  function TotalLength(texts: seq<bytes>): nat {
    if texts == [] then 0 else TotalLength(texts[..|texts| - 1]) + |texts[|texts| - 1]|
  }

  const RIGHT_MARGIN := 74
  const INDENT_SIZE := 3

  /** Where a nonempty array goes on several lines: too many items, a nonempty container inside, or too long a line. */
  ghost predicate NeedsLines(items: seq<Value>) {
    |items| * 3 >= RIGHT_MARGIN || !AllFlat(items)
    || 4 + (|items| - 1) * 2 + TotalLength(ChildTexts(items)) >= RIGHT_MARGIN
  }

  class StyledWriter {
    var document: bytes
    var childValues: seq<bytes>
    var indentString: bytes
    var addChildValues: bool

    constructor ()
      ensures indentString == [] && !addChildValues
    {
      document, childValues, indentString, addChildValues := [], [], [], false;
    }

    ghost predicate Valid()
      reads this
    {
      forall i :: 0 <= i < |indentString| ==> IsSpace(indentString[i])
    }

    /** write */
    method Write(root: Value) returns (text: bytes)
      requires NoDoubles(root)
      modifies this
      ensures Renders(text, StyledTokens(root))
    {
      document, addChildValues, indentString := [], false, [];
      WriteValue(root);
      ghost var before := document;
      LineEndRenders();
      AppendsText(before, [NEWLINE], []);
      document := document + [NEWLINE];
      AppendsMore([], before, document, StyledTokens(root), []);
      assert StyledTokens(root) + [] == StyledTokens(root);
      assert document[0..] == document;
      text := document;
    }

    /** pushValue of a text that renders the value's tokens. */
    method PushValue(value: bytes, ghost v: Value)
      requires NoDoubles(v) && IsFlat(v) && value == Plain(v)
      modifies this`document, this`childValues
      ensures addChildValues ==> document == old(document) && childValues == old(childValues) + [value]
      ensures !addChildValues ==> childValues == old(childValues) && Appends(old(document), document, StyledTokens(v))
    {
      if addChildValues {
        childValues := childValues + [value];
      } else {
        PlainRenders(v);
        FlatIsNotTruncated(v);
        AppendsText(document, value, Tokens(v));
        document := document + value;
      }
    }

    method WriteValue(value: Value)
      requires Valid() && NoDoubles(value) && (addChildValues ==> IsFlat(value))
      modifies this
      ensures indentString == old(indentString) && addChildValues == old(addChildValues)
      ensures addChildValues ==> document == old(document) && childValues == old(childValues) + [Plain(value)]
      ensures !addChildValues ==> Appends(old(document), document, StyledTokens(value))
      decreases value, 0
    {
      if value.Arr? {
        WriteArrayValue(value.items);
      } else if value.Obj? {
        if value.members == [] {
          EmptyObjectText();
          PushValue([LEFT_BRACE, RIGHT_BRACE], value);
        } else {
          WriteMembers(value.members);
        }
      } else {
        var text := ScalarText(value);
        PushValue(text, value);
      }
    }

    method WriteIndent()
      requires Valid()
      modifies this`document
      ensures Appends(old(document), document, [])
    {
      SpacesRender([]);
      AppendsText(document, [], []);
      assert document + [] == document;
      if document != [] {
        var last := document[|document| - 1];
        if last == SPACE {
          return;
        }
        if last != NEWLINE {
          LineEndRenders();
          AppendsText(document, [NEWLINE], []);
          document := document + [NEWLINE];
        }
      }
      ghost var broken := document;
      SpacesRender(indentString);
      AppendsText(document, indentString, []);
      document := document + indentString;
      SpaceThenAppends(old(document), broken, document, []);
    }

    method WriteWithIndent(value: bytes, ghost tokens: seq<Lexeme>)
      requires Valid() && Renders(value, tokens)
      modifies this`document
      ensures Appends(old(document), document, tokens)
    {
      WriteIndent();
      ghost var indented := document;
      AppendsText(document, value, tokens);
      document := document + value;
      SpaceThenAppends(old(document), indented, document, tokens);
    }

    /** document_ += text */
    method Put(text: bytes, ghost tokens: seq<Lexeme>)
      requires Renders(text, tokens)
      modifies this`document
      ensures Appends(old(document), document, tokens)
    {
      AppendsText(document, text, tokens);
      document := document + text;
    }

    method Indent()
      requires Valid()
      modifies this`indentString
      ensures Valid() && |indentString| == |old(indentString)| + INDENT_SIZE && old(indentString) <= indentString
    {
      indentString := indentString + [SPACE, SPACE, SPACE];
    }

    method Unindent()
      requires Valid() && |indentString| >= INDENT_SIZE
      modifies this`indentString
      ensures Valid() && indentString == old(indentString)[..|old(indentString)| - INDENT_SIZE]
    {
      // the assert of the source
      assert |indentString| >= INDENT_SIZE;
      indentString := indentString[..|indentString| - INDENT_SIZE];
    }

    method WriteName(memberName: bytes)
      requires Valid()
      modifies `document
      ensures Appends(old(document), document, [StringLexeme(CString(memberName))] + [Punctuation(COLON)])
    {
      hide Renders, Appends, Quoted, Punctuation;
      var name := ValueToQuotedString(memberName);
      NameRenders(CString(memberName));
      ColonRenders();
      WriteWithIndent(name, [StringLexeme(CString(memberName))]);
      ghost var d := document;
      Put([SPACE, COLON, SPACE], [Punctuation(COLON)]);
      AppendsMore(old(document), d, document, [StringLexeme(CString(memberName))], [Punctuation(COLON)]);
    }

    method WriteMembers(members: seq<Member>)
      requires Valid() && members != [] && NoDoubles(Obj(members)) && !addChildValues
      modifies this
      ensures indentString == old(indentString) && !addChildValues
      ensures Appends(old(document), document, StyledTokens(Obj(members)))
      decreases members, 1
    {
      hide Renders, Tokens, Truncated, TruncatedMembers, MembersRest, MemberTokens, Appends, Quoted, Punctuation;
      ghost var start := document;
      ghost var names := TruncatedMembers(members);
      PunctuationRenders(LEFT_BRACE, []);
      PunctuationRenders(RIGHT_BRACE, []);
      PunctuationRenders(COMMA, []);
      ObjectTokens(names);
      TruncatedObject(members);
      MembersRestSplit(names, 0);
      WriteWithIndent([LEFT_BRACE], [Punctuation(LEFT_BRACE)]);
      Indent();
      ghost var done := [Punctuation(LEFT_BRACE)];
      var index := 0;
      while true
        invariant 0 <= index < |members| && !addChildValues && Valid()
        invariant |indentString| == |old(indentString)| + INDENT_SIZE && old(indentString) <= indentString
        invariant Appends(start, document, done)
        invariant done + MembersRest(names, index) == [Punctuation(LEFT_BRACE)] + MemberTokens(names)
        decreases |members| - index
      {
        MembersRestSplit(names, index);
        var member := members[index];
        ghost var d := document;
        ghost var nameAndColon := [StringLexeme(names[index].name)] + [Punctuation(COLON)];
        WriteName(member.name);
        AppendsMore(start, d, document, done, nameAndColon);
        done, d := done + nameAndColon, document;
        WriteValue(member.value);
        AppendsMore(start, d, document, done, Tokens(names[index].value));
        done, d := done + Tokens(names[index].value), document;
        index := index + 1;
        if index == |members| {
          break;
        }
        Put([COMMA], [Punctuation(COMMA)]);
        AppendsMore(start, d, document, done, [Punctuation(COMMA)]);
        done := done + [Punctuation(COMMA)];
      }
      assert done == [Punctuation(LEFT_BRACE)] + MemberTokens(names);
      Unindent();
      ghost var d := document;
      WriteWithIndent([RIGHT_BRACE], [Punctuation(RIGHT_BRACE)]);
      AppendsMore(start, d, document, done, [Punctuation(RIGHT_BRACE)]);
      assert indentString == old(indentString);
    }

    method WriteArrayValue(items: seq<Value>)
      requires Valid() && AllIntegral(items) && (addChildValues ==> items == [])
      modifies this
      ensures indentString == old(indentString) && addChildValues == old(addChildValues)
      ensures addChildValues ==> document == old(document) && childValues == old(childValues) + [Plain(Arr(items))]
      ensures !addChildValues ==> Appends(old(document), document, StyledTokens(Arr(items)))
      decreases items, 2
    {
      if items == [] {
        EmptyArrayText();
        PushValue([LEFT_BRACKET, RIGHT_BRACKET], Arr(items));
      } else {
        var isMultiLine := IsMultilineArray(items);
        if isMultiLine {
          WriteLines(items);
        } else {
          // the assert of the source
          assert |childValues| == |items|;
          WriteOneLine(items);
        }
      }
    }

    method WriteLines(items: seq<Value>)
      requires Valid() && AllIntegral(items) && items != [] && !addChildValues
      requires childValues != [] ==> AllFlat(items) && childValues == ChildTexts(items)
      modifies this
      ensures indentString == old(indentString) && !addChildValues
      ensures Appends(old(document), document, StyledTokens(Arr(items)))
      decreases items, 1
    {
      hide Renders, Tokens, Truncated, TruncatedItems, ItemsFrom, ItemsRest, ItemTokens, Appends, Punctuation;
      hide AllFlat, ChildTexts, Plain;
      ghost var start := document;
      ghost var shown := TruncatedItems(items);
      PunctuationRenders(LEFT_BRACKET, []);
      PunctuationRenders(RIGHT_BRACKET, []);
      PunctuationRenders(COMMA, []);
      ArrayTokens(shown);
      TruncatedArray(items);
      ItemsRestSplit(shown, 0);
      WriteWithIndent([LEFT_BRACKET], [Punctuation(LEFT_BRACKET)]);
      Indent();
      var hasChildValue := childValues != [];
      ghost var done := [Punctuation(LEFT_BRACKET)];
      var index := 0;
      while true
        invariant 0 <= index < |items| && !addChildValues && Valid()
        invariant |indentString| == |old(indentString)| + INDENT_SIZE && old(indentString) <= indentString
        // writing a child may clobber childValues_, but then it is not used any more
        invariant hasChildValue ==> AllFlat(items) && childValues == ChildTexts(items)
        invariant Appends(start, document, done)
        invariant done + ItemsRest(shown, index) == [Punctuation(LEFT_BRACKET)] + ItemTokens(shown)
        decreases |items| - index
      {
        ItemsRestSplit(shown, index);
        ghost var d := document;
        if hasChildValue {
          ChildRenders(items, index);
          WriteWithIndent(childValues[index], Tokens(shown[index]));
        } else {
          WriteIndent();
          ghost var indented := document;
          WriteValue(items[index]);
          SpaceThenAppends(d, indented, document, Tokens(shown[index]));
        }
        AppendsMore(start, d, document, done, Tokens(shown[index]));
        done, d := done + Tokens(shown[index]), document;
        index := index + 1;
        if index == |items| {
          break;
        }
        Put([COMMA], [Punctuation(COMMA)]);
        AppendsMore(start, d, document, done, [Punctuation(COMMA)]);
        done := done + [Punctuation(COMMA)];
      }
      assert done == [Punctuation(LEFT_BRACKET)] + ItemTokens(shown);
      Unindent();
      ghost var d := document;
      WriteWithIndent([RIGHT_BRACKET], [Punctuation(RIGHT_BRACKET)]);
      AppendsMore(start, d, document, done, [Punctuation(RIGHT_BRACKET)]);
      assert indentString == old(indentString);
    }

    method WriteOneLine(items: seq<Value>)
      requires AllIntegral(items) && AllFlat(items) && items != [] && childValues == ChildTexts(items)
      modifies this`document
      ensures Appends(old(document), document, StyledTokens(Arr(items)))
    {
      hide Renders, Tokens, Truncated, TruncatedItems, ItemsFrom, ItemsRest, ItemTokens, Appends, Punctuation;
      hide AllIntegral, AllFlat, ChildTexts, Plain;
      ghost var start := document;
      ghost var shown := TruncatedItems(items);
      PunctuationRenders(LEFT_BRACKET, [SPACE]);
      PunctuationRenders(COMMA, [SPACE]);
      SpacedBracketRenders();
      assert [LEFT_BRACKET] + [SPACE] == [LEFT_BRACKET, SPACE] && [COMMA] + [SPACE] == [COMMA, SPACE];
      ArrayTokens(shown);
      TruncatedArray(items);
      Put([LEFT_BRACKET, SPACE], [Punctuation(LEFT_BRACKET)]);
      ghost var done := [Punctuation(LEFT_BRACKET)];
      for index := 0 to |items|
        invariant Appends(start, document, done)
        invariant done + ItemsFrom(shown, index) == [Punctuation(LEFT_BRACKET)] + ItemTokens(shown)
      {
        ItemsFromSplit(shown, index);
        ghost var d := document;
        if index > 0 {
          Put([COMMA, SPACE], [Punctuation(COMMA)]);
          AppendsMore(start, d, document, done, [Punctuation(COMMA)]);
          done, d := done + [Punctuation(COMMA)], document;
        }
        ChildRenders(items, index);
        Put(childValues[index], Tokens(shown[index]));
        AppendsMore(start, d, document, done, Tokens(shown[index]));
        done := done + Tokens(shown[index]);
      }
      NothingLeft(shown, []);
      assert done == [Punctuation(LEFT_BRACKET)] + ItemTokens(shown);
      ghost var d := document;
      Put([SPACE, RIGHT_BRACKET], [Punctuation(RIGHT_BRACKET)]);
      AppendsMore(start, d, document, done, [Punctuation(RIGHT_BRACKET)]);
    }

    /** isMultineArray: also collects the children's texts when all children are flat. */
    method IsMultilineArray(items: seq<Value>) returns (isMultiLine: bool)
      requires Valid() && AllIntegral(items) && items != [] && !addChildValues
      modifies this
      ensures isMultiLine <==> NeedsLines(items)
      ensures !isMultiLine || childValues != [] ==> AllFlat(items) && childValues == ChildTexts(items)
      ensures document == old(document) && indentString == old(indentString) && !addChildValues
      decreases items, 0
    {
      var size := |items|;
      isMultiLine := size * 3 >= RIGHT_MARGIN;
      childValues := [];
      var index := 0;
      while index < size && !isMultiLine
        invariant 0 <= index <= size
        invariant forall i :: 0 <= i < index - 1 ==> IsFlat(items[i])
        invariant isMultiLine <==> size * 3 >= RIGHT_MARGIN || exists i :: 0 <= i < index && !IsFlat(items[i])
        invariant childValues == [] && document == old(document) && indentString == old(indentString) && !addChildValues
      {
        isMultiLine := isMultiLine || ((items[index].Arr? || items[index].Obj?) && !IsFlat(items[index]));
        index := index + 1;
      }
      if !isMultiLine {
        addChildValues := true;
        var lineLength := 4 + (size - 1) * 2;
        for k := 0 to size
          invariant Valid() && addChildValues && AllFlat(items)
          invariant document == old(document) && indentString == old(indentString)
          invariant childValues == ChildTexts(items)[..k]
          invariant lineLength == 4 + (size - 1) * 2 + TotalLength(ChildTexts(items)[..k])
        {
          WriteValue(items[k]);
          assert ChildTexts(items)[..k + 1] == ChildTexts(items)[..k] + [Plain(items[k])];
          assert ChildTexts(items)[..k + 1][..k] == ChildTexts(items)[..k];
          lineLength := lineLength + |childValues[k]|;
        }
        assert ChildTexts(items)[..size] == ChildTexts(items);
        addChildValues := false;
        isMultiLine := isMultiLine || lineLength >= RIGHT_MARGIN;
      }
    }
  }

  // the multi-line loops have no comma left to write for the item they are at

  function ItemsRest(items: seq<Value>, k: nat): seq<Lexeme>
    requires k < |items|
  {
    ItemTokens(items[k..])
  }

  function MembersRest(members: seq<Member>, k: nat): seq<Lexeme>
    requires k < |members|
  {
    MemberTokens(members[k..])
  }

  lemma ItemTailIs(items: seq<Value>)
    ensures ItemTail(items) == if items == [] then [] else [Punctuation(COMMA)] + ItemTokens(items)
  {
  }

  lemma MemberTailIs(members: seq<Member>)
    ensures MemberTail(members) == if members == [] then [] else [Punctuation(COMMA)] + MemberTokens(members)
  {
  }

  lemma ItemsRestSplit(items: seq<Value>, k: nat)
    requires k < |items|
    ensures ItemsRest(items, 0) == ItemTokens(items)
    ensures ItemsRest(items, k)
            == Tokens(items[k]) + (if k + 1 < |items| then [Punctuation(COMMA)] + ItemsRest(items, k + 1) else [])
  {
    hide Tokens, Punctuation, ItemTail;
    var rest, tail := items[k..], items[k + 1..];
    assert rest[1..] == tail && items[0..] == items;
    assert ItemTokens(rest) == Tokens(items[k]) + ItemTail(tail);
    ItemTailIs(tail);
  }

  lemma MembersRestSplit(members: seq<Member>, k: nat)
    requires k < |members|
    ensures MembersRest(members, 0) == MemberTokens(members)
    ensures MembersRest(members, k)
            == [StringLexeme(members[k].name)]
               + ([Punctuation(COLON)]
                  + (Tokens(members[k].value)
                     + (if k + 1 < |members| then [Punctuation(COMMA)] + MembersRest(members, k + 1) else [])))
  {
    hide Tokens, Punctuation, StringLexeme, MemberTail;
    var rest, tail := members[k..], members[k + 1..];
    assert rest[1..] == tail && members[0..] == members;
    assert MemberTokens(rest)
        == [StringLexeme(members[k].name)] + ([Punctuation(COLON)] + (Tokens(members[k].value) + MemberTail(tail)));
    MemberTailIs(tail);
  }

  lemma TruncatedArray(items: seq<Value>)
    ensures StyledTokens(Arr(items)) == Tokens(Arr(TruncatedItems(items)))
  {
  }

  lemma TruncatedObject(members: seq<Member>)
    ensures StyledTokens(Obj(members)) == Tokens(Obj(TruncatedMembers(members)))
  {
  }

  lemma EmptyArrayText()
    ensures Plain(Arr([])) == [LEFT_BRACKET, RIGHT_BRACKET]
  {
    ArrayTokens([]);
    SpellMore([], Punctuation(LEFT_BRACKET), false);
    SpellMore([Punctuation(LEFT_BRACKET)], Punctuation(RIGHT_BRACKET), false);
    assert Tokens(Arr([])) == [Punctuation(LEFT_BRACKET)] + [Punctuation(RIGHT_BRACKET)];
    assert [] + [Punctuation(LEFT_BRACKET)] == [Punctuation(LEFT_BRACKET)];
  }

  lemma EmptyObjectText()
    ensures Plain(Obj([])) == [LEFT_BRACE, RIGHT_BRACE]
  {
    ObjectTokens([]);
    SpellMore([], Punctuation(LEFT_BRACE), false);
    SpellMore([Punctuation(LEFT_BRACE)], Punctuation(RIGHT_BRACE), false);
    assert Tokens(Obj([])) == [Punctuation(LEFT_BRACE)] + [Punctuation(RIGHT_BRACE)];
    assert [] + [Punctuation(LEFT_BRACE)] == [Punctuation(LEFT_BRACE)];
  }

  lemma SpacedBracketRenders()
    ensures Renders([SPACE, RIGHT_BRACKET], [Punctuation(RIGHT_BRACKET)])
  {
    SpacesRender([SPACE]);
    PunctuationRenders(RIGHT_BRACKET, []);
    RendersAppend([SPACE], [], [RIGHT_BRACKET], [Punctuation(RIGHT_BRACKET)]);
    assert [SPACE] + [RIGHT_BRACKET] == [SPACE, RIGHT_BRACKET];
    assert [] + [Punctuation(RIGHT_BRACKET)] == [Punctuation(RIGHT_BRACKET)];
  }

  lemma ColonRenders()
    ensures Renders([SPACE, COLON, SPACE], [Punctuation(COLON)])
  {
    SpacesRender([SPACE]);
    PunctuationRenders(COLON, [SPACE]);
    RendersAppend([SPACE], [], [COLON, SPACE], [Punctuation(COLON)]);
    assert [SPACE] + ([COLON] + [SPACE]) == [SPACE, COLON, SPACE];
    assert [] + [Punctuation(COLON)] == [Punctuation(COLON)];
  }
}
