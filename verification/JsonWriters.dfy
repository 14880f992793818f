/** Json::FastWriter, and the texts it shares with Json::StyledWriter. */
module JsonWriters {
  import opened Bytes
  import opened JsonNumbers
  import opened JsonStrings
  import opened JsonValues

  /** The text of a value without any layout, which is also what the writers make of scalars and empty containers. */
  function Plain(v: Value): bytes { Spell(Tokens(v), false) }

  lemma PlainToken(l: Lexeme, yaml: bool)
    ensures Spell([l], yaml) == TokenText(l, yaml)
  {
    assert Spell([l], yaml) == TokenText(l, yaml) + Spell([], yaml);
  }

  method ScalarText(v: Value) returns (text: bytes)
    requires !v.Arr? && !v.Obj?
    ensures text == Plain(v)
  {
    PlainToken(Tokens(v)[0], false);
    match v {
      case Null => text := NULL_TEXT;
      case Bool(b) => text := if b then TRUE_TEXT else FALSE_TEXT;
      case Int(i) => text := IntValueToString(i);
      case UInt(u) => text := UIntValueToString(u);
      case Real(digits) => text := digits;
      case Str(s) => text := ValueToQuotedStringN(s);
    }
  }

  class FastWriter {
    const yaml: bool
    var document: bytes

    constructor (yaml: bool)
      ensures this.yaml == yaml
    {
      this.yaml := yaml;
      document := [];
    }

    /** write: the token texts of the value one after the other, and a line end. */
    method Write(root: Value) returns (text: bytes)
      modifies this
      ensures text == Spell(Tokens(root), yaml) + [NEWLINE]
    {
      document := [];
      WriteValue(root);
      assert [] + Spell(Tokens(root), yaml) == Spell(Tokens(root), yaml);
      document := document + [NEWLINE];
      text := document;
    }

    method WriteValue(value: Value)
      modifies this
      ensures document == old(document) + Spell(Tokens(value), yaml)
      decreases value, 1
    {
      match value {
        case Arr(items) => WriteItems(value, items);
        case Obj(members) => WriteMembers(value, members);
        case _ =>
          var text := ScalarText(value);
          PlainToken(Tokens(value)[0], false);
          PlainToken(Tokens(value)[0], yaml);
          document := document + text;
      }
    }

    /** document_ += text, where start + Spell(done) has been written so far and text is the next token. */
    method Put(text: bytes, ghost l: Lexeme, ghost start: bytes, ghost done: seq<Lexeme>)
      requires document == start + Spell(done, yaml) && text == TokenText(l, yaml)
      modifies this
      ensures document == start + Spell(done + [l], yaml)
    {
      document := document + text;
      SpellMore(done, l, yaml);
      Associate(start, Spell(done, yaml), text);
    }

    method PutValue(value: Value, ghost start: bytes, ghost done: seq<Lexeme>)
      requires document == start + Spell(done, yaml)
      modifies this
      ensures document == start + Spell(done + Tokens(value), yaml)
      decreases value, 2
    {
      WriteValue(value);
      SpellAppend(done, Tokens(value), yaml);
      Associate(start, Spell(done, yaml), Spell(Tokens(value), yaml));
    }

    method WriteItems(value: Value, items: seq<Value>)
      requires value == Arr(items)
      modifies this
      ensures document == old(document) + Spell(Tokens(value), yaml)
      decreases value, 0
    {
      hide Tokens, ItemsFrom, Spell;
      ghost var start := document;
      NothingSpelled(start, yaml);
      // the tokens written so far
      ghost var done := [Punctuation(LEFT_BRACKET)];
      Put([LEFT_BRACKET], done[0], start, []);
      assert [] + done == done;
      ArrayTokens(items);
      for index := 0 to |items|
        invariant document == start + Spell(done, yaml)
        invariant done + ItemsFrom(items, index) == [Punctuation(LEFT_BRACKET)] + ItemTokens(items)
      {
        ItemsFromSplit(items, index);
        if index > 0 {
          Put([COMMA], Punctuation(COMMA), start, done);
          done := done + [Punctuation(COMMA)];
        }
        PutValue(items[index], start, done);
        done := done + Tokens(items[index]);
      }
      NothingLeft(items, []);
      assert done == [Punctuation(LEFT_BRACKET)] + ItemTokens(items);
      Put([RIGHT_BRACKET], Punctuation(RIGHT_BRACKET), start, done);
    }

    method WriteMembers(value: Value, members: seq<Member>)
      requires value == Obj(members)
      modifies this
      ensures document == old(document) + Spell(Tokens(value), yaml)
      decreases value, 0
    {
      hide Tokens, MembersFrom, MemberTokens, Quoted, Spell;
      ghost var start := document;
      NothingSpelled(start, yaml);
      ghost var done := [Punctuation(LEFT_BRACE)];
      Put([LEFT_BRACE], done[0], start, []);
      assert [] + done == done;
      ObjectTokens(members);
      for index := 0 to |members|
        invariant document == start + Spell(done, yaml)
        invariant done + MembersFrom(members, index) == [Punctuation(LEFT_BRACE)] + MemberTokens(members)
      {
        MembersFromSplit(members, index);
        if index > 0 {
          Put([COMMA], Punctuation(COMMA), start, done);
          done := done + [Punctuation(COMMA)];
        }
        var name := ValueToQuotedStringN(members[index].name);
        Put(name, StringLexeme(members[index].name), start, done);
        done := done + [StringLexeme(members[index].name)];
        Put(if yaml then [COLON, SPACE] else [COLON], Punctuation(COLON), start, done);
        done := done + [Punctuation(COLON)];
        PutValue(members[index].value, start, done);
        done := done + Tokens(members[index].value);
      }
      NothingLeft([], members);
      assert done == [Punctuation(LEFT_BRACE)] + MemberTokens(members);
      Put([RIGHT_BRACE], Punctuation(RIGHT_BRACE), start, done);
    }
  }

  lemma NothingSpelled(start: bytes, yaml: bool)
    ensures start == start + Spell([], yaml)
  {
  }

  lemma SpellMore(done: seq<Lexeme>, l: Lexeme, yaml: bool)
    ensures Spell(done + [l], yaml) == Spell(done, yaml) + TokenText(l, yaml)
  {
    SpellAppend(done, [l], yaml);
    PlainToken(l, yaml);
  }

  lemma ArrayTokens(items: seq<Value>)
    ensures Tokens(Arr(items)) == [Punctuation(LEFT_BRACKET)] + ItemTokens(items) + [Punctuation(RIGHT_BRACKET)]
    ensures ItemsFrom(items, 0) == ItemTokens(items)
  {
  }

  lemma ObjectTokens(members: seq<Member>)
    ensures Tokens(Obj(members)) == [Punctuation(LEFT_BRACE)] + MemberTokens(members) + [Punctuation(RIGHT_BRACE)]
    ensures MembersFrom(members, 0) == MemberTokens(members)
  {
  }

  lemma NothingLeft(items: seq<Value>, members: seq<Member>)
    ensures ItemsFrom(items, |items|) == [] && MembersFrom(members, |members|) == []
  {
  }

  // what the loops still have to write when they are at index k
  function ItemsFrom(items: seq<Value>, k: nat): seq<Lexeme>
    requires k <= |items|
  {
    if k == 0 then ItemTokens(items) else ItemTail(items[k..])
  }

  function MembersFrom(members: seq<Member>, k: nat): seq<Lexeme>
    requires k <= |members|
  {
    if k == 0 then MemberTokens(members) else MemberTail(members[k..])
  }

  lemma ItemsFromSplit(items: seq<Value>, k: nat)
    requires k < |items|
    ensures ItemsFrom(items, k)
            == (if k > 0 then [Punctuation(COMMA)] else []) + (Tokens(items[k]) + ItemsFrom(items, k + 1))
  {
    hide Tokens, Punctuation;
    var rest := items[k..];
    assert rest[1..] == items[k + 1..] && items[0..] == items;
    assert ItemTokens(rest) == Tokens(items[k]) + ItemsFrom(items, k + 1);
    assert [] + ItemTokens(rest) == ItemTokens(rest);
  }

  lemma MembersFromSplit(members: seq<Member>, k: nat)
    requires k < |members|
    ensures MembersFrom(members, k)
            == (if k > 0 then [Punctuation(COMMA)] else [])
               + ([StringLexeme(members[k].name)]
                  + ([Punctuation(COLON)] + (Tokens(members[k].value) + MembersFrom(members, k + 1))))
  {
    hide Tokens, Punctuation, StringLexeme;
    var rest := members[k..];
    assert rest[1..] == members[k + 1..] && members[0..] == members;
    assert MemberTokens(rest) == [StringLexeme(members[k].name)]
                                 + ([Punctuation(COLON)] + (Tokens(members[k].value) + MembersFrom(members, k + 1)));
    assert [] + MemberTokens(rest) == MemberTokens(rest);
  }

  /** FastWriter's output renders exactly the tokens of the value. */
  lemma FastTextRenders(v: Value, yaml: bool)
    requires NoDoubles(v)
    ensures Renders(Spell(Tokens(v), yaml) + [NEWLINE], Tokens(v))
  {
    hide Tokens, Renders, Spell;
    TokensLegible(v);
    SpellRenders(Tokens(v), yaml);
    LineEndRenders();
    RendersAppend(Spell(Tokens(v), yaml), Tokens(v), [NEWLINE], []);
    assert Tokens(v) + [] == Tokens(v);
  }

  lemma LineEndRenders()
    ensures Renders([NEWLINE], [])
  {
    BlankIs([NEWLINE], 1);
  }
}
