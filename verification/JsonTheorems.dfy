/** The two printers against the reader. */
module JsonTheorems {
  import opened Bytes
  import opened JsonValues
  import opened JsonParsing
  import opened JsonRoundTrip
  import opened JsonStyledWriter
  import JsonLexer
  import JsonNumbers
  import JsonReader
  import JsonStrings
  import JsonWriters

  // ---------- FastWriter ----------

  /** FastWriter's document parses back to the normalized tree, if and only if it is nested at most 1000 deep. */
  lemma FastRoundTrip(v: Value, yaml: bool, inp: Input, root: Value)
    requires Wf(v) && inp.doc == Spell(Tokens(v), yaml) + [NEWLINE]
    ensures Parse(inp, root) == Expected(inp, v)
  {
    WfHasNoDoubles(v);
    JsonWriters.FastTextRenders(v, yaml);
    ParseOfRendering(inp, v, root);
  }

  /** The same through the objects: write with one, parse with the other, whatever either did before. */
  method WriteThenParse(v: Value, writer: JsonWriters.FastWriter, reader: JsonReader.Reader, root: Value)
    returns (r: Parsed)
    requires Wf(v)
    modifies writer, reader
    ensures r == Expected(reader.inp, v)
    ensures Depth(v) > STACK_LIMIT ==> r == Threw
    ensures Depth(v) <= STACK_LIMIT && (IsContainer(v) || !reader.strictRoot) ==> r == Parsed(true, Norm(v), [])
  {
    var text := writer.Write(v);
    r := reader.Parse(text, root);
    FastRoundTrip(v, writer.yaml, reader.inp, root);
    assert IsContainer(v) <==> IsContainer(Norm(v));
  }

  // ---------- StyledWriter ----------

  predicate NulFree(v: Value) {
    match v
    case Arr(items) => NulFreeItems(items)
    case Obj(members) => NulFreeMembers(members)
    case _ => true
  }

  predicate NulFreeItems(items: seq<Value>) {
    items == [] || (NulFree(items[0]) && NulFreeItems(items[1..]))
  }

  predicate NulFreeMembers(members: seq<Member>) {
    members == [] || (NUL !in members[0].name && NulFree(members[0].value) && NulFreeMembers(members[1..]))
  }

  lemma CancelPrefix<T>(a: seq<T>, b: seq<T>, c: seq<T>, d: seq<T>)
    requires |a| == |c|
    ensures a + b == c + d <==> a == c && b == d
  {
    if a + b == c + d {
      assert a == (a + b)[..|a|] == (c + d)[..|c|] == c;
      assert b == (a + b)[|a|..] == (c + d)[|c|..] == d;
    }
  }

  lemma {:induction false} SameTokenCount(v: Value)
    ensures |StyledTokens(v)| == |Tokens(v)|
    decreases v, 2
  {
    match v
    case Arr(items) => SameItemCount(items);
    case Obj(members) => SameMemberCount(members);
    case _ =>
  }

  lemma {:induction false} SameItemCount(items: seq<Value>)
    ensures |ItemTokens(TruncatedItems(items))| == |ItemTokens(items)|
    decreases items, 0
  {
    if items != [] {
      SameTokenCount(items[0]);
      SameItemCount(items[1..]);
      assert TruncatedItems(items)[1..] == TruncatedItems(items[1..]);
    }
  }

  lemma {:induction false} SameMemberCount(members: seq<Member>)
    ensures |MemberTokens(TruncatedMembers(members))| == |MemberTokens(members)|
    decreases members, 0
  {
    if members != [] {
      SameTokenCount(members[0].value);
      SameMemberCount(members[1..]);
      assert TruncatedMembers(members)[1..] == TruncatedMembers(members[1..]);
    }
  }

  /** StyledWriter writes FastWriter's tokens exactly when no member name anywhere in the tree contains a NUL. */
  lemma {:induction false} SameTokensIffNulFree(v: Value)
    ensures StyledTokens(v) == Tokens(v) <==> NulFree(v)
    decreases v, 2
  {
    match v
    case Arr(items) =>
      SameItemsIffNulFree(items);
      SameItemCount(items);
      Unwrap(LEFT_BRACKET, ItemTokens(TruncatedItems(items)), ItemTokens(items), RIGHT_BRACKET);
    case Obj(members) =>
      SameMembersIffNulFree(members);
      SameMemberCount(members);
      Unwrap(LEFT_BRACE, MemberTokens(TruncatedMembers(members)), MemberTokens(members), RIGHT_BRACE);
    case _ =>
  }

  lemma Unwrap(open: byte, a: seq<Lexeme>, b: seq<Lexeme>, close: byte)
    requires |a| == |b|
    ensures [Punctuation(open)] + a + [Punctuation(close)] == [Punctuation(open)] + b + [Punctuation(close)] <==> a == b
  {
    CancelPrefix([Punctuation(open)] + a, [Punctuation(close)], [Punctuation(open)] + b, [Punctuation(close)]);
    CancelPrefix([Punctuation(open)], a, [Punctuation(open)], b);
  }

  lemma {:induction false} SameItemsIffNulFree(items: seq<Value>)
    ensures ItemTokens(TruncatedItems(items)) == ItemTokens(items) <==> NulFreeItems(items)
    decreases items, 0
  {
    if items != [] {
      var shown := TruncatedItems(items);
      assert shown[1..] == TruncatedItems(items[1..]);
      SameTokensIffNulFree(items[0]);
      SameItemsIffNulFree(items[1..]);
      SameTokenCount(items[0]);
      CancelPrefix(Tokens(shown[0]), ItemTail(shown[1..]), Tokens(items[0]), ItemTail(items[1..]));
      CancelPrefix([Punctuation(COMMA)], ItemTokens(shown[1..]), [Punctuation(COMMA)], ItemTokens(items[1..]));
    }
  }

  lemma NameTokenSame(name: bytes)
    ensures StringLexeme(JsonNumbers.CString(name)) == StringLexeme(name) <==> NUL !in name
  {
    JsonNumbers.CStringWhole(name);
    if JsonStrings.Quoted(JsonNumbers.CString(name)) == JsonStrings.Quoted(name) {
      JsonStrings.QuotedInjective(JsonNumbers.CString(name), name);
    }
  }

  lemma {:induction false} SameMembersIffNulFree(members: seq<Member>)
    ensures MemberTokens(TruncatedMembers(members)) == MemberTokens(members) <==> NulFreeMembers(members)
    decreases members, 0
  {
    if members != [] {
      hide Tokens, JsonStrings.Quoted;
      var shown := TruncatedMembers(members);
      var a, b := Tokens(shown[0].value), Tokens(members[0].value);
      assert shown[1..] == TruncatedMembers(members[1..]);
      SameTokensIffNulFree(members[0].value);
      SameMembersIffNulFree(members[1..]);
      SameTokenCount(members[0].value);
      NameTokenSame(members[0].name);
      CancelPrefix([Punctuation(COMMA)], MemberTokens(shown[1..]), [Punctuation(COMMA)], MemberTokens(members[1..]));
      CancelPrefix(a, MemberTail(shown[1..]), b, MemberTail(members[1..]));
      CancelPrefix([Punctuation(COLON)], a + MemberTail(shown[1..]),
                   [Punctuation(COLON)], b + MemberTail(members[1..]));
      CancelPrefix([StringLexeme(shown[0].name)], [Punctuation(COLON)] + (a + MemberTail(shown[1..])),
                   [StringLexeme(members[0].name)], [Punctuation(COLON)] + (b + MemberTail(members[1..])));
    }
  }

  /** The lexer cannot tell a styled document from a compact one, exactly when no member name contains a NUL. */
  lemma StyledLexesLikeFast(v: Value, styled: bytes, yaml: bool)
    requires NoDoubles(v) && Renders(styled, StyledTokens(v))
    ensures JsonLexer.Lex(styled, 0) == JsonLexer.Lex(Spell(Tokens(v), yaml) + [NEWLINE], 0) <==> NulFree(v)
  {
    var fast := Spell(Tokens(v), yaml) + [NEWLINE];
    JsonWriters.FastTextRenders(v, yaml);
    TokensLegible(v);
    TruncatedHasNoDoubles(v);
    TokensLegible(Truncated(v));
    assert styled[0..] == styled && fast[0..] == fast;
    JsonLexer.LexOfRendering(styled, 0, StyledTokens(v));
    JsonLexer.LexOfRendering(fast, 0, Tokens(v));
    SameTokensIffNulFree(v);
  }

  // ---------- what a styled document parses to ----------

  lemma {:induction false} TruncatedDepth(v: Value)
    ensures Depth(Truncated(v)) == Depth(v)
    decreases v, 1
  {
    match v
    case Arr(items) => TruncatedItemsDepth(items);
    case Obj(members) => TruncatedMembersDepth(members);
    case _ =>
  }

  lemma {:induction false} TruncatedItemsDepth(items: seq<Value>)
    ensures ItemsDepth(TruncatedItems(items)) == ItemsDepth(items)
    decreases items, 0
  {
    if items != [] {
      TruncatedDepth(items[0]);
      TruncatedItemsDepth(items[1..]);
      assert TruncatedItems(items)[1..] == TruncatedItems(items[1..]);
    }
  }

  lemma {:induction false} TruncatedMembersDepth(members: seq<Member>)
    ensures MembersDepth(TruncatedMembers(members)) == MembersDepth(members)
    decreases members, 0
  {
    if members != [] {
      TruncatedDepth(members[0].value);
      TruncatedMembersDepth(members[1..]);
      assert TruncatedMembers(members)[1..] == TruncatedMembers(members[1..]);
    }
  }

  /** The names as the map of an object holds them. */
  lemma {:induction false} NulFreeMembersAt(members: seq<Member>)
    ensures NulFreeMembers(members)
            <==>
            forall i :: 0 <= i < |members| ==> NUL !in members[i].name && NulFree(members[i].value)
  {
    hide NulFree;
    if members != [] {
      NulFreeMembersAt(members[1..]);
      assert forall i :: 1 <= i < |members| ==> members[i] == members[1..][i - 1];
    }
  }

  lemma {:induction false} NulFreeItemsAt(items: seq<Value>)
    ensures NulFreeItems(items) <==> forall i :: 0 <= i < |items| ==> NulFree(items[i])
  {
    hide NulFree;
    if items != [] {
      NulFreeItemsAt(items[1..]);
      assert forall i :: 1 <= i < |items| ==> items[i] == items[1..][i - 1];
    }
  }

  lemma StoredIsNulFree(ms: seq<Member>, key: bytes, v: Value)
    requires NulFreeMembers(ms) && NUL !in key && NulFree(v)
    ensures NulFreeMembers(Stored(ms, key, v))
  {
    hide NulFree, NulFreeMembers, LowerBound;
    NulFreeMembersAt(ms);
    NulFreeMembersAt(Stored(ms, key, v));
  }

  /** Reading brings no NUL into a member name. */
  lemma {:induction false} AsReadIsNulFree(v: Value)
    requires NulFree(v)
    ensures NulFree(AsRead(v))
    decreases v, 1
  {
    match v
    case Arr(items) => ItemsAsReadAreNulFree(items);
    case Obj(members) => MembersAsReadAreNulFree([], members);
    case _ =>
  }

  lemma {:induction false} ItemsAsReadAreNulFree(items: seq<Value>)
    requires NulFreeItems(items)
    ensures NulFreeItems(ItemsAsRead(items))
    decreases items, 0
  {
    if items != [] {
      AsReadIsNulFree(items[0]);
      ItemsAsReadAreNulFree(items[1..]);
    }
  }

  lemma {:induction false} MembersAsReadAreNulFree(done: seq<Member>, members: seq<Member>)
    requires NulFreeMembers(done) && NulFreeMembers(members)
    ensures NulFreeMembers(MembersAsRead(done, members))
    decreases members, 0
  {
    hide Stored, NulFree;
    if members != [] {
      AsReadIsNulFree(members[0].value);
      StoredIsNulFree(done, members[0].name, AsRead(members[0].value));
      MembersAsReadAreNulFree(Stored(done, members[0].name, AsRead(members[0].value)), members[1..]);
    }
  }

  lemma {:induction false} TruncatedIsNulFree(v: Value)
    ensures NulFree(Truncated(v))
  {
    match v
    case Arr(items) =>
      forall i | 0 <= i < |items|
        ensures NulFree(TruncatedItems(items)[i])
      {
        TruncatedIsNulFree(items[i]);
      }
      NulFreeItemsAt(TruncatedItems(items));
    case Obj(members) =>
      var shown := TruncatedMembers(members);
      forall i | 0 <= i < |members|
        ensures NUL !in shown[i].name && NulFree(shown[i].value)
      {
        TruncatedIsNulFree(members[i].value);
      }
      NulFreeMembersAt(shown);
    case _ =>
  }

  lemma {:induction false} NormKeepsNames(v: Value)
    ensures NulFree(Norm(v)) <==> NulFree(v)
    decreases v, 1
  {
    match v
    case Arr(items) => NormItemsKeepNames(items);
    case Obj(members) => NormMembersKeepNames(members);
    case _ =>
  }

  lemma {:induction false} NormItemsKeepNames(items: seq<Value>)
    ensures NulFreeItems(NormItems(items)) <==> NulFreeItems(items)
    decreases items, 0
  {
    if items != [] {
      NormKeepsNames(items[0]);
      NormItemsKeepNames(items[1..]);
    }
  }

  lemma {:induction false} NormMembersKeepNames(members: seq<Member>)
    ensures NulFreeMembers(NormMembers(members)) <==> NulFreeMembers(members)
    decreases members, 0
  {
    if members != [] {
      NormKeepsNames(members[0].value);
      NormMembersKeepNames(members[1..]);
    }
  }

  /** A styled document parses to the tree with its names cut at a NUL, of names that become the same the last one. */
  lemma StyledParses(v: Value, inp: Input, root: Value)
    requires NoDoubles(v) && Renders(inp.doc, StyledTokens(v))
    ensures Parse(inp, root) == Reported(inp, Depth(v), AsRead(Truncated(v)))
  {
    hide Parse, Renders, Truncated, AsRead;
    TruncatedHasNoDoubles(v);
    TruncatedDepth(v);
    ParseOfAnyRendering(inp, Truncated(v), root);
  }

  /** What the cuts leave is the tree in normal form, if and only if no member name contains a NUL. */
  lemma CutsChangeTheValue(v: Value)
    requires Wf(v)
    ensures AsRead(Truncated(v)) == Norm(v) <==> NulFree(v)
  {
    if NulFree(v) {
      NothingTruncated(v);
      AsReadIsNorm(v);
    } else {
      TruncatedIsNulFree(v);
      AsReadIsNulFree(Truncated(v));
      NormKeepsNames(v);
    }
  }

  lemma {:induction false} NothingTruncated(v: Value)
    requires NulFree(v)
    ensures Truncated(v) == v
  {
    match v
    case Arr(items) =>
      NulFreeItemsAt(items);
      forall i | 0 <= i < |items|
        ensures TruncatedItems(items)[i] == items[i]
      {
        NothingTruncated(items[i]);
      }
      assert TruncatedItems(items) == items;
    case Obj(members) =>
      NulFreeMembersAt(members);
      forall i | 0 <= i < |members|
        ensures TruncatedMembers(members)[i] == members[i]
      {
        JsonNumbers.CStringWhole(members[i].name);
        NothingTruncated(members[i].value);
      }
      assert TruncatedMembers(members) == members;
    case _ =>
  }

  /** A styled document parses like the compact one, if and only if no member name contains a NUL or the tree is nested
      too deep for either. */
  lemma StyledRoundTrip(v: Value, inp: Input, root: Value)
    requires Wf(v) && Renders(inp.doc, StyledTokens(v))
    ensures Parse(inp, root) == Reported(inp, Depth(v), AsRead(Truncated(v)))
    ensures Parse(inp, root) == Expected(inp, v) <==> NulFree(v) || Depth(v) > STACK_LIMIT
  {
    hide Parse, Renders, Truncated, AsRead, Norm;
    WfHasNoDoubles(v);
    StyledParses(v, inp, root);
    CutsChangeTheValue(v);
  }

  /** The same through the objects. */
  method StyleThenParse(v: Value, writer: StyledWriter, reader: JsonReader.Reader, root: Value) returns (r: Parsed)
    requires Wf(v)
    modifies writer, reader
    ensures r == Reported(reader.inp, Depth(v), AsRead(Truncated(v)))
    ensures r == Expected(reader.inp, v) <==> NulFree(v) || Depth(v) > STACK_LIMIT
  {
    WfHasNoDoubles(v);
    var text := writer.Write(v);
    r := reader.Parse(text, root);
    StyledRoundTrip(v, reader.inp, root);
  }
}
