/** Reading the tokens of a value gives the value back, exactly up to the nesting limit. */
module JsonRoundTrip {
  import opened Bytes
  import opened JsonNumbers
  import opened JsonStrings
  import opened JsonValues
  import opened JsonLexer
  import opened JsonParsing

  /** Says that reading ended well with value v and the given tokens still ahead. */
  ghost predicate ReadThrough(inp: Input, r: Outcome, v: Value, rest: seq<Lexeme>) {
    r.Done? && r.value == v && r.current <= |inp.doc| && Lex(inp.doc, r.current) == rest
  }

  ghost predicate ReadsAs(inp: Input, r: Outcome, fits: bool, v: Value, rest: seq<Lexeme>) {
    if fits then ReadThrough(inp, r, v, rest) else r.DepthExceeded?
  }

  lemma FirstToken(doc: bytes, pos: nat, l: Lexeme, rest: seq<Lexeme>)
    requires pos <= |doc| && Lex(doc, pos) == [l] + rest
    ensures var t := TokenAt(doc, pos);
            LexemeOf(doc, t) == l && Lex(doc, t.end) == rest
            && (!l.kind.CommentToken? ==> PastComments(doc, t) == t)
  {
    var t := TokenAt(doc, pos);
    assert Lex(doc, pos) == [LexemeOf(doc, t)] + Lex(doc, t.end);
    assert ([l] + rest)[0] == l;
    assert ([l] + rest)[1..] == rest;
    assert ([LexemeOf(doc, t)] + Lex(doc, t.end))[1..] == Lex(doc, t.end);
  }

  lemma NextIsFirst(inp: Input, pos: nat)
    requires pos <= |inp.doc| && !TokenAt(inp.doc, pos).kind.CommentToken?
    ensures NextToken(inp, pos) == TokenAt(inp.doc, pos)
  {
  }

  lemma SkippedAlready(doc: bytes, pos: nat)
    requires pos <= |doc|
    ensures SkipSpaces(doc, SkipSpaces(doc, pos)) == SkipSpaces(doc, pos)
  {
    var s := SkipSpaces(doc, pos);
    assert s < |doc| ==> doc[s] == doc[pos..][Blank(doc[pos..])];
    BlankIs(doc[s..], 0);
  }

  lemma OnlyBracketEndsArray(doc: bytes, start: nat)
    requires start < |doc|
    ensures doc[start] == RIGHT_BRACKET <==> TokenFrom(doc, start).kind.ArrayEnd?
  {
    hide StringEnd, CommentEnd, NumberEnd;
  }

  lemma SpacesDoNotMatter(doc: bytes, pos: nat)
    requires pos <= |doc|
    ensures var s := SkipSpaces(doc, pos);
            TokenAt(doc, s) == TokenAt(doc, pos) && Lex(doc, s) == Lex(doc, pos)
            && (PeekAt(doc, s) == RIGHT_BRACKET <==> TokenAt(doc, s).kind.ArrayEnd?)
  {
    hide SkipSpaces, TokenFrom;
    SkippedAlready(doc, pos);
    var s := SkipSpaces(doc, pos);
    if s < |doc| {
      OnlyBracketEndsArray(doc, s);
    }
  }

  lemma QuotedInside(s: bytes)
    ensures Quoted(s)[1..|Quoted(s)| - 1] == Escaped(s)
  {
  }

  lemma ReadsString(doc: bytes, t: Token, s: bytes)
    requires t.start + 2 <= t.end <= |doc| && doc[t.start..t.end] == Quoted(s)
    ensures Unescape(doc[t.start + 1..t.end - 1]) == Text(s)
  {
    hide Escaped, Unescape;
    QuotedInside(s);
    EscapedReadsBack(s);
    SliceOfSlice(doc, t.start, t.end, 1, t.end - t.start - 1);
  }

  // ---------- what reading gives ----------

  /** currentValue()[key] = v */
  function Stored(ms: seq<Member>, key: bytes, v: Value): seq<Member> {
    StoreAt(WithSlot(ms, key), LowerBound(ms, key), v)
  }

  /** What reading the tokens of a tree gives: integers in normal form, members in map order, and of members with the
      same name the last one. */
  function AsRead(v: Value): Value {
    match v
    case Arr(items) => Arr(ItemsAsRead(items))
    case Obj(members) => Obj(MembersAsRead([], members))
    case _ => Norm(v)
  }

  function ItemsAsRead(items: seq<Value>): seq<Value> {
    if items == [] then [] else [AsRead(items[0])] + ItemsAsRead(items[1..])
  }

  function MembersAsRead(done: seq<Member>, members: seq<Member>): seq<Member>
    decreases members
  {
    if members == [] then done
    else MembersAsRead(Stored(done, members[0].name, AsRead(members[0].value)), members[1..])
  }

  predicate IsScalar(v: Value) { !v.Arr? && !v.Obj? }

  /** The value a single token stands for, as readValue's switch decides. */
  lemma SwitchOnToken(inp: Input, pos: nat, depth: nat, old_: Value)
    requires pos <= |inp.doc| && depth < STACK_LIMIT && !TokenAt(inp.doc, pos).kind.CommentToken?
    ensures var t, r := TokenAt(inp.doc, pos), ReadValue(inp, pos, depth, old_);
            && (t.kind.NumberToken? ==> r == ReadNumber(inp, t, old_))
            && (t.kind.StringToken? ==> r == ReadText(inp.doc, t, old_))
            && (t.kind.TrueToken? ==> r == Done(t.end, Bool(true)))
            && (t.kind.FalseToken? ==> r == Done(t.end, Bool(false)))
            && (t.kind.NullToken? ==> r == Done(t.end, Null))
            && (t.kind.ObjectBegin? ==> r == ReadMembers(inp, t.end, depth + 1, [], []))
            && (t.kind.ArrayBegin? ==>
                  var s := SkipSpaces(inp.doc, t.end);
                  r == if PeekAt(inp.doc, s) == RIGHT_BRACKET then Done(TokenAt(inp.doc, s).end, Arr([]))
                       else ReadItems(inp, s, depth + 1, []))
  {
    hide TokenAt, Blank, ReadNumber, ReadText, ReadMembers, ReadItems;
    NextIsFirst(inp, pos);
  }

  lemma ReadsScalar(inp: Input, pos: nat, depth: nat, old_: Value, v: Value, rest: seq<Lexeme>)
    requires pos <= |inp.doc| && NoDoubles(v) && IsScalar(v) && Lex(inp.doc, pos) == Tokens(v) + rest
    ensures ReadsAs(inp, ReadValue(inp, pos, depth, old_), depth + 1 <= STACK_LIMIT, AsRead(v), rest)
  {
    hide TokenAt, Lex, Blank, ReadMembers, ReadItems, Unescape, Quoted, NumberMeaning, SignedText;
    FirstToken(inp.doc, pos, Tokens(v)[0], rest);
    var t := TokenAt(inp.doc, pos);
    if depth < STACK_LIMIT {
      SwitchOnToken(inp, pos, depth, old_);
    }
    match v
    case Int(i) => PrintedIntegerReadsBack(i);
    case UInt(u) => PrintedIntegerReadsBack(u);
    case Str(s) => ReadsString(inp.doc, t, s);
    case _ =>
  }

  lemma FirstKind(v: Value)
    requires NoDoubles(v)
    ensures Tokens(v) != [] && !Tokens(v)[0].kind.ArrayEnd?
  {
  }

  /** Reading the tokens of v gives AsRead(v) when the nesting fits, and the depth error when it does not. */
  lemma {:induction false} ReadsValue(inp: Input, pos: nat, depth: nat, old_: Value, v: Value, rest: seq<Lexeme>)
    requires pos <= |inp.doc| && NoDoubles(v) && Lex(inp.doc, pos) == Tokens(v) + rest
    ensures ReadsAs(inp, ReadValue(inp, pos, depth, old_), depth + Depth(v) <= STACK_LIMIT, AsRead(v), rest)
    decreases v, 2
  {
    if IsScalar(v) {
      ReadsScalar(inp, pos, depth, old_, v, rest);
    } else if depth < STACK_LIMIT {
      if v.Arr? {
        ReadsArray(inp, pos, depth, old_, v, rest);
      } else {
        ReadsObject(inp, pos, depth, old_, v, rest);
      }
    }
  }

  lemma {:induction false} ReadsArray(inp: Input, pos: nat, depth: nat, old_: Value, v: Value, rest: seq<Lexeme>)
    requires pos <= |inp.doc| && NoDoubles(v) && v.Arr? && depth < STACK_LIMIT && Lex(inp.doc, pos) == Tokens(v) + rest
    ensures ReadsAs(inp, ReadValue(inp, pos, depth, old_), depth + Depth(v) <= STACK_LIMIT, AsRead(v), rest)
    decreases v, 1
  {
    hide ReadItems, ReadValue, TokenAt, Lex, Blank, ItemsAsRead;
    var close := Punctuation(RIGHT_BRACKET);
    Wrapped(Punctuation(LEFT_BRACKET), ItemTokens(v.items), close, rest);
    FirstToken(inp.doc, pos, Punctuation(LEFT_BRACKET), ItemTokens(v.items) + ([close] + rest));
    SwitchOnToken(inp, pos, depth, old_);
    var p := TokenAt(inp.doc, pos).end;
    SpacesDoNotMatter(inp.doc, p);
    var s := SkipSpaces(inp.doc, p);
    if v.items == [] {
      assert ItemTokens([]) + ([close] + rest) == [close] + rest;
      FirstToken(inp.doc, s, close, rest);
      assert ItemsAsRead([]) == [] by { NoItems(); }
    } else {
      FirstKind(v.items[0]);
      FirstToken(inp.doc, s, Tokens(v.items[0])[0], (ItemTokens(v.items) + ([close] + rest))[1..]);
      ReadsItems(inp, s, depth + 1, [], v.items, rest);
      assert [] + ItemsAsRead(v.items) == ItemsAsRead(v.items);
    }
  }

  lemma ItemStep(inp: Input, pos: nat, depth: nat, acc: seq<Value>)
    requires pos <= |inp.doc|
    ensures var first, r := ReadValue(inp, pos, depth, Null), ReadItems(inp, pos, depth, acc);
            && (first.DepthExceeded? ==> r.DepthExceeded?)
            && (first.Done? ==>
                  var t := TokenAt(inp.doc, first.current);
                  && (t.kind.ArrayEnd? ==> r == Done(t.end, Arr(acc + [first.value])))
                  && (t.kind.ArraySeparator? ==> r == ReadItems(inp, t.end, depth, acc + [first.value])))
  {
    hide ReadValue, TokenAt;
  }

  lemma ItemTokensSplit(items: seq<Value>, rest: seq<Lexeme>)
    requires items != []
    ensures ItemTokens(items) + rest == Tokens(items[0]) + (ItemTail(items[1..]) + rest)
    ensures |items| > 1 ==> ItemTail(items[1..]) + rest == [Punctuation(COMMA)] + (ItemTokens(items[1..]) + rest)
  {
    hide Tokens;
    var tail := items[1..];
    Associate(Tokens(items[0]), ItemTail(tail), rest);
    if tail != [] {
      Associate([Punctuation(COMMA)], ItemTokens(tail), rest);
    }
  }

  lemma {:induction false} ReadsItems(inp: Input, pos: nat, depth: nat,
                                      acc: seq<Value>, items: seq<Value>, rest: seq<Lexeme>)
    requires pos <= |inp.doc| && items != [] && forall i :: 0 <= i < |items| ==> NoDoubles(items[i])
    requires Lex(inp.doc, pos) == ItemTokens(items) + ([Punctuation(RIGHT_BRACKET)] + rest)
    ensures ReadsAs(inp, ReadItems(inp, pos, depth, acc), depth + ItemsDepth(items) <= STACK_LIMIT,
                    Arr(acc + ItemsAsRead(items)), rest)
    decreases items, 0
  {
    hide ReadValue, ReadItems, TokenAt, Lex, Tokens, ItemTokens, ItemTail, ItemsAsRead, NoDoubles, AsRead;
    var tail, on := items[1..], [Punctuation(RIGHT_BRACKET)] + rest;
    ItemTokensSplit(items, on);
    ReadsValue(inp, pos, depth, Null, items[0], ItemTail(tail) + on);
    ItemStep(inp, pos, depth, acc);
    ItemsAsReadSplit(acc, items);
    var first := ReadValue(inp, pos, depth, Null);
    if first.Done? {
      if tail == [] {
        EmptyTails(on);
        FirstToken(inp.doc, first.current, Punctuation(RIGHT_BRACKET), rest);
      } else {
        FirstToken(inp.doc, first.current, Punctuation(COMMA), ItemTokens(tail) + on);
        ReadsItems(inp, TokenAt(inp.doc, first.current).end, depth, acc + [first.value], tail, rest);
      }
    }
  }

  lemma ItemsAsReadSplit(acc: seq<Value>, items: seq<Value>)
    requires items != []
    ensures acc + ItemsAsRead(items) == (acc + [AsRead(items[0])]) + ItemsAsRead(items[1..])
    ensures |items| == 1 ==> acc + ItemsAsRead(items) == acc + [AsRead(items[0])]
  {
    Associate(acc, [AsRead(items[0])], ItemsAsRead(items[1..]));
  }

  lemma EmptyTails(on: seq<Lexeme>)
    ensures ItemTail([]) + on == on && MemberTail([]) + on == on
  {
  }

  lemma {:induction false} ReadsObject(inp: Input, pos: nat, depth: nat, old_: Value, v: Value, rest: seq<Lexeme>)
    requires pos <= |inp.doc| && NoDoubles(v) && v.Obj? && depth < STACK_LIMIT && Lex(inp.doc, pos) == Tokens(v) + rest
    ensures ReadsAs(inp, ReadValue(inp, pos, depth, old_), depth + Depth(v) <= STACK_LIMIT, AsRead(v), rest)
    decreases v, 1
  {
    hide TokenAt, Lex, ReadMembers, ReadValue, Blank, MemberTokens, MembersAsRead, Punctuation;
    var close := Punctuation(RIGHT_BRACE);
    BraceKinds();
    Wrapped(Punctuation(LEFT_BRACE), MemberTokens(v.members), close, rest);
    FirstToken(inp.doc, pos, Punctuation(LEFT_BRACE), MemberTokens(v.members) + ([close] + rest));
    SwitchOnToken(inp, pos, depth, old_);
    var p := TokenAt(inp.doc, pos).end;
    if v.members == [] {
      NoMembers([close] + rest);
      FirstToken(inp.doc, p, close, rest);
      EmptyObject(inp, p, depth + 1);
    } else {
      ReadsMembers(inp, p, depth + 1, [], [], v.members, rest);
    }
  }

  lemma NoItems()
    ensures ItemsAsRead([]) == []
  {
  }

  lemma BraceKinds()
    ensures Punctuation(LEFT_BRACE).kind == ObjectBegin && Punctuation(RIGHT_BRACE).kind == ObjectEnd
  {
  }

  lemma NoMembers(on: seq<Lexeme>)
    ensures MemberTokens([]) + on == on && MembersAsRead([], []) == []
  {
  }

  lemma EmptyObject(inp: Input, pos: nat, depth: nat)
    requires pos <= |inp.doc| && TokenAt(inp.doc, pos).kind.ObjectEnd?
    ensures ReadMembers(inp, pos, depth, [], []) == Done(TokenAt(inp.doc, pos).end, Obj([]))
  {
  }

  lemma MemberNameThenColon(inp: Input, pos: nat, depth: nat, done: seq<Member>, name: bytes, key: bytes)
    requires pos <= |inp.doc|
    requires var t := TokenAt(inp.doc, pos);
             t.kind.StringToken? && Unescape(inp.doc[t.start + 1..t.end - 1]) == Text(key)
             && TokenAt(inp.doc, t.end).kind.MemberSeparator?
    ensures ReadMembers(inp, pos, depth, done, name)
            == ReadMemberValue(inp, TokenAt(inp.doc, TokenAt(inp.doc, pos).end).end, depth,
                               WithSlot(done, key), LowerBound(done, key))
  {
    hide TokenAt, Unescape, ReadMemberValue, WithSlot, LowerBound;
  }

  lemma {:induction false} ReadsMembers(inp: Input, pos: nat, depth: nat, done: seq<Member>, name: bytes,
                                        ms: seq<Member>, rest: seq<Lexeme>)
    requires pos <= |inp.doc| && ms != [] && forall i :: 0 <= i < |ms| ==> NoDoubles(ms[i].value)
    requires Lex(inp.doc, pos) == MemberTokens(ms) + ([Punctuation(RIGHT_BRACE)] + rest)
    ensures ReadsAs(inp, ReadMembers(inp, pos, depth, done, name), depth + MembersDepth(ms) <= STACK_LIMIT,
                    Obj(MembersAsRead(done, ms)), rest)
    decreases ms, 1
  {
    hide TokenAt, Lex, ReadMembers, ReadMemberValue, Unescape, Quoted;
    hide LowerBound, WithSlot, Tokens, MemberTokens, MemberTail;
    var key, on := ms[0].name, [Punctuation(RIGHT_BRACE)] + rest;
    var valueOn := Tokens(ms[0].value) + (MemberTail(ms[1..]) + on);
    MemberTokensSplit(ms, on);
    FirstToken(inp.doc, pos, StringLexeme(key), [Punctuation(COLON)] + valueOn);
    var t := TokenAt(inp.doc, pos);
    ReadsString(inp.doc, t, key);
    FirstToken(inp.doc, t.end, Punctuation(COLON), valueOn);
    MemberNameThenColon(inp, pos, depth, done, name, key);
    ReadsMemberValue(inp, TokenAt(inp.doc, t.end).end, depth, done, ms, rest);
  }

  lemma MemberTokensSplit(ms: seq<Member>, rest: seq<Lexeme>)
    requires ms != []
    ensures MemberTokens(ms) + rest
            == [StringLexeme(ms[0].name)]
               + ([Punctuation(COLON)] + (Tokens(ms[0].value) + (MemberTail(ms[1..]) + rest)))
    ensures |ms| > 1 ==> MemberTail(ms[1..]) + rest == [Punctuation(COMMA)] + (MemberTokens(ms[1..]) + rest)
  {
    hide Tokens, StringLexeme, Punctuation;
    var tail, value := ms[1..], Tokens(ms[0].value);
    var key, colon := [StringLexeme(ms[0].name)], [Punctuation(COLON)];
    Associate(value, MemberTail(tail), rest);
    Associate(colon, value + MemberTail(tail), rest);
    Associate(key, colon + (value + MemberTail(tail)), rest);
    if tail != [] {
      Associate([Punctuation(COMMA)], MemberTokens(tail), rest);
    }
  }

  lemma MemberValueStep(inp: Input, pos: nat, depth: nat, ms: seq<Member>, i: nat)
    requires pos <= |inp.doc| && i < |ms|
    ensures var first, r := ReadValue(inp, pos, depth, ms[i].value), ReadMemberValue(inp, pos, depth, ms, i);
            && (first.DepthExceeded? ==> r.DepthExceeded?)
            && (first.Done? ==>
                  var t := TokenAt(inp.doc, first.current);
                  && (t.kind.ObjectEnd? ==> r == Done(t.end, Obj(StoreAt(ms, i, first.value))))
                  && (t.kind.ArraySeparator? ==>
                        r == ReadMembers(inp, t.end, depth, StoreAt(ms, i, first.value), ms[i].name)))
  {
    hide ReadValue, ReadMembers, TokenAt;
  }

  lemma {:induction false} ReadsMemberValue(inp: Input, pos: nat, depth: nat, done: seq<Member>,
                                            ms: seq<Member>, rest: seq<Lexeme>)
    requires pos <= |inp.doc| && ms != [] && forall i :: 0 <= i < |ms| ==> NoDoubles(ms[i].value)
    requires Lex(inp.doc, pos) == Tokens(ms[0].value) + (MemberTail(ms[1..]) + ([Punctuation(RIGHT_BRACE)] + rest))
    ensures ReadsAs(inp, ReadMemberValue(inp, pos, depth, WithSlot(done, ms[0].name), LowerBound(done, ms[0].name)),
                    depth + MembersDepth(ms) <= STACK_LIMIT, Obj(MembersAsRead(done, ms)), rest)
    decreases ms, 0
  {
    hide TokenAt, Lex, ReadMembers, ReadMemberValue, ReadValue, Tokens, MemberTokens, MemberTail, Quoted;
    hide MembersAsRead, AsRead, NoDoubles, LowerBound, WithSlot;
    var tail, key, on := ms[1..], ms[0].name, [Punctuation(RIGHT_BRACE)] + rest;
    var slots, i := WithSlot(done, key), LowerBound(done, key);
    ReadsValue(inp, pos, depth, slots[i].value, ms[0].value, MemberTail(tail) + on);
    MemberTokensSplit(ms, on);
    MemberValueStep(inp, pos, depth, slots, i);
    MembersAsReadStep(done, ms);
    var first := ReadValue(inp, pos, depth, slots[i].value);
    if first.Done? {
      var stored := StoreAt(slots, i, first.value);
      assert stored == Stored(done, key, AsRead(ms[0].value));
      if tail == [] {
        EmptyTails(on);
        FirstToken(inp.doc, first.current, Punctuation(RIGHT_BRACE), rest);
      } else {
        FirstToken(inp.doc, first.current, Punctuation(COMMA), MemberTokens(tail) + on);
        ReadsMembers(inp, TokenAt(inp.doc, first.current).end, depth, stored, key, tail, rest);
      }
    }
  }

  lemma MembersAsReadStep(done: seq<Member>, ms: seq<Member>)
    requires ms != []
    ensures var stored := Stored(done, ms[0].name, AsRead(ms[0].value));
            && MembersAsRead(done, ms) == MembersAsRead(stored, ms[1..])
            && (|ms| == 1 ==> MembersAsRead(done, ms) == stored)
  {
    hide AsRead, Stored;
  }

  // ---------- members in map order ----------

  ghost predicate AllBefore(done: seq<Member>, ms: seq<Member>) {
    forall i, j :: 0 <= i < |done| && 0 <= j < |ms| ==> KeyLess(done[i].name, ms[j].name)
  }

  /** A member whose name comes after all present ones is appended. */
  lemma SlotAtEnd(done: seq<Member>, key: bytes)
    requires forall i :: 0 <= i < |done| ==> KeyLess(done[i].name, key)
    ensures LowerBound(done, key) == |done| && WithSlot(done, key) == done + [Member(key, Null)]
  {
    assert LowerBound(done, key) == |done|;
  }

  lemma StoredAtEnd(done: seq<Member>, key: bytes, v: Value)
    requires forall i :: 0 <= i < |done| ==> KeyLess(done[i].name, key)
    ensures Stored(done, key, v) == done + [Member(key, v)]
  {
    hide LowerBound, WithSlot;
    SlotAtEnd(done, key);
  }

  /** A tree with its members in map order is read as its normal form. */
  lemma {:induction false} AsReadIsNorm(v: Value)
    requires Wf(v)
    ensures AsRead(v) == Norm(v)
    decreases v, 1
  {
    match v
    case Arr(items) => ItemsAsReadAreNorm(items);
    case Obj(members) =>
      MembersAsReadAreNorm([], members);
      assert [] + NormMembers(members) == NormMembers(members);
    case _ =>
  }

  lemma {:induction false} ItemsAsReadAreNorm(items: seq<Value>)
    requires forall i :: 0 <= i < |items| ==> Wf(items[i])
    ensures ItemsAsRead(items) == NormItems(items)
    decreases items, 0
  {
    if items != [] {
      AsReadIsNorm(items[0]);
      ItemsAsReadAreNorm(items[1..]);
    }
  }

  lemma {:induction false} MembersAsReadAreNorm(done: seq<Member>, ms: seq<Member>)
    requires SortedMembers(ms) && AllBefore(done, ms) && forall i :: 0 <= i < |ms| ==> Wf(ms[i].value)
    ensures MembersAsRead(done, ms) == done + NormMembers(ms)
    decreases ms, 0
  {
    hide KeyLess, Stored, Norm, AsRead, Wf;
    if ms == [] {
      assert done + [] == done;
    } else {
      AsReadIsNorm(ms[0].value);
      StoredAtEnd(done, ms[0].name, Norm(ms[0].value));
      var stored := done + [Member(ms[0].name, Norm(ms[0].value))];
      assert AllBefore(stored, ms[1..]);
      MembersAsReadAreNorm(stored, ms[1..]);
      Associate(done, [Member(ms[0].name, Norm(ms[0].value))], NormMembers(ms[1..]));
    }
  }

  // ---------- whole documents ----------

  /** What parse reports of a document that reads as the given root, nested to the given depth. */
  function Reported(inp: Input, depth: nat, root: Value): Parsed {
    if depth > STACK_LIMIT then Threw
    else if inp.strictRoot && !IsContainer(root) then Parsed(false, root, [RootError(inp)])
    else Parsed(true, root, [])
  }

  /** What parse makes of any document whose tokens spell a tree with its members in map order. */
  function Expected(inp: Input, v: Value): Parsed { Reported(inp, Depth(v), Norm(v)) }

  /** Any text that renders the tokens of a tree, with members in any order and names repeated, parses to what the map
      makes of them, if and only if the tree is nested at most 1000 deep. */
  lemma ParseOfAnyRendering(inp: Input, v: Value, root: Value)
    requires NoDoubles(v) && Renders(inp.doc, Tokens(v))
    ensures Parse(inp, root) == Reported(inp, Depth(v), AsRead(v))
  {
    hide ReadValue, Lex, Renders, Tokens, AsRead;
    TokensLegible(v);
    assert inp.doc[0..] == inp.doc;
    LexOfRendering(inp.doc, 0, Tokens(v));
    assert Tokens(v) + [] == Tokens(v);
    ReadsValue(inp, 0, 0, root, v, []);
  }

  /** Any text that renders the tokens of v parses to v in normal form, if and only if v is nested at most 1000 deep. */
  lemma ParseOfRendering(inp: Input, v: Value, root: Value)
    requires Wf(v) && Renders(inp.doc, Tokens(v))
    ensures Parse(inp, root) == Expected(inp, v)
  {
    WfHasNoDoubles(v);
    ParseOfAnyRendering(inp, v, root);
    AsReadIsNorm(v);
  }
}
