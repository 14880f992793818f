/** Json::Reader: a cursor over the document, a stack of values under construction and a list of errors. */
module JsonReader {
  import opened Bytes
  import opened JsonValues
  import Numbers = JsonNumbers
  import Strings = JsonStrings
  import L = JsonLexer
  import P = JsonParsing

  class Reader {
    const allowComments: bool
    const strictRoot: bool
    // stands for istringstream >> double
    const readsAsDouble: bytes -> bool

    // the document with the features it is read under; begin_ and end_ are 0 and its length
    var inp: P.Input
    var current: nat
    // the top is the value being filled; it is written back into its parent when popped
    var nodes: seq<Value>
    var errors: seq<P.ErrorInfo>
    // stackDepth_g of the source, a global there
    var stackDepth: nat

    constructor (allowComments: bool, strictRoot: bool, readsAsDouble: bytes -> bool)
      ensures this.allowComments == allowComments && this.strictRoot == strictRoot
      ensures this.readsAsDouble == readsAsDouble
      ensures InBounds() && nodes == [] && errors == []
    {
      this.allowComments := allowComments;
      this.strictRoot := strictRoot;
      this.readsAsDouble := readsAsDouble;
      inp := P.Input([], allowComments, strictRoot, readsAsDouble);
      current := 0;
      nodes := [];
      errors := [];
      stackDepth := 0;
    }

    predicate InBounds()
      reads this
    {
      current <= |inp.doc|
    }

    // ---------- lexing ----------

    method GetNextChar() returns (c: byte)
      requires InBounds()
      modifies this`current
      ensures c == L.PeekAt(inp.doc, old(current)) && current == L.Next(inp.doc, old(current))
    {
      if current == |inp.doc| {
        return NUL;
      }
      c := inp.doc[current];
      current := current + 1;
    }

    method SkipSpaces()
      requires InBounds()
      modifies this`current
      ensures current == L.SkipSpaces(inp.doc, old(current))
    {
      while current != |inp.doc|
        invariant InBounds()
        invariant L.SkipSpaces(inp.doc, current) == L.SkipSpaces(inp.doc, old(current))
        decreases |inp.doc| - current
      {
        assert inp.doc[current..][1..] == inp.doc[current + 1..];
        var c := inp.doc[current];
        if c == SPACE || c == TAB || c == RETURN || c == NEWLINE {
          current := current + 1;
        } else {
          break;
        }
      }
    }

    method Match(pattern: bytes) returns (ok: bool)
      requires InBounds()
      modifies this`current
      ensures ok <==> L.Matches(inp.doc, old(current), pattern)
      ensures current == if ok then old(current) + |pattern| else old(current)
    {
      if |inp.doc| - current < |pattern| {
        return false;
      }
      var index := |pattern|;
      while index > 0
        invariant 0 <= index <= |pattern|
        invariant inp.doc[current + index..current + |pattern|] == pattern[index..]
      {
        index := index - 1;
        if inp.doc[current + index] != pattern[index] {
          assert inp.doc[current..][index] != pattern[index];
          return false;
        }
      }
      assert inp.doc[current..][..|pattern|] == pattern;
      current := current + |pattern|;
      ok := true;
    }

    method ReadString() returns (ok: bool)
      requires InBounds()
      modifies this`current
      ensures (current, ok) == L.StringEnd(inp.doc, old(current))
    {
      var c: byte := NUL;
      while current != |inp.doc|
        invariant InBounds() && c != QUOTE
        invariant L.StringEnd(inp.doc, current) == L.StringEnd(inp.doc, old(current))
        decreases |inp.doc| - current
      {
        c := GetNextChar();
        if c == BACKSLASH {
          var _ := GetNextChar();
        } else if c == QUOTE {
          break;
        }
      }
      ok := c == QUOTE;
    }

    /** The cursor lags one behind the look-ahead pointer p, whose character is c (0 at the end). */
    ghost predicate LookAhead(p: nat, c: byte)
      reads this
    {
      InBounds() && c == L.PeekAt(inp.doc, current) && p == L.Next(inp.doc, current)
    }

    /** One of the three digit loops of readNumber. */
    method SkipDigits(p0: nat, c0: byte) returns (p: nat, c: byte)
      requires LookAhead(p0, c0)
      modifies this`current
      ensures LookAhead(p, c) && current == L.DigitsEnd(inp.doc, old(current))
    {
      p, c := p0, c0;
      while c >= ZERO && c <= NINE
        invariant LookAhead(p, c)
        invariant L.DigitsEnd(inp.doc, current) == L.DigitsEnd(inp.doc, old(current))
        decreases |inp.doc| - current
      {
        current := p;
        c, p := L.PeekAt(inp.doc, p), L.Next(inp.doc, p);
      }
    }

    method Advance(p0: nat) returns (p: nat, c: byte)
      requires p0 <= |inp.doc|
      modifies this`current
      ensures current == p0 && LookAhead(p, c)
    {
      current := p0;
      c, p := L.PeekAt(inp.doc, p0), L.Next(inp.doc, p0);
    }

    method SkipFraction(p0: nat, c0: byte) returns (p: nat, c: byte)
      requires LookAhead(p0, c0)
      modifies this`current
      ensures LookAhead(p, c) && current == L.FractionEnd(inp.doc, old(current))
    {
      p, c := p0, c0;
      if c == DOT {
        p, c := Advance(p);
        p, c := SkipDigits(p, c);
      }
    }

    method SkipExponent(p0: nat, c0: byte)
      requires LookAhead(p0, c0)
      modifies this`current
      ensures current == L.ExponentEnd(inp.doc, old(current))
    {
      var p, c := p0, c0;
      if c == LOWER_E || c == UPPER_E {
        p, c := Advance(p);
        if c == PLUS || c == MINUS {
          p, c := Advance(p);
        }
        p, c := SkipDigits(p, c);
      }
    }

    method ReadNumber()
      requires InBounds()
      modifies this`current
      ensures current == L.NumberEnd(inp.doc, old(current))
    {
      // the source enters the first loop with a stopgap digit, which loads the look-ahead
      var p, c := Advance(current);
      p, c := SkipDigits(p, c);
      p, c := SkipFraction(p, c);
      SkipExponent(p, c);
    }

    method ReadCStyleComment() returns (ok: bool)
      requires InBounds()
      modifies this`current
      ensures var s := L.StarSlash(inp.doc, old(current));
              current == L.Next(inp.doc, s) && ok == (L.PeekAt(inp.doc, s) == SLASH)
    {
      while current != |inp.doc|
        invariant InBounds()
        invariant L.StarSlash(inp.doc, current) == L.StarSlash(inp.doc, old(current))
        decreases |inp.doc| - current
      {
        ghost var before := current;
        var c := GetNextChar();
        if c == STAR && L.PeekAt(inp.doc, current) == SLASH {
          assert L.StarSlash(inp.doc, before) == current;
          break;
        }
      }
      assert current == L.StarSlash(inp.doc, old(current));
      var last := GetNextChar();
      ok := last == SLASH;
    }

    method ReadCppStyleComment() returns (ok: bool)
      requires InBounds()
      modifies this`current
      ensures ok && current == L.LineEnd(inp.doc, old(current))
    {
      while current != |inp.doc|
        invariant InBounds()
        invariant L.LineEnd(inp.doc, current) == L.LineEnd(inp.doc, old(current))
        decreases |inp.doc| - current
      {
        ghost var before := current;
        var c := GetNextChar();
        if c == NEWLINE {
          assert L.LineEnd(inp.doc, before) == current;
          break;
        }
        if c == RETURN {
          if current != |inp.doc| && inp.doc[current] == NEWLINE {
            var _ := GetNextChar();
          }
          assert L.LineEnd(inp.doc, before) == current;
          break;
        }
      }
      ok := true;
    }

    method ReadComment() returns (ok: bool)
      requires InBounds()
      modifies this`current
      ensures (current, ok) == L.CommentEnd(inp.doc, old(current))
    {
      var c := GetNextChar();
      ok := false;
      if c == STAR {
        ok := ReadCStyleComment();
      } else if c == SLASH {
        ok := ReadCppStyleComment();
      }
    }

    /** The true, false and null branches of readToken. */
    method ReadLiteral(rest: bytes, kind: Kind, start: nat) returns (found: Kind)
      requires current == start + 1 <= |inp.doc|
      modifies this`current
      ensures L.Token(found, start, current) == L.Literal(inp.doc, start, rest, kind)
    {
      var ok := Match(rest);
      found := if ok then kind else ErrorToken;
    }

    method ReadToken() returns (token: L.Token)
      requires InBounds()
      modifies this`current
      ensures token == L.TokenAt(inp.doc, old(current)) && current == token.end
    {
      SkipSpaces();
      var start := current;
      var c := GetNextChar();
      if start == |inp.doc| {
        return L.Token(EndOfStream, start, current);
      }
      var kind;
      if c in PUNCTUATION {
        kind := Punctuation(c).kind;
      } else if c == QUOTE {
        var ok := ReadString();
        kind := if ok then StringToken else ErrorToken;
      } else if c == SLASH {
        var ok := ReadComment();
        kind := if ok then CommentToken else ErrorToken;
      } else if IsDigit(c) || c == MINUS {
        ReadNumber();
        kind := NumberToken;
      } else if c == LOWER_T {
        kind := ReadLiteral(L.TRUE_REST, TrueToken, start);
      } else if c == LOWER_F {
        kind := ReadLiteral(L.FALSE_REST, FalseToken, start);
      } else if c == LOWER_N {
        kind := ReadLiteral(L.NULL_REST, NullToken, start);
      } else {
        kind := if c == NUL then EndOfStream else ErrorToken;
      }
      token := L.Token(kind, start, current);
    }

    method SkipCommentTokens() returns (token: L.Token)
      requires InBounds()
      modifies this`current
      ensures token == P.NextToken(inp, old(current)) && current == token.end
    {
      token := ReadToken();
      if inp.allowComments {
        while token.kind.CommentToken?
          invariant InBounds() && current == token.end && token.start <= token.end
          invariant P.NextToken(inp, old(current))
                    == if token.kind.CommentToken? then P.NextToken(inp, current) else token
          decreases token.kind.CommentToken?, |inp.doc| - current
        {
          token := ReadToken();
        }
      }
    }

    /** The comment-skipping loops of readObject and readArray, entered with the token just read. */
    method SkipComments(first: L.Token) returns (token: L.Token)
      requires InBounds() && current == first.end && first.start <= first.end
      requires first.kind.StringToken? ==> first.start + 2 <= first.end
      modifies this`current
      ensures token == P.PastComments(inp.doc, first) && current == token.end
    {
      token := first;
      while token.kind.CommentToken?
        invariant InBounds() && current == token.end && token.start <= token.end
        invariant token.kind.StringToken? ==> token.start + 2 <= token.end
        invariant P.PastComments(inp.doc, token) == P.PastComments(inp.doc, first)
        decreases token.kind.CommentToken?, |inp.doc| - current
      {
        token := ReadToken();
      }
    }

    // ---------- errors ----------

    method RecoverFromError(skipUntil: Kind)
      requires InBounds()
      modifies this`current
      ensures current == P.Recover(inp.doc, old(current), skipUntil)
    {
      // readToken records no errors, so resizing errors_ back changes nothing
      var more := true;
      while more
        invariant InBounds()
        invariant P.Recover(inp.doc, old(current), skipUntil)
                  == if more then P.Recover(inp.doc, current, skipUntil) else current
        decreases more, |inp.doc| - current
      {
        var skip := ReadToken();
        more := !(skip.kind == skipUntil || skip.kind.EndOfStream?);
      }
    }

    method AddErrorAndRecover(kind: P.ErrorKind, token: L.Token, skipUntil: Kind)
      requires InBounds()
      modifies this`current, this`errors
      ensures errors == old(errors) + [P.ErrorInfo(kind, token)]
      ensures current == P.Recover(inp.doc, old(current), skipUntil)
    {
      errors := errors + [P.ErrorInfo(kind, token)];
      RecoverFromError(skipUntil);
    }

    // ---------- the recursive descent ----------

    function Top(): Value
      requires nodes != []
      reads this
    {
      nodes[|nodes| - 1]
    }

    method SetTop(v: Value)
      requires nodes != []
      modifies this`nodes
      ensures nodes == old(nodes)[..|old(nodes)| - 1] + [v]
    {
      nodes := nodes[..|nodes| - 1] + [v];
    }

    /** Says that the reader has gone through r: cursor, value on top, errors and depth are as r demands. */
    ghost predicate Shows(r: P.Outcome, ok: bool, threw: bool,
                          below: seq<Value>, errors0: seq<P.ErrorInfo>, depth0: nat)
      reads this
    {
      match r
      case DepthExceeded => threw
      case Done(c, v) =>
        !threw && ok && current == c && nodes == below + [v] && errors == errors0 && stackDepth == depth0
      case Failed(c, v, error) =>
        !threw && !ok && current == c && nodes == below + [v] && errors == errors0 + [error]
    }

    method DecodeNumber(token: L.Token) returns (ok: bool)
      requires nodes != [] && token.start < token.end == current <= |inp.doc|
      modifies this`nodes, this`errors
      ensures Shows(P.ReadNumber(inp, token, old(Top())), ok, false,
                    old(nodes)[..|old(nodes)| - 1], old(errors), stackDepth)
    {
      var text := inp.doc[token.start..token.end];
      var decoded := Numbers.DecodeNumber(text);
      if decoded != Numbers.NotInteger {
        SetTop(FromNumber(decoded));
        ok := true;
      } else if inp.readsAsDouble(text) {
        SetTop(Real(text));
        ok := true;
      } else {
        errors := errors + [P.ErrorInfo(P.NotANumber, token)];
        ok := false;
        assert nodes == nodes[..|nodes| - 1] + [Top()];
      }
    }

    method DecodeString(token: L.Token) returns (ok: bool)
      requires nodes != [] && token.start + 2 <= token.end == current <= |inp.doc|
      modifies this`nodes, this`errors
      ensures Shows(P.ReadText(inp.doc, token, old(Top())), ok, false,
                    old(nodes)[..|old(nodes)| - 1], old(errors), stackDepth)
    {
      hide Strings.Unescape;
      var decoded := Strings.DecodeString(inp.doc, token.start, token.end);
      if decoded.Text? {
        SetTop(Str(decoded.text));
        ok := true;
      } else {
        errors := errors + [P.ErrorInfo(P.BadString(decoded.error), token)];
        ok := false;
        assert nodes == nodes[..|nodes| - 1] + [Top()];
      }
    }

    method ReadValue() returns (ok: bool, threw: bool)
      requires InBounds() && nodes != []
      modifies this
      ensures inp == old(inp) && InBounds()
      ensures Shows(P.ReadValue(inp, old(current), old(stackDepth), old(Top())), ok, threw,
                    old(nodes)[..|old(nodes)| - 1], old(errors), old(stackDepth))
      decreases |inp.doc| - current, 0
    {
      hide L.TokenAt, L.SkipSpaces, P.ReadMembers, P.ReadItems, P.ReadNumber, P.ReadText, P.NextToken;
      if stackDepth >= P.STACK_LIMIT {
        return false, true;
      }
      stackDepth := stackDepth + 1;
      var token := SkipCommentTokens();
      threw := false;
      match token.kind {
        case ObjectBegin => ok, threw := ReadObject();
        case ArrayBegin => ok, threw := ReadArray();
        case NumberToken => ok := DecodeNumber(token);
        case StringToken => ok := DecodeString(token);
        case TrueToken => SetTop(Bool(true)); ok := true;
        case FalseToken => SetTop(Bool(false)); ok := true;
        case NullToken => SetTop(Null); ok := true;
        case _ =>
          errors := errors + [P.ErrorInfo(P.ValueExpected, token)];
          assert nodes == nodes[..|nodes| - 1] + [Top()];
          return false, false;
      }
      if !threw && stackDepth > 0 {
        stackDepth := stackDepth - 1;
      }
    }

    /** Pushes a child, reads a value into it, pops it. */
    method ReadChild(child: Value) returns (ok: bool, threw: bool, read: Value)
      requires InBounds() && nodes != []
      modifies this
      ensures inp == old(inp) && InBounds()
      ensures match P.ReadValue(inp, old(current), old(stackDepth), child)
              case DepthExceeded => threw
              case Done(c, v) =>
                !threw && ok && current == c && read == v && nodes == old(nodes)
                && errors == old(errors) && stackDepth == old(stackDepth)
              case Failed(c, v, error) =>
                !threw && !ok && current == c && read == v && nodes == old(nodes) && errors == old(errors) + [error]
      decreases |inp.doc| - current, 1
    {
      nodes := nodes + [child];
      assert nodes[..|nodes| - 1] == old(nodes);
      ok, threw := ReadValue();
      read := child;
      if !threw {
        read := Top();
        nodes := nodes[..|nodes| - 1];
      }
    }

    method ReadArray() returns (ok: bool, threw: bool)
      requires InBounds() && nodes != []
      modifies this
      ensures inp == old(inp) && InBounds()
      ensures var s := L.SkipSpaces(inp.doc, old(current));
              var r := if L.PeekAt(inp.doc, s) == RIGHT_BRACKET then P.Done(L.TokenAt(inp.doc, s).end, Arr([]))
                       else P.ReadItems(inp, s, old(stackDepth), []);
              Shows(r, ok, threw, old(nodes)[..|old(nodes)| - 1], old(errors), old(stackDepth))
      decreases |inp.doc| - current, 3
    {
      hide L.TokenAt, L.SkipSpaces, P.PastComments, P.Recover, P.ReadValue;
      ghost var below := nodes[..|nodes| - 1];
      SetTop(Arr([]));
      SkipSpaces();
      if L.PeekAt(inp.doc, current) == RIGHT_BRACKET {
        var _ := ReadToken();
        return true, false;
      }
      var items: seq<Value> := [];
      ghost var start, depth := current, stackDepth;
      while true
        invariant inp == old(inp) && InBounds() && start <= current
        invariant nodes == below + [Arr(items)] && errors == old(errors) && stackDepth == depth
        invariant P.ReadItems(inp, current, depth, items) == P.ReadItems(inp, start, depth, [])
        decreases |inp.doc| - current
      {
        // currentValue()[index++] creates a null element
        SetTop(Arr(items + [Null]));
        var read;
        ok, threw, read := ReadChild(Null);
        if threw {
          return;
        }
        items := items + [read];
        SetTop(Arr(items));
        if !ok {
          RecoverFromError(ArrayEnd);
          return;
        }
        var token := ReadToken();
        token := SkipComments(token);
        if !(token.kind.ArraySeparator? || token.kind.ArrayEnd?) {
          AddErrorAndRecover(P.MissingItemSeparator, token, ArrayEnd);
          return false, false;
        }
        if token.kind.ArrayEnd? {
          return true, false;
        }
      }
    }

    method ReadObject() returns (ok: bool, threw: bool)
      requires InBounds() && nodes != []
      modifies this
      ensures inp == old(inp) && InBounds()
      ensures Shows(P.ReadMembers(inp, old(current), old(stackDepth), [], []), ok, threw,
                    old(nodes)[..|old(nodes)| - 1], old(errors), old(stackDepth))
      decreases |inp.doc| - current, 3
    {
      hide L.TokenAt, P.PastComments, P.Recover, P.ReadMemberValue, P.WithSlot, P.LowerBound, Strings.Unescape;
      ghost var below := nodes[..|nodes| - 1];
      SetTop(Obj([]));
      var members: seq<Member> := [];
      var name: bytes := [];
      ghost var start, depth := current, stackDepth;
      while true
        invariant inp == old(inp) && InBounds() && start <= current
        invariant nodes == below + [Obj(members)] && errors == old(errors) && stackDepth == depth
        invariant P.ReadMembers(inp, current, depth, members, name) == P.ReadMembers(inp, start, depth, [], [])
        decreases |inp.doc| - current
      {
        var token := ReadToken();
        token := SkipComments(token);
        if token.kind.ObjectEnd? && name == [] {
          return true, false;
        }
        if !token.kind.StringToken? {
          AddErrorAndRecover(P.MissingMemberName, token, ObjectEnd);
          return false, false;
        }
        var decoded := Strings.DecodeString(inp.doc, token.start, token.end);
        if decoded.Malformed? {
          AddErrorAndRecover(P.BadString(decoded.error), token, ObjectEnd);
          return false, false;
        }
        name := decoded.text;
        var colon := ReadToken();
        if !colon.kind.MemberSeparator? {
          AddErrorAndRecover(P.MissingColon, colon, ObjectEnd);
          return false, false;
        }
        var done;
        ok, threw, done, members := ReadMember(members, name);
        if done {
          return;
        }
      }
    }

    /** The second half of readObject's loop body, from currentValue()[name] on. */
    method ReadMember(before: seq<Member>, name: bytes)
      returns (ok: bool, threw: bool, done: bool, members: seq<Member>)
      requires InBounds() && nodes != [] && Top() == Obj(before)
      modifies this
      ensures inp == old(inp) && InBounds()
      ensures var r := P.ReadMemberValue(
                inp, old(current), old(stackDepth), P.WithSlot(before, name), P.LowerBound(before, name));
              var below := old(nodes)[..|old(nodes)| - 1];
              if done then Shows(r, ok, threw, below, old(errors), old(stackDepth))
              else old(current) < current && r == P.ReadMembers(inp, current, old(stackDepth), members, name)
                   && nodes == below + [Obj(members)] && errors == old(errors) && stackDepth == old(stackDepth)
      decreases |inp.doc| - current, 2
    {
      hide L.TokenAt, P.PastComments, P.Recover, P.ReadValue, P.ReadMembers, P.WithSlot, P.LowerBound;
      var slots, i := P.WithSlot(before, name), P.LowerBound(before, name);
      SetTop(Obj(slots));
      var read;
      ok, threw, read := ReadChild(slots[i].value);
      done, members := true, slots;
      if threw {
        return;
      }
      members := P.StoreAt(slots, i, read);
      SetTop(Obj(members));
      if !ok {
        RecoverFromError(ObjectEnd);
        return;
      }
      var comma := ReadToken();
      if !(comma.kind.ObjectEnd? || comma.kind.ArraySeparator? || comma.kind.CommentToken?) {
        AddErrorAndRecover(P.MissingMemberSeparator, comma, ObjectEnd);
        ok := false;
        return;
      }
      comma := SkipComments(comma);
      done := comma.kind.ObjectEnd?;
    }

    /** parse: everything is reset first, so earlier calls do not matter. */
    method Parse(document: bytes, root0: Value) returns (r: P.Parsed)
      modifies this
      ensures inp == P.Input(document, allowComments, strictRoot, readsAsDouble)
      ensures r == P.Parse(inp, root0)
      ensures r.Parsed? ==> InBounds() && |nodes| == 1 && (r.ok <==> errors == []) && r.errors == errors
    {
      hide P.ReadValue, P.NextToken;
      inp := P.Input(document, allowComments, strictRoot, readsAsDouble);
      current := 0;
      errors := [];
      nodes := [root0];
      stackDepth := 0;
      var successful, threw := ReadValue();
      if threw {
        return P.Threw;
      }
      var token := SkipCommentTokens();
      var root := Top();
      if strictRoot {
        if !P.IsContainer(root) {
          errors := errors + [P.RootError(inp)];
          return P.Parsed(false, root, errors);
        }
      }
      r := P.Parsed(successful, root, errors);
    }
  }
}
