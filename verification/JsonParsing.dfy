/** What Reader::parse computes, as functions of the document and the cursor. */
module JsonParsing {
  import opened Bytes
  import opened JsonNumbers
  import opened JsonStrings
  import opened JsonValues
  import opened JsonLexer

  const STACK_LIMIT: nat := 1000

  datatype ErrorKind =
    | ValueExpected
    | MissingColon
    | MissingMemberSeparator
    | MissingMemberName
    | MissingItemSeparator
    | NotANumber
    | BadString(cause: StringError)
    | RootNotContainer

  datatype ErrorInfo = ErrorInfo(kind: ErrorKind, token: Token)

  /** A document with the features it is read under; readsAsDouble stands for istringstream >> double. */
  datatype Input = Input(doc: bytes, allowComments: bool, strictRoot: bool, readsAsDouble: bytes -> bool)

  /** How readValue ends, where it leaves the cursor and what it leaves in the current value. */
  datatype Outcome =
    | Done(current: nat, value: Value)
    | Failed(current: nat, value: Value, error: ErrorInfo)
    | DepthExceeded

  /** skipCommentTokens */
  function NextToken(inp: Input, pos: nat): (t: Token)
    requires pos <= |inp.doc|
    ensures pos <= t.start <= t.end <= |inp.doc|
    ensures pos < t.end || t.kind.EndOfStream?
    ensures t.kind.StringToken? ==> t.start + 2 <= t.end
    ensures t.kind.NumberToken? ==> t.start < t.end
    decreases |inp.doc| - pos
  {
    var t := TokenAt(inp.doc, pos);
    if inp.allowComments && t.kind.CommentToken? then NextToken(inp, t.end) else t
  }

  /** The loops of readObject and readArray that read on while the token is a comment. */
  function PastComments(doc: bytes, t: Token): (r: Token)
    requires t.start <= t.end <= |doc|
    requires t.kind.StringToken? ==> t.start + 2 <= t.end
    ensures t.start <= r.start <= r.end <= |doc| && t.end <= r.end
    ensures r.kind.StringToken? ==> r.start + 2 <= r.end
    ensures r == t || t.end <= r.start
    decreases |doc| - t.end
  {
    if t.kind.CommentToken? then
      var u := TokenAt(doc, t.end);
      if u.kind.CommentToken? then PastComments(doc, u) else u
    else t
  }

  /** recoverFromError: where the search for the closing token ends. */
  function Recover(doc: bytes, pos: nat, skipUntil: Kind): (r: nat)
    requires pos <= |doc|
    ensures pos <= r <= |doc|
    decreases |doc| - pos
  {
    var t := TokenAt(doc, pos);
    if t.kind == skipUntil || t.kind.EndOfStream? then t.end else Recover(doc, t.end, skipUntil)
  }

  // ---------- std::map access ----------

  /** lower_bound */
  function LowerBound(ms: seq<Member>, key: bytes): (i: nat)
    ensures i <= |ms|
    ensures forall j :: 0 <= j < i ==> KeyLess(ms[j].name, key)
    ensures i < |ms| ==> !KeyLess(ms[i].name, key)
  {
    if ms == [] || !KeyLess(ms[0].name, key) then 0 else 1 + LowerBound(ms[1..], key)
  }

  /** resolveReference: the members once currentValue()[key] exists; a new one is null. */
  function WithSlot(ms: seq<Member>, key: bytes): (r: seq<Member>)
    ensures LowerBound(ms, key) < |r| && r[LowerBound(ms, key)].name == key
  {
    var i := LowerBound(ms, key);
    if i < |ms| && ms[i].name == key then ms else ms[..i] + [Member(key, Null)] + ms[i..]
  }

  function StoreAt(ms: seq<Member>, i: nat, v: Value): seq<Member>
    requires i < |ms|
  {
    ms[i := Member(ms[i].name, v)]
  }

  // ---------- the recursive descent ----------

  ghost predicate Within(r: Outcome, pos: nat, doc: bytes) {
    (r.Done? ==> pos < r.current <= |doc|) && (r.Failed? ==> pos <= r.current <= |doc|)
  }

  function ReadNumber(inp: Input, t: Token, old_: Value): Outcome
    requires t.start < t.end <= |inp.doc|
  {
    var text := inp.doc[t.start..t.end];
    if NumberMeaning(text) != NotInteger then Done(t.end, FromNumber(NumberMeaning(text)))
    else if inp.readsAsDouble(text) then Done(t.end, Real(text))
    else Failed(t.end, old_, ErrorInfo(NotANumber, t))
  }

  function ReadText(doc: bytes, t: Token, old_: Value): Outcome
    requires t.start + 2 <= t.end <= |doc|
  {
    match Unescape(doc[t.start + 1..t.end - 1])
    case Text(s) => Done(t.end, Str(s))
    case Malformed(cause) => Failed(t.end, old_, ErrorInfo(BadString(cause), t))
  }

  /** readValue at nesting depth `depth`, into a value that holds old_. */
  function ReadValue(inp: Input, pos: nat, depth: nat, old_: Value): (r: Outcome)
    requires pos <= |inp.doc|
    ensures Within(r, pos, inp.doc)
    decreases |inp.doc| - pos, 0
  {
    if depth >= STACK_LIMIT then DepthExceeded
    else
      var t := NextToken(inp, pos);
      match t.kind
      case ObjectBegin => ReadMembers(inp, t.end, depth + 1, [], [])
      case ArrayBegin =>
        var s := SkipSpaces(inp.doc, t.end);
        if PeekAt(inp.doc, s) == RIGHT_BRACKET then Done(TokenAt(inp.doc, s).end, Arr([]))
        else ReadItems(inp, s, depth + 1, [])
      case NumberToken => ReadNumber(inp, t, old_)
      case StringToken => ReadText(inp.doc, t, old_)
      case TrueToken => Done(t.end, Bool(true))
      case FalseToken => Done(t.end, Bool(false))
      case NullToken => Done(t.end, Null)
      case _ => Failed(t.end, old_, ErrorInfo(ValueExpected, t))
  }

  /** The loop of readArray, with acc read so far. */
  function ReadItems(inp: Input, pos: nat, depth: nat, acc: seq<Value>): (r: Outcome)
    requires pos <= |inp.doc|
    ensures Within(r, pos, inp.doc)
    decreases |inp.doc| - pos, 1
  {
    match ReadValue(inp, pos, depth, Null)
    case DepthExceeded => DepthExceeded
    case Failed(c, v, error) => Failed(Recover(inp.doc, c, ArrayEnd), Arr(acc + [v]), error)
    case Done(c, v) =>
      var t := PastComments(inp.doc, TokenAt(inp.doc, c));
      if t.kind.ArrayEnd? then Done(t.end, Arr(acc + [v]))
      else if t.kind.ArraySeparator? then ReadItems(inp, t.end, depth, acc + [v])
      else Failed(Recover(inp.doc, t.end, ArrayEnd), Arr(acc + [v]), ErrorInfo(MissingItemSeparator, t))
  }

  /** The loop of readObject, with the members read so far and the last member name. */
  function ReadMembers(inp: Input, pos: nat, depth: nat, ms: seq<Member>, name: bytes): (r: Outcome)
    requires pos <= |inp.doc|
    ensures Within(r, pos, inp.doc)
    decreases |inp.doc| - pos, 1
  {
    var t := PastComments(inp.doc, TokenAt(inp.doc, pos));
    if t.kind.ObjectEnd? && name == [] then Done(t.end, Obj(ms))
    else if !t.kind.StringToken? then
      Failed(Recover(inp.doc, t.end, ObjectEnd), Obj(ms), ErrorInfo(MissingMemberName, t))
    else
      match Unescape(inp.doc[t.start + 1..t.end - 1])
      case Malformed(cause) => Failed(Recover(inp.doc, t.end, ObjectEnd), Obj(ms), ErrorInfo(BadString(cause), t))
      case Text(key) =>
        var colon := TokenAt(inp.doc, t.end);
        if !colon.kind.MemberSeparator? then
          Failed(Recover(inp.doc, colon.end, ObjectEnd), Obj(ms), ErrorInfo(MissingColon, colon))
        else ReadMemberValue(inp, colon.end, depth, WithSlot(ms, key), LowerBound(ms, key))
  }

  /** The second half of the loop body: the value of member i and what follows it. */
  function ReadMemberValue(inp: Input, pos: nat, depth: nat, ms: seq<Member>, i: nat): (r: Outcome)
    requires pos <= |inp.doc| && i < |ms|
    ensures Within(r, pos, inp.doc)
    decreases |inp.doc| - pos, 1
  {
    match ReadValue(inp, pos, depth, ms[i].value)
    case DepthExceeded => DepthExceeded
    case Failed(c, v, error) => Failed(Recover(inp.doc, c, ObjectEnd), Obj(StoreAt(ms, i, v)), error)
    case Done(c, v) =>
      var comma := TokenAt(inp.doc, c);
      if !(comma.kind.ObjectEnd? || comma.kind.ArraySeparator? || comma.kind.CommentToken?) then
        Failed(Recover(inp.doc, comma.end, ObjectEnd), Obj(StoreAt(ms, i, v)), ErrorInfo(MissingMemberSeparator, comma))
      else
        var last := PastComments(inp.doc, comma);
        if last.kind.ObjectEnd? then Done(last.end, Obj(StoreAt(ms, i, v)))
        else ReadMembers(inp, last.end, depth, StoreAt(ms, i, v), ms[i].name)
  }

  /** What parse reports: success, the root and the errors; or the exception of the stack limit. */
  datatype Parsed = Parsed(ok: bool, root: Value, errors: seq<ErrorInfo>) | Threw

  predicate IsContainer(v: Value) { v.Arr? || v.Obj? }

  function Parse(inp: Input, root: Value): Parsed {
    match ReadValue(inp, 0, 0, root)
    case DepthExceeded => Threw
    case Done(_, v) =>
      if inp.strictRoot && !IsContainer(v) then Parsed(false, v, [RootError(inp)]) else Parsed(true, v, [])
    case Failed(_, v, error) =>
      Parsed(false, v, if inp.strictRoot && !IsContainer(v) then [error, RootError(inp)] else [error])
  }

  function RootError(inp: Input): ErrorInfo {
    ErrorInfo(RootNotContainer, Token(ErrorToken, 0, |inp.doc|))
  }
}
