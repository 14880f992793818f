/** The object that readObject builds is a map: every name once, in order, with the value of its last member. */
module JsonObjects {
  import opened Bytes
  import opened Sequences
  import opened JsonValues
  import opened JsonParsing
  import opened JsonRoundTrip

  /** The value of the last member with that name. */
  function Find(ms: seq<Member>, key: bytes): Option<Value> {
    if ms == [] then None
    else if ms[|ms| - 1].name == key then Some(ms[|ms| - 1].value)
    else Find(ms[..|ms| - 1], key)
  }

  /** memcmp on the common length, then the length. */
  predicate DiffersAt(a: bytes, b: bytes, n: nat) {
    && n <= |a| && n < |b| && a[..n] == b[..n]
    && (n == |a| || a[n] < b[n])
  }

  // ---------- the order of the names ----------

  lemma {:induction false} LessDiffers(a: bytes, b: bytes) returns (n: nat)
    requires KeyLess(a, b)
    ensures DiffersAt(a, b, n)
  {
    if a == [] || a[0] < b[0] {
      n := 0;
    } else {
      var m := LessDiffers(a[1..], b[1..]);
      n := m + 1;
      assert a[..n] == [a[0]] + a[1..][..m] && b[..n] == [b[0]] + b[1..][..m];
    }
  }

  lemma {:induction false} DiffersLess(a: bytes, b: bytes, n: nat)
    requires DiffersAt(a, b, n)
    ensures KeyLess(a, b)
    decreases n
  {
    if n > 0 {
      assert a[0] == a[..n][0] == b[..n][0] == b[0];
      assert a[1..][..n - 1] == a[..n][1..] == b[..n][1..] == b[1..][..n - 1];
      DiffersLess(a[1..], b[1..], n - 1);
    }
  }

  /** CZString's order compares with memcmp on the common length, and then by length. */
  lemma KeyLessIs(a: bytes, b: bytes)
    ensures KeyLess(a, b) <==> exists n :: DiffersAt(a, b, n)
  {
    if KeyLess(a, b) {
      var n := LessDiffers(a, b);
    }
    if n :| DiffersAt(a, b, n) {
      DiffersLess(a, b, n);
    }
  }

  /** It is a strict total order. */
  lemma {:induction false} KeyLessIsTotal(a: bytes, b: bytes)
    ensures !(KeyLess(a, b) && KeyLess(b, a)) && !KeyLess(a, a)
    ensures a == b || KeyLess(a, b) || KeyLess(b, a)
  {
    if a != [] && b != [] {
      KeyLessIsTotal(a[1..], b[1..]);
      assert a == [a[0]] + a[1..] && b == [b[0]] + b[1..];
    } else if a != [] {
      KeyLessIsTotal(a[1..], []);
    }
  }

  lemma {:induction false} KeyLessIsTransitive(a: bytes, b: bytes, c: bytes)
    requires KeyLess(a, b) && KeyLess(b, c)
    ensures KeyLess(a, c)
  {
    if a != [] && a[0] == b[0] == c[0] {
      KeyLessIsTransitive(a[1..], b[1..], c[1..]);
    }
  }

  // ---------- one member ----------

  lemma {:induction false} FindAt(ms: seq<Member>, i: nat)
    requires i < |ms| && forall j :: i < j < |ms| ==> ms[j].name != ms[i].name
    ensures Find(ms, ms[i].name) == Some(ms[i].value)
  {
    if i < |ms| - 1 {
      FindAt(ms[..|ms| - 1], i);
    }
  }

  lemma {:induction false} FindNone(ms: seq<Member>, key: bytes)
    ensures Find(ms, key) == None <==> forall j :: 0 <= j < |ms| ==> ms[j].name != key
  {
    if ms != [] {
      FindNone(ms[..|ms| - 1], key);
    }
  }

  /** Names in order are different names. */
  lemma FindSorted(ms: seq<Member>, key: bytes)
    requires SortedMembers(ms)
    ensures forall i :: 0 <= i < |ms| && ms[i].name == key ==> Find(ms, key) == Some(ms[i].value)
    ensures (forall i :: 0 <= i < |ms| ==> ms[i].name != key) ==> Find(ms, key) == None
  {
    forall i | 0 <= i < |ms| && ms[i].name == key
      ensures Find(ms, key) == Some(ms[i].value)
    {
      forall j | i < j < |ms|
        ensures ms[j].name != ms[i].name
      {
        KeyLessIsTotal(ms[i].name, ms[j].name);
      }
      FindAt(ms, i);
    }
    FindNone(ms, key);
  }

  /** currentValue()[key] = v, with the place where it goes. */
  lemma StoredIs(ms: seq<Member>, key: bytes, v: Value) returns (i: nat, found: bool)
    requires SortedMembers(ms)
    ensures i <= |ms| && (found ==> i < |ms| && ms[i].name == key)
    ensures Stored(ms, key, v) == ms[..i] + [Member(key, v)] + ms[if found then i + 1 else i..]
    ensures forall j :: 0 <= j < i ==> KeyLess(ms[j].name, key)
    ensures forall j :: (if found then i + 1 else i) <= j < |ms| ==> KeyLess(key, ms[j].name)
  {
    hide KeyLess;
    i := LowerBound(ms, key);
    found := i < |ms| && ms[i].name == key;
    if i < |ms| {
      KeyLessIsTotal(ms[i].name, key);
    }
    forall j | i < j < |ms|
      ensures KeyLess(key, ms[j].name)
    {
      if !found {
        KeyLessIsTransitive(key, ms[i].name, ms[j].name);
      }
    }
  }

  lemma StoredIsSorted(ms: seq<Member>, key: bytes, v: Value)
    requires SortedMembers(ms)
    ensures SortedMembers(Stored(ms, key, v))
  {
    hide KeyLess, Stored;
    var i, found := StoredIs(ms, key, v);
    var after := ms[if found then i + 1 else i..];
    forall j, k | 0 <= j < i && 0 <= k < |after|
      ensures KeyLess(ms[j].name, after[k].name)
    {
      KeyLessIsTransitive(ms[j].name, key, after[k].name);
    }
  }

  lemma StoredFinds(ms: seq<Member>, key: bytes, v: Value, other: bytes)
    requires SortedMembers(ms)
    ensures Find(Stored(ms, key, v), other) == if other == key then Some(v) else Find(ms, other)
  {
    hide KeyLess, Stored, Find;
    StoredIsSorted(ms, key, v);
    var i, found := StoredIs(ms, key, v);
    var stored := Stored(ms, key, v);
    FindSorted(stored, other);
    FindSorted(ms, other);
    if other == key {
      assert stored[i] == Member(key, v);
    } else if j :| 0 <= j < |ms| && ms[j].name == other {
      var k := if j < i || found then j else j + 1;
      assert stored[k] == ms[j];
    } else {
      forall k | 0 <= k < |stored|
        ensures stored[k].name != other
      {
        assert k < i ==> stored[k] == ms[k];
        assert k > i ==> stored[k] == ms[if found then k else k - 1];
      }
    }
  }

  // ---------- all members ----------

  function Overridden(found: Option<Value>, later: Option<Value>): Option<Value> {
    if later.Some? then Some(AsRead(later.value)) else found
  }

  lemma {:induction false} FindFront(ms: seq<Member>, key: bytes)
    requires ms != []
    ensures Find(ms, key) ==
            if Find(ms[1..], key).Some? then Find(ms[1..], key)
            else if ms[0].name == key then Some(ms[0].value) else None
    decreases |ms|
  {
    if |ms| > 1 {
      FindFront(ms[..|ms| - 1], key);
      assert ms[..|ms| - 1][1..] == ms[1..][..|ms| - 2];
    }
  }

  lemma {:induction false} MembersFind(done: seq<Member>, ms: seq<Member>, key: bytes)
    requires SortedMembers(done)
    ensures SortedMembers(MembersAsRead(done, ms))
    ensures Find(MembersAsRead(done, ms), key) == Overridden(Find(done, key), Find(ms, key))
    decreases |ms|
  {
    hide SortedMembers, Stored, AsRead, Find;
    FindNone([], key);
    if ms != [] {
      var v := AsRead(ms[0].value);
      StoredIsSorted(done, ms[0].name, v);
      StoredFinds(done, ms[0].name, v, key);
      FindFront(ms, key);
      MembersFind(Stored(done, ms[0].name, v), ms[1..], key);
    }
  }

  /** The members of an object are read as a map: sorted by name and thus each name once, and a name has the value of
      the last member that was written with it, or no value when there was none. */
  lemma ObjectIsMap(ms: seq<Member>, key: bytes)
    ensures AsRead(Obj(ms)).Obj? && SortedMembers(AsRead(Obj(ms)).members)
    ensures Find(AsRead(Obj(ms)).members, key) ==
            if Find(ms, key).Some? then Some(AsRead(Find(ms, key).value)) else None
  {
    hide Find;
    MembersFind([], ms, key);
    FindNone([], key);
  }

  /** So does a whole document that renders an object, whatever the order of its members and however often a name
      comes. */
  lemma ParsedObjectIsMap(inp: Input, ms: seq<Member>, root: Value, key: bytes)
    requires NoDoubles(Obj(ms)) && Renders(inp.doc, Tokens(Obj(ms))) && Depth(Obj(ms)) <= STACK_LIMIT
    ensures var p := Parse(inp, root);
            && p.Parsed? && p.ok && p.errors == [] && p.root.Obj? && SortedMembers(p.root.members)
            && Find(p.root.members, key) ==
               if Find(ms, key).Some? then Some(AsRead(Find(ms, key).value)) else None
  {
    ParseOfAnyRendering(inp, Obj(ms), root);
    ObjectIsMap(ms, key);
    hide Parse, Renders, Find, NoDoubles, Depth;
  }
}
