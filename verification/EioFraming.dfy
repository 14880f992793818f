/** The payloads that the server accepts: which sequences of frames, and what it makes of each. */
module EioFraming {
  import opened Bytes
  import opened EioParser

  /** What stands before the mark of a frame, and the message behind it. */
  datatype Piece = Piece(header: bytes, message: bytes)

  function Joined(pieces: seq<Piece>, mark: byte): bytes {
    if pieces == [] then [] else pieces[0].header + [mark] + pieces[0].message + Joined(pieces[1..], mark)
  }

  // ---------- text payloads ----------

  /** The header's bytes, not its digits, make up the length; an empty message is passed over. */
  predicate LegalText(p: Piece, fresh_: Packet) {
    && p.header != [] && COLON !in p.header && RawValue(p.header) == |p.message|
    && (p.message == [] || DecodePacket(p.message, fresh_).0)
  }

  predicate AllLegalText(pieces: seq<Piece>, fresh_: Packet) {
    forall i :: 0 <= i < |pieces| ==> LegalText(pieces[i], fresh_)
  }

  function TextPackets(pieces: seq<Piece>, fresh_: Packet): seq<Packet> {
    if pieces == [] then []
    else (if pieces[0].message == [] then [] else [DecodePacket(pieces[0].message, fresh_).1])
         + TextPackets(pieces[1..], fresh_)
  }

  lemma TextUnfold(data: bytes, i: nat, j: nat, fresh_: Packet, packets: seq<Packet>)
    requires j <= i <= |data|
    ensures i == |data| ==> TextFrames(data, i, j, fresh_, packets) == (i == j, packets)
    ensures i < |data| && data[i] != COLON ==>
              TextFrames(data, i, j, fresh_, packets) == TextFrames(data, i + 1, j, fresh_, packets)
    ensures i < |data| && data[i] == COLON ==>
              var n, r := RawValue(data[j..i]), TextFrames(data, i, j, fresh_, packets);
              if i == j || i + 1 + n > |data| then r == (false, packets)
              else
                var message, next := data[i + 1..i + 1 + n], i + 1 + n;
                if n == 0 then r == TextFrames(data, next, next, fresh_, packets)
                else if !DecodePacket(message, fresh_).0 then r == (false, packets)
                else r == TextFrames(data, next, next, fresh_, packets + [DecodePacket(message, fresh_).1])
  {
    hide RawValue, DecodePacket;
  }

  lemma JoinedCons(p: Piece, rest: seq<Piece>, mark: byte)
    ensures Joined([p] + rest, mark) == p.header + [mark] + p.message + Joined(rest, mark)
  {
    assert ([p] + rest)[1..] == rest;
  }

  lemma TextPacketsCons(p: Piece, rest: seq<Piece>, fresh_: Packet)
    ensures TextPackets([p] + rest, fresh_)
            == (if p.message == [] then [] else [DecodePacket(p.message, fresh_).1]) + TextPackets(rest, fresh_)
  {
    hide DecodePacket;
    assert ([p] + rest)[1..] == rest;
  }

  lemma NoPieces(mark: byte, fresh_: Packet)
    ensures Joined([], mark) == [] && TextPackets([], fresh_) == [] && BinaryPackets([], fresh_) == []
  {
  }

  /** Whatever the text loop accepts is made of such pieces. */
  lemma {:induction false} TextIsLegal(data: bytes, i: nat, j: nat, fresh_: Packet, packets: seq<Packet>)
    returns (pieces: seq<Piece>)
    requires j <= i <= |data| && COLON !in data[j..i] && TextFrames(data, i, j, fresh_, packets).0
    ensures AllLegalText(pieces, fresh_) && data[j..] == Joined(pieces, COLON)
    ensures TextFrames(data, i, j, fresh_, packets).1 == packets + TextPackets(pieces, fresh_)
    decreases |data| - i
  {
    hide RawValue, DecodePacket, TextFrames, TextPackets, Joined;
    TextUnfold(data, i, j, fresh_, packets);
    NoPieces(COLON, fresh_);
    if i == |data| {
      pieces := [];
      assert packets + [] == packets;
    } else if data[i] != COLON {
      assert data[j..i + 1] == data[j..i] + [data[i]];
      pieces := TextIsLegal(data, i + 1, j, fresh_, packets);
    } else {
      var n := RawValue(data[j..i]);
      var next := i + 1 + n;
      var p := Piece(data[j..i], data[i + 1..next]);
      var found := if n == 0 then [] else [DecodePacket(p.message, fresh_).1];
      assert packets + [] == packets;
      var rest := TextIsLegal(data, next, next, fresh_, packets + found);
      pieces := [p] + rest;
      assert LegalText(p, fresh_);
      JoinedCons(p, rest, COLON);
      TextPacketsCons(p, rest, fresh_);
      Associate(packets, found, TextPackets(rest, fresh_));
      assert data[j..] == p.header + [COLON] + p.message + data[next..];
    }
  }

  lemma PieceParts(data: bytes, j: nat, p: Piece, mark: byte, after: bytes)
    requires j <= |data| && data[j..] == p.header + [mark] + p.message + after
    ensures var i := j + |p.header|;
            var next := i + 1 + |p.message|;
            && next <= |data| && data[i] == mark && data[j..i] == p.header
            && data[i + 1..next] == p.message && data[next..] == after
  {
    var h, m := |p.header|, |p.message|;
    assert data[j..|data|] == data[j..];
    assert data[j + h] == data[j..][h] == mark;
    SliceOfSlice(data, j, |data|, 0, h);
    assert data[j..][0..h] == p.header;
    SliceOfSlice(data, j, |data|, h + 1, h + 1 + m);
    assert data[j..][h + 1..h + 1 + m] == p.message;
    DropDrop(data, j, h + 1 + m);
    assert data[j..][h + 1 + m..] == after;
  }

  lemma {:induction false} LegalTextIsRead(data: bytes, j: nat, pieces: seq<Piece>, fresh_: Packet,
                                           packets: seq<Packet>)
    requires j <= |data| && AllLegalText(pieces, fresh_) && data[j..] == Joined(pieces, COLON)
    ensures TextFrames(data, j, j, fresh_, packets) == (true, packets + TextPackets(pieces, fresh_))
    decreases |pieces|
  {
    hide RawValue, DecodePacket, TextFrames, TextPackets, Joined, LegalText;
    NoPieces(COLON, fresh_);
    assert packets + [] == packets;
    if pieces == [] {
      TextUnfold(data, j, j, fresh_, packets);
    } else {
      var p, rest := pieces[0], pieces[1..];
      assert pieces == [p] + rest && LegalText(p, fresh_);
      JoinedCons(p, rest, COLON);
      TextPacketsCons(p, rest, fresh_);
      TextPieceRead(data, j, p, Joined(rest, COLON), fresh_, packets);
      var found := if p.message == [] then [] else [DecodePacket(p.message, fresh_).1];
      LegalTextIsRead(data, j + |p.header| + 1 + |p.message|, rest, fresh_, packets + found);
      Associate(packets, found, TextPackets(rest, fresh_));
    }
  }

  lemma TextPieceRead(data: bytes, j: nat, p: Piece, after: bytes, fresh_: Packet, packets: seq<Packet>)
    requires j <= |data| && LegalText(p, fresh_) && data[j..] == p.header + [COLON] + p.message + after
    ensures var next := j + |p.header| + 1 + |p.message|;
            && next <= |data| && data[next..] == after
            && TextFrames(data, j, j, fresh_, packets)
               == TextFrames(data, next, next, fresh_,
                             packets + if p.message == [] then [] else [DecodePacket(p.message, fresh_).1])
  {
    hide RawValue, DecodePacket, TextFrames;
    PieceParts(data, j, p, COLON, after);
    var i := j + |p.header|;
    TextScanned(data, j, i, j, fresh_, packets);
    TextUnfold(data, i, j, fresh_, packets);
    assert packets + [] == packets;
  }

  /** The text loop accepts exactly the sequences of such pieces, and gets exactly their packets. */
  lemma TextLanguage(data: bytes, fresh_: Packet)
    ensures TextFrames(data, 0, 0, fresh_, []).0
            <==> exists pieces :: AllLegalText(pieces, fresh_) && data == Joined(pieces, COLON)
    ensures forall pieces :: AllLegalText(pieces, fresh_) && data == Joined(pieces, COLON) ==>
              TextFrames(data, 0, 0, fresh_, []) == (true, TextPackets(pieces, fresh_))
  {
    hide TextFrames, AllLegalText, Joined, TextPackets;
    assert data[0..] == data;
    if TextFrames(data, 0, 0, fresh_, []).0 {
      var pieces := TextIsLegal(data, 0, 0, fresh_, []);
    }
    forall pieces | AllLegalText(pieces, fresh_) && data == Joined(pieces, COLON)
      ensures TextFrames(data, 0, 0, fresh_, []) == (true, TextPackets(pieces, fresh_))
    {
      LegalTextIsRead(data, 0, pieces, fresh_, []);
      assert [] + TextPackets(pieces, fresh_) == TextPackets(pieces, fresh_);
    }
  }

  // ---------- binary payloads ----------

  /** The first byte of the header is not looked at. Without a header the length is made of all that follows the
      mark. */
  predicate LegalBinary(p: Piece, after: bytes) {
    && FRAME_END !in p.header
    && var text := if p.header == [] then p.message + after else p.header[1..];
       |text| <= MAX_LENGTH_CHARS && RawValue(text) == |p.message|
  }

  predicate AllLegalBinary(pieces: seq<Piece>) {
    pieces == [] || (LegalBinary(pieces[0], Joined(pieces[1..], FRAME_END)) && AllLegalBinary(pieces[1..]))
  }

  function BinaryPackets(pieces: seq<Piece>, fresh_: Packet): (r: seq<Packet>)
    ensures |r| == |pieces| && forall i :: 0 <= i < |r| ==> r[i] == DecodePacket(pieces[i].message, fresh_).1
  {
    seq(|pieces|, i requires 0 <= i < |pieces| => DecodePacket(pieces[i].message, fresh_).1)
  }

  lemma BinaryUnfold(data: bytes, i: nat, j: nat, fresh_: Packet, packets: seq<Packet>)
    requires j <= i <= |data| < UINT_LIMIT
    ensures i == |data| ==> BinaryFrames(data, i, j, fresh_, packets) == (i == j, packets)
    ensures i < |data| && data[i] != FRAME_END ==>
              BinaryFrames(data, i, j, fresh_, packets) == BinaryFrames(data, i + 1, j, fresh_, packets)
    ensures i < |data| && data[i] == FRAME_END ==>
              var text := if i == j then data[i + 1..] else data[j + 1..i];
              var n, r := RawValue(text), BinaryFrames(data, i, j, fresh_, packets);
              var next := i + 1 + n;
              if |text| > MAX_LENGTH_CHARS || next > |data| then r == (false, packets)
              else r == BinaryFrames(data, next, next, fresh_, packets + [DecodePacket(data[i + 1..next], fresh_).1])
  {
    hide RawValue, DecodePacket;
    if i < |data| && data[i] == FRAME_END {
      assert LengthText(data, j, i) == if i == j then data[i + 1..] else data[j + 1..i];
    }
  }

  lemma BinaryCons(p: Piece, rest: seq<Piece>, fresh_: Packet, packets: seq<Packet>)
    ensures AllLegalBinary([p] + rest) <==> LegalBinary(p, Joined(rest, FRAME_END)) && AllLegalBinary(rest)
    ensures packets + BinaryPackets([p] + rest, fresh_)
            == packets + [DecodePacket(p.message, fresh_).1] + BinaryPackets(rest, fresh_)
  {
    hide LegalBinary, DecodePacket, Joined;
    assert ([p] + rest)[1..] == rest;
    var found := [DecodePacket(p.message, fresh_).1];
    assert BinaryPackets([p] + rest, fresh_) == found + BinaryPackets(rest, fresh_);
    Associate(packets, found, BinaryPackets(rest, fresh_));
  }

  lemma CutPiece(data: bytes, i: nat, j: nat, next: nat)
    requires j <= i < |data| && i + 1 <= next <= |data|
    ensures data[j..] == data[j..i] + [data[i]] + data[i + 1..next] + data[next..]
    ensures data[i + 1..] == data[i + 1..next] + data[next..]
    ensures i > j ==> data[j..i][1..] == data[j + 1..i]
  {
  }

  lemma {:induction false} BinaryIsLegal(data: bytes, i: nat, j: nat, fresh_: Packet, packets: seq<Packet>)
    returns (pieces: seq<Piece>)
    requires j <= i <= |data| < UINT_LIMIT && FRAME_END !in data[j..i] && BinaryFrames(data, i, j, fresh_, packets).0
    ensures AllLegalBinary(pieces) && data[j..] == Joined(pieces, FRAME_END)
    ensures BinaryFrames(data, i, j, fresh_, packets).1 == packets + BinaryPackets(pieces, fresh_)
    decreases |data| - i
  {
    hide RawValue, DecodePacket, BinaryFrames, Joined, BinaryPackets;
    BinaryUnfold(data, i, j, fresh_, packets);
    NoPieces(FRAME_END, fresh_);
    if i == |data| {
      pieces := [];
      assert packets + [] == packets;
    } else if data[i] != FRAME_END {
      assert data[j..i + 1] == data[j..i] + [data[i]];
      pieces := BinaryIsLegal(data, i + 1, j, fresh_, packets);
    } else {
      var text := if i == j then data[i + 1..] else data[j + 1..i];
      var next := i + 1 + RawValue(text);
      var p := Piece(data[j..i], data[i + 1..next]);
      CutPiece(data, i, j, next);
      assert LegalBinary(p, data[next..]);
      hide AllLegalBinary, LegalBinary;
      var rest := BinaryIsLegal(data, next, next, fresh_, packets + [DecodePacket(p.message, fresh_).1]);
      pieces := [p] + rest;
      JoinedCons(p, rest, FRAME_END);
      BinaryCons(p, rest, fresh_, packets);
    }
  }

  lemma BinaryPieceRead(data: bytes, j: nat, p: Piece, after: bytes, fresh_: Packet, packets: seq<Packet>)
    requires j <= |data| < UINT_LIMIT && LegalBinary(p, after)
    requires data[j..] == p.header + [FRAME_END] + p.message + after
    ensures var next := j + |p.header| + 1 + |p.message|;
            && next <= |data| && data[next..] == after
            && BinaryFrames(data, j, j, fresh_, packets)
               == BinaryFrames(data, next, next, fresh_, packets + [DecodePacket(p.message, fresh_).1])
  {
    hide RawValue, DecodePacket, BinaryFrames;
    PieceParts(data, j, p, FRAME_END, after);
    var i := j + |p.header|;
    FrameScanned(data, j, i, j, fresh_, packets);
    BinaryUnfold(data, i, j, fresh_, packets);
    assert data[i + 1..] == p.message + after;
    assert i > j ==> data[j..i][1..] == data[j + 1..i];
  }

  lemma {:induction false} LegalBinaryIsRead(data: bytes, j: nat, pieces: seq<Piece>, fresh_: Packet,
                                             packets: seq<Packet>)
    requires j <= |data| < UINT_LIMIT && AllLegalBinary(pieces) && data[j..] == Joined(pieces, FRAME_END)
    ensures BinaryFrames(data, j, j, fresh_, packets) == (true, packets + BinaryPackets(pieces, fresh_))
    decreases |pieces|
  {
    hide RawValue, DecodePacket, BinaryFrames, Joined, LegalBinary, AllLegalBinary, BinaryPackets;
    NoPieces(FRAME_END, fresh_);
    if pieces == [] {
      BinaryUnfold(data, j, j, fresh_, packets);
      assert packets + [] == packets;
    } else {
      var p, rest := pieces[0], pieces[1..];
      assert pieces == [p] + rest;
      JoinedCons(p, rest, FRAME_END);
      BinaryCons(p, rest, fresh_, packets);
      BinaryPieceRead(data, j, p, Joined(rest, FRAME_END), fresh_, packets);
      var next := j + |p.header| + 1 + |p.message|;
      LegalBinaryIsRead(data, next, rest, fresh_, packets + [DecodePacket(p.message, fresh_).1]);
    }
  }

  /** The binary loop accepts exactly the sequences of such pieces, and gets a packet for each. */
  lemma BinaryLanguage(data: bytes, fresh_: Packet)
    requires |data| < UINT_LIMIT
    ensures BinaryFrames(data, 0, 0, fresh_, []).0
            <==> exists pieces :: AllLegalBinary(pieces) && data == Joined(pieces, FRAME_END)
    ensures forall pieces :: AllLegalBinary(pieces) && data == Joined(pieces, FRAME_END) ==>
              BinaryFrames(data, 0, 0, fresh_, []) == (true, BinaryPackets(pieces, fresh_))
  {
    hide BinaryFrames, AllLegalBinary, Joined, BinaryPackets;
    assert data[0..] == data;
    if BinaryFrames(data, 0, 0, fresh_, []).0 {
      var pieces := BinaryIsLegal(data, 0, 0, fresh_, []);
    }
    forall pieces | AllLegalBinary(pieces) && data == Joined(pieces, FRAME_END)
      ensures BinaryFrames(data, 0, 0, fresh_, []) == (true, BinaryPackets(pieces, fresh_))
    {
      LegalBinaryIsRead(data, 0, pieces, fresh_, []);
      assert [] + BinaryPackets(pieces, fresh_) == BinaryPackets(pieces, fresh_);
    }
  }
}
