/** A request body read block by block: the window, read_next_part, _read_body and form(). */
module BodyReader {
  import opened Wrappers
  import opened FormCodec

  datatype Error = ReadError | BodyTooLong

  /** What the transport gives: a block, empty at the end of the stream, or a failure. */
  datatype Block = Bytes(data: Text) | SocketError

  /** Bytes up to the end or an error. */
  datatype Stream = Stream(text: Text, error: Option<Error>)

  function Before(t: Text, s: Stream): Stream { Stream(t + s.text, s.error) }

  /** The bytes a body still in need of some takes from the blocks. */
  function Rest(blocks: seq<Block>, need: nat, limit: nat): Stream {
    if need == 0 || blocks == [] then Stream([], None)
    else match blocks[0]
      case SocketError => Stream([], Some(ReadError))
      case Bytes(data) =>
        if data == [] then Stream([], None)
        else if |data| > limit then Stream([], Some(BodyTooLong))
        else if |data| >= need then Stream(data[..need], None)
        else Before(data, Rest(blocks[1..], need - |data|, limit))
  }

  function Flat(chunks: seq<Text>): Text {
    if chunks == [] then [] else Flat(chunks[..|chunks| - 1]) + chunks[|chunks| - 1]
  }

  /** The body from an index of the block in hand on, of which a part belongs to it. */
  function Remaining(block: Text, index: nat, left: nat, part: nat, blocks: seq<Block>, size: nat): Stream
    requires part <= |block|
  {
    var end := if part <= left then part else left;
    if index >= left then Stream([], None)
    else if index < end then Before(block[index..end], Rest(blocks, left - end, size))
    else Rest(blocks, left - index, size)
  }

  /** The same, with the bytes in hand taken from the start of the block. */
  function Handed(block: Text, index: nat, left: nat, part: nat, blocks: seq<Block>, size: nat): Stream
    requires part <= |block|
  {
    var end := if part <= left then part else left;
    if index < end then Before(block[..end - index], Rest(blocks, left - end, size))
    else Remaining(block, index, left, part, blocks, size)
  }

  lemma TakeWindow(block: Text, index: nat, left: nat, part: nat, blocks: seq<Block>, size: nat)
    requires index < part <= |block| && part <= left
    ensures Remaining(block, index, left, part, blocks, size)
         == Before(block[index..part], Remaining(block, part, left, part, blocks, size))
    ensures Handed(block, index, left, part, blocks, size)
         == Before(block[..part - index], Remaining(block, part, left, part, blocks, size))
  {
  }

  lemma TakeByte(block: Text, index: nat, left: nat, part: nat, blocks: seq<Block>, size: nat)
    requires index < part <= |block| && part <= left
    ensures Remaining(block, index, left, part, blocks, size)
         == Before([block[index]], Remaining(block, index + 1, left, part, blocks, size))
  {
    assert block[index..part] == [block[index]] + block[index + 1..part];
    BeforeMore([block[index]], block[index + 1..part], Rest(blocks, left - part, size));
  }

  lemma SameAtEdge(block: Text, index: nat, left: nat, part: nat, blocks: seq<Block>, size: nat)
    requires part <= |block|
    ensures index == 0 || index >= part || index >= left ==>
              Handed(block, index, left, part, blocks, size) == Remaining(block, index, left, part, blocks, size)
  {
  }

  /** Whatever is in the block, the bytes handed over are the body's own exactly when reading starts at
      index 0, or with nothing in hand. */
  lemma HandedExactly(index: nat, left: nat, part: nat, blocks: seq<Block>, size: nat)
    ensures (forall block: Text | part <= |block| ::
               Handed(block, index, left, part, blocks, size) == Remaining(block, index, left, part, blocks, size))
            <==> index == 0 || index >= part || index >= left
  {
    if index == 0 || index >= part || index >= left {
      forall block: Text | part <= |block|
        ensures Handed(block, index, left, part, blocks, size) == Remaining(block, index, left, part, blocks, size)
      {
        SameAtEdge(block, index, left, part, blocks, size);
      }
    } else {
      var block: Text := seq(part, i => if i == 0 then 1 else 0);
      assert Handed(block, index, left, part, blocks, size).text[0] == 1;
      assert Remaining(block, index, left, part, blocks, size).text[0] == 0;
    }
  }

  /** Cutting the part at what is left changes nothing. */
  lemma PartCut(block: Text, index: nat, left: nat, part: nat, blocks: seq<Block>, size: nat)
    requires part <= |block|
    ensures left <= part ==>
              Handed(block, index, left, left, blocks, size) == Handed(block, index, left, part, blocks, size) &&
              Remaining(block, index, left, left, blocks, size) == Remaining(block, index, left, part, blocks, size)
  {
  }

  /** A block just read. */
  lemma FromStart(block: Text, left: nat, blocks: seq<Block>, size: nat)
    requires left > 0
    ensures var part := if |block| <= left then |block| else left;
      Remaining(block, 0, left, part, blocks, size)
        == if |block| >= left then Stream(block[..left], None) else Before(block, Rest(blocks, left - |block|, size))
  {
    var part := if |block| <= left then |block| else left;
    assert block[0..part] == block[..part] && block[..part] + [] == block[..part];
    assert |block| <= left ==> block[..part] == block;
  }

  lemma Over(t: Text, e: Option<Error>)
    ensures Before(t, Stream([], e)) == Stream(t, e)
  {
  }

  lemma FlatNothing()
    ensures Flat([]) == []
  {
  }

  lemma BeforeMore(a: Text, b: Text, s: Stream)
    ensures Before(a, Before(b, s)) == Before(a + b, s) && Before([], s) == s
  {
    assert a + (b + s.text) == (a + b) + s.text;
  }

  lemma FlatMore(chunks: seq<Text>, chunk: Text)
    ensures Flat(chunks + [chunk]) == Flat(chunks) + chunk
  {
    assert (chunks + [chunk])[..|chunks|] == chunks;
  }

  lemma FoldMore(t: Text, c: byte)
    ensures Fold(START, t + [c]) == Step(Fold(START, t), c)
  {
    assert (t + [c])[..|t|] == t;
  }

  lemma FoldNothing()
    ensures Fold(START, []) == START
  {
  }

  /** The body of form()'s loop: one byte. */
  method DecodeByte(key0: Text, value0: Text, inValue0: bool, usedExtra0: bool, extra0: Text,
      params0: map<Text, Text>, c: byte)
      returns (key: Text, value: Text, inValue: bool, usedExtra: bool, extra: Text, params: map<Text, Text>)
    ensures Decoder(key, value, inValue, usedExtra, extra, params)
         == Step(Decoder(key0, value0, inValue0, usedExtra0, extra0, params0), c)
  {
    key, value, inValue, usedExtra, extra, params := key0, value0, inValue0, usedExtra0, extra0, params0;
    var more: Text := [];
    if usedExtra {
      extra := extra + [c];
      if |extra| != 2 {
        return;
      }
      var x := (Hex2Dec(extra[0]) << 4) | Hex2Dec(extra[1]);
      more := if x < 128 then [x] else [PERCENT, extra[0], extra[1]];
      extra := [];
      usedExtra := false;
    } else if c == PERCENT {
      usedExtra := true;
      return;
    } else if c == EQUALS {
      inValue := true;
      return;
    } else if c == AMPERSAND {
      params := if key in params then params else params[key := value];
      key, value, inValue := [], [], false;
      return;
    } else if c == PLUS {
      more := [SPACE];
    } else {
      more := [c];
    }
    if inValue {
      value := value + more;
    } else {
      key := key + more;
    }
  }

  class Request {
    const bodySize: nat
    var bodyPtr: Text
    var bodyIndex: nat
    var bodyLeft: nat
    var bodyPart: nat
    var blocks: seq<Block>

    constructor (contentLength: nat, first: Text, following: seq<Block>)
      ensures Valid()
      ensures (bodySize, bodyLeft, bodyIndex, bodyPtr, bodyPart) == (contentLength, contentLength, 0, first, |first|)
      ensures blocks == following
      ensures Ahead() == (if |first| >= contentLength then Stream(first[..contentLength], None)
                          else Before(first, Rest(following, contentLength - |first|, contentLength)))
    {
      bodySize, bodyPtr, bodyIndex, bodyLeft, bodyPart, blocks :=
        contentLength, first, 0, contentLength, |first|, following;
    }

    /** The block in hand holds the part. */
    ghost predicate Valid()
      reads this
    {
      bodyPart <= |bodyPtr|
    }

    /** The body from here on. */
    ghost function Ahead(): Stream
      requires Valid()
      reads this
    {
      Remaining(bodyPtr, bodyIndex, bodyLeft, bodyPart, blocks, bodySize)
    }

    /** The body as _read_body hands it over. */
    ghost function HandedOver(): Stream
      requires Valid()
      reads this
    {
      Handed(bodyPtr, bodyIndex, bodyLeft, bodyPart, blocks, bodySize)
    }

    /** read_next_part, for a window that has been used up. */
    method ReadNextPart() returns (r: Result<nat, Error>)
      requires Valid() && bodyIndex < bodyLeft && bodyPart <= bodyIndex
      modifies `bodyPtr, `bodyIndex, `bodyLeft, `blocks
      ensures match r
              case Err(e) => old(Ahead()) == Stream([], Some(e)) && bodyPtr == old(bodyPtr)
              case Ok(n) =>
                if n == 0 then old(Ahead()) == Stream([], None)
                else && bodyIndex == 0 && bodyLeft > 0 && n == |bodyPtr|
                     && bodyLeft == old(bodyLeft - bodyIndex)
                     && old(Ahead()) == if n >= bodyLeft then Stream(bodyPtr[..bodyLeft], None)
                                        else Before(bodyPtr, Rest(blocks, bodyLeft - n, bodySize))
    {
      var nextBlock := Bytes([]);
      if blocks != [] {
        nextBlock := blocks[0];
        blocks := blocks[1..];
      }
      match nextBlock {
        case SocketError => return Err(ReadError);
        case Bytes(data) =>
          if data == [] {
            return Ok(0);
          }
          if |data| > bodySize {
            return Err(BodyTooLong);
          }
          bodyLeft := bodyLeft - bodyIndex;
          bodyIndex := 0;
          bodyPtr := data;
          return Ok(|data|);
      }
    }

    /** The refill both loops begin with: more is false at the end of the stream. */
    method Refill() returns (r: Result<bool, Error>)
      requires Valid() && bodyIndex < bodyLeft && bodyPart <= bodyLeft
      modifies this
      ensures Valid() && match r
              case Err(e) => old((Ahead(), HandedOver())) == (Stream([], Some(e)), Stream([], Some(e)))
              case Ok(more) =>
                if !more then old((Ahead(), HandedOver())) == (Stream([], None), Stream([], None))
                else && bodyIndex < bodyPart <= bodyLeft && (Ahead(), HandedOver()) == old((Ahead(), HandedOver()))
                     && bodyLeft - bodyIndex == old(bodyLeft - bodyIndex)
    {
      SameAtEdge(bodyPtr, bodyIndex, bodyLeft, bodyPart, blocks, bodySize);
      if bodyIndex < bodyPart {
        return Ok(true);
      }
      var next := ReadNextPart();
      match next {
        case Err(e) => return Err(e);
        case Ok(n) =>
          bodyPart := n;
          if n == 0 {
            return Ok(false);
          }
          if bodyPart > bodyLeft {
            bodyPart := bodyLeft;
          }
          SameAtEdge(bodyPtr, bodyIndex, bodyLeft, bodyPart, blocks, bodySize);
          FromStart(bodyPtr, bodyLeft, blocks, bodySize);
          return Ok(true);
      }
    }

    /** _read_body: the chunks its handler is given, and the error that ended it. They start at
        body_ptr, not at the index. */
    method ReadBody() returns (chunks: seq<Text>, error: Option<Error>)
      requires Valid()
      modifies this
      ensures Valid() && Stream(Flat(chunks), error) == old(HandedOver())
    {
      hide Handed, Rest, Flat, Before;
      PartCut(bodyPtr, bodyIndex, bodyLeft, bodyPart, blocks, bodySize);
      bodyPart := if bodyPart <= bodyLeft then bodyPart else bodyLeft;
      chunks, error := [], None;
      FlatNothing();
      BeforeMore([], [], HandedOver());
      while bodyIndex < bodyLeft
        invariant Valid() && bodyPart <= bodyLeft
        invariant Before(Flat(chunks), HandedOver()) == old(HandedOver())
        decreases bodyLeft - bodyIndex
      {
        ghost var got := Flat(chunks);
        Over(got, None);
        var more := Refill();
        match more {
          case Err(e) =>
            Over(got, Some(e));
            return chunks, Some(e);
          case Ok(m) =>
            if !m {
              return;
            }
        }
        TakeWindow(bodyPtr, bodyIndex, bodyLeft, bodyPart, blocks, bodySize);
        var chunk := bodyPtr[..bodyPart - bodyIndex];
        FlatMore(chunks, chunk);
        chunks := chunks + [chunk];
        bodyIndex := bodyPart;
        SameAtEdge(bodyPtr, bodyIndex, bodyLeft, bodyPart, blocks, bodySize);
        BeforeMore(got, chunk, HandedOver());
      }
      Over(Flat(chunks), None);
      SameAtEdge(bodyPtr, bodyIndex, bodyLeft, bodyPart, blocks, bodySize);
    }

    /** form(), the urlencoded branch. */
    method Form() returns (r: Result<map<Text, Text>, Error>)
      requires Valid()
      modifies this
      ensures Valid()
      ensures r == var s := old(Ahead()); if s.error.Some? then Err(s.error.value) else Ok(Params(s.text))
    {
      hide Handed, Rest, Before, Fold, Step;
      PartCut(bodyPtr, bodyIndex, bodyLeft, bodyPart, blocks, bodySize);
      bodyPart := if bodyPart <= bodyLeft then bodyPart else bodyLeft;
      var key: Text, value: Text, inValue, usedExtra, extra: Text := [], [], false, false, [];
      var params: map<Text, Text> := map[];
      ghost var got: Text := [];
      BeforeMore([], [], Ahead());
      FoldNothing();
      while bodyIndex < bodyLeft
        invariant Valid() && bodyPart <= bodyLeft
        invariant Before(got, Ahead()) == old(Ahead())
        invariant Decoder(key, value, inValue, usedExtra, extra, params) == Fold(START, got)
        decreases bodyLeft - bodyIndex
      {
        Over(got, None);
        var more := Refill();
        match more {
          case Err(e) =>
            Over(got, Some(e));
            return Err(e);
          case Ok(m) =>
            if !m {
              break;
            }
        }
        TakeByte(bodyPtr, bodyIndex, bodyLeft, bodyPart, blocks, bodySize);
        var c := bodyPtr[bodyIndex];
        FoldMore(got, c);
        key, value, inValue, usedExtra, extra, params := DecodeByte(key, value, inValue, usedExtra, extra, params, c);
        bodyIndex := bodyIndex + 1;
        BeforeMore(got, [c], Ahead());
        got := got + [c];
      }
      Over(got, None);
      if value != [] || key != [] {
        params := Insert(params, key, value);
      }
      return Ok(params);
    }
  }

  // ---- what a transport delivers ---------------------------------------------------------------

  function FlatBlocks(blocks: seq<Text>): Text {
    if blocks == [] then [] else blocks[0] + FlatBlocks(blocks[1..])
  }

  function Sent(blocks: seq<Text>): seq<Block> {
    seq(|blocks|, i requires 0 <= i < |blocks| => Bytes(blocks[i]))
  }

  /** From blocks that are neither empty nor longer than the limit a body takes exactly the bytes it
      needs, or all there are. */
  lemma {:induction false} RestIsPrefix(blocks: seq<Text>, need: nat, limit: nat)
    requires forall k :: 0 <= k < |blocks| ==> 0 < |blocks[k]| <= limit
    ensures var all := FlatBlocks(blocks);
      Rest(Sent(blocks), need, limit) == Stream(if need <= |all| then all[..need] else all, None)
    decreases |blocks|
  {
    if need == 0 {
      assert FlatBlocks(blocks)[..0] == [];
    } else if blocks != [] {
      assert Sent(blocks)[1..] == Sent(blocks[1..]);
      var all, rest := FlatBlocks(blocks), FlatBlocks(blocks[1..]);
      if |blocks[0]| < need {
        RestIsPrefix(blocks[1..], need - |blocks[0]|, limit);
        assert need <= |all| ==> all[..need] == blocks[0] + rest[..need - |blocks[0]|];
      } else {
        assert all[..need] == blocks[0][..need];
      }
    }
  }

  /** A block that ends a body before it is whole: one that could not be read, the end, or one that is too long. */
  predicate Ends(b: Block, limit: nat) { b.SocketError? || b.data == [] || |b.data| > limit }

  /** All blocks before it are taken, and it decides how the body ends. */
  lemma {:induction false} RestStops(good: seq<Text>, bad: Block, more: seq<Block>, need: nat, limit: nat)
    requires forall k :: 0 <= k < |good| ==> 0 < |good[k]| <= limit
    requires |FlatBlocks(good)| < need && Ends(bad, limit)
    ensures Rest(Sent(good) + ([bad] + more), need, limit) == Stream(FlatBlocks(good),
      if bad == SocketError then Some(ReadError) else if bad.data == [] then None else Some(BodyTooLong))
    decreases |good|
  {
    var blocks := Sent(good) + ([bad] + more);
    if good == [] {
      assert blocks[0] == bad;
    } else {
      assert blocks[0] == Bytes(good[0]) && blocks[1..] == Sent(good[1..]) + ([bad] + more);
      RestStops(good[1..], bad, more, need - |good[0]|, limit);
    }
  }

  /** A body that is cut off: what came before is handed over, and the error says what cut it off. */
  method ReadBroken(contentLength: nat, first: Text, blocks: seq<Text>, bad: Block, more: seq<Block>)
      returns (chunks: seq<Text>, error: Option<Error>)
    requires forall k :: 0 <= k < |blocks| ==> 0 < |blocks[k]| <= contentLength
    requires |first + FlatBlocks(blocks)| < contentLength && Ends(bad, contentLength)
    ensures Flat(chunks) == first + FlatBlocks(blocks)
    ensures error == if bad == SocketError then Some(ReadError) else if bad.data == [] then None else Some(BodyTooLong)
  {
    hide Flat, Rest, FlatBlocks;
    var request := new Request(contentLength, first, Sent(blocks) + ([bad] + more));
    RestStops(blocks, bad, more, contentLength - |first|, contentLength);
    SameAtEdge(request.bodyPtr, 0, request.bodyLeft, request.bodyPart, request.blocks, request.bodySize);
    chunks, error := request.ReadBody();
  }

  /** Body conservation: a body read from index 0 hands over, in order, exactly the first bytes of what
      came, as many as its content length or as there are. */
  method ReadWhole(contentLength: nat, first: Text, blocks: seq<Text>) returns (chunks: seq<Text>, error: Option<Error>)
    requires forall k :: 0 <= k < |blocks| ==> 0 < |blocks[k]| <= contentLength
    ensures var all := first + FlatBlocks(blocks);
      error == None && Flat(chunks) == if contentLength <= |all| then all[..contentLength] else all
  {
    hide Flat, Rest, FlatBlocks;
    var request := new Request(contentLength, first, Sent(blocks));
    if |first| < contentLength { RestIsPrefix(blocks, contentLength - |first|, contentLength); }
    SameAtEdge(request.bodyPtr, 0, request.bodyLeft, request.bodyPart, request.blocks, request.bodySize);
    chunks, error := request.ReadBody();
  }

  /** A reader has stopped inside the block, and the rest of the body is then read: what is handed over is as long
      as the rest, but from the start of the block. */
  method ReadFrom(contentLength: nat, first: Text, index: nat) returns (chunks: seq<Text>, error: Option<Error>)
    requires index <= contentLength <= |first|
    ensures error == None && Flat(chunks) == first[..contentLength - index]
  {
    hide Flat, Rest;
    var request := new Request(contentLength, first, []);
    request.bodyIndex := index;
    NothingMore(first[..contentLength - index], contentLength);
    chunks, error := request.ReadBody();
  }

  lemma NothingMore(t: Text, size: nat)
    ensures Rest([], 0, size) == Stream([], None) && Before(t, Stream([], None)) == Stream(t, None)
  {
    assert t + [] == t;
  }

  /** One byte of two has been read: the first is handed over again, in place of the second. */
  lemma HandedFromInside(a: byte, b: byte)
    ensures Handed([a, b], 1, 2, 2, [], 2) == Stream([a], None)
    ensures Remaining([a, b], 1, 2, 2, [], 2) == Stream([b], None)
  {
    assert [a, b][..1] == [a] && [a, b][1..2] == [b];
    NothingMore([a], 2);
    NothingMore([b], 2);
  }

  /** The form codec over the wire: an object of strings sent as a form, cut into blocks anywhere. */
  method SendForm(pairs: seq<Pair>, first: Text, blocks: seq<Text>) returns (r: Result<map<Text, Text>, Error>)
    requires pairs != [] && IsObject(pairs) && Json2Form(pairs) == first + FlatBlocks(blocks)
    requires forall k :: 0 <= k < |blocks| ==> blocks[k] != []
    ensures r == Ok(MapOf(pairs)) <==> AllAsciiPairs(pairs) && pairs != [Pair([], [])]
  {
    hide Rest, FlatBlocks, Json2Form, Params, AllAscii, InsertAll, IsObject;
    var body := Json2Form(pairs);
    BlocksAreShort(blocks);
    RestIsPrefix(blocks, |body| - |first|, |body|);
    var request := new Request(|body|, first, Sent(blocks));
    assert |first| >= |body| ==> first[..|body|] == body;
    assert |first| < |body| ==> request.Ahead() == Stream(body, None);
    r := request.Form();
    RoundTrip(pairs);
  }

  lemma {:induction false} BlocksAreShort(blocks: seq<Text>)
    ensures forall k :: 0 <= k < |blocks| ==> |blocks[k]| <= |FlatBlocks(blocks)|
    decreases |blocks|
  {
    if blocks != [] {
      BlocksAreShort(blocks[1..]);
      assert forall k :: 1 <= k < |blocks| ==> blocks[k] == blocks[1..][k - 1];
    }
  }
}
