/** The TinyPB frame format, as functions on byte sequences. */
module TinyPbFrames {
  import opened Bytes
  import opened Options

  const PB_START: byte := 0x02
  const PB_END: byte := 0x03

  /** Marker bytes, four length words and the error code: the bytes a frame has besides its fields. */
  const OVERHEAD: nat := 2 + 20

  datatype Message = Message(
    msgId: seq<byte>, methodName: seq<byte>, errCode: uint32, errInfo: seq<byte>, pbData: seq<byte>,
    packageLen: uint32, msgIdLen: uint32, methodNameLen: uint32, errInfoLen: uint32)

  function FrameLen(m: Message): nat {
    OVERHEAD + |m.msgId| + |m.methodName| + |m.errInfo| + |m.pbData|
  }

  /** The lengths of a frame and its fields fit the `int` indices that the coder works with. */
  predicate Fits(m: Message) {
    FrameLen(m) <= INT_MAX
  }

  /** A message with its length fields filled in, as encoding leaves it. */
  function Stamped(m: Message): Message {
    m.(packageLen := Wrap32(FrameLen(m)), msgIdLen := Wrap32(|m.msgId|),
       methodNameLen := Wrap32(|m.methodName|), errInfoLen := Wrap32(|m.errInfo|))
  }

  function Header(m: Message): seq<byte> {
    [PB_START] + NetBytes(Wrap32(FrameLen(m)))
  }

  function Prefixed(s: seq<byte>): seq<byte> {
    NetBytes(Wrap32(|s|)) + s
  }

  function ErrorPart(m: Message): seq<byte> {
    NetBytes(m.errCode) + (Prefixed(m.errInfo) + (m.pbData + [PB_END]))
  }

  function MethodPart(m: Message): seq<byte> {
    Prefixed(m.methodName) + ErrorPart(m)
  }

  function Frame(m: Message): (f: seq<byte>)
    ensures |f| == FrameLen(m)
  {
    Header(m) + (Prefixed(m.msgId) + MethodPart(m))
  }

  function Frames(ms: seq<Message>): seq<byte> {
    if ms == [] then [] else Frame(ms[0]) + Frames(ms[1..])
  }

  function StampAll(ms: seq<Message>): (r: seq<Message>)
    ensures |r| == |ms|
  {
    if ms == [] then [] else [Stamped(ms[0])] + StampAll(ms[1..])
  }

  function TotalLen(ms: seq<Message>): nat {
    if ms == [] then 0 else FrameLen(ms[0]) + TotalLen(ms[1..])
  }

  /** The wire format: start byte 2, the length of it all, the id and the method name each behind its length,
      the error code, the error text behind its length, the payload, end byte 3. */
  lemma {:induction false} FrameOnTheWire(m: Message)
    requires FrameLen(m) <= INT_MAX
    ensures FrameLen(m) == 22 + |m.msgId| + |m.methodName| + |m.errInfo| + |m.pbData|
    ensures Frame(m) == [2] + NetBytes(FrameLen(m)) + NetBytes(|m.msgId|) + m.msgId
                      + NetBytes(|m.methodName|) + m.methodName + NetBytes(m.errCode)
                      + NetBytes(|m.errInfo|) + m.errInfo + m.pbData + [3]
  {
    hide NetBytes;
    assert Prefixed(m.errInfo) + (m.pbData + [PB_END]) == NetBytes(|m.errInfo|) + m.errInfo + m.pbData + [3];
    assert ErrorPart(m) == NetBytes(m.errCode) + NetBytes(|m.errInfo|) + m.errInfo + m.pbData + [3];
    assert MethodPart(m) == NetBytes(|m.methodName|) + m.methodName + NetBytes(m.errCode)
                          + NetBytes(|m.errInfo|) + m.errInfo + m.pbData + [3];
    assert Header(m) == [2] + NetBytes(FrameLen(m));
  }

  /** What encoding writes back: the four lengths, and nothing else. */
  lemma {:induction false} StampsAreLengths(m: Message)
    requires FrameLen(m) <= INT_MAX
    ensures Stamped(m) == Message(m.msgId, m.methodName, m.errCode, m.errInfo, m.pbData,
                                  22 + |m.msgId| + |m.methodName| + |m.errInfo| + |m.pbData|,
                                  |m.msgId|, |m.methodName|, |m.errInfo|)
  {
  }

  // ---------------------------------------------------------------- reading fields

  /** A word read at an index; None when the read would leave the vector. */
  function ReadWord(data: seq<byte>, at: nat): Option<uint32> {
    if at + 4 <= |data| then Some(GetInt32FromNetByte(data[at..at + 4])) else None
  }

  function ReadBytes(data: seq<byte>, at: nat, n: nat): Option<seq<byte>> {
    if at + n <= |data| then Some(data[at..at + n]) else None
  }

  /** Where the end marker of a candidate frame is expected: unsigned arithmetic, then an `int`. */
  function EndIndex(start: nat, packageLen: uint32): int {
    ToInt32(Wrap32(start + packageLen - 1))
  }

  // ---------------------------------------------------------------- scanning

  datatype Scan = NotFound | OffVector | Found(start: nat, end: nat, packageLen: uint32)

  /** The search for a start marker whose declared end holds the end marker. `OffVector`: the search
      indexes outside the vector, which the source language leaves undefined. */
  function ScanFrom(data: seq<byte>, i: nat, write: nat): Scan
    requires write <= |data|
    decreases write - i
  {
    if i >= write then NotFound
    else if data[i] != PB_START then ScanFrom(data, i + 1, write)
    else
      match ReadWord(data, i + 1)
      case None => OffVector
      case Some(packageLen) =>
        var j := EndIndex(i, packageLen);
        if !(0 <= j < |data|) then OffVector
        else if data[j] == PB_END then Found(i, j, packageLen)
        else ScanFrom(data, i + 1, write)
  }

  /** The candidate at i was looked at and passed over. */
  ghost predicate Missed(data: seq<byte>, i: nat)
    requires i < |data|
  {
    data[i] == PB_START ==>
      && ReadWord(data, i + 1).Some?
      && var j := EndIndex(i, ReadWord(data, i + 1).value);
         0 <= j < |data| && data[j] != PB_END
  }

  ghost predicate AllMissed(data: seq<byte>, from: nat, to: nat)
    requires to <= |data|
  {
    forall k :: from <= k < to ==> Missed(data, k)
  }

  /** The scan reports the first candidate that is not missed, and what is wrong or right with it. */
  lemma {:induction false} ScanFindsFirst(data: seq<byte>, i: nat, write: nat)
    requires i <= write <= |data|
    ensures ScanFrom(data, i, write).NotFound? <==> AllMissed(data, i, write)
    ensures ScanFrom(data, i, write).Found? ==>
              var s := ScanFrom(data, i, write);
              && i <= s.start < write && data[s.start] == PB_START
              && s.end < |data| && data[s.end] == PB_END
              && ReadWord(data, s.start + 1) == Some(s.packageLen)
              && s.end == EndIndex(s.start, s.packageLen)
              && AllMissed(data, i, s.start)
    decreases write - i
  {
    hide ReadWord, EndIndex;
    if i < write && Missed(data, i) {
      ScanFindsFirst(data, i + 1, write);
    }
  }

  // ---------------------------------------------------------------- parsing fields

  datatype Fields = BadIndex | OffVectorField | Parsed(message: Message)

  function ParseFields(data: seq<byte>, start: nat, end: nat, packageLen: uint32): Fields {
    var msgIdLenIndex := Wrap32(start + 5);
    if msgIdLenIndex >= end then BadIndex else
    match ReadWord(data, msgIdLenIndex)
    case None => OffVectorField
    case Some(msgIdLen) =>
      var msgIdIndex := Wrap32(msgIdLenIndex + 4);
      match ReadBytes(data, msgIdIndex, msgIdLen)
      case None => OffVectorField
      case Some(msgId) =>
        ParseMethod(data, end, packageLen, msgId, Wrap32(msgIdIndex + msgIdLen))
  }

  function ParseMethod(data: seq<byte>, end: nat, packageLen: uint32, msgId: seq<byte>,
                       methodNameLenIndex: uint32): Fields
  {
    if methodNameLenIndex >= end then BadIndex else
    match ReadWord(data, methodNameLenIndex)
    case None => OffVectorField
    case Some(methodNameLen) =>
      var methodNameIndex := Wrap32(methodNameLenIndex + 4);
      match ReadBytes(data, methodNameIndex, methodNameLen)
      case None => OffVectorField
      case Some(methodName) =>
        ParseError(data, end, packageLen, msgId, methodName, Wrap32(methodNameIndex + methodNameLen))
  }

  function ParseError(data: seq<byte>, end: nat, packageLen: uint32, msgId: seq<byte>, methodName: seq<byte>,
                      errCodeIndex: uint32): Fields {
    if errCodeIndex >= end then BadIndex else
    match ReadWord(data, errCodeIndex)
    case None => OffVectorField
    case Some(errCode) =>
      var errInfoLenIndex := Wrap32(errCodeIndex + 4);
      if errInfoLenIndex >= end then BadIndex else
      match ReadWord(data, errInfoLenIndex)
      case None => OffVectorField
      case Some(errInfoLen) =>
        var errInfoIndex := Wrap32(errInfoLenIndex + 4);
        match ReadBytes(data, errInfoIndex, errInfoLen)
        case None => OffVectorField
        case Some(errInfo) =>
          var pbDataIndex := Wrap32(errInfoIndex + errInfoLen);
          var pbDataLen := Wrap32(packageLen - |msgId| - |methodName| - errInfoLen - 2 - 20);
          match ReadBytes(data, pbDataIndex, pbDataLen)
          case None => OffVectorField
          case Some(pbData) =>
            Parsed(Message(msgId, methodName, errCode, errInfo, pbData,
                           packageLen, Wrap32(|msgId|), Wrap32(|methodName|), errInfoLen))
  }

  /** The declared end in 32-bit arithmetic: too long a declaration makes the index negative, and a still
      longer one brings it back to the start of the vector. */
  lemma {:induction false} DeclaredEndWraps(start: nat, packageLen: uint32)
    requires start <= INT_MAX
    ensures var end := start + packageLen - 1;
            EndIndex(start, packageLen) == if end < 0x8000_0000 then end else end - 0x1_0000_0000
  {
  }

  /** When the parser gives up: a length or code word would start at or behind the end marker. */
  lemma {:induction false} ParserGivesUp(data: seq<byte>, start: nat, end: nat, packageLen: uint32)
    requires |data| <= INT_MAX && start < |data|
    ensures ParseFields(data, start, end, packageLen) == BadIndex <==>
              || start + 5 >= end
              || (exists a :: ReadWord(data, start + 5) == Some(a) && start + 9 + a <= |data|
                              && MethodGivesUp(data, start + 9 + a, end))
  {
    hide ReadWord, ParseMethod, MethodGivesUp;
    if ReadWord(data, start + 5).Some? {
      var a := ReadWord(data, start + 5).value;
      if start + 9 + a <= |data| {
        ParserGivesUpAtMethod(data, end, packageLen, data[start + 9..start + 9 + a], start + 9 + a);
      }
    }
  }

  ghost predicate MethodGivesUp(data: seq<byte>, at: nat, end: nat) {
    || at >= end
    || (exists b :: ReadWord(data, at) == Some(b) && at + 4 + b <= |data|
                    && (at + 4 + b >= end || (at + 8 + b <= |data| && at + 8 + b >= end)))
  }

  lemma {:induction false} ParserGivesUpAtMethod(data: seq<byte>, end: nat, packageLen: uint32, msgId: seq<byte>,
                                                 at: uint32)
    requires |data| <= INT_MAX && at <= |data|
    ensures ParseMethod(data, end, packageLen, msgId, at) == BadIndex <==> MethodGivesUp(data, at, end)
  {
  }

  // ---------------------------------------------------------------- frames inside a vector

  /** The bytes s stand in the vector at index i. */
  ghost predicate At(data: seq<byte>, i: nat, s: seq<byte>) {
    ReadBytes(data, i, |s|) == Some(s)
  }

  lemma {:induction false} AtBound(data: seq<byte>, i: nat, s: seq<byte>)
    requires At(data, i, s)
    ensures i + |s| <= |data|
  {
  }

  lemma {:induction false} AtConcat(data: seq<byte>, i: nat, a: seq<byte>, b: seq<byte>)
    ensures At(data, i, a + b) <==> At(data, i, a) && At(data, i + |a|, b)
  {
    if i + |a| + |b| <= |data| {
      assert data[i..i + |a + b|] == data[i..i + |a|] + data[i + |a|..i + |a| + |b|];
      assert (a + b)[..|a|] == a && (a + b)[|a|..] == b;
    }
  }

  lemma {:induction false} AtByte(data: seq<byte>, i: nat, b: byte)
    ensures At(data, i, [b]) <==> i < |data| && data[i] == b
  {
    if i < |data| {
      assert data[i..i + 1] == [data[i]];
    }
  }

  lemma {:induction false} AtWord(data: seq<byte>, i: nat, n: uint32)
    ensures At(data, i, NetBytes(n)) <==> ReadWord(data, i) == Some(n)
  {
    NetRoundTrip(n);
    if i + 4 <= |data| {
      NetBytesOfValue(data[i..i + 4]);
    }
  }

  lemma {:induction false} AtPrefixed(data: seq<byte>, i: nat, s: seq<byte>)
    requires |s| <= INT_MAX
    ensures At(data, i, Prefixed(s)) <==> ReadWord(data, i) == Some(|s|) && At(data, i + 4, s)
  {
    hide At, ReadWord, NetBytes;
    AtConcat(data, i, NetBytes(|s|), s);
    AtWord(data, i, |s|);
  }

  // What the parser sees of a frame that stands in the vector, part by part.

  ghost predicate ErrorLaid(data: seq<byte>, at: nat, m: Message) {
    var pbAt := at + 8 + |m.errInfo|;
    && ReadWord(data, at) == Some(m.errCode)
    && ReadWord(data, at + 4) == Some(|m.errInfo|) && At(data, at + 8, m.errInfo)
    && At(data, pbAt, m.pbData) && At(data, pbAt + |m.pbData|, [PB_END])
  }

  ghost predicate MethodLaid(data: seq<byte>, at: nat, m: Message) {
    && ReadWord(data, at) == Some(|m.methodName|) && At(data, at + 4, m.methodName)
    && ErrorLaid(data, at + 4 + |m.methodName|, m)
  }

  ghost predicate FrameLaid(data: seq<byte>, start: nat, m: Message) {
    && At(data, start, [PB_START]) && ReadWord(data, start + 1) == Some(FrameLen(m))
    && ReadWord(data, start + 5) == Some(|m.msgId|) && At(data, start + 9, m.msgId)
    && MethodLaid(data, start + 9 + |m.msgId|, m)
  }

  lemma {:induction false} ErrorPartIsLaid(data: seq<byte>, at: nat, m: Message)
    requires Fits(m)
    ensures At(data, at, ErrorPart(m)) <==> ErrorLaid(data, at, m)
  {
    hide At, ReadWord, NetBytes;
    AtConcat(data, at, NetBytes(m.errCode), Prefixed(m.errInfo) + (m.pbData + [PB_END]));
    AtConcat(data, at + 4, Prefixed(m.errInfo), m.pbData + [PB_END]);
    AtConcat(data, at + 8 + |m.errInfo|, m.pbData, [PB_END]);
    AtWord(data, at, m.errCode);
    AtPrefixed(data, at + 4, m.errInfo);
  }

  lemma {:induction false} FrameIsLaid(data: seq<byte>, start: nat, m: Message)
    requires Fits(m)
    ensures At(data, start, Frame(m)) <==> FrameLaid(data, start, m)
  {
    hide At, ReadWord, NetBytes;
    AtConcat(data, start, Header(m), Prefixed(m.msgId) + MethodPart(m));
    AtConcat(data, start, [PB_START], NetBytes(FrameLen(m)));
    AtWord(data, start + 1, FrameLen(m));
    AtConcat(data, start + 5, Prefixed(m.msgId), MethodPart(m));
    AtPrefixed(data, start + 5, m.msgId);
    var at := start + 9 + |m.msgId|;
    AtConcat(data, at, Prefixed(m.methodName), ErrorPart(m));
    AtPrefixed(data, at, m.methodName);
    ErrorPartIsLaid(data, at + 4 + |m.methodName|, m);
  }

  lemma {:induction false} LaidErrorParses(data: seq<byte>, end: nat, at: uint32, m: Message)
    requires Fits(m) && |data| <= INT_MAX && ErrorLaid(data, at, m)
    requires at + 8 + |m.errInfo| + |m.pbData| == end < |data|
    ensures ParseError(data, end, FrameLen(m), m.msgId, m.methodName, at) == Parsed(Stamped(m))
  {
    hide ReadWord, ReadBytes;
  }

  lemma {:induction false} LaidMethodParses(data: seq<byte>, end: nat, at: uint32, m: Message)
    requires Fits(m) && |data| <= INT_MAX && MethodLaid(data, at, m)
    requires at + 12 + |m.methodName| + |m.errInfo| + |m.pbData| == end < |data|
    ensures ParseMethod(data, end, FrameLen(m), m.msgId, at) == Parsed(Stamped(m))
  {
    hide ReadWord, ReadBytes, ParseError, ErrorLaid, Stamped;
    LaidErrorParses(data, end, at + 4 + |m.methodName|, m);
  }

  /** Parsing undoes printing, wherever in the vector the frame stands. */
  lemma {:induction false} ParseUndoesFrame(data: seq<byte>, start: nat, m: Message)
    requires Fits(m) && |data| <= INT_MAX && At(data, start, Frame(m))
    ensures start + FrameLen(m) <= |data|
    ensures ParseFields(data, start, start + FrameLen(m) - 1, FrameLen(m)) == Parsed(Stamped(m))
  {
    hide ReadWord, ReadBytes, Frame, ParseMethod, MethodLaid, Stamped;
    AtBound(data, start, Frame(m));
    FrameIsLaid(data, start, m);
    LaidMethodParses(data, start + FrameLen(m) - 1, start + 9 + |m.msgId|, m);
  }

  lemma {:induction false} ParsedErrorIsLaid(data: seq<byte>, end: nat, packageLen: uint32, msgId: seq<byte>,
                                             methodName: seq<byte>, at: uint32)
    requires |data| <= INT_MAX && end < |data| && data[end] == PB_END && 0 < packageLen
    requires |msgId| + |methodName| + 13 <= at && packageLen - 1 <= end
    requires ParseError(data, end, packageLen, msgId, methodName, at).Parsed?
    ensures var m := ParseError(data, end, packageLen, msgId, methodName, at).message;
            && m.msgId == msgId && m.methodName == methodName
            && packageLen == FrameLen(m) && m == Stamped(m)
            && (at + 8 + |m.errInfo| + |m.pbData| == end ==> ErrorLaid(data, at, m))
  {
    AtByte(data, end, PB_END);
    hide ReadWord;
  }

  lemma {:induction false} ParsedIsLaid(data: seq<byte>, start: nat, end: nat, packageLen: uint32)
    requires |data| <= INT_MAX && end < |data| && data[end] == PB_END
    requires start + packageLen - 1 == end && start + 5 < end
    requires ParseFields(data, start, end, packageLen).Parsed?
    requires At(data, start, [PB_START]) && ReadWord(data, start + 1) == Some(packageLen)
    ensures var m := ParseFields(data, start, end, packageLen).message;
            && m == Stamped(m) && packageLen == FrameLen(m) && FrameLaid(data, start, m)
  {
    hide ReadWord, ParseError, ErrorLaid;
    var msgIdLen := ReadWord(data, start + 5).value;
    var msgId := ReadBytes(data, start + 9, msgIdLen).value;
    var at := start + 9 + msgIdLen;
    assert ParseFields(data, start, end, packageLen) == ParseMethod(data, end, packageLen, msgId, at);
    var methodNameLen := ReadWord(data, at).value;
    var methodName := ReadBytes(data, at + 4, methodNameLen).value;
    var codeAt := at + 4 + methodNameLen;
    ParsedErrorIsLaid(data, end, packageLen, msgId, methodName, codeAt);
  }

  /** Whatever the parser accepts between a start marker and its end marker is the frame of the
      message it returns: the format has no second spelling. */
  lemma {:induction false} ParsedIsFrame(data: seq<byte>, start: nat, end: nat, packageLen: uint32)
    requires |data| <= INT_MAX && end < |data| && start < |data|
    requires data[start] == PB_START && data[end] == PB_END
    requires ReadWord(data, start + 1) == Some(packageLen) && end == EndIndex(start, packageLen)
    requires ParseFields(data, start, end, packageLen).Parsed?
    ensures var m := ParseFields(data, start, end, packageLen).message;
            && m == Stamped(m) && Fits(m) && m.packageLen == packageLen
            && end + 1 == start + FrameLen(m) && At(data, start, Frame(m))
  {
    AtByte(data, start, PB_START);
    hide ParseMethod, ReadWord, Frame;
    ParsedIsLaid(data, start, end, packageLen);
    FrameIsLaid(data, start, ParseFields(data, start, end, packageLen).message);
  }

  // ---------------------------------------------------------------- unique decoding

  predicate AllFit(ms: seq<Message>) {
    forall m <- ms :: Fits(m)
  }

  /** The declared length of a frame can be read before anything else of it. */
  lemma {:induction false} DeclaredLength(m: Message, rest: seq<byte>)
    requires Fits(m)
    ensures ReadWord(Frame(m) + rest, 1) == Some(FrameLen(m))
  {
    assert (Frame(m) + rest)[..|Frame(m)|] == Frame(m);
    hide Frame, ReadWord, MethodLaid;
    FrameIsLaid(Frame(m) + rest, 0, m);
  }

  lemma {:induction false} FrameParses(m: Message)
    requires Fits(m)
    ensures ParseFields(Frame(m), 0, FrameLen(m) - 1, FrameLen(m)) == Parsed(Stamped(m))
  {
    assert Frame(m)[0..|Frame(m)|] == Frame(m);
    hide Frame, ParseFields;
    ParseUndoesFrame(Frame(m), 0, m);
  }

  /** No frame is a proper prefix of another, and the frame determines the message. */
  lemma {:induction false} FramesArePrefixFree(a: Message, b: Message, s: seq<byte>, t: seq<byte>)
    requires Fits(a) && Fits(b) && Frame(a) + s == Frame(b) + t
    ensures Stamped(a) == Stamped(b) && s == t
  {
    hide Frame, ParseFields, ReadWord, Stamped;
    var data := Frame(a) + s;
    DeclaredLength(a, s);
    DeclaredLength(b, t);
    assert Frame(a) == data[..FrameLen(a)] == Frame(b);
    assert s == data[FrameLen(a)..] == t;
    FrameParses(a);
    FrameParses(b);
  }

  /** The bytes of a frame that has not fully arrived. */
  ghost predicate IsFragment(p: seq<byte>) {
    exists m :: Fits(m) && IsFragmentOf(p, m)
  }

  predicate IsFragmentOf(p: seq<byte>, m: Message) {
    p < Frame(m)
  }

  lemma {:induction false} FragmentHoldsNoFrame(p: seq<byte>, m: Message, rest: seq<byte>)
    requires IsFragment(p) && Fits(m)
    ensures p != Frame(m) + rest
  {
    var whole :| Fits(whole) && IsFragmentOf(p, whole);
    if p == Frame(m) + rest {
      var missing := Frame(whole)[|p|..];
      assert Frame(m) + (rest + missing) == Frame(whole) + [];
      FramesArePrefixFree(m, whole, rest + missing, []);
    }
  }

  /** A stream of frames followed by a fragment can be cut into frames in one way only. */
  lemma {:induction false} StreamsDecodeUniquely(ms: seq<Message>, p: seq<byte>, ns: seq<Message>, q: seq<byte>)
    requires AllFit(ms) && AllFit(ns) && IsFragment(p) && IsFragment(q)
    requires Frames(ms) + p == Frames(ns) + q
    ensures StampAll(ms) == StampAll(ns) && p == q
    decreases |ms|
  {
    hide Frame, Stamped, IsFragment;
    if ms == [] && ns == [] {
      assert p == Frames(ms) + p && q == Frames(ns) + q;
    } else if ms == [] {
      assert p == Frames(ms) + p;
      assert p == Frame(ns[0]) + (Frames(ns[1..]) + q);
      FragmentHoldsNoFrame(p, ns[0], Frames(ns[1..]) + q);
    } else if ns == [] {
      assert q == Frames(ns) + q;
      assert q == Frame(ms[0]) + (Frames(ms[1..]) + p);
      FragmentHoldsNoFrame(q, ms[0], Frames(ms[1..]) + p);
    } else {
      assert Frames(ms) + p == Frame(ms[0]) + (Frames(ms[1..]) + p);
      assert Frames(ns) + q == Frame(ns[0]) + (Frames(ns[1..]) + q);
      FramesArePrefixFree(ms[0], ns[0], Frames(ms[1..]) + p, Frames(ns[1..]) + q);
      StreamsDecodeUniquely(ms[1..], p, ns[1..], q);
    }
  }

  /** Frames at the head of a stream of frames are the first frames of that stream. */
  lemma {:induction false} StreamsPeel(ms: seq<Message>, rest: seq<byte>, all: seq<Message>, p: seq<byte>)
    requires AllFit(ms) && AllFit(all) && IsFragment(p)
    requires Frames(ms) + rest == Frames(all) + p
    ensures |ms| <= |all| && StampAll(ms) == StampAll(all[..|ms|]) && rest == Frames(all[|ms|..]) + p
    decreases |ms|
  {
    hide Frame, Stamped, IsFragment;
    if ms == [] {
      assert rest == Frames(ms) + rest;
      assert all[0..] == all;
    } else {
      assert Frames(ms) + rest == Frame(ms[0]) + (Frames(ms[1..]) + rest);
      if all == [] {
        assert p == Frames(all) + p;
        FragmentHoldsNoFrame(p, ms[0], Frames(ms[1..]) + rest);
      } else {
        assert Frames(all) + p == Frame(all[0]) + (Frames(all[1..]) + p);
        FramesArePrefixFree(ms[0], all[0], Frames(ms[1..]) + rest, Frames(all[1..]) + p);
        StreamsPeel(ms[1..], rest, all[1..], p);
        assert all[1..][..|ms| - 1] == all[..|ms|][1..] && all[1..][|ms| - 1..] == all[|ms|..];
      }
    }
  }

  lemma {:induction false} StampAllConcat(a: seq<Message>, b: seq<Message>)
    ensures StampAll(a + b) == StampAll(a) + StampAll(b)
    decreases |a|
  {
    if a == [] {
      assert a + b == b;
    } else {
      assert (a + b)[1..] == a[1..] + b;
      StampAllConcat(a[1..], b);
    }
  }

  lemma {:induction false} FramesLength(ms: seq<Message>)
    ensures |Frames(ms)| == TotalLen(ms)
    decreases |ms|
  {
    if ms != [] {
      FramesLength(ms[1..]);
    }
  }

  lemma {:induction false} SmallTotalFits(ms: seq<Message>)
    requires TotalLen(ms) <= INT_MAX
    ensures AllFit(ms)
    decreases |ms|
  {
    if ms != [] {
      SmallTotalFits(ms[1..]);
      assert ms == [ms[0]] + ms[1..];
    }
  }
}
