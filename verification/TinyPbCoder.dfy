/** The TinyPB coder: messages to frames in a buffer and back. */
module TinyPbCoders {
  import opened Bytes
  import opened Options
  import opened TcpBuffers
  import opened TinyPbFrames

  /** Why decoding ended. `Undefined`: the next step would index outside the vector, which the source
      language gives no meaning to, so the model stops there. */
  datatype Stop = Drained | NoFrame | BadFrame | Undefined

  datatype Turn = Ended(stop: Stop) | Took(message: Message, next: View)

  datatype Decoding = Decoding(messages: seq<Message>, rest: View, stop: Stop)

  /** A buffer small enough for the `int` and `uint32` arithmetic of the decoder. */
  ghost predicate Sound(v: View) {
    v.Ok() && |v.data| <= INT_MAX
  }

  /** One turn of the decoding loop. */
  function DecodeTurn(v: View): Turn
    requires v.Shape()
  {
    if v.read == v.write then Ended(Drained) else
    match ScanFrom(v.data, v.read, v.write)
    case NotFound => Ended(NoFrame)
    case OffVector => Ended(Undefined)
    case Found(start, end, packageLen) =>
      match ParseFields(v.data, start, end, packageLen)
      case BadIndex => Ended(BadFrame)
      case OffVectorField => Ended(Undefined)
      case Parsed(message) => Took(message, MovedRead(v, Wrap32(end - start + 1)))
  }

  /** The frame of m stands among the unread bytes, at index s of the vector. */
  ghost predicate FrameStands(v: View, s: nat, m: Message) {
    && m == Stamped(m) && Fits(m)
    && v.read <= s && s + FrameLen(m) <= v.write
    && At(v.data, s, Frame(m))
  }

  lemma {:induction false} FoundFrameStands(v: View, s: nat, end: nat, packageLen: uint32, m: Message)
    requires Sound(v) && v.read <= s < v.write && end < |v.data|
    requires v.data[s] == PB_START && v.data[end] == PB_END
    requires ReadWord(v.data, s + 1) == Some(packageLen) && end == EndIndex(s, packageLen)
    requires ParseFields(v.data, s, end, packageLen) == Parsed(m)
    ensures FrameStands(v, s, m) && FrameLen(m) == end - s + 1
  {
    hide ParseFields, Frame, ReadWord, At;
    ParsedIsFrame(v.data, s, end, packageLen);
  }

  /** A message is taken only for a frame that lies within the unread bytes, the first candidate that
      is not missed: the zero tail keeps the end marker of every accepted frame below the write index. */
  lemma {:induction false} TurnTakesAFrame(v: View, m: Message, next: View) returns (s: nat)
    requires Sound(v) && DecodeTurn(v) == Took(m, next)
    ensures FrameStands(v, s, m) && AllMissed(v.data, v.read, s)
    ensures next == MovedRead(v, FrameLen(m))
  {
    hide ParseFields, ScanFrom, ReadWord, MovedRead, FrameStands, AllMissed, Frame;
    ScanFindsFirst(v.data, v.read, v.write);
    var found := ScanFrom(v.data, v.read, v.write);
    s := found.start;
    FoundFrameStands(v, s, found.end, found.packageLen, m);
  }

  /** Taking a message moves the read index by the length of its frame, counted from where the index
      was; the move is never refused. */
  lemma {:induction false} TurnAdvances(v: View, m: Message, next: View)
    requires Sound(v) && DecodeTurn(v) == Took(m, next)
    ensures Sound(next) && |next.data| == |v.data|
    ensures FrameLen(m) <= |v.Unread()| && next.Unread() == v.Unread()[FrameLen(m)..]
  {
    var s := TurnTakesAFrame(v, m, next);
    hide DecodeTurn, MovedRead, At;
    MoveReadDropsPrefix(v, FrameLen(m));
  }

  /** The decoding loop. */
  function Decoded(v: View): Decoding
    requires Sound(v)
    decreases |v.Unread()|
  {
    match DecodeTurn(v)
    case Ended(stop) => Decoding([], v, stop)
    case Took(message, next) =>
      TurnAdvances(v, message, next);
      Decoded(next).(messages := [message] + Decoded(next).messages)
  }

  // ---------------------------------------------------------------- whole frames

  lemma {:induction false} FrameEnds(data: seq<byte>, i: nat, m: Message)
    requires At(data, i, Frame(m))
    ensures i + FrameLen(m) <= |data| && data[i] == PB_START && data[i + FrameLen(m) - 1] == PB_END
  {
    var f := data[i..i + |Frame(m)|];
    assert f[0] == data[i] && f[|f| - 1] == data[i + |f| - 1];
  }

  lemma {:induction false} ScanHitsHead(v: View, m: Message)
    requires v.Shape() && |v.data| <= INT_MAX && Fits(m)
    requires At(v.data, v.read, Frame(m)) && v.read + FrameLen(m) <= v.write
    ensures ScanFrom(v.data, v.read, v.write) == Found(v.read, v.read + FrameLen(m) - 1, FrameLen(m))
  {
    hide At, Frame, ReadWord, MethodLaid;
    FrameEnds(v.data, v.read, m);
    FrameIsLaid(v.data, v.read, m);
  }

  lemma {:induction false} HeadStands(v: View, s: seq<byte>)
    requires v.Shape() && s <= v.Unread()
    ensures At(v.data, v.read, s) && v.read + |s| <= v.write
  {
    assert s == v.Unread()[..|s|] == v.data[v.read..v.read + |s|];
  }

  lemma {:induction false} StandingFrameIsTaken(v: View, m: Message)
    requires Sound(v) && Fits(m) && At(v.data, v.read, Frame(m)) && v.read + FrameLen(m) <= v.write
    ensures DecodeTurn(v) == Took(Stamped(m), MovedRead(v, FrameLen(m)))
  {
    hide ScanFrom, ParseFields, Frame, At, MovedRead, Stamped;
    ScanHitsHead(v, m);
    ParseUndoesFrame(v.data, v.read, m);
  }

  /** A frame at the head of the unread bytes is taken, whatever follows it. */
  lemma {:induction false} HeadFrameIsTaken(v: View, m: Message)
    requires Sound(v) && Fits(m) && Frame(m) <= v.Unread()
    ensures DecodeTurn(v) == Took(Stamped(m), MovedRead(v, FrameLen(m)))
    ensures Sound(MovedRead(v, FrameLen(m))) && |MovedRead(v, FrameLen(m)).data| == |v.data|
    ensures MovedRead(v, FrameLen(m)).Unread() == v.Unread()[FrameLen(m)..]
    ensures MovedRead(v, FrameLen(m)).read <= v.read + FrameLen(m)
  {
    HeadStands(v, Frame(m));
    MoveReadDropsPrefix(v, FrameLen(m));
    hide DecodeTurn, Frame, At, MovedRead, Stamped;
    StandingFrameIsTaken(v, m);
  }

  /** The view once the frames of ms have been taken one by one. */
  function AfterFrames(v: View, ms: seq<Message>): (w: View)
    requires v.Shape()
    ensures w.Shape()
    decreases |ms|
  {
    if ms == [] then v else AfterFrames(MovedRead(v, FrameLen(ms[0])), ms[1..])
  }

  function Prepend(ms: seq<Message>, d: Decoding): Decoding {
    d.(messages := ms + d.messages)
  }

  lemma {:induction false} DecodedUnfolds(v: View, m: Message, next: View)
    requires Sound(v) && DecodeTurn(v) == Took(m, next)
    ensures Sound(next) && Decoded(v) == Prepend([m], Decoded(next))
  {
    TurnAdvances(v, m, next);
  }

  lemma {:induction false} PrependTwice(a: seq<Message>, b: seq<Message>, d: Decoding)
    ensures Prepend(a, Prepend(b, d)) == Prepend(a + b, d)
    ensures Prepend([], d) == d
  {
    assert a + (b + d.messages) == a + b + d.messages;
    assert [] + d.messages == d.messages;
  }

  lemma {:induction false} FramesUnfold(ms: seq<Message>, rest: seq<byte>)
    requires ms != []
    ensures Frames(ms) + rest == Frame(ms[0]) + (Frames(ms[1..]) + rest)
    ensures (Frames(ms) + rest)[FrameLen(ms[0])..] == Frames(ms[1..]) + rest
    ensures Frame(ms[0]) <= Frames(ms) + rest
  {
    assert Frames(ms) + rest == Frame(ms[0]) + (Frames(ms[1..]) + rest);
  }

  /** Whole frames at the head of the unread bytes are decoded in order; decoding then goes on as if it
      had started behind them. */
  lemma {:induction false} WholeFramesDecode(v: View, ms: seq<Message>, rest: seq<byte>)
    requires Sound(v) && AllFit(ms) && v.Unread() == Frames(ms) + rest
    ensures var w := AfterFrames(v, ms);
            && Sound(w) && |w.data| == |v.data| && w.Unread() == rest
            && w.read <= v.read + |Frames(ms)|
            && Decoded(v) == Prepend(StampAll(ms), Decoded(w))
    decreases |ms|
  {
    if ms == [] {
      assert Frames(ms) + rest == rest;
      PrependTwice([], [], Decoded(v));
    } else {
      hide DecodeTurn, Decoded, MovedRead, Stamped, Frame, Prepend;
      var next := MovedRead(v, FrameLen(ms[0]));
      FramesUnfold(ms, rest);
      HeadFrameIsTaken(v, ms[0]);
      DecodedUnfolds(v, Stamped(ms[0]), next);
      WholeFramesDecode(next, ms[1..], rest);
      PrependTwice([Stamped(ms[0])], StampAll(ms[1..]), Decoded(AfterFrames(v, ms)));
    }
  }

  // ---------------------------------------------------------------- conservation and provenance

  /** The bytes f stand somewhere in s. */
  ghost predicate Occurs(f: seq<byte>, s: seq<byte>) {
    exists i: nat :: At(s, i, f)
  }

  lemma {:induction false} OccursInSuffix(f: seq<byte>, s: seq<byte>, n: nat)
    requires n <= |s| && Occurs(f, s[n..])
    ensures Occurs(f, s)
  {
    var i: nat :| At(s[n..], i, f);
    assert s[n..][i..i + |f|] == s[n + i..n + i + |f|];
    assert At(s, n + i, f);
  }

  lemma {:induction false} BlockOccurs(v: View, s: nat, f: seq<byte>)
    requires v.Shape() && v.read <= s && s + |f| <= v.write && At(v.data, s, f)
    ensures Occurs(f, v.Unread())
  {
    assert v.Unread()[s - v.read..s - v.read + |f|] == v.data[s..s + |f|];
    assert At(v.Unread(), s - v.read, f);
  }

  lemma {:induction false} TakenFrameOccurs(v: View, m: Message, next: View)
    requires Sound(v) && DecodeTurn(v) == Took(m, next)
    ensures Occurs(Frame(m), v.Unread())
  {
    hide DecodeTurn, Frame, At, MovedRead, Occurs, Stamped;
    var s := TurnTakesAFrame(v, m, next);
    BlockOccurs(v, s, Frame(m));
  }

  /** For any content at all: decoding consumes exactly the total length of the messages it returns,
      garbage or not; every message is stamped with its own lengths, and its frame is a block of the
      unread bytes. */
  lemma {:induction false} DecodingConserves(v: View)
    requires Sound(v)
    ensures var d := Decoded(v);
            && Sound(d.rest) && |d.rest.data| == |v.data|
            && TotalLen(d.messages) <= |v.Unread()|
            && d.rest.Unread() == v.Unread()[TotalLen(d.messages)..]
    ensures forall m <- Decoded(v).messages :: m == Stamped(m) && Fits(m) && Occurs(Frame(m), v.Unread())
    decreases |v.Unread()|
  {
    hide Frame, Stamped;
    match DecodeTurn(v)
    case Ended(_) =>
    case Took(m, next) =>
      var s := TurnTakesAFrame(v, m, next);
      TakenFrameOccurs(v, m, next);
      TurnAdvances(v, m, next);
      DecodingConserves(next);
      hide DecodeTurn;
      forall k <- Decoded(next).messages ensures Occurs(Frame(k), v.Unread()) {
        OccursInSuffix(Frame(k), v.Unread(), FrameLen(m));
      }
      assert Decoded(v).messages == [m] + Decoded(next).messages;
  }

  // ---------------------------------------------------------------- fragments

  /** The index the decoder computes for the end marker of the head candidate lies in the vector. */
  predicate HeadEndInside(v: View)
    requires v.Shape()
  {
    match ReadWord(v.data, v.read + 1)
    case None => false
    case Some(packageLen) => 0 <= EndIndex(v.read, packageLen) < |v.data|
  }

  /** A fragment that holds its length word declares the length of its frame. */
  lemma {:induction false} FragmentDeclares(v: View, p: seq<byte>, m: Message)
    requires Sound(v) && Fits(m) && IsFragmentOf(p, m) && v.Unread() == p && 5 <= |p|
    ensures ReadWord(v.data, v.read + 1) == Some(FrameLen(m))
  {
    DeclaredLength(m, []);
    assert Frame(m) + [] == Frame(m);
    SliceOfSlice(v.data, v.read, v.write, 1, 5);
    SliceOfSlice(Frame(m), 0, |p|, 1, 5);
  }

  /** The candidate at s is not passed over: its declared end lies in the vector and holds the end marker;
      but its fields do not fit in front of that marker. */
  ghost predicate Broken(data: seq<byte>, s: nat)
    requires s < |data|
  {
    data[s] == PB_START &&
    match ReadWord(data, s + 1)
    case None => false
    case Some(packageLen) =>
      var j := EndIndex(s, packageLen);
      0 <= j < |data| && data[j] == PB_END && ParseFields(data, s, j, packageLen) == BadIndex
  }

  ghost predicate FirstIsBroken(v: View)
    requires v.Shape()
  {
    exists s :: v.read <= s < v.write && AllMissed(v.data, v.read, s) && Broken(v.data, s)
  }

  /** Every start marker among the unread bytes is passed over, or the first that is not is broken. */
  ghost predicate Waits(v: View)
    requires v.Shape()
  {
    AllMissed(v.data, v.read, v.write) || FirstIsBroken(v)
  }

  /** Candidates that are passed over do not influence the scan. */
  lemma {:induction false} ScanSkips(data: seq<byte>, i: nat, k: nat, write: nat)
    requires i <= k <= write <= |data| && AllMissed(data, i, k)
    ensures ScanFrom(data, i, write) == ScanFrom(data, k, write)
    decreases k - i
  {
    if i < k {
      assert Missed(data, i);
      ScanSkips(data, i + 1, k, write);
    }
  }

  lemma {:induction false} FirstBrokenIsFound(v: View, s: nat)
    requires v.Shape() && v.read <= s < v.write && AllMissed(v.data, v.read, s) && Broken(v.data, s)
    ensures DecodeTurn(v) == Ended(BadFrame)
  {
    hide ReadWord, EndIndex, ParseFields, MovedRead, AllMissed;
    ScanSkips(v.data, v.read, s, v.write);
  }

  /** Whatever the unread bytes are: they are left for the bytes still to come exactly when every start
      marker among them is passed over or the first that is not is broken. Otherwise the turn takes a
      message or steps outside the vector. */
  lemma {:induction false} BytesAreLeft(v: View)
    requires v.Shape() && v.Unread() != []
    ensures DecodeTurn(v) == Ended(NoFrame) <==> AllMissed(v.data, v.read, v.write)
    ensures DecodeTurn(v) == Ended(BadFrame) <==> FirstIsBroken(v)
    ensures DecodeTurn(v) in {Ended(NoFrame), Ended(BadFrame)} <==> Waits(v)
    ensures DecodeTurn(v).Took? || DecodeTurn(v) == Ended(Undefined) <==> !Waits(v)
  {
    hide ReadWord, EndIndex, ParseFields, MovedRead, AllMissed, ScanFrom;
    ScanFindsFirst(v.data, v.read, v.write);
    if s :| v.read <= s < v.write && AllMissed(v.data, v.read, s) && Broken(v.data, s) {
      FirstBrokenIsFound(v, s);
    }
    if DecodeTurn(v) == Ended(BadFrame) {
      assert Broken(v.data, ScanFrom(v.data, v.read, v.write).start);
    }
  }

  lemma {:induction false} FragmentHead(v: View, p: seq<byte>, m: Message)
    requires v.Shape() && v.Unread() == p != [] && IsFragmentOf(p, m)
    ensures v.data[v.read] == PB_START
  {
    assert v.data[v.read] == p[0] == Frame(m)[0];
  }

  /** If the end that a fragment declares holds an end marker, that marker is among the bytes of its own
      length word, so that the fragment is broken. */
  lemma {:induction false} HeadHitsItself(v: View, p: seq<byte>, m: Message, packageLen: uint32)
    requires Sound(v) && Fits(m) && IsFragmentOf(p, m) && v.Unread() == p != []
    requires ReadWord(v.data, v.read + 1) == Some(packageLen) && 0 <= EndIndex(v.read, packageLen) < |v.data|
    requires v.data[EndIndex(v.read, packageLen)] == PB_END
    ensures EndIndex(v.read, packageLen) <= v.read + 5
  {
    hide ReadWord, Frame;
    if 5 <= |p| {
      FragmentDeclares(v, p, m);
    }
  }

  lemma {:induction false} HeadInsideWaits(v: View, p: seq<byte>, m: Message)
    requires Sound(v) && Fits(m) && IsFragmentOf(p, m) && v.Unread() == p != []
    requires AllMissed(v.data, v.read + 1, v.write) && HeadEndInside(v)
    ensures Waits(v)
  {
    FragmentHead(v, p, m);
    hide Frame, AllMissed, EndIndex;
    var packageLen := ReadWord(v.data, v.read + 1).value;
    if v.data[EndIndex(v.read, packageLen)] == PB_END {
      HeadHitsItself(v, p, m, packageLen);
      NoneAreMissed(v.data, v.read);
      assert Broken(v.data, v.read);
    } else {
      AllMissedFrom(v.data, v.read, v.write);
    }
  }

  lemma {:induction false} HeadOutsideIsUndefined(v: View)
    requires v.Shape() && v.Unread() != [] && v.data[v.read] == PB_START && !HeadEndInside(v)
    ensures DecodeTurn(v) == Ended(Undefined)
  {
    hide EndIndex, ParseFields, MovedRead;
  }

  /** A fragment without a second start marker is never taken, not even in part: it waits exactly when
      the declared end lies inside the vector, and the turn steps outside the vector otherwise. */
  lemma {:induction false} FragmentWaits(v: View, p: seq<byte>)
    requires Sound(v) && v.Unread() == p != []
    requires IsFragment(p) && PB_START !in p[1..]
    ensures Waits(v) <==> HeadEndInside(v)
    ensures !HeadEndInside(v) ==> DecodeTurn(v) == Ended(Undefined)
  {
    hide AllMissed, HeadEndInside, Waits, DecodeTurn;
    var m :| Fits(m) && IsFragmentOf(p, m);
    if HeadEndInside(v) {
      assert v.data[v.read + 1..v.write] == p[1..];
      NoMarkerAllMissed(v.data, v.read + 1, v.write);
      HeadInsideWaits(v, p, m);
    } else {
      FragmentHead(v, p, m);
      HeadOutsideIsUndefined(v);
      BytesAreLeft(v);
    }
  }

  lemma {:induction false} NoneAreMissed(data: seq<byte>, at: nat)
    requires at <= |data|
    ensures AllMissed(data, at, at)
  {
  }

  lemma {:induction false} NoMarkerAllMissed(data: seq<byte>, from: nat, to: nat)
    requires from <= to <= |data| && PB_START !in data[from..to]
    ensures AllMissed(data, from, to)
  {
    forall k | from <= k < to ensures Missed(data, k) {
      assert data[k] == data[from..to][k - from];
    }
  }

  lemma {:induction false} AllMissedFrom(data: seq<byte>, from: nat, to: nat)
    requires from < to <= |data| && Missed(data, from) && AllMissed(data, from + 1, to)
    ensures AllMissed(data, from, to)
  {
  }

  /** With its length word there, the fragment waits exactly when its whole frame has room behind it. */
  lemma {:induction false} WaitingNeedsRoom(v: View, p: seq<byte>, m: Message)
    requires Sound(v) && Fits(m) && IsFragmentOf(p, m) && v.Unread() == p && 5 <= |p|
    ensures HeadEndInside(v) <==> v.read + FrameLen(m) <= |v.data|
  {
    FragmentDeclares(v, p, m);
  }

  /** What an arrival may end with so that decoding can resume: nothing, or a fragment that waits. */
  ghost predicate Resumable(v: View, p: seq<byte>)
    requires v.Shape()
  {
    p == [] || (IsFragment(p) && Waits(v))
  }

  /** The unread bytes are whole frames and then p, and decoding can resume behind the frames. */
  ghost predicate Splits(v: View, ms: seq<Message>, p: seq<byte>)
    requires v.Shape()
  {
    AllFit(ms) && v.Unread() == Frames(ms) + p && Resumable(AfterFrames(v, ms), p)
  }

  /** Whole frames and then any other bytes, in particular any fragment: exactly the whole frames are
      decoded, without stepping outside the vector, if and only if nothing follows them or what follows
      waits; and then exactly what follows is left. */
  lemma {:induction false} FragmentDecides(v: View, ms: seq<Message>, p: seq<byte>)
    requires Sound(v) && AllFit(ms) && v.Unread() == Frames(ms) + p
    ensures var d, w := Decoded(v), AfterFrames(v, ms);
            && (d.stop != Undefined && d.messages == StampAll(ms) <==> p == [] || Waits(w))
            && (p == [] || Waits(w) ==> d.rest == w && w.Unread() == p && (d.stop == Drained <==> p == []))
  {
    hide DecodeTurn, Waits;
    WholeFramesDecode(v, ms, p);
    var w := AfterFrames(v, ms);
    assert StampAll(ms) + [] == StampAll(ms);
    if p == [] {
      EmptyIsDrained(w);
    } else {
      BytesAreLeft(w);
      if DecodeTurn(w).Took? {
        DecodedUnfolds(w, DecodeTurn(w).message, DecodeTurn(w).next);
      }
    }
  }

  lemma {:induction false} FragmentIsLeft(v: View, ms: seq<Message>, p: seq<byte>)
    requires Sound(v) && Splits(v, ms, p)
    ensures Decoded(v).messages == StampAll(ms)
    ensures Decoded(v).rest == AfterFrames(v, ms) && Decoded(v).rest.Unread() == p
    ensures Decoded(v).stop != Undefined && (Decoded(v).stop == Drained <==> p == [])
  {
    hide Waits, Decoded;
    FragmentDecides(v, ms, p);
  }

  lemma {:induction false} ShortHead(p: seq<byte>, m: Message)
    requires IsFragmentOf(p, m) && 0 < |p| < 5 && FrameLen(m) < 0x100
    ensures p[0] == PB_START && forall k | 0 < k < |p| :: p[k] == 0
  {
    SmallNetBytes(FrameLen(m));
    var f := Frame(m);
    assert f[..5] == Header(m);
    forall k | 0 < k < |p| ensures p[k] == 0 {
      assert p[k] == f[..5][k];
    }
  }

  lemma {:induction false} ZeroWord(data: seq<byte>)
    requires |data| >= 5 ==> data[1] == data[2] == data[3] == data[4] == 0
    ensures ReadWord(data, 1) == if |data| >= 5 then Some(0) else None
  {
    if |data| >= 5 {
      ZeroSlice(data, 1);
    }
  }

  lemma {:induction false} ZeroSlice(data: seq<byte>, at: nat)
    requires at + 4 <= |data| && data[at] == data[at + 1] == data[at + 2] == data[at + 3] == 0
    ensures data[at..at + 4] == [0, 0, 0, 0]
  {
  }

  lemma {:induction false} ZeroWordIsOutside(v: View)
    requires v.Shape() && v.read == 0 && forall k | 0 < k < |v.data| :: v.data[k] == 0
    ensures !HeadEndInside(v)
  {
    ZeroWord(v.data);
    hide ReadWord;
  }

  /** The first bytes of a short frame, alone at the start of the buffer and without the length word,
      make the decoder look in front of the vector. */
  lemma {:induction false} ShortFragmentIsUndefined(v: View, p: seq<byte>, m: Message)
    requires Sound(v) && v.Unread() == p && v.read == 0 && 0 < |p| < 5
    requires IsFragmentOf(p, m) && FrameLen(m) < 0x100
    ensures DecodeTurn(v) == Ended(Undefined)
  {
    hide Frame, DecodeTurn, HeadEndInside, IsFragmentOf;
    ShortHead(p, m);
    forall k | 0 < k < |v.data| ensures v.data[k] == 0 {
      if k < v.write {
        assert v.data[k] == p[k];
      }
    }
    ZeroWordIsOutside(v);
    assert v.data[0] == p[0];
    HeadOutsideIsUndefined(v);
  }

  lemma {:induction false} EmptyIsDrained(v: View)
    requires v.Shape() && v.Unread() == []
    ensures DecodeTurn(v) == Ended(Drained)
  {
  }

  /** Once the missing bytes arrive, the next decoding yields the frame they complete and goes on with
      what follows it. */
  lemma {:induction false} MissingBytesResume(v: View, w: View, missing: seq<byte>, ms: seq<Message>, q: seq<byte>)
    requires w.Shape() && AllFit(ms) && Resumable(AfterFrames(w, ms), q)
    requires v.Ok() && v.Unread() + missing == Frames(ms) + q
    requires |v.data| > 0 && |w.data| <= INT_MAX && w == Absorb(v, missing)
    ensures Sound(w) && Decoded(w).messages == StampAll(ms)
    ensures Decoded(w).rest == AfterFrames(w, ms) && AfterFrames(w, ms).Unread() == q
  {
    AbsorbAppends(v, missing);
    FragmentIsLeft(w, ms, q);
  }

  // ---------------------------------------------------------------- round trip

  function WrittenAll(v: View, ms: seq<Message>): View
    requires v.Ok()
    decreases |ms|
  {
    if ms == [] then v else
      WriteAppends(v, Frame(ms[0]));
      WrittenAll(Written(v, Frame(ms[0])), ms[1..])
  }

  /** Encoding appends the frames of the messages, in order. */
  lemma {:induction false} EncodingAppends(v: View, ms: seq<Message>)
    requires v.Ok()
    ensures var w := WrittenAll(v, ms);
            && w.Ok() && w.Unread() == v.Unread() + Frames(ms)
            && w.write <= v.write + TotalLen(ms)
            && (|w.data| == |v.data| || |w.data| <= Half(v.write + TotalLen(ms)))
    decreases |ms|
  {
    hide Written, Frame;
    if ms == [] {
      assert v.Unread() + Frames(ms) == v.Unread();
    } else {
      WriteAppends(v, Frame(ms[0]));
      EncodingAppends(Written(v, Frame(ms[0])), ms[1..]);
      assert v.Unread() + Frames(ms) == v.Unread() + Frame(ms[0]) + Frames(ms[1..]);
    }
  }

  /** Decoding undoes encoding in every legal buffer without unread bytes, although growth and
      compaction may move the data between frames, and nothing is left behind. */
  lemma {:induction false} RoundTrip(v: View, ms: seq<Message>)
    requires Sound(v) && v.Unread() == [] && AllFit(ms)
    requires Half(v.write + TotalLen(ms)) <= INT_MAX
    ensures Sound(WrittenAll(v, ms))
    ensures var d := Decoded(WrittenAll(v, ms));
            d.messages == StampAll(ms) && d.stop == Drained && d.rest.Shape() && d.rest.Unread() == []
  {
    hide WrittenAll, DecodeTurn;
    EncodingAppends(v, ms);
    var w := WrittenAll(v, ms);
    assert w.Unread() == Frames(ms) + [];
    FragmentIsLeft(w, ms, []);
  }

  // ---------------------------------------------------------------- what resynchronising does

  lemma {:induction false} BehindGarbage(v: View, garbage: seq<byte>, tail: seq<byte>)
    requires v.Shape() && v.Unread() == garbage + tail
    ensures v.read + |garbage| <= v.write && v.data[v.read..v.read + |garbage|] == garbage
    ensures v.(read := v.read + |garbage|).Unread() == tail
  {
    var n := |garbage|;
    assert v.data[v.read..v.read + n] == v.Unread()[..n] == garbage;
    assert v.data[v.read + n..v.write] == v.Unread()[n..] == tail;
  }

  lemma {:induction false} SkippedFrameIsTaken(v: View, garbage: seq<byte>, m: Message, rest: seq<byte>)
    requires Sound(v) && Fits(m) && v.Unread() == garbage + (Frame(m) + rest)
    requires AllMissed(v.data, v.read, v.read + |garbage|)
    ensures DecodeTurn(v) == Took(Stamped(m), MovedRead(v, FrameLen(m)))
  {
    hide DecodeTurn, ScanFrom, Frame, At, MovedRead, Stamped, AllMissed;
    var skipped := v.(read := v.read + |garbage|);
    BehindGarbage(v, garbage, Frame(m) + rest);
    HeadStands(skipped, Frame(m));
    ScanSkips(v.data, v.read, v.read + |garbage|, v.write);
    SkippedFrameParses(v, skipped, m);
  }

  /** Bytes in front of a frame whose start markers are all passed over are skipped, but the read index
      moves by the frame's length only: as many bytes of the stream as were skipped are looked at again.
      The next turn starts right behind the frame exactly when nothing was skipped. */
  lemma {:induction false} SkippedBytesShift(v: View, garbage: seq<byte>, m: Message, rest: seq<byte>)
    requires Sound(v) && Fits(m) && v.Unread() == garbage + (Frame(m) + rest)
    requires AllMissed(v.data, v.read, v.read + |garbage|)
    ensures DecodeTurn(v) == Took(Stamped(m), MovedRead(v, FrameLen(m)))
    ensures MovedRead(v, FrameLen(m)).Unread() == (garbage + (Frame(m) + rest))[FrameLen(m)..]
    ensures MovedRead(v, FrameLen(m)).Unread() == rest <==> garbage == []
  {
    SkippedFrameIsTaken(v, garbage, m, rest);
    hide DecodeTurn, Frame, MovedRead, Stamped;
    MoveReadDropsPrefix(v, FrameLen(m));
    assert |garbage + (Frame(m) + rest)| == |garbage| + FrameLen(m) + |rest|;
    if garbage == [] {
      assert (garbage + (Frame(m) + rest))[FrameLen(m)..] == rest;
    }
  }

  /** What the decoder makes of a frame behind other bytes, exactly: the scan finds it, and nothing before it,
      if and only if every start marker in front of it is passed over. */
  lemma {:induction false} FrameBehindIsFound(v: View, front: seq<byte>, m: Message, rest: seq<byte>)
    requires Sound(v) && Fits(m) && v.Unread() == front + (Frame(m) + rest)
    ensures v.read + |front| < v.write
    ensures ScanFrom(v.data, v.read, v.write)
            == Found(v.read + |front|, v.read + |front| + FrameLen(m) - 1, FrameLen(m))
            <==> AllMissed(v.data, v.read, v.read + |front|)
  {
    hide Frame, At, AllMissed, ReadWord, EndIndex;
    var skipped := v.(read := v.read + |front|);
    BehindGarbage(v, front, Frame(m) + rest);
    HeadStands(skipped, Frame(m));
    ScanHitsHead(skipped, m);
    ScanFindsFirst(v.data, v.read, v.write);
    if AllMissed(v.data, v.read, v.read + |front|) {
      ScanSkips(v.data, v.read, v.read + |front|, v.write);
    }
  }

  /** A request that was cut, and the next one behind it: the next request's frame is found where it stands if
      and only if the start markers in the cut part are all passed over. Then that request is served; but as
      many bytes of its frame as the cut part has are left in front of everything to come. */
  lemma {:induction false} CutRequestShifts(v: View, cut: seq<byte>, m: Message)
    requires Sound(v) && IsFragment(cut) && cut != [] && Fits(m) && v.Unread() == cut + Frame(m)
    ensures v.read + |cut| < v.write
    ensures ScanFrom(v.data, v.read, v.write) == Found(v.read + |cut|, v.read + |cut| + FrameLen(m) - 1, FrameLen(m))
            <==> AllMissed(v.data, v.read, v.read + |cut|)
    ensures AllMissed(v.data, v.read, v.read + |cut|) ==>
              var next := MovedRead(v, FrameLen(m));
              && DecodeTurn(v) == Took(Stamped(m), next)
              && next.Unread() == (cut + Frame(m))[FrameLen(m)..] && |next.Unread()| == |cut|
  {
    hide Frame, AllMissed, DecodeTurn, MovedRead, Stamped, ScanFrom, IsFragment;
    assert v.Unread() == cut + (Frame(m) + []) by { assert Frame(m) + [] == Frame(m); }
    FrameBehindIsFound(v, cut, m, []);
    if AllMissed(v.data, v.read, v.read + |cut|) {
      SkippedBytesShift(v, cut, m, []);
      assert Frame(m) + [] == Frame(m);
    }
  }

  lemma {:induction false} PlainFlat(pbData: seq<byte>)
    requires Fits(Plain(pbData))
    ensures Frame(Plain(pbData)) == [PB_START] + NetBytes(22 + |pbData|) + Zeros(16) + pbData + [PB_END]
  {
    SmallNetBytes(0);
    FrameFlat(Plain(pbData));
    assert NetBytes(0) == Zeros(4);
    assert Zeros(4) + Zeros(4) + Zeros(4) + Zeros(4) == Zeros(16);
  }

  lemma {:induction false} MixtureIsFrame(pbData: seq<byte>, k: nat, m: Message)
    requires k < |pbData| && Fits(Plain(pbData)) && FrameLen(m) == |pbData| - k + 1
    ensures var mixed := pbData[..k] + Frame(m)[..|pbData| - k];
            && |mixed| == |pbData|
            && Frame(Plain(pbData))[..21 + k] + Frame(m) == Frame(Plain(mixed))
  {
    var mixed := pbData[..k] + Frame(m)[..|pbData| - k];
    var head := [PB_START] + NetBytes(22 + |pbData|) + Zeros(16);
    PlainFlat(pbData);
    PlainFlat(mixed);
    assert |head| == 21;
    assert Frame(Plain(pbData))[..21 + k] == head + pbData[..k];
    assert Frame(m) == Frame(m)[..|pbData| - k] + [PB_END] by {
      assert Frame(m)[|Frame(m)| - 1] == PB_END;
    }
    hide Frame, NetBytes;
    assert head + pbData[..k] + Frame(m) == head + mixed + [PB_END];
  }

  /** Otherwise the two can melt into one: a request cut inside its payload, and a next one whose frame is as
      long as what was cut off. The decoder returns a message that is neither. */
  lemma {:induction false} CutRequestMixes(v: View, pbData: seq<byte>, k: nat, m: Message)
    requires k < |pbData| && Fits(Plain(pbData)) && FrameLen(m) == |pbData| - k + 1
    requires Sound(v) && v.Unread() == Frame(Plain(pbData))[..21 + k] + Frame(m)
    ensures DecodeTurn(v).Took?
    ensures DecodeTurn(v).message == Stamped(Plain(pbData[..k] + Frame(m)[..|pbData| - k]))
  {
    MixtureIsFrame(pbData, k, m);
    hide DecodeTurn, Frame, MovedRead, Stamped;
    var mixed := Plain(pbData[..k] + Frame(m)[..|pbData| - k]);
    assert Frame(mixed) <= v.Unread();
    HeadFrameIsTaken(v, mixed);
  }

  lemma {:induction false} SkippedFrameParses(v: View, skipped: View, m: Message)
    requires Sound(v) && Fits(m) && v.read <= skipped.read && skipped == v.(read := skipped.read)
    requires At(v.data, skipped.read, Frame(m)) && skipped.read + FrameLen(m) <= v.write
    requires ScanFrom(v.data, v.read, v.write) == ScanFrom(v.data, skipped.read, v.write)
    ensures DecodeTurn(v) == Took(Stamped(m), MovedRead(v, FrameLen(m)))
  {
    hide ScanFrom, ParseFields, Frame, At, MovedRead, Stamped;
    ScanHitsHead(skipped, m);
    ParseUndoesFrame(v.data, skipped.read, m);
  }

  function Plain(pbData: seq<byte>): Message {
    Message([], [], 0, [], pbData, 0, 0, 0, 0)
  }

  /** All but the last byte of a frame whose payload is itself a frame, in a buffer of 64 bytes. */
  function NestedFragment(): View {
    var whole := Frame(Plain(Frame(Plain([]))));
    View(whole[..43] + Zeros(21), 0, 43)
  }

  lemma {:induction false} PlainHeader(pbData: seq<byte>)
    requires 22 + |pbData| < 0x100
    ensures Frame(Plain(pbData)) == [PB_START, 0, 0, 0, 22 + |pbData|] + Zeros(16) + pbData + [PB_END]
  {
    SmallNetBytes(22 + |pbData|);
    SmallNetBytes(0);
  }

  /** Without the condition on start markers a fragment can be misread: here decoding returns a message
      that nobody sent as one, namely the frame inside the payload. */
  lemma {:induction false} FragmentMisread()
    ensures var v := NestedFragment();
            && Sound(v) && IsFragmentOf(v.Unread(), Plain(Frame(Plain([]))))
            && DecodeTurn(v).Took? && DecodeTurn(v).message == Stamped(Plain([]))
  {
    var v := NestedFragment();
    NestedLayout();
    hide NestedFragment, Frame, ReadWord, DecodeTurn, AllMissed, Stamped, MovedRead;
    assert v.data[0] == v.data[..21][0] == PB_START;
    assert Missed(v.data, 0);
    NoMarkerAllMissed(v.data, 1, 21);
    AllMissedFrom(v.data, 0, 21);
    assert v.Unread() == v.data[..21] + (Frame(Plain([])) + []);
    SkippedFrameIsTaken(v, v.data[..21], Plain([]), []);
  }

  lemma {:induction false} NestedLayout()
    ensures var v := NestedFragment();
            && Sound(v) && v.read == 0 && v.write == 43 && |v.data| == 64 && v.data[43] == 0
            && IsFragmentOf(v.Unread(), Plain(Frame(Plain([]))))
            && v.data[..21] == [PB_START, 0, 0, 0, 44] + Zeros(16)
            && v.data[21..43] == Frame(Plain([]))
            && PB_START !in v.data[1..21]
            && ReadWord(v.data, 1) == Some(44)
  {
    var inner := Frame(Plain([]));
    var whole := Frame(Plain(inner));
    var v := NestedFragment();
    PlainHeader([]);
    PlainHeader(inner);
    assert v.Unread() == whole[..43];
    assert v.data[..21] == [PB_START, 0, 0, 0, 44] + Zeros(16);
    assert v.data[21..43] == inner;
    SmallNetBytes(44);
    AtWord(v.data, 1, 44);
    assert v.data[1..5] == v.data[..21][1..5] == [0, 0, 0, 44];
    assert v.data[1..21] == v.data[..21][1..];
  }

  // ---------------------------------------------------------------- the coder's loops

  /** `memcpy` at a moving position; returns the position behind the copy. */
  method PutBytes(buf: array<byte>, at: nat, s: seq<byte>) returns (next: nat)
    requires at + |s| <= buf.Length
    modifies buf
    ensures next == at + |s| && buf[..next] == old(buf[..at]) + s
  {
    forall k | 0 <= k < |s| {
      buf[at + k] := s[k];
    }
    next := at + |s|;
  }

  lemma {:induction false} FrameFlat(m: Message)
    requires Fits(m)
    ensures Frame(m) == [] + [PB_START] + NetBytes(FrameLen(m)) + NetBytes(|m.msgId|) + m.msgId
                      + NetBytes(|m.methodName|) + m.methodName + NetBytes(m.errCode)
                      + NetBytes(|m.errInfo|) + m.errInfo + m.pbData + [PB_END]
  {
    hide NetBytes;
    assert Prefixed(m.errInfo) + (m.pbData + [PB_END]) == NetBytes(|m.errInfo|) + m.errInfo + m.pbData + [PB_END];
  }

  /** One message into a freshly allocated byte array, field by field. */
  method PrintFrame(m: Message) returns (buf: array<byte>)
    requires Fits(m)
    ensures fresh(buf) && buf[..] == Frame(m)
  {
    hide Frame, NetBytes;
    FrameFlat(m);
    var packageLen := OVERHEAD + |m.msgId| + |m.methodName| + |m.errInfo| + |m.pbData|;
    buf := new byte[packageLen];
    var tmp := PutBytes(buf, 0, [PB_START]);
    tmp := PutBytes(buf, tmp, NetBytes(packageLen));
    tmp := PutBytes(buf, tmp, NetBytes(|m.msgId|));
    tmp := PutBytes(buf, tmp, m.msgId);
    tmp := PutBytes(buf, tmp, NetBytes(|m.methodName|));
    tmp := PutBytes(buf, tmp, m.methodName);
    tmp := PutBytes(buf, tmp, NetBytes(m.errCode));
    tmp := PutBytes(buf, tmp, NetBytes(|m.errInfo|));
    tmp := PutBytes(buf, tmp, m.errInfo);
    tmp := PutBytes(buf, tmp, m.pbData);
    tmp := PutBytes(buf, tmp, [PB_END]);
    assert buf[..tmp] == buf[..];
  }

  lemma {:induction false} EncodeStep(v: View, ms: seq<Message>)
    requires v.Ok() && ms != []
    ensures Written(v, Frame(ms[0])).Ok()
    ensures WrittenAll(v, ms) == WrittenAll(Written(v, Frame(ms[0])), ms[1..])
    ensures Half(v.write + FrameLen(ms[0])) <= Half(v.write + TotalLen(ms))
    ensures Half(Written(v, Frame(ms[0])).write + TotalLen(ms[1..])) <= Half(v.write + TotalLen(ms))
    ensures StampAll(ms) == [Stamped(ms[0])] + StampAll(ms[1..])
  {
    hide Frame, Written, Stamped;
    WriteAppends(v, Frame(ms[0]));
  }

  method EncodeOne(message: Message, buffer: TcpBuffer)
    requires buffer.Valid() && Fits(message)
    requires Half(buffer.writeIndex + FrameLen(message)) <= INT_MAX
    modifies buffer, buffer.buffer
    ensures buffer.Valid() && (buffer.buffer == old(buffer.buffer) || fresh(buffer.buffer))
    ensures buffer.State() == Written(old(buffer.State()), Frame(message))
  {
    hide Frame, Written;
    var buf := PrintFrame(message);
    buffer.WriteToBuffer(buf);
  }

  method Encode(messages: seq<Message>, buffer: TcpBuffer) returns (stamped: seq<Message>)
    requires buffer.Valid() && AllFit(messages)
    requires Half(buffer.writeIndex + TotalLen(messages)) <= INT_MAX
    modifies buffer, buffer.buffer
    ensures buffer.Valid() && (buffer.buffer == old(buffer.buffer) || fresh(buffer.buffer))
    ensures buffer.State() == WrittenAll(old(buffer.State()), messages)
    ensures buffer.Unread() == old(buffer.Unread()) + Frames(messages)
    ensures stamped == StampAll(messages)
  {
    hide Frame, Written, WrittenAll, Stamped, StampAll, Half, TotalLen, FrameLen, Fits;
    EncodingAppends(buffer.State(), messages);
    stamped := [];
    var k := 0;
    ghost var was := buffer.State();
    assert messages[0..] == messages;
    while k < |messages|
      invariant 0 <= k <= |messages|
      invariant buffer.Valid() && (buffer.buffer == old(buffer.buffer) || fresh(buffer.buffer))
      invariant WrittenAll(buffer.State(), messages[k..]) == WrittenAll(was, messages)
      invariant Half(buffer.writeIndex + TotalLen(messages[k..])) <= INT_MAX
      invariant stamped + StampAll(messages[k..]) == StampAll(messages)
    {
      var message := messages[k];
      EncodeStep(buffer.State(), messages[k..]);
      assert messages[k..][1..] == messages[k + 1..];
      EncodeOne(message, buffer);
      stamped := stamped + [Stamped(message)];
      k := k + 1;
    }
    EncodeNothing(buffer.State());
  }

  lemma {:induction false} EncodeNothing(v: View)
    requires v.Ok()
    ensures WrittenAll(v, []) == v && StampAll([]) == []
  {
  }

  method ReadWordAt(tmp: array<byte>, at: nat) returns (r: Option<uint32>)
    ensures r == ReadWord(tmp[..], at)
  {
    if at + 4 > tmp.Length {
      return None;
    }
    assert tmp[..][at..at + 4] == tmp[at..at + 4];
    r := Some(GetInt32FromNetByte(tmp[at..at + 4]));
  }

  method ReadBytesAt(tmp: array<byte>, at: nat, n: nat) returns (r: Option<seq<byte>>)
    ensures r == ReadBytes(tmp[..], at, n)
  {
    if at + n > tmp.Length {
      return None;
    }
    assert tmp[..][at..at + n] == tmp[at..at + n];
    r := Some(tmp[at..at + n]);
  }

  method FindFrame(tmp: array<byte>, readIndex: nat, writeIndex: nat) returns (found: Scan)
    requires readIndex <= writeIndex <= tmp.Length
    ensures found == ScanFrom(tmp[..], readIndex, writeIndex)
  {
    var i := readIndex;
    while i < writeIndex
      invariant readIndex <= i <= writeIndex
      invariant ScanFrom(tmp[..], i, writeIndex) == ScanFrom(tmp[..], readIndex, writeIndex)
    {
      if tmp[i] == PB_START {
        var packageLen := ReadWordAt(tmp, i + 1);
        if packageLen == None {
          return OffVector;
        }
        var j := EndIndex(i, packageLen.value);
        if !(0 <= j < tmp.Length) {
          return OffVector;
        }
        if tmp[j] == PB_END {
          return Found(i, j, packageLen.value);
        }
      }
      i := i + 1;
    }
    found := NotFound;
  }

  method ReadFields(tmp: array<byte>, startIndex: nat, endIndex: nat, packageLen: uint32) returns (fields: Fields)
    ensures fields == ParseFields(tmp[..], startIndex, endIndex, packageLen)
  {
    hide ReadWord, ReadBytes, ParseMethod;
    var msgIdLenIndex: int := Wrap32(startIndex + 5);
    if msgIdLenIndex >= endIndex {
      return BadIndex;
    }
    var msgIdLen := ReadWordAt(tmp, msgIdLenIndex);
    if msgIdLen == None {
      return OffVectorField;
    }
    var msgIdIndex: int := Wrap32(msgIdLenIndex + 4);
    var msgId := ReadBytesAt(tmp, msgIdIndex, msgIdLen.value);
    if msgId == None {
      return OffVectorField;
    }
    fields := ReadMethod(tmp, endIndex, packageLen, msgId.value, Wrap32(msgIdIndex + msgIdLen.value));
  }

  method ReadMethod(tmp: array<byte>, endIndex: nat, packageLen: uint32, msgId: seq<byte>,
                    methodNameLenIndex: uint32) returns (fields: Fields)
    ensures fields == ParseMethod(tmp[..], endIndex, packageLen, msgId, methodNameLenIndex)
  {
    hide ReadWord, ReadBytes, ParseError;
    if methodNameLenIndex >= endIndex {
      return BadIndex;
    }
    var methodNameLen := ReadWordAt(tmp, methodNameLenIndex);
    if methodNameLen == None {
      return OffVectorField;
    }
    var methodNameIndex: int := Wrap32(methodNameLenIndex + 4);
    var methodName := ReadBytesAt(tmp, methodNameIndex, methodNameLen.value);
    if methodName == None {
      return OffVectorField;
    }
    fields := ReadError(tmp, endIndex, packageLen, msgId, methodName.value,
                        Wrap32(methodNameIndex + methodNameLen.value));
  }

  method ReadError(tmp: array<byte>, endIndex: nat, packageLen: uint32, msgId: seq<byte>, methodName: seq<byte>,
                   errCodeIndex: uint32) returns (fields: Fields)
    ensures fields == ParseError(tmp[..], endIndex, packageLen, msgId, methodName, errCodeIndex)
  {
    hide ReadWord, ReadBytes;
    if errCodeIndex >= endIndex {
      return BadIndex;
    }
    var errCode := ReadWordAt(tmp, errCodeIndex);
    if errCode == None {
      return OffVectorField;
    }
    var errInfoLenIndex: int := Wrap32(errCodeIndex + 4);
    if errInfoLenIndex >= endIndex {
      return BadIndex;
    }
    var errInfoLen := ReadWordAt(tmp, errInfoLenIndex);
    if errInfoLen == None {
      return OffVectorField;
    }
    var errInfoIndex: int := Wrap32(errInfoLenIndex + 4);
    var errInfo := ReadBytesAt(tmp, errInfoIndex, errInfoLen.value);
    if errInfo == None {
      return OffVectorField;
    }
    var pbDataIndex := Wrap32(errInfoIndex + errInfoLen.value);
    var pbDataLen := Wrap32(packageLen - |msgId| - |methodName| - errInfoLen.value - 2 - 20);
    var pbData := ReadBytesAt(tmp, pbDataIndex, pbDataLen);
    if pbData == None {
      return OffVectorField;
    }
    fields := Parsed(Message(msgId, methodName, errCode.value, errInfo.value, pbData.value,
                             packageLen, Wrap32(|msgId|), Wrap32(|methodName|), errInfoLen.value));
  }

  lemma {:induction false} DecodedEnds(v: View, stop: Stop)
    requires Sound(v) && DecodeTurn(v) == Ended(stop)
    ensures Decoded(v) == Decoding([], v, stop)
  {
  }

  datatype Look = Stops(stop: Stop) | Takes(message: Message, size: nat)

  /** Finds and parses the next frame; the caller moves the read index. */
  method LookForFrame(buffer: TcpBuffer) returns (look: Look)
    requires buffer.Valid()
    ensures DecodeTurn(buffer.State()) ==
              match look
              case Stops(stop) => Ended(stop)
              case Takes(message, size) => Took(message, MovedRead(buffer.State(), size))
  {
    hide ScanFrom, ParseFields, MovedRead;
    if buffer.ReadAble() == 0 {
      return Stops(Drained);
    }
    var found := FindFrame(buffer.buffer, buffer.readIndex, buffer.writeIndex);
    if found == NotFound {
      return Stops(NoFrame);
    }
    if found == OffVector {
      return Stops(Undefined);
    }
    var fields := ReadFields(buffer.buffer, found.start, found.end, found.packageLen);
    if fields == BadIndex {
      return Stops(BadFrame);
    }
    if fields == OffVectorField {
      return Stops(Undefined);
    }
    look := Takes(fields.message, Wrap32(found.end - found.start + 1));
  }

  method Decode(buffer: TcpBuffer) returns (messages: seq<Message>, stop: Stop)
    requires buffer.Valid()
    modifies buffer
    ensures buffer.Valid() && (buffer.buffer == old(buffer.buffer) || fresh(buffer.buffer))
    ensures Decoding(messages, buffer.State(), stop) == Decoded(old(buffer.State()))
  {
    hide Decoded, DecodeTurn, MovedRead;
    messages := [];
    ghost var was := buffer.State();
    PrependTwice([], [], Decoded(was));
    while true
      invariant buffer.Valid() && (buffer.buffer == old(buffer.buffer) || fresh(buffer.buffer))
      invariant Prepend(messages, Decoded(buffer.State())) == Decoded(was)
      decreases |buffer.Unread()|
    {
      var look := LookForFrame(buffer);
      if look.Stops? {
        DecodedEnds(buffer.State(), look.stop);
        return messages, look.stop;
      }
      ghost var next := MovedRead(buffer.State(), look.size);
      DecodedUnfolds(buffer.State(), look.message, next);
      TurnAdvances(buffer.State(), look.message, next);
      PrependTwice(messages, [look.message], Decoded(next));
      messages := messages + [look.message];
      buffer.MoveReadIndex(look.size);
    }
  }
}
