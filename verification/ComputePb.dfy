/** The generated message code for the example service: varints, and the parser, printer and merge of
    its messages. The wire format is that of the Protocol Buffers encoding guide. */
module ComputePb {
  import opened Bytes
  import opened Options

  type int32 = x: int | -0x8000_0000 <= x < 0x8000_0000

  const TWO_64: nat := 0x1_0000_0000_0000_0000

  /** `unknown` are the fields that the message does not declare, each as the library prints it. */
  datatype Request = Request(x: int32, y: int32, unknown: seq<seq<byte>>)

  const DEFAULT: Request := Request(0, 0, [])

  // ---------------------------------------------------------------- varints

  /** Seven bits a byte, least significant first; the high bit says that more follow. */
  function WriteVarint(n: nat): seq<byte> {
    if n < 128 then [n] else [128 + n % 128] + WriteVarint(n / 128)
  }

  /** Reads a varint of at most `room` bytes. */
  function ReadVarint(s: seq<byte>, room: nat): (r: Option<(nat, seq<byte>)>)
    ensures r.Some? ==> |r.value.1| < |s|
    decreases room
  {
    if room == 0 || s == [] then None
    else if s[0] < 128 then Some((s[0], s[1..]))
    else
      match ReadVarint(s[1..], room - 1)
      case None => None
      case Some((high, rest)) => Some((s[0] - 128 + 128 * high, rest))
  }

  /** The largest values that fit a number of varint bytes. */
  function Range(room: nat): nat { if room == 0 then 1 else 128 * Range(room - 1) }

  lemma {:induction false} VarintRoundTrip(n: nat, room: nat, rest: seq<byte>)
    requires 0 < room && n < Range(room)
    ensures ReadVarint(WriteVarint(n) + rest, room) == Some((n, rest))
    decreases room
  {
    var s := WriteVarint(n) + rest;
    if n < 128 {
      assert s[1..] == rest;
    } else {
      assert n / 128 < Range(room - 1);
      VarintRoundTrip(n / 128, room - 1, rest);
      assert s[1..] == WriteVarint(n / 128) + rest;
    }
  }

  lemma {:induction false} TenBytesHold64Bits(n: nat)
    requires n < TWO_64
    ensures n < Range(10)
  {
    assert Range(1) == 128 && Range(2) == 16384 && Range(4) == 0x1000_0000 && Range(6) == 0x400_0000_0000;
    assert Range(8) == 0x100_0000_0000_0000 && Range(10) == 0x40_0000_0000_0000_0000;
  }

  /** Negative values are sign-extended to 64 bits before they are written. */
  function SignExtended(v: int32): nat { if v >= 0 then v else v + TWO_64 }

  /** Only the low 32 bits of what was read are kept. */
  function Low32(n: nat): int32 { ToInt32(n % TWO_32) }

  lemma {:induction false} SignSurvives(v: int32)
    ensures SignExtended(v) < TWO_64 && Low32(SignExtended(v)) == v
  {
  }

  function Int32Size(v: int32): nat {
    if v < 0 then 10
    else if v < 0x80 then 1 else if v < 0x4000 then 2 else if v < 0x20_0000 then 3
    else if v < 0x1000_0000 then 4 else 5
  }

  lemma {:induction false} VarintLength(n: nat, k: nat)
    requires 0 < k && n < Range(k) && (k > 1 ==> Range(k - 1) <= n)
    ensures |WriteVarint(n)| == k
    decreases k
  {
    if k > 1 {
      VarintLength(n / 128, k - 1);
    }
  }

  lemma {:induction false} SizeIsLength(v: int32)
    ensures |WriteVarint(SignExtended(v))| == Int32Size(v)
  {
    assert Range(0) == 1 && Range(1) == 0x80 && Range(2) == 0x4000 && Range(3) == 0x20_0000 && Range(4) == 0x1000_0000;
    assert Range(5) == 0x8_0000_0000 && Range(7) == 0x2_0000_0000_0000 && Range(9) == 0x8000_0000_0000_0000;
    TenBytesHold64Bits(SignExtended(v));
    VarintLength(SignExtended(v), Int32Size(v));
  }

  // ---------------------------------------------------------------- printing, merging, size

  const TAG_X: byte := 8
  const TAG_Y: byte := 16

  function Field(tag: byte, v: int32): seq<byte> {
    if v == 0 then [] else [tag] + WriteVarint(SignExtended(v))
  }

  function Printed(unknown: seq<seq<byte>>): seq<byte> {
    if unknown == [] then [] else unknown[0] + Printed(unknown[1..])
  }

  function UnknownSize(unknown: seq<seq<byte>>): nat {
    if unknown == [] then 0 else |unknown[0]| + UnknownSize(unknown[1..])
  }

  function Serialize(m: Request): seq<byte> {
    Field(TAG_X, m.x) + Field(TAG_Y, m.y) + Printed(m.unknown)
  }

  function ByteSizeLong(m: Request): nat {
    UnknownSize(m.unknown)
    + (if m.x != 0 then 1 + Int32Size(m.x) else 0) + (if m.y != 0 then 1 + Int32Size(m.y) else 0)
  }

  lemma {:induction false} UnknownSizeIsExact(unknown: seq<seq<byte>>)
    ensures UnknownSize(unknown) == |Printed(unknown)|
    decreases |unknown|
  {
    if unknown != [] {
      UnknownSizeIsExact(unknown[1..]);
    }
  }

  lemma {:induction false} ByteSizeIsExact(m: Request)
    ensures ByteSizeLong(m) == |Serialize(m)|
  {
    SizeIsLength(m.x);
    SizeIsLength(m.y);
    UnknownSizeIsExact(m.unknown);
  }

  function Merged(m: Request, from: Request): Request {
    var withUnknown := m.(unknown := m.unknown + from.unknown);
    var withX := if from.x != 0 then withUnknown.(x := from.x) else withUnknown;
    if from.y != 0 then withX.(y := from.y) else withX
  }

  // ---------------------------------------------------------------- parsing

  /** The library's reading of a field that is not declared, given its tag and the input behind the tag:
      the field as it will be printed, and what is left behind it; or failure. */
  type Skip = (nat, seq<byte>) -> Option<(seq<byte>, seq<byte>)>

  /** `atEnd`: parsing stopped at the end of the input, not at a zero or broken tag. */
  datatype Parse = Parse(ok: bool, message: Request, atEnd: bool)

  function MergeStream(m: Request, s: seq<byte>, skip: Skip): Parse
    decreases |s|
  {
    if s == [] then Parse(true, m, true) else
    match ReadVarint(s, 10)
    case None => Parse(true, m, false)
    case Some((n, rest)) =>
      var tag := n % TWO_32;
      if tag == 0 then Parse(true, m, false)
      else if tag == TAG_X || tag == TAG_Y then
        match ReadVarint(rest, 10)
        case None => Parse(false, m, false)
        case Some((v, behind)) =>
          MergeStream(if tag == TAG_X then m.(x := Low32(v)) else m.(y := Low32(v)), behind, skip)
      else
        match skip(tag, rest)
        case None => Parse(false, m, false)
        case Some((field, behind)) =>
          if |behind| <= |rest| then MergeStream(m.(unknown := m.unknown + [field]), behind, skip)
          else Parse(false, m, false)
  }

  function ParseFromString(s: seq<byte>, skip: Skip): Option<Request> {
    var p := MergeStream(DEFAULT, s, skip);
    if p.ok && p.atEnd then Some(p.message) else None
  }

  lemma {:induction false} FieldMerges(m: Request, tag: byte, v: int32, rest: seq<byte>, skip: Skip)
    requires tag == TAG_X || tag == TAG_Y
    ensures MergeStream(m, Field(tag, v) + rest, skip)
            == MergeStream(if v == 0 then m else if tag == TAG_X then m.(x := v) else m.(y := v), rest, skip)
  {
    if v == 0 {
      assert Field(tag, v) + rest == rest;
    } else {
      var body := WriteVarint(SignExtended(v)) + rest;
      var s := Field(tag, v) + rest;
      assert s[0] == tag && s[1..] == body;
      assert ReadVarint(s, 10) == Some((tag as nat, body));
      SignSurvives(v);
      TenBytesHold64Bits(SignExtended(v));
      VarintRoundTrip(SignExtended(v), 10, rest);
    }
  }

  // ---------------------------------------------------------------- the wire format, in bytes

  /** The value that bytes hold, seven bits each, the least significant first. */
  function SevenBits(s: seq<byte>): nat {
    if s == [] then 0 else s[0] % 128 + 128 * SevenBits(s[1..])
  }

  /** A varint: the high bit is set on every byte but the last, and the low seven bits of all, least
      significant first, are the value. */
  lemma {:induction false} VarintOnTheWire(n: nat)
    ensures var s := WriteVarint(n);
            && s != [] && s[|s| - 1] < 128
            && (forall k :: 0 <= k < |s| - 1 ==> s[k] >= 128)
            && SevenBits(s) == n
    decreases n
  {
    if n >= 128 {
      VarintOnTheWire(n / 128);
      assert WriteVarint(n)[1..] == WriteVarint(n / 128);
    }
  }

  /** Field 1 is x, its tag byte 8; field 2 is y, its tag byte 16; x comes first, and zero is not written. */
  lemma {:induction false} RequestOnTheWire(m: Request)
    ensures var x := if m.x > 0 then m.x else m.x + 0x1_0000_0000_0000_0000;
            var y := if m.y > 0 then m.y else m.y + 0x1_0000_0000_0000_0000;
            Serialize(m) == (if m.x == 0 then [] else [8] + WriteVarint(x))
                          + (if m.y == 0 then [] else [16] + WriteVarint(y)) + Printed(m.unknown)
  {
  }

  lemma {:induction false} SmallRequestOnTheWire(v: int32, skip: Skip)
    requires 0 < v < 128
    ensures Serialize(Request(v, 0, [])) == [8, v] && Serialize(Request(0, v, [])) == [16, v]
    ensures Serialize(Request(0, 0, [])) == []
    ensures ParseFromString([8, v], skip) == Some(Request(v, 0, []))
    ensures ParseFromString([16, v], skip) == Some(Request(0, v, []))
  {
    assert Serialize(Request(v, 0, [])) == [8, v] && Serialize(Request(0, v, [])) == [16, v];
    RequestRoundTrip(Request(v, 0, []), skip);
    RequestRoundTrip(Request(0, v, []), skip);
  }

  /** Of a number that is too wide only the low 32 bits are kept, as a signed number; of a tag, as a tag. */
  lemma {:induction false} WideNumbersAreCut(m: Request, n: nat, wide: nat, skip: Skip)
    requires n < TWO_64 && wide < TWO_64 && wide % 0x1_0000_0000 == 8
    ensures var low: int := n % 0x1_0000_0000;
            Low32(n) == if low < 0x8000_0000 then low else low - 0x1_0000_0000
    ensures MergeStream(m, WriteVarint(wide) + WriteVarint(n), skip) == Parse(true, m.(x := Low32(n)), true)
  {
    TenBytesHold64Bits(n);
    TenBytesHold64Bits(wide);
    VarintRoundTrip(wide, 10, WriteVarint(n));
    VarintRoundTrip(n, 10, []);
    assert WriteVarint(n) + [] == WriteVarint(n);
    VarintOnTheWire(wide);
  }

  lemma {:induction false} EndlessVarint(s: seq<byte>, room: nat)
    requires room <= |s| && forall k :: 0 <= k < room ==> s[k] >= 128
    ensures ReadVarint(s, room) == None
    decreases room
  {
    if room > 0 {
      EndlessVarint(s[1..], room - 1);
    }
  }

  lemma {:induction false} ZeroTagStops(m: Request, s: seq<byte>, skip: Skip)
    ensures MergeStream(m, [0] + s, skip) == Parse(true, m, false)
  {
    assert ([0] + s)[1..] == s;
  }

  lemma {:induction false} BrokenValueFails(m: Request, tag: byte, s: seq<byte>, skip: Skip)
    requires tag in {8, 16} && ReadVarint(s, 10) == None
    ensures MergeStream(m, [tag] + s, skip) == Parse(false, m, false)
  {
    assert ([tag] + s)[1..] == s;
    assert ReadVarint([tag] + s, 10) == Some((tag as nat, s));
  }

  /** What does not parse: a tag of zero, a value that is missing, and one of more than ten bytes. */
  lemma {:induction false} BrokenRequests(m: Request, tag: byte, s: seq<byte>, skip: Skip)
    requires tag in {8, 16}
    ensures ParseFromString([0] + s, skip) == None
    ensures MergeStream(m, [tag], skip) == Parse(false, m, false)
    ensures |s| >= 10 && (forall k :: 0 <= k < 10 ==> s[k] >= 128) ==>
              MergeStream(m, [tag] + s, skip) == Parse(false, m, false)
  {
    hide MergeStream;
    ZeroTagStops(DEFAULT, s, skip);
    BrokenValueFails(m, tag, [], skip);
    assert [tag] + [] == [tag];
    if |s| >= 10 && forall k :: 0 <= k < 10 ==> s[k] >= 128 {
      EndlessVarint(s, 10);
      BrokenValueFails(m, tag, s, skip);
    }
  }

  /** The library reads a field that it has printed as that very field, whatever stands behind it. */
  ghost predicate ReadsBack(skip: Skip, field: seq<byte>) {
    forall rest: seq<byte> :: ReadsBackBefore(skip, field, rest)
  }

  ghost predicate ReadsBackBefore(skip: Skip, field: seq<byte>, rest: seq<byte>) {
    match ReadVarint(field + rest, 10)
    case None => false
    case Some((n, behind)) =>
      && n % TWO_32 != 0 && n % TWO_32 != TAG_X && n % TWO_32 != TAG_Y
      && |rest| <= |behind| && skip(n % TWO_32, behind) == Some((field, rest))
  }

  /** The message holds only unknown fields that the library reads back. */
  ghost predicate Readable(skip: Skip, m: Request) {
    forall field <- m.unknown :: ReadsBack(skip, field)
  }

  lemma {:induction false} UnknownMerges(m: Request, unknown: seq<seq<byte>>, rest: seq<byte>, skip: Skip)
    requires forall field <- unknown :: ReadsBack(skip, field)
    ensures MergeStream(m, Printed(unknown) + rest, skip)
            == MergeStream(m.(unknown := m.unknown + unknown), rest, skip)
    decreases |unknown|
  {
    if unknown == [] {
      assert Printed(unknown) + rest == rest && m.unknown + unknown == m.unknown;
    } else {
      var field, behind := unknown[0], Printed(unknown[1..]) + rest;
      assert Printed(unknown) + rest == field + behind;
      assert ReadsBack(skip, field) && ReadsBackBefore(skip, field, behind);
      var added := m.(unknown := m.unknown + [field]);
      UnknownMerges(added, unknown[1..], rest, skip);
      assert m.unknown + unknown == added.unknown + unknown[1..];
    }
  }

  /** Parsing what was printed, with anything behind it, goes on as if the printed message had been merged. */
  lemma {:induction false} SerializedMerges(m: Request, from: Request, rest: seq<byte>, skip: Skip)
    requires Readable(skip, from)
    ensures MergeStream(m, Serialize(from) + rest, skip) == MergeStream(Merged(m, from), rest, skip)
  {
    hide MergeStream, Field, Printed;
    var unknown := Printed(from.unknown) + rest;
    assert Serialize(from) + rest == Field(TAG_X, from.x) + (Field(TAG_Y, from.y) + unknown);
    FieldMerges(m, TAG_X, from.x, Field(TAG_Y, from.y) + unknown, skip);
    var withX := if from.x == 0 then m else m.(x := from.x);
    FieldMerges(withX, TAG_Y, from.y, unknown, skip);
    UnknownMerges(if from.y == 0 then withX else withX.(y := from.y), from.unknown, rest, skip);
  }

  /** Parsing undoes printing, for every message whose unknown fields the library reads back. */
  lemma {:induction false} RequestRoundTrip(m: Request, skip: Skip)
    requires Readable(skip, m)
    ensures ParseFromString(Serialize(m), skip) == Some(m)
  {
    SerializedMerges(DEFAULT, m, [], skip);
    assert Serialize(m) + [] == Serialize(m);
    assert [] + m.unknown == m.unknown;
  }

  /** Two printed messages one behind the other parse to their merge: the last value given wins. */
  lemma {:induction false} ConcatenationIsMerge(a: Request, b: Request, skip: Skip)
    requires Readable(skip, a) && Readable(skip, b)
    ensures ParseFromString(Serialize(a) + Serialize(b), skip) == Some(Merged(a, b))
  {
    SerializedMerges(DEFAULT, a, Serialize(b), skip);
    SerializedMerges(a, b, [], skip);
    assert [] + a.unknown == a.unknown;
    assert Merged(DEFAULT, a) == a;
    assert Serialize(b) + [] == Serialize(b);
  }

  /** Whatever the library takes for an unknown field, it reads back once it has printed it. */
  ghost predicate StoresReadable(skip: Skip) {
    forall tag: nat, s: seq<byte> :: skip(tag, s).Some? ==> ReadsBack(skip, skip(tag, s).value.0)
  }

  lemma {:induction false} ParsedIsReadable(m: Request, s: seq<byte>, skip: Skip)
    requires StoresReadable(skip) && Readable(skip, m)
    ensures Readable(skip, MergeStream(m, s, skip).message)
    decreases |s|
  {
    hide ReadsBack, ReadVarint;
    if s != [] && ReadVarint(s, 10).Some? {
      var (n, rest) := ReadVarint(s, 10).value;
      ReadShortens(s);
      var tag := n % TWO_32;
      if tag == TAG_X || tag == TAG_Y {
        if ReadVarint(rest, 10).Some? {
          var (v, behind) := ReadVarint(rest, 10).value;
          ReadShortens(rest);
          ParsedIsReadable(if tag == TAG_X then m.(x := Low32(v)) else m.(y := Low32(v)), behind, skip);
        }
      } else if tag != 0 && skip(tag, rest).Some? {
        var (field, behind) := skip(tag, rest).value;
        if |behind| <= |rest| {
          ParsedIsReadable(m.(unknown := m.unknown + [field]), behind, skip);
        }
      }
    }
  }

  lemma {:induction false} ReadShortens(s: seq<byte>)
    requires ReadVarint(s, 10).Some?
    ensures |ReadVarint(s, 10).value.1| < |s|
  {
  }

  /** Any input that parses, however it spells its numbers and whatever unknown fields it holds: printing
      the message and parsing it again gives the same message. */
  lemma {:induction false} ReprintingIsStable(s: seq<byte>, skip: Skip)
    requires StoresReadable(skip) && ParseFromString(s, skip).Some?
    ensures ParseFromString(Serialize(ParseFromString(s, skip).value), skip) == ParseFromString(s, skip)
  {
    hide MergeStream, Serialize, ReadsBack;
    ParsedIsReadable(DEFAULT, s, skip);
    RequestRoundTrip(ParseFromString(s, skip).value, skip);
  }

  /** Skipping looks only at the field it skips: more input behind it changes nothing. */
  ghost predicate SkipsLocally(skip: Skip) {
    forall tag: nat, s: seq<byte>, more: seq<byte> :: SkipIsLocal(skip, tag, s, more)
  }

  predicate SkipIsLocal(skip: Skip, tag: nat, s: seq<byte>, more: seq<byte>) {
    match skip(tag, s)
    case None => true
    case Some((field, behind)) => |behind| <= |s| && skip(tag, s + more) == Some((field, behind + more))
  }

  lemma {:induction false} VarintIsLocal(s: seq<byte>, room: nat, more: seq<byte>)
    requires ReadVarint(s, room).Some?
    ensures ReadVarint(s + more, room)
            == Some((ReadVarint(s, room).value.0, ReadVarint(s, room).value.1 + more))
    decreases room
  {
    assert (s + more)[1..] == s[1..] + more;
    if s[0] >= 128 {
      VarintIsLocal(s[1..], room - 1, more);
    }
  }

  /** For any two inputs, unknown fields included: if the first one parses to its end, parsing both in a
      row is parsing the second one into what the first one gave. */
  lemma {:induction false} StreamsMerge(m: Request, s: seq<byte>, more: seq<byte>, skip: Skip)
    requires SkipsLocally(skip)
    requires MergeStream(m, s, skip).ok && MergeStream(m, s, skip).atEnd
    ensures MergeStream(m, s + more, skip) == MergeStream(MergeStream(m, s, skip).message, more, skip)
    decreases |s|
  {
    if s == [] {
      assert s + more == more;
    } else {
      VarintIsLocal(s, 10, more);
      var (n, rest) := ReadVarint(s, 10).value;
      var tag := n % TWO_32;
      if tag == TAG_X || tag == TAG_Y {
        VarintIsLocal(rest, 10, more);
        var (v, behind) := ReadVarint(rest, 10).value;
        StreamsMerge(if tag == TAG_X then m.(x := Low32(v)) else m.(y := Low32(v)), behind, more, skip);
      } else {
        assert SkipIsLocal(skip, tag, rest, more);
        var (field, behind) := skip(tag, rest).value;
        StreamsMerge(m.(unknown := m.unknown + [field]), behind, more, skip);
      }
    }
  }

  // ---------------------------------------------------------------- the message object

  class RequestMessage {
    var x: int32
    var y: int32
    var unknown: seq<seq<byte>>

    ghost function Now(): Request
      reads this
    {
      Request(x, y, unknown)
    }

    constructor ()
      ensures Now() == DEFAULT
    {
      x, y, unknown := 0, 0, [];
    }

    method MergePartialFromCodedStream(input: seq<byte>, skip: Skip) returns (ok: bool, atEnd: bool)
      modifies this
      ensures Parse(ok, Now(), atEnd) == MergeStream(old(Now()), input, skip)
    {
      var rest := input;
      while true
        invariant MergeStream(Now(), rest, skip) == MergeStream(old(Now()), input, skip)
        decreases |rest|
      {
        if rest == [] {
          return true, true;
        }
        var tagRead := ReadVarint(rest, 10);
        if tagRead == None {
          return true, false;
        }
        var tag := tagRead.value.0 % TWO_32;
        rest := tagRead.value.1;
        if tag == 0 {
          return true, false;
        }
        if tag == TAG_X || tag == TAG_Y {
          var read := ReadVarint(rest, 10);
          if read == None {
            return false, false;
          }
          if tag == TAG_X {
            x := Low32(read.value.0);
          } else {
            y := Low32(read.value.0);
          }
          rest := read.value.1;
        } else {
          var skipped := skip(tag, rest);
          if skipped == None || |skipped.value.1| > |rest| {
            return false, false;
          }
          unknown := unknown + [skipped.value.0];
          rest := skipped.value.1;
        }
      }
    }

    method SerializeWithCachedSizes() returns (output: seq<byte>)
      ensures output == Serialize(Now())
    {
      output := [];
      if x != 0 {
        output := output + [TAG_X] + WriteVarint(SignExtended(x));
      }
      if y != 0 {
        output := output + [TAG_Y] + WriteVarint(SignExtended(y));
      }
      var k := 0;
      assert unknown[0..] == unknown;
      while k < |unknown|
        invariant 0 <= k <= |unknown|
        invariant output + Printed(unknown[k..]) == Serialize(Now())
      {
        assert unknown[k..][1..] == unknown[k + 1..];
        output := output + unknown[k];
        k := k + 1;
      }
    }

    method MergeFrom(from: RequestMessage)
      requires from != this
      modifies this
      ensures Now() == Merged(old(Now()), from.Now())
    {
      unknown := unknown + from.unknown;
      if from.x != 0 {
        x := from.x;
      }
      if from.y != 0 {
        y := from.y;
      }
    }
  }
}
