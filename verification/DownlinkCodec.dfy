/** The downlink command codec of the network server's decoder: what it encodes, it decodes. Members
    that are zero, false or empty are not on the wire and decode as such. */
module DownlinkCodec {
  import opened Bytes

  type uint32 = x: int | 0 <= x < 0x1_0000_0000

  // ---- Varints -----------------------------------------------------------------------------------------

  /** `_encVarint` of a 32-bit value. */
  function Varint(v: nat): (r: seq<byte>)
    ensures |r| > 0
  {
    if v > 127 then [v % 128 + 128] + Varint(v / 128) else [v]
  }

  /** `_pbReadVarint` with `result` read so far and `scale` = 2^shift: the value and the position after
      it. The bits of a byte are above those read before, and what is above bit 31 is lost; after five
      bytes the reader stops. */
  function ReadOn(b: seq<byte>, pos: nat, result: nat, shift: nat, scale: nat): (r: (uint32, nat))
    ensures r.1 >= pos && (pos < |b| ==> r.1 > pos)
    decreases |b| - pos
  {
    if pos >= |b| then (result % TWO_32, pos)
    else
      var next := (result + b[pos] % 128 * scale) % TWO_32;
      if b[pos] < 128 || shift + 7 >= 32 then (next, pos + 1) else ReadOn(b, pos + 1, next, shift + 7, scale * 128)
  }

  function Read(b: seq<byte>, pos: nat): (r: (uint32, nat))
    ensures r.1 >= pos && (pos < |b| ==> r.1 > pos)
  {
    ReadOn(b, pos, 0, 0, 1)
  }

  /** `s` is at position `pos`. */
  ghost predicate At(b: seq<byte>, pos: nat, s: seq<byte>) {
    pos + |s| <= |b| && b[pos..pos + |s|] == s
  }

  lemma AtSplit(b: seq<byte>, pos: nat, s: seq<byte>, t: seq<byte>)
    requires At(b, pos, s + t)
    ensures At(b, pos, s) && At(b, pos + |s|, t)
  {
    assert b[pos..pos + |s|] == (s + t)[..|s|];
    assert b[pos + |s|..pos + |s| + |t|] == (s + t)[|s|..];
  }

  lemma AtFirst(b: seq<byte>, pos: nat, s: seq<byte>)
    requires At(b, pos, s) && s != []
    ensures pos < |b| && b[pos] == s[0]
  {
    assert b[pos..pos + |s|][0] == b[pos];
  }

  /** 2^shift for the five positions of a 32-bit varint. */
  predicate Scale(shift: nat, scale: nat) {
    || (shift == 0 && scale == 1) || (shift == 7 && scale == 0x80) || (shift == 14 && scale == 0x4000)
    || (shift == 21 && scale == 0x20_0000) || (shift == 28 && scale == 0x1000_0000)
  }

  /** One byte with the digit `d`. */
  lemma ReadStep(b: seq<byte>, pos: nat, d: nat, result: nat, shift: nat, scale: nat)
    requires pos < |b| && d < 128 && (result + d * scale) % TWO_32 == result + d * scale
    ensures b[pos] == d ==> ReadOn(b, pos, result, shift, scale) == (result + d * scale, pos + 1)
    ensures b[pos] == d + 128 && shift < 25 ==>
              ReadOn(b, pos, result, shift, scale) == ReadOn(b, pos + 1, result + d * scale, shift + 7, scale * 128)
  {
    if b[pos] == d || b[pos] == d + 128 {
      assert b[pos] % 128 == d;
    }
  }

  /** The rest `v` of a value of which `result` has been read. */
  lemma {:induction false} ReadOnIs(b: seq<byte>, pos: nat, v: nat, result: nat, shift: nat, scale: nat)
    requires Scale(shift, scale) && At(b, pos, Varint(v)) && result < scale && v * scale + result < TWO_32
    ensures ReadOn(b, pos, result, shift, scale) == (v * scale + result, pos + |Varint(v)|)
    decreases v
  {
    hide At, ReadOn, Scale;
    AtFirst(b, pos, Varint(v));
    NextDigit(v, result, scale);
    ReadStep(b, pos, v % 128, result, shift, scale);
    if v > 127 {
      AtSplit(b, pos, [v % 128 + 128], Varint(v / 128));
      LastScale(v, shift, scale);
      ReadOnIs(b, pos + 1, v / 128, result + v % 128 * scale, shift + 7, scale * 128);
    }
  }

  /** One digit of base 128. */
  lemma NextDigit(v: nat, result: nat, scale: nat)
    requires result < scale && v * scale + result < TWO_32
    ensures (result + v % 128 * scale) % TWO_32 == result + v % 128 * scale < scale * 128
    ensures v / 128 * (scale * 128) + (result + v % 128 * scale) == v * scale + result
  {
    var q, r := v / 128, v % 128;
    Digits(q, r, scale);
    MulLe(r + 1, 128, scale);
    assert v * scale == q * (scale * 128) + r * scale;
    Small(result + r * scale);
  }

  lemma Digits(q: nat, r: nat, scale: nat)
    ensures (q * 128 + r) * scale == q * (scale * 128) + r * scale
    ensures (r + 1) * scale == r * scale + scale && 0 <= r * scale && 0 <= q * (scale * 128)
  {
  }

  lemma Small(n: nat)
    requires n < TWO_32
    ensures n % TWO_32 == n
  {
  }

  /** A fifth byte is the last. */
  lemma LastScale(v: nat, shift: nat, scale: nat)
    requires Scale(shift, scale) && v > 127 && v * scale < TWO_32
    ensures shift < 28 && Scale(shift + 7, scale * 128)
  {
    MulLe(128, v, scale);
  }

  lemma MulLe(a: nat, b: nat, n: nat)
    requires a <= b
    ensures a * n <= b * n
  {
    assert b * n == a * n + (b - a) * n;
  }

  /** The reader undoes the encoder. */
  lemma ReadIs(b: seq<byte>, pos: nat, v: uint32)
    requires At(b, pos, Varint(v))
    ensures Read(b, pos) == (v, pos + |Varint(v)|)
  {
    ReadOnIs(b, pos, v, 0, 0, 1);
  }

  method EncVarint(value: uint32) returns (out: seq<byte>)
    ensures out == Varint(value)
  {
    out := [];
    var v: nat := value;
    while v > 127
      invariant out + Varint(v) == Varint(value)
    {
      assert out + ([v % 128 + 128] + Varint(v / 128)) == (out + [v % 128 + 128]) + Varint(v / 128);
      out := out + [v % 128 + 128];
      v := v / 128;
    }
    out := out + [v];
  }

  method PbReadVarint(b: seq<byte>, offset: nat) returns (value: uint32, next: nat)
    ensures (value, next) == Read(b, offset)
  {
    var result: nat, shift: nat, scale: nat, pos: nat := 0, 0, 1, offset;
    while pos < |b|
      invariant 0 <= result < TWO_32 && ReadOn(b, pos, result, shift, scale) == Read(b, offset)
    {
      var c: nat := b[pos];
      pos := pos + 1;
      result := (result + c % 128 * scale) % TWO_32;
      if c < 128 {
        return result, pos;
      }
      shift := shift + 7;
      if shift >= 32 {
        return result, pos;
      }
      scale := scale * 128;
    }
    return result, pos;
  }

  // ---- Messages ------------------------------------------------------------------------------------------

  function Tag(field: nat, wire: nat): seq<byte> { Varint(field * 8 + wire) }

  function LenDelim(field: nat, payload: seq<byte>): seq<byte> { Tag(field, 2) + Varint(|payload|) + payload }

  /** A scalar member: left out when zero. */
  function Scalar(field: nat, v: uint32): seq<byte> { if v == 0 then [] else Tag(field, 0) + Varint(v) }

  /** The scalar members of a message body, in order. */
  function ScalarsEnc(ms: seq<(nat, uint32)>): seq<byte> {
    if ms == [] then [] else Scalar(ms[0].0, ms[0].1) + ScalarsEnc(ms[1..])
  }

  function Varints(vs: seq<uint32>): seq<byte> {
    if vs == [] then [] else Varint(vs[0]) + Varints(vs[1..])
  }

  /** A packed repeated member: left out when empty. */
  function Packed(field: nat, vs: seq<uint32>): seq<byte> { if vs == [] then [] else LenDelim(field, Varints(vs)) }

  datatype Body =
    | GetParam(lists: seq<seq<uint32>>, page: uint32)   // lorawan, application, sensors, alarms, p2p
    | GetConfig(page: uint32)
    | ResetCounters(hallLeft: bool, hallRight: bool, inputA: bool, inputB: bool)
    | ReqHistory(fromUnix: uint32, toUnix: uint32)
    | ClockSync(unixTime: uint32)
    | ReqHistoryPage(fromUnix: uint32, toUnix: uint32, startOrd: uint32)
    | BuzzerPlay(kind: uint32, repeatS: uint32)
    | RadioState(page: uint32)
    | Other(field: nat)               // a command without members

  datatype Command = Command(seqNo: uint32, body: Body)

  const LISTS: nat := 5
  const FIELDS: nat := 64              // field numbers are below

  /** Commands that are sent without members. */
  const PLAIN: set<nat> := {4, 6, 7, 8, 9, 14, 16, 17, 18, 21, 23, 24, 25, 26, 27, 29, 30, 31}

  /** The commands this model encodes. */
  predicate Encodable(c: Command) {
    match c.body
    case GetParam(lists, _) => |lists| == LISTS
    case Other(f) => f in PLAIN
    case _ => true
  }

  function BodyField(b: Body): nat {
    match b
    case GetParam(_, _) => 3
    case GetConfig(_) => 5
    case ResetCounters(_, _, _, _) => 10
    case ReqHistory(_, _) => 11
    case ClockSync(_) => 12
    case ReqHistoryPage(_, _, _) => 13
    case BuzzerPlay(_, _) => 28
    case RadioState(_) => 32
    case Other(f) => f
  }

  function Flag(x: bool): uint32 { if x then 1 else 0 }

  /** The scalar members of a body with no lists. */
  function Members(b: Body): seq<(nat, uint32)> {
    match b
    case GetConfig(page) => [(1, page)]
    case ResetCounters(hl, hr, a, c) => [(1, Flag(hl)), (2, Flag(hr)), (3, Flag(a)), (4, Flag(c))]
    case ReqHistory(f, t) => [(1, f), (2, t)]
    case ClockSync(u) => [(1, u)]
    case ReqHistoryPage(f, t, s) => [(1, f), (2, t), (3, s)]
    case BuzzerPlay(k, r) => [(1, k), (2, r)]
    case RadioState(page) => [(1, page)]
    case _ => []
  }

  function BodyEnc(b: Body): seq<byte>
    requires b.GetParam? ==> |b.lists| == LISTS
  {
    if b.GetParam? then
      Packed(1, b.lists[0]) + (Packed(2, b.lists[1]) + (Packed(3, b.lists[2]) + (Packed(4, b.lists[3]) +
      (Scalar(5, b.page) + Packed(6, b.lists[4])))))
    else ScalarsEnc(Members(b))
  }

  /** `encodeDownlinkCommand`. */
  function Encode(c: Command): seq<byte>
    requires Encodable(c)
  {
    Scalar(1, c.seqNo) + LenDelim(BodyField(c.body), BodyEnc(c.body))
  }

  // ---- Decoding --------------------------------------------------------------------------------------------

  /** The loop every body of scalar members is decoded with: field numbers to values, until the end or a
      member of another wire type. */
  function Scalars(b: seq<byte>, pos: nat, end: nat, acc: map<nat, uint32>): map<nat, uint32>
    decreases |b| - pos
  {
    if pos < end && pos < |b| then
      var t := Read(b, pos);
      if t.0 % 8 == 0 then var v := Read(b, t.1); Scalars(b, v.1, end, acc[t.0 / 8 := v.0]) else acc
    else acc
  }

  function Get(m: map<nat, uint32>, f: nat): uint32 { if f in m then m[f] else 0 }

  /** Varints one after the other. */
  function Unpack(b: seq<byte>, pos: nat, end: nat): (r: (seq<uint32>, nat))
    ensures r.1 >= pos
    decreases |b| - pos
  {
    if pos < end && pos < |b| then
      var v := Read(b, pos);
      var rest := Unpack(b, v.1, end);
      ([v.0] + rest.0, rest.1)
    else ([], pos)
  }

  datatype Params = Params(lists: seq<seq<uint32>>, page: uint32)

  /** Which list a field number of a get_param is for. */
  function ListOf(f: nat): Option<nat> { if 1 <= f <= 4 then Some(f - 1) else if f == 6 then Some(4) else None }

  function Push(p: Params, f: nat, vs: seq<uint32>): Params {
    if ListOf(f).Some? && ListOf(f).value < |p.lists|
    then p.(lists := p.lists[ListOf(f).value := p.lists[ListOf(f).value] + vs])
    else p
  }

  /** The loop of a get_param body: lists packed or not, and the page. */
  function ParamsIn(b: seq<byte>, pos: nat, end: nat, p: Params): Params
    decreases |b| - pos
  {
    if pos < end && pos < |b| then
      var t := Read(b, pos);
      var f, w := t.0 / 8, t.0 % 8;
      if w == 0 then
        var v := Read(b, t.1);
        ParamsIn(b, v.1, end, if f == 5 then p.(page := v.0) else Push(p, f, [v.0]))
      else if w == 2 then
        var l := Read(b, t.1);
        var vs := Unpack(b, l.1, l.1 + l.0);
        ParamsIn(b, vs.1, end, Push(p, f, vs.0))
      else p
    else p
  }

  function NoParams(): Params { Params([[], [], [], [], []], 0) }

  /** One command body, between `pos` and `end`. */
  function BodyIn(b: seq<byte>, field: nat, pos: nat, end: nat): Body {
    if field == 3 then var p := ParamsIn(b, pos, end, NoParams()); GetParam(p.lists, p.page)
    else if field == 5 then
      // only the first member is looked at
      if pos < end then
        var t := Read(b, pos);
        GetConfig(if t.0 / 8 == 1 && t.0 % 8 == 0 then Read(b, t.1).0 else 0)
      else GetConfig(0)
    else
      var m := Scalars(b, pos, end, map[]);
      if field == 10 then ResetCounters(Get(m, 1) != 0, Get(m, 2) != 0, Get(m, 3) != 0, Get(m, 4) != 0)
      else if field == 11 then ReqHistory(Get(m, 1), Get(m, 2))
      else if field == 12 then ClockSync(Get(m, 1))
      else if field == 13 then ReqHistoryPage(Get(m, 1), Get(m, 2), Get(m, 3))
      else Other(field)
  }

  /** `decodeDownlinkCommand` from `pos` on. */
  function DecodeFrom(b: seq<byte>, pos: nat, cmd: (uint32, Option<Body>)): (uint32, Option<Body>)
    decreases |b| - pos
  {
    if pos < |b| then
      var t := Read(b, pos);
      var field, wire := t.0 / 8, t.0 % 8;
      if wire == 0 then
        var v := Read(b, t.1);
        DecodeFrom(b, v.1, if field == 1 then (v.0, cmd.1) else cmd)
      else if wire == 2 then
        var l := Read(b, t.1);
        DecodeFrom(b, l.1 + l.0, (cmd.0, Some(BodyIn(b, field, l.1, l.1 + l.0))))
      else cmd
    else cmd
  }

  function Decode(b: seq<byte>): (uint32, Option<Body>) { DecodeFrom(b, 0, (0, None)) }

  /** What decoding makes of a body: the decoder has no branch for two of the commands with members. */
  function Kept(b: Body): Body { if b.BuzzerPlay? || b.RadioState? then Other(BodyField(b)) else b }

  /** A body none of whose members is set. */
  predicate Bare(b: Body) { !b.GetParam? && forall k :: 0 <= k < |Members(b)| ==> Members(b)[k].1 == 0 }

  /** The same command with the same members set. */
  predicate Same(a: Body, b: Body) { BodyField(a) == BodyField(b) && (a == b || (Bare(a) && Bare(b))) }

  // ---- Round trip --------------------------------------------------------------------------------------------

  lemma TagIs(b: seq<byte>, pos: nat, field: nat, wire: nat, rest: seq<byte>)
    requires field < FIELDS && wire < 8 && At(b, pos, Tag(field, wire) + rest)
    ensures pos < |b| && Read(b, pos).0 / 8 == field && Read(b, pos).0 % 8 == wire
    ensures At(b, Read(b, pos).1, rest) && Read(b, pos).1 == pos + |Tag(field, wire)|
  {
    hide At;
    AtSplit(b, pos, Tag(field, wire), rest);
    AtFirst(b, pos, Tag(field, wire));
    ReadIs(b, pos, field * 8 + wire);
  }

  /** Members of a body, as the loop of `Scalars` collects them. */
  function Collect(ms: seq<(nat, uint32)>, acc: map<nat, uint32>): map<nat, uint32> {
    if ms == [] then acc else Collect(ms[1..], if ms[0].1 == 0 then acc else acc[ms[0].0 := ms[0].1])
  }

  lemma {:induction false} ScalarsIs(b: seq<byte>, pos: nat, ms: seq<(nat, uint32)>, acc: map<nat, uint32>)
    requires At(b, pos, ScalarsEnc(ms)) && forall k :: 0 <= k < |ms| ==> ms[k].0 < FIELDS
    ensures Scalars(b, pos, pos + |ScalarsEnc(ms)|, acc) == Collect(ms, acc)
    decreases |ms|
  {
    hide At, Scalar;
    if ms != [] {
      var f, v := ms[0].0, ms[0].1;
      AtSplit(b, pos, Scalar(f, v), ScalarsEnc(ms[1..]));
      ScalarsIs(b, pos + |Scalar(f, v)|, ms[1..], if v == 0 then acc else acc[f := v]);
      ScalarIs(b, pos, pos + |ScalarsEnc(ms)|, f, v, acc);
    }
  }

  /** The loop over one member. */
  lemma ScalarIs(b: seq<byte>, pos: nat, end: nat, f: nat, v: uint32, acc: map<nat, uint32>)
    requires f < FIELDS && At(b, pos, Scalar(f, v)) && pos + |Scalar(f, v)| <= end
    ensures Scalars(b, pos, end, acc) == Scalars(b, pos + |Scalar(f, v)|, end, if v == 0 then acc else acc[f := v])
  {
    hide At, Read, Varint;
    if v != 0 {
      TagIs(b, pos, f, 0, Varint(v));
      ReadIs(b, pos + |Tag(f, 0)|, v);
    }
  }

  lemma {:induction false} UnpackIs(b: seq<byte>, pos: nat, vs: seq<uint32>)
    requires At(b, pos, Varints(vs))
    ensures Unpack(b, pos, pos + |Varints(vs)|) == (vs, pos + |Varints(vs)|)
    decreases |vs|
  {
    hide At, Read, Varint;
    if vs != [] {
      AtSplit(b, pos, Varint(vs[0]), Varints(vs[1..]));
      AtFirst(b, pos, Varint(vs[0]));
      ReadIs(b, pos, vs[0]);
      UnpackIs(b, pos + |Varint(vs[0])|, vs[1..]);
      assert vs == [vs[0]] + vs[1..];
    }
  }

  /** A length-delimited member: where its payload is. */
  lemma LenDelimIs(b: seq<byte>, pos: nat, field: nat, payload: seq<byte>)
    requires field < FIELDS && At(b, pos, LenDelim(field, payload)) && |b| < TWO_32
    ensures var t := Read(b, pos); var l := Read(b, t.1);
      && pos < |b| && t.0 / 8 == field && t.0 % 8 == 2 && l.0 == |payload|
      && At(b, l.1, payload) && l.1 + l.0 == pos + |LenDelim(field, payload)|
  {
    hide Read, Varint;
    assert LenDelim(field, payload) == Tag(field, 2) + (Varint(|payload|) + payload);
    TagIs(b, pos, field, 2, Varint(|payload|) + payload);
    AtSplit(b, pos + |Tag(field, 2)|, Varint(|payload|), payload);
    ReadIs(b, pos + |Tag(field, 2)|, |payload|);
  }

  /** One list of a get_param. */
  lemma PackedIs(b: seq<byte>, pos: nat, end: nat, f: nat, vs: seq<uint32>, rest: seq<byte>, p: Params)
    requires f < FIELDS && At(b, pos, Packed(f, vs) + rest) && end == pos + |Packed(f, vs) + rest| && |b| < TWO_32
    requires ListOf(f).Some? && ListOf(f).value < |p.lists| && p.lists[ListOf(f).value] == []
    ensures ParamsIn(b, pos, end, p) == ParamsIn(b, pos + |Packed(f, vs)|, end, p.(lists := p.lists[ListOf(f).value := vs]))
    ensures At(b, pos + |Packed(f, vs)|, rest)
  {
    hide At, Read, Varint, Varints, Unpack, LenDelim;
    AtSplit(b, pos, Packed(f, vs), rest);
    if vs == [] {
      assert p.lists[ListOf(f).value := vs] == p.lists;
    } else {
      LenDelimIs(b, pos, f, Varints(vs));
      var l := Read(b, Read(b, pos).1);
      UnpackIs(b, l.1, vs);
      assert [] + vs == vs;
      LenDelimLong(f, Varints(vs));
    }
  }

  lemma LenDelimLong(f: nat, payload: seq<byte>)
    ensures |LenDelim(f, payload)| > 0
  {
  }

  lemma PageIs(b: seq<byte>, pos: nat, end: nat, page: uint32, rest: seq<byte>, p: Params)
    requires At(b, pos, Scalar(5, page) + rest) && end == pos + |Scalar(5, page) + rest| && p.page == 0
    ensures ParamsIn(b, pos, end, p) == ParamsIn(b, pos + |Scalar(5, page)|, end, p.(page := page))
    ensures At(b, pos + |Scalar(5, page)|, rest)
  {
    hide At, Read, Varint;
    AtSplit(b, pos, Scalar(5, page), rest);
    if page != 0 {
      TagIs(b, pos, 5, 0, Varint(page));
      ReadIs(b, pos + |Tag(5, 0)|, page);
    }
  }

  lemma ParamsIs(b: seq<byte>, pos: nat, body: Body)
    requires body.GetParam? && |body.lists| == LISTS && At(b, pos, BodyEnc(body)) && |b| < TWO_32
    ensures BodyIn(b, 3, pos, pos + |BodyEnc(body)|) == body
  {
    hide At, Read, Packed, Scalar;
    var l, end := body.lists, pos + |BodyEnc(body)|;
    var r6 := Packed(6, l[4]);
    var r5 := Scalar(5, body.page) + r6;
    var r4 := Packed(4, l[3]) + r5;
    var r3 := Packed(3, l[2]) + r4;
    var r2 := Packed(2, l[1]) + r3;
    var none: seq<uint32> := [];
    var p1 := pos + |Packed(1, l[0])|;
    PackedIs(b, pos, end, 1, l[0], r2, NoParams());
    assert [none, none, none, none, none][0 := l[0]] == [l[0], none, none, none, none];
    var p2 := p1 + |Packed(2, l[1])|;
    PackedIs(b, p1, end, 2, l[1], r3, Params([l[0], none, none, none, none], 0));
    assert [l[0], none, none, none, none][1 := l[1]] == [l[0], l[1], none, none, none];
    var p3 := p2 + |Packed(3, l[2])|;
    PackedIs(b, p2, end, 3, l[2], r4, Params([l[0], l[1], none, none, none], 0));
    assert [l[0], l[1], none, none, none][2 := l[2]] == [l[0], l[1], l[2], none, none];
    var p4 := p3 + |Packed(4, l[3])|;
    PackedIs(b, p3, end, 4, l[3], r5, Params([l[0], l[1], l[2], none, none], 0));
    assert [l[0], l[1], l[2], none, none][3 := l[3]] == [l[0], l[1], l[2], l[3], none];
    PageIs(b, p4, end, body.page, r6, Params([l[0], l[1], l[2], l[3], none], 0));
    var p5 := p4 + |Scalar(5, body.page)|;
    assert r6 + [] == r6;
    PackedIs(b, p5, end, 6, l[4], [], Params([l[0], l[1], l[2], l[3], none], body.page));
    assert [l[0], l[1], l[2], l[3], none][4 := l[4]] == l;
    assert p5 + |Packed(6, l[4])| == end;
  }

  /** A body decodes to itself, as far as the decoder knows it. */
  lemma BodyIs(b: seq<byte>, pos: nat, body: Body)
    requires (body.GetParam? ==> |body.lists| == LISTS) && (body.Other? ==> body.field in PLAIN)
    requires At(b, pos, BodyEnc(body)) && |b| < TWO_32
    ensures BodyIn(b, BodyField(body), pos, pos + |BodyEnc(body)|) == Kept(body)
  {
    hide At, Scalars, Collect, BodyIn, Members, ScalarsEnc, BodyEnc;
    if Kept(body).Other? {
      PlainBody(b, BodyField(body), pos, pos + |BodyEnc(body)|);
    } else if body.GetParam? {
      ParamsIs(b, pos, body);
    } else if body.GetConfig? {
      ConfigIs(b, pos, body);
    } else {
      var ms := Members(body);
      BodyEncIs(body);
      ScalarsIs(b, pos, ms, map[]);
      CollectIs(body, Collect(ms, map[]));
      ScalarBody(b, pos, body, Collect(ms, map[]));
    }
  }

  lemma PlainBody(b: seq<byte>, field: nat, pos: nat, end: nat)
    requires field in PLAIN || field == 28 || field == 32
    ensures BodyIn(b, field, pos, end) == Other(field)
  {
    hide Scalars, ParamsIn;
  }

  lemma BodyEncIs(body: Body)
    requires !body.GetParam?
    ensures BodyEnc(body) == ScalarsEnc(Members(body))
    ensures forall k :: 0 <= k < |Members(body)| ==> Members(body)[k].0 < FIELDS
  {
  }

  /** The members of a body make it up again. */
  lemma ScalarBody(b: seq<byte>, pos: nat, body: Body, m: map<nat, uint32>)
    requires !body.GetParam? && !body.GetConfig? && !Kept(body).Other?
    requires Scalars(b, pos, pos + |BodyEnc(body)|, map[]) == m
    requires forall k :: 0 <= k < |Members(body)| ==> Get(m, Members(body)[k].0) == Members(body)[k].1
    ensures BodyIn(b, BodyField(body), pos, pos + |BodyEnc(body)|) == body
  {
    hide Scalars, BodyEnc, Get;
    var ms := Members(body);
    assert Get(m, ms[0].0) == ms[0].1;
    assert |ms| > 1 ==> Get(m, ms[1].0) == ms[1].1;
    assert |ms| > 2 ==> Get(m, ms[2].0) == ms[2].1;
    assert |ms| > 3 ==> Get(m, ms[3].0) == ms[3].1;
  }

  lemma ConfigIs(b: seq<byte>, pos: nat, body: Body)
    requires body.GetConfig? && At(b, pos, BodyEnc(body))
    ensures BodyIn(b, BodyField(body), pos, pos + |BodyEnc(body)|) == body
  {
    hide At, Read, Varint;
    assert [(1, body.page)][1..] == [];
    assert BodyEnc(body) == ScalarsEnc([(1, body.page)]) == Scalar(1, body.page) + [];
    assert Scalar(1, body.page) + [] == Scalar(1, body.page);
    if body.page != 0 {
      TagIs(b, pos, 1, 0, Varint(body.page));
      ReadIs(b, pos + |Tag(1, 0)|, body.page);
    }
  }

  lemma CollectIs(body: Body, m: map<nat, uint32>)
    requires !body.GetParam? && !body.GetConfig? && !Kept(body).Other? && m == Collect(Members(body), map[])
    ensures forall k :: 0 <= k < |Members(body)| ==> Get(m, Members(body)[k].0) == Members(body)[k].1
  {
    var ms := Members(body);
    var a0: map<nat, uint32> := map[];
    var a1 := if ms[0].1 == 0 then a0 else a0[ms[0].0 := ms[0].1];
    assert Collect(ms, a0) == Collect(ms[1..], a1);
    if |ms| > 1 {
      var a2 := if ms[1].1 == 0 then a1 else a1[ms[1].0 := ms[1].1];
      assert ms[1..][0] == ms[1] && ms[1..][1..] == ms[2..];
      assert Collect(ms[1..], a1) == Collect(ms[2..], a2);
      if |ms| > 2 {
        var a3 := if ms[2].1 == 0 then a2 else a2[ms[2].0 := ms[2].1];
        assert ms[2..][0] == ms[2] && ms[2..][1..] == ms[3..];
        assert Collect(ms[2..], a2) == Collect(ms[3..], a3);
        if |ms| > 3 {
          var a4 := if ms[3].1 == 0 then a3 else a3[ms[3].0 := ms[3].1];
          assert ms[3..] == [ms[3]];
          assert Collect(ms[3..], a3) == a4;
        }
      }
    }
  }

  /** Decoding gives back the command that was encoded, with all members that were set, if and only if it
      is not a buzzer_play or get_radio_state with one: of those only the name comes back. */
  lemma RoundTrip(c: Command)
    requires Encodable(c) && |Encode(c)| < TWO_32
    ensures Decode(Encode(c)) == (c.seqNo, Some(Kept(c.body)))
    ensures Same(Kept(c.body), c.body) <==> Kept(c.body) == c.body || Bare(c.body)
    ensures Kept(c.body) == c.body <==> !c.body.BuzzerPlay? && !c.body.RadioState?
  {
    hide At, Read, Varint, BodyEnc, BodyIn;
    var b := Encode(c);
    var f := BodyField(c.body);
    var msg := LenDelim(f, BodyEnc(c.body));
    AtAll(b);
    AtSplit(b, 0, Scalar(1, c.seqNo), msg);
    var pos := |Scalar(1, c.seqNo)|;
    LenDelimIs(b, pos, f, BodyEnc(c.body));
    var l := Read(b, Read(b, pos).1);
    BodyIs(b, l.1, c.body);
    assert DecodeFrom(b, pos, (c.seqNo, None)) == (c.seqNo, Some(Kept(c.body)));
    if c.seqNo != 0 {
      TagIs(b, 0, 1, 0, Varint(c.seqNo));
      ReadIs(b, |Tag(1, 0)|, c.seqNo);
    }
  }

  /** For example, the page of a get_radio_state. */
  lemma PageLost()
    ensures var c := Command(0, RadioState(1)); Decode(Encode(c)) == (0, Some(Other(32))) && !Same(Other(32), c.body)
  {
    var c := Command(0, RadioState(1));
    assert Members(c.body)[0].1 == 1;
    ShortVarint(1);
    ShortVarint(2);
    ShortVarint(8);
    ShortVarint(258);
    assert [(1 as nat, 1 as uint32)][1..] == [];
    assert BodyEnc(c.body) == ScalarsEnc([(1, 1)]) == Scalar(1, 1) + [];
    RoundTrip(c);
  }

  lemma ShortVarint(v: uint32)
    ensures v < 128 ==> |Varint(v)| == 1
    ensures 128 <= v < 16384 ==> |Varint(v)| == 2
  {
  }

  lemma AtAll(b: seq<byte>)
    ensures At(b, 0, b)
  {
  }

  // ---- The loops of the source --------------------------------------------------------------------------------

  lemma {:induction false} VarintsAppend(vs: seq<uint32>, v: uint32)
    ensures Varints(vs + [v]) == Varints(vs) + Varint(v)
  {
    hide Varint;
    if vs == [] {
      assert ([] + [v])[1..] == [];
    } else {
      assert (vs + [v])[1..] == vs[1..] + [v];
      VarintsAppend(vs[1..], v);
    }
  }

  method PackField(arr: seq<uint32>, tag: nat) returns (out: seq<byte>)
    requires tag < FIELDS
    ensures out == Packed(tag, arr)
  {
    hide Varint;
    if |arr| == 0 {
      return [];
    }
    var pl: seq<byte> := [];
    var i := 0;
    while i < |arr|
      invariant 0 <= i <= |arr| && pl == Varints(arr[..i])
    {
      var v := EncVarint(arr[i]);
      VarintsAppend(arr[..i], arr[i]);
      assert arr[..i + 1] == arr[..i] + [arr[i]];
      pl := pl + v;
      i := i + 1;
    }
    assert arr[..i] == arr;
    out := LenDelim(tag, pl);
  }

  /** `encodeDownlinkCommand`. */
  method EncodeDownlinkCommand(c: Command) returns (out: seq<byte>)
    requires Encodable(c)
    ensures out == Encode(c)
  {
    hide Varint, LenDelim;
    out := Scalar(1, c.seqNo);
    var body: seq<byte> := [];
    if c.body.GetParam? {
      var l := c.body.lists;
      var p1 := PackField(l[0], 1);
      var p2 := PackField(l[1], 2);
      var p3 := PackField(l[2], 3);
      var p4 := PackField(l[3], 4);
      var p6 := PackField(l[4], 6);
      body := p1 + (p2 + (p3 + (p4 + (Scalar(5, c.body.page) + p6))));
    } else {
      var ms := Members(c.body);
      var k := |ms|;
      while k > 0
        invariant 0 <= k <= |ms| && body == ScalarsEnc(ms[k..])
      {
        k := k - 1;
        assert ms[k..][1..] == ms[k + 1..];
        body := Scalar(ms[k].0, ms[k].1) + body;
      }
      assert ms[0..] == ms;
    }
    out := out + LenDelim(BodyField(c.body), body);
  }

  method ScalarLoop(b: seq<byte>, start: nat, end: nat) returns (m: map<nat, uint32>)
    ensures m == Scalars(b, start, end, map[])
  {
    hide ReadOn;
    m := map[];
    var pos := start;
    while pos < end && pos < |b|
      invariant Scalars(b, pos, end, m) == Scalars(b, start, end, map[])
      decreases |b| - pos
    {
      var t, p := PbReadVarint(b, pos);
      if t % 8 != 0 {
        return m;
      }
      var v, q := PbReadVarint(b, p);
      m := m[t / 8 := v];
      pos := q;
    }
  }

  method UnpackLoop(b: seq<byte>, start: nat, end: nat) returns (vs: seq<uint32>, pos: nat)
    ensures (vs, pos) == Unpack(b, start, end)
  {
    hide ReadOn;
    vs, pos := [], start;
    assert vs + Unpack(b, start, end).0 == Unpack(b, start, end).0;
    while pos < end && pos < |b|
      invariant start <= pos && (vs + Unpack(b, pos, end).0, Unpack(b, pos, end).1) == Unpack(b, start, end)
      decreases |b| - pos
    {
      var v, next := PbReadVarint(b, pos);
      assert vs + ([v] + Unpack(b, next, end).0) == vs + [v] + Unpack(b, next, end).0;
      vs, pos := vs + [v], next;
    }
    assert vs + [] == vs;
  }

  method ParamLoop(b: seq<byte>, start: nat, end: nat) returns (p: Params)
    ensures p == ParamsIn(b, start, end, NoParams())
  {
    hide ReadOn, Unpack;
    p := NoParams();
    var pos := start;
    while pos < end && pos < |b|
      invariant ParamsIn(b, pos, end, p) == ParamsIn(b, start, end, NoParams())
      decreases |b| - pos
    {
      var t, q := PbReadVarint(b, pos);
      if t % 8 == 0 {
        var v, next := PbReadVarint(b, q);
        p := if t / 8 == 5 then p.(page := v) else Push(p, t / 8, [v]);
        pos := next;
      } else if t % 8 == 2 {
        var l, from := PbReadVarint(b, q);
        var vs, next := UnpackLoop(b, from, from + l);
        p := Push(p, t / 8, vs);
        pos := next;
      } else {
        return p;
      }
    }
  }

  method DecodeBody(b: seq<byte>, field: nat, pos: nat, end: nat) returns (body: Body)
    ensures body == BodyIn(b, field, pos, end)
  {
    hide ReadOn, ParamsIn, Scalars;
    if field == 3 {
      var p := ParamLoop(b, pos, end);
      return GetParam(p.lists, p.page);
    }
    if field == 5 {
      var page: uint32 := 0;
      if pos < end {
        var t, p := PbReadVarint(b, pos);
        if t / 8 == 1 && t % 8 == 0 {
          var next;
          page, next := PbReadVarint(b, p);
        }
      }
      return GetConfig(page);
    }
    var m := ScalarLoop(b, pos, end);
    body := if field == 10 then ResetCounters(Get(m, 1) != 0, Get(m, 2) != 0, Get(m, 3) != 0, Get(m, 4) != 0)
            else if field == 11 then ReqHistory(Get(m, 1), Get(m, 2))
            else if field == 12 then ClockSync(Get(m, 1))
            else if field == 13 then ReqHistoryPage(Get(m, 1), Get(m, 2), Get(m, 3))
            else Other(field);
  }

  /** `decodeDownlinkCommand`. */
  method DecodeDownlinkCommand(b: seq<byte>) returns (seqNo: uint32, body: Option<Body>)
    ensures (seqNo, body) == Decode(b)
  {
    hide ReadOn, BodyIn;
    seqNo, body := 0, None;
    var pos := 0;
    while pos < |b|
      invariant DecodeFrom(b, pos, (seqNo, body)) == Decode(b)
      decreases |b| - pos
    {
      var t, p := PbReadVarint(b, pos);
      var field, wire := t / 8, t % 8;
      if wire == 0 {
        var v, next := PbReadVarint(b, p);
        if field == 1 {
          seqNo := v;
        }
        pos := next;
      } else if wire == 2 {
        var l, from := PbReadVarint(b, p);
        var d := DecodeBody(b, field, from, from + l);
        body := Some(d);
        pos := from + l;
      } else {
        return;
      }
    }
  }
}
