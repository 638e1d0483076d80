/** How a telemetry report is cut into pages, as functions of the snapshot: the greedy packing of one
    page, the layout of all pages, and what becomes of every part of the snapshot. */
module ComposeSpec {
  import opened Bytes
  import opened Protobuf
  import opened Wire
  import Codec = DownlinkCodec

  const FIELDS: nat := 20
  const GROUPS: nat := 10
  const MAX_READINGS: nat := 4

  /** Field numbers of the group fields, in group order. */
  function FieldNumber(u: nat): nat
    requires u < FIELDS
  {
    [1, 2, 3, 4, 5, 6, 7, 8, 26, 9, 18, 19, 20, 21, 22, 23, 30, 24, 25, 31][u]
  }

  /** First field of group `g`; `GROUPS` closes the last. */
  function First(g: nat): (r: nat)
    requires g <= GROUPS
    ensures r <= FIELDS
  {
    [0, 2, 4, 6, 7, 9, 10, 12, 14, 17, 20][g]
  }

  lemma FirstRises(g: nat, h: nat)
    requires g < h <= GROUPS
    ensures First(g) < First(h)
  {
  }

  /** The frozen readings of a report: the group fields that are present, as the values their varints
      carry, and the encoded 1-Wire readings. A unit is a field, or a reading counted after the fields. */
  datatype Snapshot = Snapshot(fields: seq<Option<nat>>, readings: seq<seq<byte>>)
  {
    predicate Ok() { |fields| == FIELDS && |readings| <= MAX_READINGS }

    function Units(): nat { FIELDS + |readings| }

    function UnitLen(u: nat): nat
      requires Ok() && u < Units()
    {
      if u >= FIELDS then LenDelim(27, |readings[u - FIELDS]|)
      else if fields[u].Some? then PresentLen(FieldNumber(u), fields[u].value)
      else 0
    }

    function UnitEnc(u: nat): seq<byte>
      requires Ok() && u < Units()
    {
      if u >= FIELDS then Codec.LenDelim(27, readings[u - FIELDS])
      else if fields[u].Some? then PresentEnc(FieldNumber(u), fields[u].value)
      else []
    }

    function Parts(): (r: seq<seq<byte>>)
      requires Ok()
      ensures |r| == Units()
    {
      seq(Units(), u requires 0 <= u < Units() => UnitEnc(u))
    }

    predicate Has(u: nat)
      requires Ok()
    {
      u < FIELDS && fields[u].Some?
    }
  }

  datatype Frame = Frame(units: set<nat>, index: nat, count: nat)

  /** Encoded size of the units below `top`. */
  function UnitsLen(s: Snapshot, units: set<nat>, top: nat): nat
    requires s.Ok() && top <= s.Units()
  {
    if top == 0 then 0 else UnitsLen(s, units, top - 1) + if top - 1 in units then s.UnitLen(top - 1) else 0
  }

  function FrameLen(s: Snapshot, f: Frame): nat
    requires s.Ok()
  {
    UnitsLen(s, f.units, s.Units()) + FieldLen(28, f.index) + FieldLen(29, f.count)
  }

  // Group fields whose numbers are below and above those of the readings and the page numbers.
  const LOW_FIELDS: seq<nat> := [0, 1, 2, 3, 4, 5, 6, 7, 9, 10, 11, 12, 13, 14, 15, 17, 18, 8]
  const HIGH_FIELDS: seq<nat> := [16, 19]

  function ReadingUnits(n: nat): seq<nat> { seq(n, i requires 0 <= i < n => FIELDS + i) }

  /** The message of a frame, its fields in the order of their numbers. */
  function FrameEnc(s: Snapshot, f: Frame): seq<byte>
    requires s.Ok()
  {
    Pick(s.Parts(), f.units, LOW_FIELDS + ReadingUnits(|s.readings|))
    + (FieldEnc(28, f.index) + (FieldEnc(29, f.count) + Pick(s.Parts(), f.units, HIGH_FIELDS)))
  }

  /** What goes over the air: the version byte and the message. */
  function OnAir(s: Snapshot, f: Frame): seq<byte>
    requires s.Ok()
  {
    [PROTO_VERSION] + FrameEnc(s, f)
  }

  /** The size a frame is laid out by is that of its message. */
  lemma FrameLength(s: Snapshot, f: Frame)
    requires s.Ok()
    ensures |FrameEnc(s, f)| == FrameLen(s, f) && |OnAir(s, f)| == 1 + FrameLen(s, f)
  {
    hide FieldLen, FieldEnc, Snapshot.Parts, Permutation, UnitsLen, SumOf, Pick, LOW_FIELDS, HIGH_FIELDS;
    var low := LOW_FIELDS + ReadingUnits(|s.readings|);
    WireOrder(|s.readings|);
    PickLength(s.Parts(), f.units, low + HIGH_FIELDS, s.Units());
    PickSplit(s.Parts(), f.units, low, HIGH_FIELDS);
    UnitsLength(s, f.units, s.Units());
    FieldLength(28, f.index);
    FieldLength(29, f.count);
  }

  lemma {:induction false} UnitsLength(s: Snapshot, units: set<nat>, top: nat)
    requires s.Ok() && top <= s.Units()
    ensures SumOf(s.Parts(), units, top) == UnitsLen(s, units, top)
  {
    hide Snapshot.UnitEnc, Snapshot.UnitLen;
    if top > 0 {
      UnitsLength(s, units, top - 1);
      UnitLength(s, top - 1);
    }
  }

  lemma UnitLength(s: Snapshot, u: nat)
    requires s.Ok() && u < s.Units()
    ensures |s.UnitEnc(u)| == s.UnitLen(u)
  {
    hide PresentLen, PresentEnc, LenDelim, Codec.LenDelim, FieldNumber;
    if u >= FIELDS {
      LenDelimLength(27, s.readings[u - FIELDS]);
    } else if s.fields[u].Some? {
      PresentLength(FieldNumber(u), s.fields[u].value);
    }
  }

  /** The fields go out in the order of their numbers: 1 to 9 and 18 to 26, the readings (27), the page
      numbers (28, 29), then 30 and 31. */
  lemma FieldsAscend(k: nat)
    requires k < |LOW_FIELDS|
    ensures FieldNumber(LOW_FIELDS[k]) == if k < 9 then k + 1 else k + 9
    ensures FieldNumber(HIGH_FIELDS[0]) == 30 && FieldNumber(HIGH_FIELDS[1]) == 31
  {
    if k < 9 {
      assert k != 8 ==> LOW_FIELDS[k] == k;
    }
  }

  /** Every unit has its place in the message. */
  lemma WireOrder(n: nat)
    ensures Permutation(LOW_FIELDS + ReadingUnits(n) + HIGH_FIELDS, FIELDS + n)
  {
    hide LOW_FIELDS;
    LowFields();
    var order := LOW_FIELDS + ReadingUnits(n) + HIGH_FIELDS;
    var high := |LOW_FIELDS| + n;
    assert order[high] == 16 && order[high + 1] == 19;
    forall i, j | 0 <= i < j < |order|
      ensures order[i] != order[j]
    {
      assert i < |LOW_FIELDS| ==> order[i] == LOW_FIELDS[i] && LOW_FIELDS[i] in LOW_FIELDS;
      assert j < |LOW_FIELDS| ==> order[j] == LOW_FIELDS[j];
    }
    forall u: nat | u < FIELDS + n
      ensures u in order
    {
      if u >= FIELDS {
        assert order[|LOW_FIELDS| + u - FIELDS] == u;
      } else if u == 16 || u == 19 {
      } else {
        assert u in LOW_FIELDS;
      }
    }
  }

  lemma LowFields()
    ensures |LOW_FIELDS| == 18
    ensures forall u :: u in LOW_FIELDS <==> 0 <= u < FIELDS && u != 16 && u != 19
    ensures forall i, j :: 0 <= i < j < |LOW_FIELDS| ==> LOW_FIELDS[i] != LOW_FIELDS[j]
  {
  }

  predicate Fits(s: Snapshot, f: Frame, cap: nat)
    requires s.Ok()
  {
    FrameLen(s, f) <= cap
  }

  function With(f: Frame, us: set<nat>): Frame { f.(units := f.units + us) }

  /** What is still to send. */
  datatype Cursor = Cursor(
    pending: set<nat>,         // groups
    w1: nat,                   // next reading
    split: Option<nat>,        // the group being sent field by field
    sent: set<nat>)            // its fields already sent or skipped

  predicate Done(s: Snapshot, c: Cursor) { c.pending == {} && c.w1 >= |s.readings| }

  /** Fields of group `g` already sent by a split. */
  function SplitSkip(c: Cursor, g: nat): set<nat> { if c.split == Some(g) then c.sent else {} }

  /** The present fields of group `g` that are not in `skip`. */
  function GroupUnits(s: Snapshot, g: nat, skip: set<nat>): set<nat>
    requires s.Ok() && g < GROUPS
  {
    set u | First(g) <= u < First(g + 1) && s.Has(u) && u !in skip
  }

  // ---- One page ---------------------------------------------------------------------------------

  /** Whole pending groups from `g` on, each if it still fits; and which were taken. */
  function TakeGroups(s: Snapshot, f: Frame, c: Cursor, cap: nat, g: nat): (r: (Frame, set<nat>))
    requires s.Ok() && g <= GROUPS
    decreases GROUPS - g
  {
    if g == GROUPS then (f, {})
    else
      var t := With(f, GroupUnits(s, g, SplitSkip(c, g)));
      if g in c.pending && Fits(s, t, cap) then
        var r := TakeGroups(s, t, c, cap, g + 1);
        (r.0, r.1 + {g})
      else TakeGroups(s, f, c, cap, g + 1)
  }

  /** Readings from `w1` on, in order, while they fit. */
  function TakeReadings(s: Snapshot, f: Frame, w1: nat, cap: nat): (r: (Frame, nat))
    requires s.Ok()
    decreases |s.readings| - w1
  {
    if w1 < |s.readings| && Fits(s, With(f, {FIELDS + w1}), cap)
    then TakeReadings(s, With(f, {FIELDS + w1}), w1 + 1, cap)
    else (f, w1)
  }

  /** Fields of group `g` from `u` on, one by one: what does not fit an empty page is given up. */
  function SplitFields(s: Snapshot, f: Frame, g: nat, sent: set<nat>, added: bool, cap: nat, u: nat): (r: (Frame, set<nat>, bool))
    requires s.Ok() && g < GROUPS && u <= First(g + 1)
    decreases First(g + 1) - u
  {
    if u == First(g + 1) then (f, sent, added)
    else if u in sent then SplitFields(s, f, g, sent, added, cap, u + 1)
    else if !s.Has(u) then SplitFields(s, f, g, sent + {u}, added, cap, u + 1)
    else if Fits(s, With(f, {u}), cap) then SplitFields(s, With(f, {u}), g, sent + {u}, true, cap, u + 1)
    else SplitFields(s, f, g, if added then sent else sent + {u}, added, cap, u + 1)
  }

  /** All fields of the group are settled. */
  predicate AllSent(g: nat, sent: set<nat>)
    requires g < GROUPS
  {
    forall u :: First(g) <= u < First(g + 1) ==> u in sent
  }

  function AfterSplit(c: Cursor, g: nat, sent: set<nat>): Cursor
    requires g < GROUPS
  {
    if AllSent(g, sent) then c.(pending := c.pending - {g}, split := None, sent := {})
    else c.(split := Some(g), sent := sent)
  }

  /** `pack_split`: send the first pending group that has a field that fits, field by field. */
  function PackSplit(s: Snapshot, f: Frame, c: Cursor, cap: nat, g: nat): (r: (Frame, Cursor, bool))
    requires s.Ok() && g <= GROUPS
    decreases GROUPS - g
  {
    if g == GROUPS then (f, c, false)
    else if g !in c.pending then PackSplit(s, f, c, cap, g + 1)
    else
      var r := SplitFields(s, f, g, SplitSkip(c, g), false, cap, First(g));
      var c' := AfterSplit(c, g, r.1);
      if r.2 then (r.0, c', true) else PackSplit(s, r.0, c', cap, g + 1)
  }

  function AfterGroups(c: Cursor, taken: set<nat>): Cursor {
    var c' := c.(pending := c.pending - taken);
    if c.split.Some? && c.split.value in taken then c'.(split := None, sent := {}) else c'
  }

  /** One round of `pack_page`: the frame, the cursor, and whether the page is done. */
  function PackRound(s: Snapshot, f: Frame, c: Cursor, cap: nat): (r: (Frame, Cursor, bool))
    requires s.Ok()
  {
    var gs := TakeGroups(s, f, c, cap, 0);
    var c1 := AfterGroups(c, gs.1);
    var rs := TakeReadings(s, gs.0, c1.w1, cap);
    var c2 := c1.(w1 := rs.1);
    if gs.1 != {} || rs.1 != c.w1 then (rs.0, c2, true)
    else
      var sp := PackSplit(s, rs.0, c2, cap, 0);
      if sp.2 then sp
      else if sp.1.pending == {} && sp.1.w1 < |s.readings| then (sp.0, sp.1.(w1 := sp.1.w1 + 1), false)
      else sp
  }

  /** Rounds a page can still take. */
  function Rounds(s: Snapshot, c: Cursor): nat {
    (if c.pending != {} then 1 else 0) + if c.w1 < |s.readings| then |s.readings| - c.w1 else 0
  }

  // ---- What one page does to what is left ---------------------------------------------------------

  function GroupOf(u: nat): (g: nat)
    requires u < FIELDS
    ensures g < GROUPS && First(g) <= u < First(g + 1)
  {
    if u < 2 then 0 else if u < 4 then 1 else if u < 6 then 2 else if u < 7 then 3 else if u < 9 then 4
    else if u < 10 then 5 else if u < 12 then 6 else if u < 14 then 7 else if u < 17 then 8 else 9
  }

  lemma GroupIs(u: nat, g: nat)
    requires g < GROUPS && First(g) <= u < First(g + 1)
    ensures u < FIELDS && GroupOf(u) == g
  {
  }

  /** Units still to send. */
  ghost predicate Left(s: Snapshot, c: Cursor, u: nat)
    requires s.Ok()
  {
    if u < FIELDS then GroupOf(u) in c.pending && u in GroupUnits(s, GroupOf(u), SplitSkip(c, GroupOf(u)))
    else c.w1 <= u - FIELDS < |s.readings|
  }

  /** Pending groups have something to send, and only the first of them is being split. */
  ghost predicate CursorOk(s: Snapshot, c: Cursor)
    requires s.Ok()
  {
    && c.w1 <= |s.readings|
    && (forall g :: g in c.pending ==> g < GROUPS)
    && (forall g: nat :: g in c.pending && g < GROUPS ==> GroupUnits(s, g, SplitSkip(c, g)) != {})
    && (c.split.Some? ==> c.split.value in c.pending && forall g :: g in c.pending ==> c.split.value <= g)
  }

  /** From cursor `c` to `d` the units `x` were sent on a page that was `f` when still empty; a unit that
      is gone otherwise does not fit that page. */
  ghost predicate Moves(s: Snapshot, f: Frame, c: Cursor, d: Cursor, x: set<nat>, cap: nat)
    requires s.Ok()
  {
    forall u: nat :: MovesUnit(s, f, c, d, x, cap, u)
  }

  ghost predicate MovesUnit(s: Snapshot, f: Frame, c: Cursor, d: Cursor, x: set<nat>, cap: nat, u: nat)
    requires s.Ok()
  {
    && (Left(s, d, u) ==> Left(s, c, u) && u !in x)
    && (u in x ==> Left(s, c, u))
    && (Left(s, c, u) && u !in x && !Left(s, d, u) ==> !Fits(s, With(f, {u}), cap))
  }

  lemma {:induction false} TakeGroupsIs(s: Snapshot, f: Frame, c: Cursor, cap: nat, g: nat)
    requires s.Ok() && g <= GROUPS
    ensures var r := TakeGroups(s, f, c, cap, g);
      && (forall h :: h in r.1 ==> h in c.pending && g <= h < GROUPS)
      && r.0.index == f.index && r.0.count == f.count
      && (forall u: nat :: u in r.0.units <==> u in f.units || GroupTaken(s, c, r.1, u))
      && (r.1 == {} ==> r.0 == f) && (r.1 != {} ==> Fits(s, r.0, cap))
    decreases GROUPS - g
  {
    hide Fits, First, Snapshot.Has, GroupUnits, GroupOf;
    if g < GROUPS {
      var us := GroupUnits(s, g, SplitSkip(c, g));
      var t := With(f, us);
      if g in c.pending && Fits(s, t, cap) {
        TakeGroupsIs(s, t, c, cap, g + 1);
        MoreTaken(s, c, TakeGroups(s, t, c, cap, g + 1).1, g);
      } else {
        TakeGroupsIs(s, f, c, cap, g + 1);
      }
    }
  }

  ghost predicate GroupTaken(s: Snapshot, c: Cursor, taken: set<nat>, u: nat)
    requires s.Ok()
  {
    u < FIELDS && GroupOf(u) in taken && u in GroupUnits(s, GroupOf(u), SplitSkip(c, GroupOf(u)))
  }

  lemma MoreTaken(s: Snapshot, c: Cursor, taken: set<nat>, g: nat)
    requires s.Ok() && g < GROUPS
    ensures forall u: nat :: GroupTaken(s, c, taken + {g}, u) <==> u in GroupUnits(s, g, SplitSkip(c, g)) || GroupTaken(s, c, taken, u)
  {
    hide First, Snapshot.Has;
    forall u: nat
      ensures GroupTaken(s, c, taken + {g}, u) <==> u in GroupUnits(s, g, SplitSkip(c, g)) || GroupTaken(s, c, taken, u)
    {
      if u in GroupUnits(s, g, SplitSkip(c, g)) {
        GroupIs(u, g);
      }
    }
  }

  lemma {:induction false} TakeReadingsIs(s: Snapshot, f: Frame, w1: nat, cap: nat)
    requires s.Ok() && w1 <= |s.readings|
    ensures var r := TakeReadings(s, f, w1, cap);
      && w1 <= r.1 <= |s.readings| && r.0.index == f.index && r.0.count == f.count
      && (forall u: nat :: u in r.0.units <==> u in f.units || w1 + FIELDS <= u < r.1 + FIELDS)
      && (r.1 == w1 ==> r.0 == f) && (r.1 > w1 ==> Fits(s, r.0, cap))
      && (r.1 < |s.readings| ==> !Fits(s, With(r.0, {FIELDS + r.1}), cap))
    decreases |s.readings| - w1
  {
    hide Fits;
    if w1 < |s.readings| && Fits(s, With(f, {FIELDS + w1}), cap) {
      TakeReadingsIs(s, With(f, {FIELDS + w1}), w1 + 1, cap);
    }
  }

  /** Splitting group `g` of a page that was `f0`: `x` are the fields sent so far. */
  lemma {:induction false} SplitFieldsIs(s: Snapshot, f0: Frame, f: Frame, g: nat, sent: set<nat>, cap: nat, u: nat, x: set<nat>)
    requires s.Ok() && g < GROUPS && First(g) <= u <= First(g + 1)
    requires f == With(f0, x) && x <= sent
    ensures var r := SplitFields(s, f, g, sent, x != {}, cap, u);
      exists y: set<nat> :: SplitResult(s, f0, g, sent, cap, u, x, y, r)
    decreases First(g + 1) - u
  {
    hide Fits, First, SplitResult, Snapshot.Has;
    var r := SplitFields(s, f, g, sent, x != {}, cap, u);
    if u == First(g + 1) {
      SplitEnd(s, f0, g, sent, cap, u, x);
    } else {
      var fits := s.Has(u) && u !in sent && Fits(s, With(f, {u}), cap);
      var x' := if fits then x + {u} else x;
      var sent' := if u in sent then sent else if s.Has(u) && !fits && x != {} then sent else sent + {u};
      if fits {
        assert With(f, {u}) == With(f0, x');
      } else if x == {} {
        assert With(f0, {}) == f0;
      }
      SplitFieldsIs(s, f0, With(f0, x'), g, sent', cap, u + 1, x');
      var y: set<nat> :| SplitResult(s, f0, g, sent', cap, u + 1, x', y, r);
      SplitStep(s, f0, g, sent, cap, u, x, y, r, sent', x');
    }
  }

  lemma SplitEnd(s: Snapshot, f0: Frame, g: nat, sent: set<nat>, cap: nat, u: nat, x: set<nat>)
    requires s.Ok() && g < GROUPS && u == First(g + 1) && x <= sent
    ensures SplitResult(s, f0, g, sent, cap, u, x, x, (With(f0, x), sent, x != {}))
  {
    hide Fits, First, Snapshot.Has, With;
  }

  lemma SplitStep(s: Snapshot, f0: Frame, g: nat, sent: set<nat>, cap: nat, u: nat, x: set<nat>, y: set<nat>,
      r: (Frame, set<nat>, bool), sent': set<nat>, x': set<nat>)
    requires s.Ok() && g < GROUPS && u < First(g + 1) && x <= sent
    requires SplitResult(s, f0, g, sent', cap, u + 1, x', y, r)
    requires || (u in sent && sent' == sent && x' == x)
             || (u !in sent && s.Has(u) && sent' == sent + {u} && x' == x + {u} && Fits(s, With(f0, x'), cap))
             || (u !in sent && (s.Has(u) ==> x == {} && !Fits(s, With(f0, {u}), cap)) && sent' == sent + {u} && x' == x)
             || (u !in sent && s.Has(u) && x != {} && sent' == sent && x' == x)
    ensures SplitResult(s, f0, g, sent, cap, u, x, y, r)
  {
    hide Fits, First, Snapshot.Has, With;
  }

  ghost predicate SplitResult(s: Snapshot, f0: Frame, g: nat, sent: set<nat>, cap: nat, u: nat, x: set<nat>, y: set<nat>, r: (Frame, set<nat>, bool))
    requires s.Ok() && g < GROUPS
  {
    && r.0 == With(f0, y) && r.2 == (y != {}) && x <= y <= r.1 && sent <= r.1
    && (forall v :: v in y && v !in x ==> u <= v < First(g + 1) && s.Has(v) && v !in sent)
    && (forall v :: v in r.1 && v !in sent && v !in y ==> u <= v < First(g + 1) && (s.Has(v) ==> !Fits(s, With(f0, {v}), cap)))
    && (forall v: nat :: u <= v < First(g + 1) && v !in r.1 ==> s.Has(v) && y != {})
    && (y != x ==> Fits(s, r.0, cap))
  }

  lemma MovesTrans(s: Snapshot, f: Frame, c: Cursor, d: Cursor, e: Cursor, x: set<nat>, y: set<nat>, cap: nat)
    requires s.Ok() && Moves(s, f, c, d, x, cap) && Moves(s, f, d, e, y, cap)
    ensures Moves(s, f, c, e, x + y, cap)
  {
    hide Fits, Left;
    forall u: nat
      ensures MovesUnit(s, f, c, e, x + y, cap, u)
    {
      assert MovesUnit(s, f, c, d, x, cap, u) && MovesUnit(s, f, d, e, y, cap, u);
    }
  }

  lemma MovesNot(s: Snapshot, f: Frame, c: Cursor, cap: nat)
    requires s.Ok()
    ensures Moves(s, f, c, c, {}, cap)
  {
    hide Fits, Left;
  }

  /** Splitting the first pending group settles the fields it sends or gives up. */
  lemma SplitMoves(s: Snapshot, f: Frame, c: Cursor, cap: nat, g: nat, y: set<nat>, r: (Frame, set<nat>, bool))
    requires s.Ok() && CursorOk(s, c) && g in c.pending && g < GROUPS && forall h :: h in c.pending ==> g <= h
    requires SplitResult(s, f, g, SplitSkip(c, g), cap, First(g), {}, y, r)
    ensures CursorOk(s, AfterSplit(c, g, r.1)) && Moves(s, f, c, AfterSplit(c, g, r.1), y, cap)
    ensures y == {} ==> AfterSplit(c, g, r.1) == c.(pending := c.pending - {g}, split := None, sent := {})
  {
    hide Fits, First, Snapshot.Has, With;
    var d := AfterSplit(c, g, r.1);
    forall u: nat
      ensures MovesUnit(s, f, c, d, y, cap, u)
    {
      if u < FIELDS && GroupOf(u) == g {
      } else if First(g) <= u < First(g + 1) {
        GroupIs(u, g);
      }
    }
    if !AllSent(g, r.1) {
      var v: nat :| First(g) <= v < First(g + 1) && v !in r.1;
      GroupIs(v, g);
      assert v in GroupUnits(s, g, r.1);
    }
  }

  lemma NonePending(s: Snapshot, c: Cursor)
    requires s.Ok() && CursorOk(s, c) && forall h :: h in c.pending ==> GROUPS <= h
    ensures c.pending == {}
  {
  }

  lemma {:induction false} PackSplitIs(s: Snapshot, f: Frame, c: Cursor, cap: nat, g: nat)
    requires s.Ok() && CursorOk(s, c) && g <= GROUPS && f.units == {} && forall h :: h in c.pending ==> g <= h
    ensures var r := PackSplit(s, f, c, cap, g);
      && CursorOk(s, r.1) && r.1.w1 == c.w1 && r.0 == f.(units := r.0.units)
      && Moves(s, f, c, r.1, r.0.units, cap)
      && (r.2 <==> r.0.units != {}) && (r.2 ==> Fits(s, r.0, cap)) && (!r.2 ==> r.1.pending == {})
    decreases GROUPS - g
  {
    hide Fits, First, Moves, GroupUnits, Left, CursorOk, SplitFields, SplitSkip, Snapshot.Has;
    if g == GROUPS {
      MovesNot(s, f, c, cap);
      NonePending(s, c);
    } else if g !in c.pending {
      PackSplitIs(s, f, c, cap, g + 1);
    } else {
      var skip := SplitSkip(c, g);
      assert With(f, {}) == f;
      FirstRises(g, g + 1);
      SplitFieldsIs(s, f, f, g, skip, cap, First(g), {});
      var r := SplitFields(s, f, g, skip, false, cap, First(g));
      var y: set<nat> :| SplitResult(s, f, g, skip, cap, First(g), {}, y, r);
      SplitMoves(s, f, c, cap, g, y, r);
      assert With(f, y).units == y;
      var d := AfterSplit(c, g, r.1);
      if y == {} {
        PackSplitIs(s, f, d, cap, g + 1);
        var q := PackSplit(s, f, d, cap, g + 1);
        MovesTrans(s, f, c, d, q.1, {}, q.0.units, cap);
        assert {} + q.0.units == q.0.units;
      }
    }
  }

  /** What one round of a page does: the units on the page and those left after it are those left before,
      but for units that do not fit the page when it is empty. */
  ghost predicate RoundOk(s: Snapshot, f: Frame, c: Cursor, cap: nat, r: (Frame, Cursor, bool))
    requires s.Ok()
  {
    && CursorOk(s, r.1) && r.0 == f.(units := r.0.units)
    && Moves(s, f, c, r.1, r.0.units, cap)
    && (r.2 <==> r.0.units != {}) && (r.2 ==> Fits(s, r.0, cap))
  }

  lemma PendingGroups(s: Snapshot, c: Cursor)
    requires s.Ok() && CursorOk(s, c)
    ensures c.w1 <= |s.readings|
  {
  }

  lemma TakenMoves(s: Snapshot, f: Frame, c: Cursor, cap: nat, taken: set<nat>, w1: nat, x: set<nat>)
    requires s.Ok() && CursorOk(s, c) && c.w1 <= w1 <= |s.readings| && taken <= c.pending
    requires forall u: nat :: u in x <==> GroupTaken(s, c, taken, u) || c.w1 + FIELDS <= u < w1 + FIELDS
    ensures Moves(s, f, c, AfterGroups(c, taken).(w1 := w1), x, cap)
  {
    hide Fits, First, GroupUnits, CursorOk;
    var d := AfterGroups(c, taken).(w1 := w1);
    forall u: nat
      ensures MovesUnit(s, f, c, d, x, cap, u)
    {
      assert u < FIELDS && GroupOf(u) in d.pending ==> SplitSkip(d, GroupOf(u)) == SplitSkip(c, GroupOf(u));
    }
  }

  lemma AfterTaken(s: Snapshot, c: Cursor, taken: set<nat>, w1: nat)
    requires s.Ok() && CursorOk(s, c) && w1 <= |s.readings| && taken <= c.pending
    ensures CursorOk(s, AfterGroups(c, taken).(w1 := w1))
  {
    hide First, GroupUnits;
    var d := AfterGroups(c, taken).(w1 := w1);
    forall g: nat | g in d.pending && g < GROUPS
      ensures GroupUnits(s, g, SplitSkip(d, g)) != {}
    {
      assert SplitSkip(d, g) == SplitSkip(c, g);
    }
  }

  /** Whole groups and readings taken. */
  lemma TakesMove(s: Snapshot, f: Frame, c: Cursor, cap: nat)
    requires s.Ok() && CursorOk(s, c) && f.units == {}
    ensures var gs := TakeGroups(s, f, c, cap, 0); var c1 := AfterGroups(c, gs.1);
      var rs := TakeReadings(s, gs.0, c1.w1, cap); var c2 := c1.(w1 := rs.1);
      && CursorOk(s, c2) && rs.0 == f.(units := rs.0.units) && Moves(s, f, c, c2, rs.0.units, cap)
      && (gs.1 == {} && rs.1 == c.w1 ==> rs.0 == f && c2 == c)
      && (gs.1 == {} && rs.1 == c.w1 < |s.readings| ==> !Fits(s, With(f, {FIELDS + c.w1}), cap))
      && (gs.1 != {} || rs.1 != c.w1 ==> rs.0.units != {} && Fits(s, rs.0, cap))
  {
    hide Fits, First, GroupUnits, Moves, CursorOk;
    PendingGroups(s, c);
    TakeGroupsIs(s, f, c, cap, 0);
    var gs := TakeGroups(s, f, c, cap, 0);
    var c1 := AfterGroups(c, gs.1);
    TakeReadingsIs(s, gs.0, c1.w1, cap);
    var rs := TakeReadings(s, gs.0, c1.w1, cap);
    var c2 := c1.(w1 := rs.1);
    TakenMoves(s, f, c, cap, gs.1, rs.1, rs.0.units);
    AfterTaken(s, c, gs.1, rs.1);
    if gs.1 != {} {
      var g :| g in gs.1;
      GroupHasUnit(s, c, g, gs.1);
    } else if rs.1 > c1.w1 {
      assert FIELDS + c1.w1 in rs.0.units;
    }
  }

  lemma GroupHasUnit(s: Snapshot, c: Cursor, g: nat, taken: set<nat>)
    requires s.Ok() && CursorOk(s, c) && g in c.pending && g in taken
    ensures exists u: nat :: GroupTaken(s, c, taken, u)
  {
    var u :| u in GroupUnits(s, g, SplitSkip(c, g));
    GroupIs(u, g);
    assert GroupTaken(s, c, taken, u);
  }

  lemma SkipReading(s: Snapshot, f: Frame, c: Cursor, cap: nat)
    requires s.Ok() && CursorOk(s, c) && c.w1 < |s.readings| && !Fits(s, With(f, {FIELDS + c.w1}), cap)
    ensures CursorOk(s, c.(w1 := c.w1 + 1)) && Moves(s, f, c, c.(w1 := c.w1 + 1), {}, cap)
  {
    hide Fits, First, GroupUnits;
    var d := c.(w1 := c.w1 + 1);
    forall g: nat | g in c.pending && g < GROUPS
      ensures GroupUnits(s, g, SplitSkip(d, g)) != {}
    {
      assert SplitSkip(d, g) == SplitSkip(c, g);
    }
    forall u: nat
      ensures MovesUnit(s, f, c, d, {}, cap, u)
    {
    }
  }

  lemma PackRoundIs(s: Snapshot, f: Frame, c: Cursor, cap: nat)
    requires s.Ok() && CursorOk(s, c) && f.units == {} && !Done(s, c)
    ensures RoundOk(s, f, c, cap, PackRound(s, f, c, cap))
    ensures var r := PackRound(s, f, c, cap); !r.2 ==> r.0 == f && Rounds(s, r.1) < Rounds(s, c)
  {
    hide Fits, Moves, CursorOk;
    TakesMove(s, f, c, cap);
    var gs := TakeGroups(s, f, c, cap, 0);
    var c1 := AfterGroups(c, gs.1);
    var rs := TakeReadings(s, gs.0, c1.w1, cap);
    if gs.1 == {} && rs.1 == c.w1 {
      PackSplitIs(s, f, c, cap, 0);
      var sp := PackSplit(s, f, c, cap, 0);
      if !sp.2 && sp.1.w1 < |s.readings| {
        SkipReading(s, f, sp.1, cap);
        ghost var none: set<nat> := {};
        MovesTrans(s, f, c, sp.1, sp.1.(w1 := sp.1.w1 + 1), none, none, cap);
        assert none + none == none;
      }
    }
  }

  /** `pack_page` on the empty frame `f`: rounds until something is on the page or nothing is left. */
  function PackPage(s: Snapshot, f: Frame, c: Cursor, cap: nat): (r: (Frame, Cursor, bool))
    requires s.Ok() && CursorOk(s, c) && f.units == {}
    decreases Rounds(s, c)
  {
    if Done(s, c) then (f, c, false)
    else
      PackRoundIs(s, f, c, cap);
      var r := PackRound(s, f, c, cap);
      if r.2 then r else PackPage(s, r.0, r.1, cap)
  }

  lemma {:induction false} PackPageIs(s: Snapshot, f: Frame, c: Cursor, cap: nat)
    requires s.Ok() && CursorOk(s, c) && f.units == {}
    ensures RoundOk(s, f, c, cap, PackPage(s, f, c, cap))
    ensures var r := PackPage(s, f, c, cap); !r.2 ==> Done(s, r.1)
    decreases Rounds(s, c)
  {
    hide Fits, Moves, CursorOk, PackRound, Rounds;
    if Done(s, c) {
      MovesNot(s, f, c, cap);
    } else {
      PackRoundIs(s, f, c, cap);
      var r := PackRound(s, f, c, cap);
      if !r.2 {
        PackPageIs(s, f, r.1, cap);
        var q := PackPage(s, f, r.1, cap);
        MovesTrans(s, f, c, r.1, q.1, {}, q.0.units, cap);
        assert {} + q.0.units == q.0.units;
      }
    }
  }

  // ---- All pages of a report ------------------------------------------------------------------------

  function EmptyPage(index: nat): Frame { Frame({}, index, PAGE_BOUND) }

  /** Pages laid out from cursor `c` on, the next being number `k`. */
  function Pages(s: Snapshot, c: Cursor, cap: nat, k: nat): nat
    requires s.Ok() && CursorOk(s, c)
    decreases PAGE_BOUND - k
  {
    if Done(s, c) || k >= PAGE_BOUND then k
    else
      PackPageIs(s, EmptyPage(k), c, cap);
      var r := PackPage(s, EmptyPage(k), c, cap);
      if r.2 then Pages(s, r.1, cap, k + 1) else k
  }

  ghost function LeftSet(s: Snapshot, c: Cursor): set<nat>
    requires s.Ok()
  {
    set u: nat | u < s.Units() && Left(s, c, u)
  }

  lemma LeftInside(s: Snapshot, c: Cursor, u: nat)
    requires s.Ok() && Left(s, c, u)
    ensures u < s.Units() && u in LeftSet(s, c)
  {
  }

  lemma {:induction false} RangeSize(us: set<nat>, n: nat)
    requires forall u :: u in us ==> u < n
    ensures |us| <= n
  {
    if n > 0 {
      RangeSize(us - {n - 1}, n - 1);
    } else {
      assert us == {};
    }
  }

  /** A page takes at least one unit. */
  lemma PageTakes(s: Snapshot, f: Frame, c: Cursor, cap: nat)
    requires s.Ok() && CursorOk(s, c) && f.units == {} && PackPage(s, f, c, cap).2
    ensures CursorOk(s, PackPage(s, f, c, cap).1) && |LeftSet(s, PackPage(s, f, c, cap).1)| < |LeftSet(s, c)|
  {
    hide Fits, CursorOk, PackPage, Left;
    PackPageIs(s, f, c, cap);
    var r := PackPage(s, f, c, cap);
    var a, b := LeftSet(s, c), LeftSet(s, r.1);
    forall u | u in b
      ensures u in a
    {
      assert MovesUnit(s, f, c, r.1, r.0.units, cap, u);
    }
    var u :| u in r.0.units;
    assert MovesUnit(s, f, c, r.1, r.0.units, cap, u);
    LeftInside(s, c, u);
    assert u in a && u !in b;
    SmallerSet(b, a, u);
  }

  lemma SmallerSet(b: set<nat>, a: set<nat>, u: nat)
    requires b <= a && u in a && u !in b
    ensures |b| < |a|
  {
    assert b <= a - {u};
    SubsetSize(b, a - {u});
  }

  lemma {:induction false} SubsetSize(b: set<nat>, a: set<nat>)
    requires b <= a
    ensures |b| <= |a|
  {
    if b != {} {
      var u :| u in b;
      SubsetSize(b - {u}, a - {u});
    }
  }

  lemma {:induction false} PagesBound(s: Snapshot, c: Cursor, cap: nat, k: nat)
    requires s.Ok() && CursorOk(s, c)
    ensures Pages(s, c, cap, k) <= k + |LeftSet(s, c)|
    decreases PAGE_BOUND - k
  {
    hide Fits, CursorOk, PackPage, Left, LeftSet, Done;
    if !Done(s, c) && k < PAGE_BOUND {
      var r := PackPage(s, EmptyPage(k), c, cap);
      if r.2 {
        PageTakes(s, EmptyPage(k), c, cap);
        PagesBound(s, r.1, cap, k + 1);
      }
    }
  }

  /** No report has more than 24 pages, far from the bound of the layout. */
  lemma FewPages(s: Snapshot, c: Cursor, cap: nat)
    requires s.Ok() && CursorOk(s, c)
    ensures Pages(s, c, cap, 0) <= FIELDS + MAX_READINGS < PAGE_BOUND
  {
    hide Fits, CursorOk, PackPage, Left, Pages;
    PagesBound(s, c, cap, 0);
    RangeSize(LeftSet(s, c), FIELDS + MAX_READINGS);
  }

  /** A unit that does not fit an otherwise empty page. */
  predicate TooBig(s: Snapshot, cap: nat, u: nat)
    requires s.Ok()
  {
    !Fits(s, Frame({u}, 1, PAGE_BOUND), cap)
  }

  lemma TooBigOnPage(s: Snapshot, cap: nat, u: nat, k: nat)
    requires s.Ok() && k < PAGE_BOUND && !Fits(s, With(EmptyPage(k), {u}), cap)
    ensures TooBig(s, cap, u)
  {
    hide UnitsLen;
    assert {} + {u} == {u};
  }

  /** So far in a report from cursor `c0`: the frames, numbered in order, hold distinct units, and every
      unit is on one of them, still to send, or too big for a page of its own. */
  ghost predicate Covered(s: Snapshot, cap: nat, c0: Cursor, c: Cursor, frames: seq<Frame>)
    requires s.Ok()
  {
    && (forall u: nat :: CoveredUnit(s, cap, c0, c, frames, u))
    && (forall k :: 0 <= k < |frames| ==> frames[k].index == k && frames[k].units != {})
  }

  ghost predicate CoveredUnit(s: Snapshot, cap: nat, c0: Cursor, c: Cursor, frames: seq<Frame>, u: nat)
    requires s.Ok()
  {
    && (Left(s, c, u) ==> Left(s, c0, u) && NotIn(frames, u))
    && (forall j, k :: 0 <= j < k < |frames| && u in frames[j].units ==> u !in frames[k].units)
    && (forall k :: 0 <= k < |frames| && u in frames[k].units ==> Left(s, c0, u))
    && (Left(s, c0, u) && NotIn(frames, u) && !Left(s, c, u) ==> TooBig(s, cap, u))
  }

  ghost predicate NotIn(frames: seq<Frame>, u: nat) {
    forall k :: 0 <= k < |frames| ==> u !in frames[k].units
  }

  lemma CoveredStart(s: Snapshot, cap: nat, c: Cursor)
    requires s.Ok()
    ensures Covered(s, cap, c, c, [])
  {
    hide Left, TooBig;
  }

  /** One more page. */
  lemma CoveredStep(s: Snapshot, cap: nat, c0: Cursor, c: Cursor, frames: seq<Frame>, f: Frame)
    requires s.Ok() && CursorOk(s, c) && Covered(s, cap, c0, c, frames) && |frames| < PAGE_BOUND
    requires var r := PackPage(s, EmptyPage(|frames|), c, cap); r.2 && f.units == r.0.units && f.index == |frames|
    ensures Covered(s, cap, c0, PackPage(s, EmptyPage(|frames|), c, cap).1, frames + [f])
  {
    hide Left, TooBig, Fits, CursorOk, PackPage;
    PackPageIs(s, EmptyPage(|frames|), c, cap);
    var d := PackPage(s, EmptyPage(|frames|), c, cap).1;
    forall u: nat
      ensures CoveredUnit(s, cap, c0, d, frames + [f], u)
    {
      assert CoveredUnit(s, cap, c0, c, frames, u);
      assert MovesUnit(s, EmptyPage(|frames|), c, d, f.units, cap, u);
      CoveredUnitStep(s, cap, c0, c, d, frames, f, u);
    }
  }

  lemma CoveredUnitStep(s: Snapshot, cap: nat, c0: Cursor, c: Cursor, d: Cursor, frames: seq<Frame>, f: Frame, u: nat)
    requires s.Ok() && |frames| < PAGE_BOUND && CoveredUnit(s, cap, c0, c, frames, u)
    requires MovesUnit(s, EmptyPage(|frames|), c, d, f.units, cap, u)
    ensures CoveredUnit(s, cap, c0, d, frames + [f], u)
  {
    hide Left, TooBig, Fits, EmptyPage;
    var g := frames + [f];
    assert NotIn(g, u) <==> NotIn(frames, u) && u !in f.units by {
      assert g[|frames|] == f;
      if NotIn(g, u) {
        forall k | 0 <= k < |frames| ensures u !in frames[k].units { assert g[k] == frames[k]; }
      }
    }
    if Left(s, c, u) && u !in f.units && !Left(s, d, u) {
      TooBigOnPage(s, cap, u, |frames|);
    }
  }

  /** The frames of a whole report: every unit that fits a page of its own is on exactly one. */
  ghost predicate Complete(s: Snapshot, cap: nat, c0: Cursor, frames: seq<Frame>)
    requires s.Ok()
  {
    forall u: nat :: CompleteUnit(s, cap, c0, frames, u)
  }

  ghost predicate CompleteUnit(s: Snapshot, cap: nat, c0: Cursor, frames: seq<Frame>, u: nat)
    requires s.Ok()
  {
    && (forall j, k :: 0 <= j < k < |frames| && u in frames[j].units ==> u !in frames[k].units)
    && (Left(s, c0, u) && !TooBig(s, cap, u) ==> exists k :: 0 <= k < |frames| && u in frames[k].units)
    && ((exists k :: 0 <= k < |frames| && u in frames[k].units) ==> Left(s, c0, u))
  }

  /** When the layout has no further page, what is left is too big. */
  lemma CoveredEnd(s: Snapshot, cap: nat, c0: Cursor, c: Cursor, frames: seq<Frame>)
    requires s.Ok() && CursorOk(s, c) && Covered(s, cap, c0, c, frames)
    requires |frames| < PAGE_BOUND && Pages(s, c, cap, |frames|) == |frames|
    ensures Complete(s, cap, c0, frames)
  {
    hide TooBig, Fits, CursorOk, PackPage, Left;
    var k := |frames|;
    if Done(s, c) {
      forall u: nat
        ensures !Left(s, c, u)
      {
        NoneLeft(s, c, u);
      }
    } else {
      PackPageIs(s, EmptyPage(k), c, cap);
      var r := PackPage(s, EmptyPage(k), c, cap);
      PagesStop(s, c, cap, k);
      forall u: nat | Left(s, c, u)
        ensures TooBig(s, cap, u)
      {
        assert MovesUnit(s, EmptyPage(k), c, r.1, r.0.units, cap, u);
        NoneLeft(s, r.1, u);
        TooBigOnPage(s, cap, u, k);
      }
    }
    forall u: nat
      ensures CompleteUnit(s, cap, c0, frames, u)
    {
      assert CoveredUnit(s, cap, c0, c, frames, u);
    }
  }

  lemma NoneLeft(s: Snapshot, c: Cursor, u: nat)
    requires s.Ok() && Done(s, c)
    ensures !Left(s, c, u)
  {
  }

  lemma {:induction false} PagesRise(s: Snapshot, c: Cursor, cap: nat, k: nat)
    requires s.Ok() && CursorOk(s, c)
    ensures Pages(s, c, cap, k) >= k
    decreases PAGE_BOUND - k
  {
    hide Fits, CursorOk, PackPage, Done;
    if !Done(s, c) && k < PAGE_BOUND {
      PackPageIs(s, EmptyPage(k), c, cap);
      var r := PackPage(s, EmptyPage(k), c, cap);
      if r.2 {
        PagesRise(s, r.1, cap, k + 1);
      }
    }
  }

  /** The layout ends at page `k` if and only if no page can be packed there. */
  lemma PagesStop(s: Snapshot, c: Cursor, cap: nat, k: nat)
    requires s.Ok() && CursorOk(s, c) && k < PAGE_BOUND
    ensures Pages(s, c, cap, k) == k <==> !PackPage(s, EmptyPage(k), c, cap).2
  {
    hide Fits, CursorOk;
    if !Done(s, c) {
      PackPageIs(s, EmptyPage(k), c, cap);
      var r := PackPage(s, EmptyPage(k), c, cap);
      if r.2 {
        PagesRise(s, r.1, cap, k + 1);
      }
    }
  }
}
