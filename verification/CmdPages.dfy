/** The paged command answers: settings info, device info and radio state, laid out greedily for the
    radio's payload, and the config dumps, packed by size bounds. Every page of one answer comes from a
    layout run of its own, so the runs must agree. */
module CmdPages {
  import opened Bytes
  import opened Protobuf
  import opened Wire
  import Codec = DownlinkCodec
  import opened Paging

  // ---- Responses ---------------------------------------------------------------------------------

  const CONFIG_DUMP: nat := 4          // Response body field numbers
  const INFO: nat := 3
  const RADIO_STATE: nat := 14

  /** The encoded answer with its version byte: sequence number, body, page numbers. */
  function ResponseLen(seqNo: nat, field: nat, body: nat, index: nat, count: nat): nat {
    1 + FieldLen(1, seqNo) + LenDelim(field, body) + PagingLen(12, 13, index, count)
  }

  /** The body of a page is laid out with the page number bound. */
  predicate BodyFits(seqNo: nat, field: nat, body: nat, cap: nat) {
    ResponseLen(seqNo, field, body, PAGE_BOUND, PAGE_BOUND) <= cap
  }

  /** The answer as it goes out. */
  function ResponseEnc(seqNo: nat, field: nat, body: seq<byte>, index: nat, count: nat): seq<byte> {
    [PROTO_VERSION] + (FieldEnc(1, seqNo) + (Codec.LenDelim(field, body) + PagingEnc(12, 13, index, count)))
  }

  lemma ResponseLength(seqNo: nat, field: nat, body: seq<byte>, index: nat, count: nat)
    ensures |ResponseEnc(seqNo, field, body, index, count)| == ResponseLen(seqNo, field, |body|, index, count)
  {
    hide FieldEnc, FieldLen, PagingEnc, PagingLen, LenDelim, Codec.LenDelim;
    FieldLength(1, seqNo);
    LenDelimLength(field, body);
    PagingLength(12, 13, index, count);
  }

  /** A page encoded with its real numbers still fits. */
  lemma RealPageFits(seqNo: nat, field: nat, body: seq<byte>, cap: nat, index: nat, count: nat)
    requires BodyFits(seqNo, field, |body|, cap) && index < count <= PAGE_BOUND
    ensures |ResponseEnc(seqNo, field, body, index, count)| <= cap
  {
    hide LenDelim, FieldLen, PagingLen, ResponseEnc;
    PagingBound(12, 13, index, count);
    ResponseLength(seqNo, field, body, index, count);
  }

  lemma SmallerBodyFits(seqNo: nat, field: nat, body: nat, less: nat, cap: nat)
    requires BodyFits(seqNo, field, body, cap) && less <= body
    ensures BodyFits(seqNo, field, less, cap)
  {
    hide LenDelim, FieldLen, PagingLen;
    LenDelimMonotone(field, less, body);
  }

  /** The page that a layout finds, or that it has none. */
  datatype Found = NothingFits | NoPage(count: nat) | Page(units: set<nat>, count: nat)

  /** Which page `want` of these pages is. */
  function PageOf(pages: seq<set<nat>>, want: nat): Found {
    if pages == [] then NothingFits else if want < |pages| then Page(pages[want], |pages|) else NoPage(|pages|)
  }

  // ---- Radio state ---------------------------------------------------------------------------------

  /** The downlink values travel together, the uplink values in pairs, every other field alone. */
  function RsUnit(tag: nat): nat {
    if tag == 6 || tag == 7 then 5 else if tag == 10 then 9 else if tag == 12 then 11 else tag
  }

  /** Present fields by tag, as the values of their varints. */
  type RadioState = rs: seq<Option<nat>> | |rs| == 32 && rs[0] == None witness seq(32, _ => None)

  /** The present fields of the units, in the order of their tags, over tags below `top`. */
  function RsBody(rs: RadioState, units: set<nat>, top: nat): seq<byte>
    requires top <= 32
  {
    if top == 0 then []
    else RsBody(rs, units, top - 1) + if rs[top - 1].Some? && RsUnit(top - 1) in units then PresentEnc(top - 1, rs[top - 1].value) else []
  }

  lemma {:induction false} RsLess(rs: RadioState, a: set<nat>, b: set<nat>, top: nat)
    requires top <= 32 && a <= b
    ensures |RsBody(rs, a, top)| <= |RsBody(rs, b, top)|
  {
    hide PresentEnc, RsUnit;
    if top > 0 {
      RsLess(rs, a, b, top - 1);
    }
  }

  predicate RsFits(rs: RadioState, seqNo: nat, cap: nat, units: set<nat>) {
    BodyFits(seqNo, RADIO_STATE, |RsBody(rs, units, 32)|, cap)
  }

  function RsPresent(rs: RadioState): set<nat> {
    set t | 0 <= t < 32 && rs[t].Some? :: RsUnit(t)
  }

  function RsPlan(rs: RadioState, seqNo: nat, cap: nat): Plan {
    Plan(32, RsPresent(rs), s => RsFits(rs, seqNo, cap, s), (s, u) => true)
  }

  /** `rs_layout`: the units of page `want` and the number of pages. */
  method RsLayout(rs: RadioState, seqNo: nat, cap: nat, want: nat) returns (r: Found)
    ensures r == PageOf(Pages(RsPlan(rs, seqNo, cap)), want)
  {
    hide RsFits, RsPresent;
    var present := RsPresent(rs);
    ghost var p := RsPlan(rs, seqNo, cap);
    NoUnitZero(rs);
    var cur, mask, maskOut, found := 0, {}, {}, false;
    var u := 1;
    assert Lay(p, 1) == Place(p, Lay(p, 0), 0);
    while u < 32
      invariant 1 <= u <= 32 && Tracks(p, u, want, cur, mask, found, maskOut)
    {
      LayPaged(p, u);
      if u in present {
        if RsFits(rs, seqNo, cap, mask + {u}) {
          mask := mask + {u};
        } else if RsFits(rs, seqNo, cap, {u}) {
          if mask != {} {
            if cur == want {
              maskOut, found := mask, true;
            }
            cur := cur + 1;
          }
          mask := {u};
        }
      }
      u := u + 1;
    }
    LayPaged(p, 32);
    if mask == {} {
      return NothingFits;
    }
    if cur == want {
      maskOut, found := mask, true;
    }
    r := if found then Page(maskOut, cur + 1) else NoPage(cur + 1);
  }

  lemma NoUnitZero(rs: RadioState)
    ensures 0 !in RsPresent(rs)
  {
  }

  /** A layout loop after unit `u` - 1: pages closed, the open one, and the wanted one if it is closed. */
  ghost predicate Tracks(p: Plan, u: nat, want: nat, cur: nat, mask: set<nat>, found: bool, out: set<nat>) {
    var l := Lay(p, u);
    && mask == l.1 && cur == |l.0|
    && (found <==> want < cur) && (found ==> out == l.0[want])
  }

  // ---- Info ------------------------------------------------------------------------------------------

  const INFO_SCALARS: nat := 17
  const ALARMS_MAX: nat := 51          // sixteen rules and every watchdog

  /** The scalar units of an Info, each encoded (empty when it is not on the wire), and the encoded active
      alarms, unit INFO_SCALARS + i the i-th. */
  datatype InfoSnap = InfoSnap(seqNo: nat, scalars: seq<seq<byte>>, alarms: seq<seq<byte>>)
  {
    predicate Ok() { |scalars| == INFO_SCALARS && |alarms| <= ALARMS_MAX }

    function Units(): nat { INFO_SCALARS + |alarms| }
  }

  // Units whose field numbers are below and above that of the alarms (15): versions, build type, serial
  // number, uptime, unix time, debug, claim token, battery, reset cause, DevEUI, status; then slot states
  // and the fault.
  const INFO_LOW: seq<nat> := [0, 1, 2, 3, 5, 6, 7, 4, 15, 8, 9, 16, 13]
  const INFO_HIGH: seq<nat> := [14, 10, 11, 12]

  /** The units in the order of their field numbers. */
  function InfoOrder(alarms: nat): seq<nat> {
    INFO_LOW + seq(alarms, i requires 0 <= i < alarms => INFO_SCALARS + i) + INFO_HIGH
  }

  function InfoBody(s: InfoSnap, units: set<nat>): seq<byte> {
    Pick(s.scalars + s.alarms, units, InfoOrder(|s.alarms|))
  }

  /** Every unit has its place in the message. */
  lemma InfoPlaces(alarms: nat)
    ensures Permutation(InfoOrder(alarms), INFO_SCALARS + alarms)
  {
    hide INFO_LOW, INFO_HIGH;
    InfoFields();
    var order := InfoOrder(alarms);
    var high := |INFO_LOW| + alarms;
    forall i, j | 0 <= i < j < |order|
      ensures order[i] != order[j]
    {
      assert i < |INFO_LOW| ==> order[i] == INFO_LOW[i] && INFO_LOW[i] in INFO_LOW;
      assert j < |INFO_LOW| ==> order[j] == INFO_LOW[j];
      assert i >= high ==> order[i] == INFO_HIGH[i - high];
      assert j >= high ==> order[j] == INFO_HIGH[j - high] && INFO_HIGH[j - high] in INFO_HIGH;
    }
    forall u: nat | u < INFO_SCALARS + alarms
      ensures u in order
    {
      if u >= INFO_SCALARS {
        assert order[|INFO_LOW| + u - INFO_SCALARS] == u;
      } else {
        assert u in INFO_LOW || u in INFO_HIGH;
      }
    }
  }

  lemma InfoFields()
    ensures |INFO_LOW| + |INFO_HIGH| == INFO_SCALARS
    ensures forall u :: u in INFO_LOW <==> 0 <= u < INFO_SCALARS && u !in INFO_HIGH
    ensures forall u :: u in INFO_HIGH <==> 10 <= u < 13 || u == 14
    ensures forall i, j :: 0 <= i < j < |INFO_LOW| ==> INFO_LOW[i] != INFO_LOW[j]
    ensures forall i, j :: 0 <= i < j < |INFO_HIGH| ==> INFO_HIGH[i] != INFO_HIGH[j]
  {
  }

  predicate InfoFits(s: InfoSnap, cap: nat, units: set<nat>) {
    BodyFits(s.seqNo, INFO, |InfoBody(s, units)|, cap)
  }

  /** The alarms of one page are consecutive. */
  predicate InfoJoins(page: set<nat>, u: nat) {
    u < INFO_SCALARS || (u > INFO_SCALARS && u - 1 in page) || forall a :: a in page ==> a < INFO_SCALARS
  }

  function InfoEligible(s: InfoSnap): set<nat>
    requires s.Ok()
  {
    set u | 0 <= u < s.Units() && (u < INFO_SCALARS ==> s.scalars[u] != [])
  }

  function InfoPlan(s: InfoSnap, cap: nat): Plan
    requires s.Ok()
  {
    Plan(s.Units(), InfoEligible(s), us => InfoFits(s, cap, us), (page: set<nat>, u: nat) => InfoJoins(page, u))
  }

  /** The numbers from `lo` to before `hi`. */
  function Range(lo: nat, hi: nat): (r: set<nat>)
    ensures forall i: nat :: i in r <==> lo <= i < hi
    decreases hi - lo
  {
    if lo >= hi then {} else Range(lo, hi - 1) + {hi - 1}
  }

  /** A page as the firmware keeps it: scalars by mask, alarms by range. */
  function InfoUnits(mask: set<nat>, start: nat, end: nat): set<nat> {
    mask + Range(INFO_SCALARS + start, INFO_SCALARS + end)
  }

  /** `info_layout`: the units of page `want` and the number of pages. */
  method InfoLayout(s: InfoSnap, cap: nat, want: nat) returns (r: Found)
    requires s.Ok()
    ensures r == PageOf(Pages(InfoPlan(s, cap)), want)
  {
    hide InfoFits, Place;
    ghost var p := InfoPlan(s, cap);
    var cur, out, found := 0, {}, false;
    var mask: set<nat>, start: nat, end: nat := {}, 0, 0;
    var u := 0;
    while u < s.Units()
      invariant 0 <= u <= s.Units() && start <= end && (forall m :: m in mask ==> m < INFO_SCALARS)
      invariant end > start ==> INFO_SCALARS + end <= u
      invariant Tracks(p, u, want, cur, InfoUnits(mask, start, end), found, out)
    {
      LayPaged(p, u);
      var isAlarm := u >= INFO_SCALARS;
      if isAlarm || s.scalars[u] != [] {
        var a := if isAlarm then u - INFO_SCALARS else 0;
        var tmask := if isAlarm then mask else mask + {u};
        var tstart := if isAlarm && (end == start || end != a) then a else start;
        var tend := if isAlarm then a + 1 else end;
        var contiguous := !isAlarm || end == start || end == a;
        InfoStep(mask, start, end, u);
        PlaceIs(p, u);
        if contiguous && InfoFits(s, cap, InfoUnits(tmask, tstart, tend)) {
          mask, start, end := tmask, tstart, tend;
        } else {
          var amask := if isAlarm then {} else {u};
          var astart := if isAlarm then a else 0;
          var aend := if isAlarm then a + 1 else 0;
          assert InfoUnits(amask, astart, aend) == {u};
          if InfoFits(s, cap, InfoUnits(amask, astart, aend)) {
            if mask != {} || end != start {
              if cur == want {
                out, found := InfoUnits(mask, start, end), true;
              }
              cur := cur + 1;
            }
            mask, start, end := amask, astart, aend;
          }
        }
      } else {
        PlaceIs(p, u);
      }
      u := u + 1;
    }
    LayPaged(p, s.Units());
    InfoStep(mask, start, end, u);
    if mask == {} && end == start {
      return NothingFits;
    }
    if cur == want {
      out, found := InfoUnits(mask, start, end), true;
    }
    r := if found then Page(out, cur + 1) else NoPage(cur + 1);
  }

  lemma PlaceIs(p: Plan, u: nat)
    ensures var l := Lay(p, u);
      Lay(p, u + 1) == if u !in p.eligible then l
                       else if p.joins(l.1, u) && p.fits(l.1 + {u}) then (l.0, l.1 + {u})
                       else if !p.fits({u}) then l
                       else (Closed(l), {u})
  {
  }

  /** Taking a unit into the mask or the range is taking it into the set, where the range may grow. */
  lemma InfoStep(mask: set<nat>, start: nat, end: nat, u: nat)
    requires start <= end && (end > start ==> INFO_SCALARS + end <= u) && forall m :: m in mask ==> m < INFO_SCALARS
    ensures InfoUnits(mask, start, end) == {} <==> mask == {} && end == start
    ensures u < INFO_SCALARS ==> InfoUnits(mask + {u}, start, end) == InfoUnits(mask, start, end) + {u}
    ensures u >= INFO_SCALARS ==>
              (InfoJoins(InfoUnits(mask, start, end), u) <==> end == start || end == u - INFO_SCALARS)
    ensures u >= INFO_SCALARS && end == start ==>
              InfoUnits(mask, u - INFO_SCALARS, u - INFO_SCALARS + 1) == InfoUnits(mask, start, end) + {u}
    ensures u >= INFO_SCALARS && end > start && end == u - INFO_SCALARS ==>
              InfoUnits(mask, start, u - INFO_SCALARS + 1) == InfoUnits(mask, start, end) + {u}
  {
    var us := InfoUnits(mask, start, end);
    if end > start {
      assert INFO_SCALARS + end - 1 in us;
    }
  }

  // ---- Settings info ---------------------------------------------------------------------------------

  const CS_APP: nat := 3
  const CS_SENSORS: nat := 10
  const CS_ITEMS: nat := 14

  /** The encoded items in their sections: application fields, sensor fields, and the slot types, which are
      packed. */
  type Settings = ls: seq<seq<byte>> | |ls| == CS_ITEMS witness seq(CS_ITEMS, _ => [])

  /** The items of a section in a page, below `top` and from `first` on. */
  function Section(ls: Settings, page: set<nat>, first: nat, top: nat): seq<byte>
    requires top <= CS_ITEMS
  {
    if top <= first then [] else Section(ls, page, first, top - 1) + PartOf(ls, page, top - 1)
  }

  /** A section is there if the page has an item of it. */
  function SectionEnc(field: nat, ls: Settings, page: set<nat>, first: nat, top: nat): seq<byte>
    requires top <= CS_ITEMS
  {
    if page * Range(first, top) != {} then Codec.LenDelim(field, Section(ls, page, first, top)) else []
  }

  function CsBody(ls: Settings, page: set<nat>): seq<byte> {
    SectionEnc(4, ls, page, 0, CS_APP) + SectionEnc(5, ls, page, CS_APP, CS_APP + CS_SENSORS)
    + SectionEnc(7, ls, page, CS_APP + CS_SENSORS, CS_ITEMS)
  }

  predicate CsFits(ls: Settings, seqNo: nat, cap: nat, page: set<nat>) {
    BodyFits(seqNo, CONFIG_DUMP, |CsBody(ls, page)|, cap)
  }

  lemma {:induction false} SectionLess(ls: Settings, a: set<nat>, b: set<nat>, first: nat, top: nat)
    requires top <= CS_ITEMS && a <= b
    ensures |Section(ls, a, first, top)| <= |Section(ls, b, first, top)|
  {
    if top > first {
      SectionLess(ls, a, b, first, top - 1);
    }
  }

  lemma SectionEncLess(field: nat, ls: Settings, a: set<nat>, b: set<nat>, first: nat, top: nat)
    requires top <= CS_ITEMS && a <= b
    ensures |SectionEnc(field, ls, a, first, top)| <= |SectionEnc(field, ls, b, first, top)|
  {
    hide LenDelim, Codec.LenDelim, Section;
    SectionLess(ls, a, b, first, top);
    LenDelimLength(field, Section(ls, a, first, top));
    LenDelimLength(field, Section(ls, b, first, top));
    LenDelimMonotone(field, |Section(ls, a, first, top)|, |Section(ls, b, first, top)|);
    assert a * Range(first, top) <= b * Range(first, top);
  }

  lemma CsFitsWithLess(ls: Settings, seqNo: nat, cap: nat, more: set<nat>, less: set<nat>)
    requires CsFits(ls, seqNo, cap, more) && less <= more
    ensures CsFits(ls, seqNo, cap, less)
  {
    hide BodyFits, SectionEnc;
    SectionEncLess(4, ls, less, more, 0, CS_APP);
    SectionEncLess(5, ls, less, more, CS_APP, CS_APP + CS_SENSORS);
    SectionEncLess(7, ls, less, more, CS_APP + CS_SENSORS, CS_ITEMS);
    SmallerBodyFits(seqNo, CONFIG_DUMP, |CsBody(ls, more)|, |CsBody(ls, less)|, cap);
  }

  const SCRATCH: nat := 128            // bytes of the buffer that trial pages are encoded into

  /** The layout's budget: no page is larger than the scratch buffer. */
  function Scratch(cap: nat): nat { if cap < SCRATCH then cap else SCRATCH }

  function CsPlan(ls: Settings, seqNo: nat, cap: nat): Plan {
    Plan(CS_ITEMS, Range(0, CS_ITEMS), s => CsFits(ls, seqNo, Scratch(cap), s), (s, u) => true)
  }

  /** `config_status_layout`: the items of every page, in the first `count` entries of `mask`. */
  method ConfigStatusLayout(ls: Settings, seqNo: nat, cap: nat, mask: array<set<nat>>) returns (r: Option<nat>)
    requires mask.Length == CS_ITEMS
    modifies mask
    ensures var pages := Pages(CsPlan(ls, seqNo, cap));
      if pages == [] then r == None else r == Some(|pages|) && |pages| <= CS_ITEMS && mask[..|pages|] == pages
  {
    hide CsFits, Place, Lay, Paged;
    ghost var p := CsPlan(ls, seqNo, cap);
    assert Lay(p, 0) == ([], {}) by {
      LayNone(p);
    }
    forall i | 0 <= i < mask.Length {
      mask[i] := {};
    }
    var cur := 0;
    var i := 0;
    while i < CS_ITEMS
      invariant 0 <= i <= CS_ITEMS && 0 <= cur <= i && cur < CS_ITEMS
      invariant mask[..cur] == Lay(p, i).0 && mask[cur] == Lay(p, i).1
    {
      cur := PlaceItem(ls, seqNo, cap, mask, cur, i);
      i := i + 1;
    }
    LayPaged(p, CS_ITEMS);
    if mask[cur] == {} {
      return None;
    }
    r := Some(cur + 1);
  }

  lemma LayNone(p: Plan)
    ensures Lay(p, 0) == ([], {})
  {
  }

  /** Item `i` joins the page being filled, or starts the next one, or is left out. */
  method PlaceItem(ls: Settings, seqNo: nat, cap: nat, mask: array<set<nat>>, cur: nat, i: nat) returns (next: nat)
    requires mask.Length == CS_ITEMS && cur <= i < CS_ITEMS
    requires var l := Lay(CsPlan(ls, seqNo, cap), i); mask[..cur] == l.0 && mask[cur] == l.1
    modifies mask
    ensures next <= i + 1 && next < CS_ITEMS
    ensures var l := Lay(CsPlan(ls, seqNo, cap), i + 1); mask[..next] == l.0 && mask[next] == l.1
  {
    hide CsFits, Place, Lay;
    var budget := Scratch(cap);
    ghost var p := CsPlan(ls, seqNo, cap);
    LayPaged(p, i);
    PlaceIs(p, i);
    LayCount(p, i);
    next := cur;
    if CsFits(ls, seqNo, budget, mask[cur] + {i}) {
      mask[cur] := mask[cur] + {i};
    } else if CsFits(ls, seqNo, budget, {i}) {
      assert {} + {i} == {i};
      next := cur + 1;
      mask[next] := {i};
    }
  }

  /** There are no more pages than units. */
  lemma LayCount(p: Plan, u: nat)
    ensures |Closed(Lay(p, u))| <= u
  {
    LayPaged(p, u);
  }

  // ---- What the layouts promise ------------------------------------------------------------------------

  /** The pages of an answer: their number is the same whichever page is asked for, every unit that fits
      an otherwise empty page is on exactly one and no other unit is on any, and each, encoded with its
      real numbers, fits the budget. */
  ghost predicate GoodPages(p: Plan, seqNo: nat, field: nat, cap: nat, body: set<nat> -> seq<byte>) {
    var pages := Pages(p);
    && |pages| <= PAGE_BOUND
    && (forall k: nat :: k < |pages| ==> pages[k] != {} && |ResponseEnc(seqNo, field, body(pages[k]), k, |pages|)| <= cap)
    && (forall a: nat :: a < p.n ==> (OnAPage(pages, a) <==> a in p.eligible && p.fits({a})))
    && (forall j: nat, k: nat, a: nat :: On(pages, j, a) && On(pages, k, a) ==> j == k)
    && (forall k: nat, a: nat :: On(pages, k, a) ==> a < p.n)
  }

  lemma PagesGood(p: Plan, seqNo: nat, field: nat, cap: nat, body: set<nat> -> seq<byte>)
    requires p.n <= PAGE_BOUND && forall s: set<nat> {:trigger p.fits(s)} :: p.fits(s) <==> BodyFits(seqNo, field, |body(s)|, cap)
    requires forall s: set<nat>, t: set<nat> :: p.fits(s) && t <= s ==> p.fits(t)
    ensures GoodPages(p, seqNo, field, cap, body)
  {
    hide Pages, BodyFits, ResponseEnc;
    PagesAre(p);
    var pages := Pages(p);
    forall k: nat | k < |pages|
      ensures pages[k] != {} && |ResponseEnc(seqNo, field, body(pages[k]), k, |pages|)| <= cap
    {
      RealPageFits(seqNo, field, body(pages[k]), cap, k, |pages|);
    }
    forall a: nat | a < p.n
      ensures OnAPage(pages, a) <==> a in p.eligible && p.fits({a})
    {
      PagesPartition(p, a);
    }
  }

  lemma RsPagesGood(rs: RadioState, seqNo: nat, cap: nat)
    ensures GoodPages(RsPlan(rs, seqNo, cap), seqNo, RADIO_STATE, cap, s => RsBody(rs, s, 32))
  {
    hide GoodPages, BodyFits, RsBody;
    var p := RsPlan(rs, seqNo, cap);
    forall s: set<nat>, t: set<nat> | p.fits(s) && t <= s
      ensures p.fits(t)
    {
      RsLess(rs, t, s, 32);
      SmallerBodyFits(seqNo, RADIO_STATE, |RsBody(rs, s, 32)|, |RsBody(rs, t, 32)|, cap);
    }
    PagesGood(p, seqNo, RADIO_STATE, cap, s => RsBody(rs, s, 32));
  }

  lemma InfoPagesGood(snap: InfoSnap, cap: nat)
    requires snap.Ok()
    ensures GoodPages(InfoPlan(snap, cap), snap.seqNo, INFO, cap, s => InfoBody(snap, s))
  {
    hide GoodPages, BodyFits, InfoBody;
    var p := InfoPlan(snap, cap);
    forall s: set<nat>, t: set<nat> | p.fits(s) && t <= s
      ensures p.fits(t)
    {
      InfoLess(snap, t, s);
      SmallerBodyFits(snap.seqNo, INFO, |InfoBody(snap, s)|, |InfoBody(snap, t)|, cap);
    }
    PagesGood(p, snap.seqNo, INFO, cap, s => InfoBody(snap, s));
  }

  lemma InfoLess(s: InfoSnap, a: set<nat>, b: set<nat>)
    requires s.Ok() && a <= b
    ensures |InfoBody(s, a)| <= |InfoBody(s, b)|
  {
    hide Pick, SumOf, InfoOrder, Permutation;
    InfoPlaces(|s.alarms|);
    PickLength(s.scalars + s.alarms, a, InfoOrder(|s.alarms|), s.Units());
    PickLength(s.scalars + s.alarms, b, InfoOrder(|s.alarms|), s.Units());
    SumLess(s.scalars + s.alarms, a, b, s.Units());
  }

  lemma CsPagesGood(ls: Settings, seqNo: nat, cap: nat)
    ensures GoodPages(CsPlan(ls, seqNo, cap), seqNo, CONFIG_DUMP, Scratch(cap), s => CsBody(ls, s))
  {
    hide GoodPages, BodyFits, CsBody;
    var p := CsPlan(ls, seqNo, cap);
    forall s: set<nat>, t: set<nat> | p.fits(s) && t <= s
      ensures p.fits(t)
    {
      CsFitsWithLess(ls, seqNo, Scratch(cap), s, t);
    }
    PagesGood(p, seqNo, CONFIG_DUMP, Scratch(cap), s => CsBody(ls, s));
  }
}
