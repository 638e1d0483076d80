/** The page stream: page 0 of a paged radio answer goes out at once, the others one by one later, each from
    a layout run of its own. One stream runs at a time. */
module PageStream {
  import opened Bytes
  import opened Paging
  import opened CmdPages
  import opened ConfigDump

  const REQUEST_MAX: nat := 64         // bytes of a request that can be kept

  /** What the layouts read when a page is made: the table of fields, and the settings in force. */
  datatype World = World(table: seq<Field>, reader: Reader, settings: Settings)

  /** What a stream repeats: a request for a dump, the settings info, or a kept snapshot. */
  datatype Source =
    | Request(asks: Option<seq<Ask>>)
    | SettingsInfo(seqNo: nat, cap: nat)
    | InfoOf(snap: InfoSnap, cap: nat)
    | RadioOf(rs: RadioState, seqNo: nat, cap: nat)
  {
    predicate Ok() {
      && (Request? && asks.Some? ==> AskOk(asks.value))
      && (InfoOf? ==> snap.Ok())
    }
  }

  /** A page as sent: of a dump, or units with the page's number and the page count. */
  datatype Sent = OfDump(dump: Dump) | OfUnits(units: set<nat>, index: nat, count: nat)

  /** The units of all pages, for the answers that are laid out by units. */
  function UnitPages(src: Source, w: World): seq<set<nat>>
    requires src.Ok() && !src.Request?
  {
    match src
    case SettingsInfo(seqNo, cap) => Pages(CsPlan(w.settings, seqNo, cap))
    case InfoOf(snap, cap) => Pages(InfoPlan(snap, cap))
    case RadioOf(rs, seqNo, cap) => Pages(RsPlan(rs, seqNo, cap))
  }

  /** The fields a request is about: the table, or the fields it asks for. */
  function DumpTable(asks: Option<seq<Ask>>, w: World): seq<Field> {
    if asks.None? then w.table else Asked(w.table, asks.value)
  }

  /** Those of them that are answered, and their pages. A request is answered as over LoRaWAN, whichever
      radio it came from. */
  function DumpUnits(asks: Option<seq<Ask>>, w: World): set<nat> {
    var r := w.reader.(tp := Lorawan);
    if asks.None? then DumpedUnits(w.table, r) else AnsweredUnits(w.table, asks.value, r)
  }

  function DumpPages(asks: Option<seq<Ask>>, w: World): seq<set<nat>> {
    var r := w.reader.(tp := Lorawan);
    Pages(if asks.None? then ConfigPlan(w.table, r) else ParamPlan(w.table, asks.value, r))
  }

  function DumpPage(asks: Option<seq<Ask>>, w: World, k: nat): Dump { DumpOf(DumpTable(asks, w), DumpPages(asks, w), k) }

  /** Page `k`; none once the layout has fewer pages. */
  function PageAt(src: Source, w: World, k: nat): Option<Sent>
    requires src.Ok()
  {
    if src.Request? then Some(OfDump(DumpPage(src.asks, w, k)))
    else if k < |UnitPages(src, w)| then Some(OfUnits(UnitPages(src, w)[k], k, |UnitPages(src, w)|))
    else None
  }

  /** Pages [from, to) of a layout that has them all. */
  ghost predicate Run(src: Source, w: World, from: nat, to: nat, out: seq<Sent>)
    requires src.Ok()
  {
    from <= to && |out| == to - from && forall i :: 0 <= i < |out| ==> PageAt(src, w, from + i) == Some(out[i])
  }

  /** Two worlds with the same pages for this answer: nothing it shows has changed. */
  ghost predicate Same(src: Source, v: World, w: World, count: nat)
    requires src.Ok()
  {
    forall k: nat :: k < count ==> PageAt(src, v, k) == PageAt(src, w, k)
  }

  datatype Reply = NoReply | WithPage(sent: Sent) | StreamBusy

  class Stream {
    var src: Option<Source>
    var next: nat
    var count: nat
    ghost var from: nat                // first page that goes out, whether or not by the stream
    ghost var start: World             // when that page was made
    ghost var out: seq<Sent>           // the pages out so far
    ghost var steady: bool             // nothing the answer shows has changed since

    constructor (w: World)
      ensures Valid() && src.None?
    {
      src, next, count := None, 0, 0;
      from, start, out, steady := 0, w, [], true;
    }

    /** A running stream has pages to send, and those sent are the first ones of its answer, in order. */
    ghost predicate Valid()
      reads this
    {
      src.Some? ==> src.value.Ok() && from < next < count && (steady ==> Run(src.value, start, from, next, out))
    }

    /** `app_cmd_stream_cancel`. */
    method Cancel()
      modifies `src
      ensures Valid() && src.None?
    {
      src := None;
    }

    method Begin(s: Source, first: nat, n: nat, page: Sent, w: World)
      requires s.Ok() && src.None? && first + 1 < n && PageAt(s, w, first) == Some(page)
      modifies this
      ensures Valid() && src == Some(s) && next == first + 1 && count == n
      ensures from == first && start == w && out == [page] && steady
    {
      hide PageAt, Run;
      RunOne(s, w, first, page);
      src, next, count := Some(s), first + 1, n;
      from, start, out, steady := first, w, [page], true;
    }

    /** `page_stream_arm` and what surrounds it in `app_cmd_handle`: the dump answer `d` of a request of
        `len` bytes, none of whose fields is a removed one, that asked for page `want`. */
    method AnswerDump(asks: Option<seq<Ask>>, want: nat, len: nat, w: World) returns (r: Reply)
      requires Valid() && Request(asks).Ok() && TableOk(w.table)
      modifies this
      ensures Valid()
      ensures var d := DumpPage(asks, w, want); var more := d.Dump? && d.index + 1 < d.count;
        && r == (if more && old(src).Some? then StreamBusy else WithPage(OfDump(d)))
        && src == (if more && old(src).None? && len <= REQUEST_MAX then Some(Request(asks)) else old(src))
        && (src == old(src) ==> old(next) == next && old(count) == count && old(out) == out)
        && (r.WithPage? ==> ForRadio(asks, w, d))
        && (src != old(src) ==> from == d.index && next == d.index + 1 && count == d.count && out == [OfDump(d)] && start == w && steady)
    {
      hide Run, ForRadio;
      var d := MakeDump(asks, w, want);
      if d.Dump? && d.index + 1 < d.count && src.Some? {
        return StreamBusy;
      }
      if d.Dump? && len <= REQUEST_MAX && d.index + 1 < d.count {
        DumpIndex(asks, w, want);
        Begin(Request(asks), d.index, d.count, OfDump(d), w);
      }
      r := WithPage(OfDump(d));
    }

    /** `settings_paged`, `info_paged`, `radio_state_paged`: an answer that did not fit unpaged. A snapshot
        would overwrite that of a running stream, so it is refused even if it came to one page. */
    method AnswerUnits(s: Source, w: World) returns (r: Reply)
      requires Valid() && s.Ok() && !s.Request?
      modifies this
      ensures Valid()
      ensures var pages := UnitPages(s, w);
        && (r == StreamBusy <==> old(src).Some? && (!s.SettingsInfo? || |pages| > 1))
        && (r == NoReply <==> pages == [] && (old(src).None? || s.SettingsInfo?))
        && (r.WithPage? ==> r.sent == OfUnits(pages[0], 0, |pages|))
        && src == (if r.WithPage? && |pages| > 1 then Some(s) else old(src))
        && (src == old(src) && old(src).Some? ==> old(next) == next && old(count) == count && old(out) == out)
        && (r.WithPage? && |pages| > 1 ==> from == 0 && next == 1 && count == |pages| && out == [r.sent] && start == w && steady)
    {
      hide Run, Pages, CsPlan, InfoPlan, RsPlan;
      if !s.SettingsInfo? && src.Some? {
        return StreamBusy;
      }
      var page := UnitPage(s, w, 0);
      if page.None? {
        return NoReply;
      }
      if page.value.count > 1 {
        if src.Some? {
          return StreamBusy;
        }
        Begin(s, 0, page.value.count, page.value, w);
      }
      r := WithPage(page.value);
    }

    /** `app_cmd_stream_next`: the next page, or none when the stream is over or the layout has shrunk. */
    method Next(w: World) returns (r: Option<Sent>)
      requires Valid() && TableOk(w.table)
      modifies this
      ensures Valid()
      ensures old(src).None? ==> r == None && src == None
      ensures old(src).Some? ==>
                && r == PageAt(old(src.value), w, old(next))
                && src == (if r.Some? && old(next) + 1 < old(count) then old(src) else None)
                && (r.Some? ==> out == old(out) + [r.value])
                && (r.Some? && old(src.value).Request? ==> r.value.OfDump? && ForRadio(old(src.value).asks, w, r.value.dump))
      // as long as nothing changes, the answer's pages go out in order, and the stream ends after the last
      ensures old(src).Some? && old(steady) && Same(old(src.value), old(start), w, old(count)) && PageAt(old(src.value), old(start), old(next)).Some? ==>
                && r.Some? && steady && start == old(start) && Run(old(src.value), start, old(from), old(next) + 1, out)
      ensures src.Some? ==> next == old(next) + 1 && count == old(count) && from == old(from)
    {
      hide PageAt, ForRadio;
      if src.None? {
        return None;
      }
      var s := src.value;
      if s.Request? {
        var d := MakeDump(s.asks, w, next);
        RequestAt(s, w, next);
        r := Some(OfDump(d));
      } else {
        r := UnitPage(s, w, next);
      }
      if r.None? {
        src := None;
        return;
      }
      ghost var same := Same(s, start, w, count);
      if steady && same {
        RunMore(s, start, from, next, out, r.value);
      }
      steady := steady && same;
      out := out + [r.value];
      next := next + 1;
      if next >= count {
        src := None;
      }
    }
  }

  /** A page that goes out over a radio shows no field for NFC alone and no empty alarm slot; one of a
      get_config no field that is not for a radio, and P2P fields only in P2P mode. */
  ghost predicate ForRadio(asks: Option<seq<Ask>>, w: World, d: Dump) {
    var r := w.reader.(tp := Lorawan);
    Distinct(w.table) ==> Discreet(w.table, r, d) && (asks.None? ==> Terse(w.table, r, d))
  }

  /** The handler of the request, asked for page `k`. */
  method MakeDump(asks: Option<seq<Ask>>, w: World, k: nat) returns (d: Dump)
    requires TableOk(w.table) && (asks.Some? ==> AskOk(asks.value))
    ensures d == DumpPage(asks, w, k) && ForRadio(asks, w, d)
  {
    hide Discreet, Terse, Distinct;
    var r := w.reader.(tp := Lorawan);
    if asks.None? {
      d := GetConfig(w.table, r, k);
    } else {
      d := GetParam(w.table, asks.value, r, {}, k);
    }
  }

  lemma RequestAt(src: Source, w: World, k: nat)
    requires src.Ok() && src.Request?
    ensures PageAt(src, w, k) == Some(OfDump(DumpPage(src.asks, w, k)))
  {
  }

  /** Page `k`, from a layout run of its own. */
  method UnitPage(s: Source, w: World, k: nat) returns (r: Option<Sent>)
    requires s.Ok() && !s.Request?
    ensures r == PageAt(s, w, k)
  {
    hide Pages, CsPlan, InfoPlan, RsPlan;
    var found;
    match s {
      case InfoOf(snap, cap) => found := InfoLayout(snap, cap, k);
      case RadioOf(rs, seqNo, cap) => found := RsLayout(rs, seqNo, cap, k);
      case SettingsInfo(seqNo, cap) =>
        var mask := new set<nat>[CS_ITEMS];
        var count := ConfigStatusLayout(w.settings, seqNo, cap, mask);
        found := if count.None? then NothingFits else if k < count.value then CmdPages.Page(mask[k], count.value) else NoPage(count.value);
        assert count.Some? && k < count.value ==> mask[..count.value][k] == mask[k];
    }
    r := if found.Page? then Some(OfUnits(found.units, k, found.count)) else None;
  }

  lemma RunOne(src: Source, w: World, k: nat, page: Sent)
    requires src.Ok() && PageAt(src, w, k) == Some(page)
    ensures Run(src, w, k, k + 1, [page])
  {
    hide PageAt;
  }

  lemma RunMore(src: Source, w: World, from: nat, to: nat, out: seq<Sent>, page: Sent)
    requires src.Ok() && Run(src, w, from, to, out) && PageAt(src, w, to) == Some(page)
    ensures Run(src, w, from, to + 1, out + [page])
  {
    hide PageAt;
  }

  lemma DumpIndex(asks: Option<seq<Ask>>, w: World, want: nat)
    ensures var d := DumpPage(asks, w, want); d.Dump? ==> d.index == want
  {
    hide Pages;
  }

  /** A whole stream of the settings, device info or radio state: every unit that fits an otherwise empty
      page is on exactly one page that went out, no other unit is on any, and each page fits the budget. */
  lemma WholeStream(src: Source, w: World, out: seq<Sent>, a: nat)
    requires src.Ok() && !src.Request? && Run(src, w, 0, |UnitPages(src, w)|, out)
    ensures forall k: nat :: k < |out| ==> out[k] == OfUnits(UnitPages(src, w)[k], k, |out|)
    ensures forall j: nat, k: nat :: j < |out| && k < |out| && a in out[j].units && a in out[k].units ==> j == k
    ensures var p := PlanOf(src, w); a < p.n ==> ((exists k: nat :: k < |out| && a in out[k].units) <==> a in p.eligible && p.fits({a}))
  {
    hide Pages, CsPlan, InfoPlan, RsPlan, Paged, OnAPage;
    forall k: nat | k < |out|
      ensures out[k] == OfUnits(UnitPages(src, w)[k], k, |out|)
    {
      assert PageAt(src, w, 0 + k) == Some(out[k]);
    }
    StreamGood(src, w);
    var pages := UnitPages(src, w);
    forall j: nat, k: nat | j < |out| && k < |out| && a in out[j].units && a in out[k].units
      ensures j == k
    {
      assert On(pages, j, a) && On(pages, k, a);
    }
    if a < PlanOf(src, w).n {
      UnitsOut(pages, out, a);
    }
  }

  /** Page `k` of a dump shows field `u`. */
  ghost predicate Shows(table: seq<Field>, out: seq<Sent>, k: nat, u: nat) {
    && k < |out| && u < |table| && out[k].OfDump? && out[k].dump.Dump? && table[u].section < |out[k].dump.sections|
    && table[u].tag in out[k].dump.sections[table[u].section]
  }

  ghost predicate SameName(table: seq<Field>, u: nat, v: nat) {
    u < |table| && v < |table| && table[u].section == table[v].section && table[u].tag == table[v].tag
  }

  /** No two answered fields have the same name. */
  ghost predicate OneName(table: seq<Field>, units: set<nat>) {
    forall u: nat, v: nat :: u in units && v in units && SameName(table, u, v) ==> u == v
  }

  /** A whole stream of a dump: every field that is answered is shown, on one page only if no two of them
      have the same name, and nothing else is shown. */
  lemma WholeDump(asks: Option<seq<Ask>>, w: World, out: seq<Sent>, u: nat)
    requires Request(asks).Ok() && TableOk(w.table) && Run(Request(asks), w, 0, |DumpPages(asks, w)|, out)
    ensures forall k: nat :: k < |out| ==> out[k] == OfDump(DumpPage(asks, w, k))
    ensures u in DumpUnits(asks, w) ==> exists k: nat :: Shows(DumpTable(asks, w), out, k, u)
    ensures forall k: nat :: Shows(DumpTable(asks, w), out, k, u) ==>
              exists v: nat :: v in DumpUnits(asks, w) && SameName(DumpTable(asks, w), u, v) && On(DumpPages(asks, w), k, v)
    ensures OneName(DumpTable(asks, w), DumpUnits(asks, w)) && u in DumpUnits(asks, w) ==>
              forall j: nat, k: nat :: Shows(DumpTable(asks, w), out, j, u) && Shows(DumpTable(asks, w), out, k, u) ==> j == k
  {
    hide Pages, TagsOf, Dumped, Answered, ConfigPlan, ParamPlan, OnAPage, SameName, On;
    var table, units, pages := DumpTable(asks, w), DumpUnits(asks, w), DumpPages(asks, w);
    DumpGood(asks, w);
    forall k: nat | k < |out|
      ensures out[k] == OfDump(DumpPage(asks, w, k))
      ensures Shows(table, out, k, u) <==> u < |table| && exists v: nat :: v in units && SameName(table, u, v) && On(pages, k, v)
    {
      RequestAt(Request(asks), w, k);
      assert PageAt(Request(asks), w, 0 + k) == Some(out[k]);
      DumpShows(asks, w, out, k, u);
    }
    if u in units {
      DumpedShown(table, units, pages, out, u);
    }
  }

  /** A whole stream of a dump, from either radio: a field of the table is shown, on one page, exactly if
      the request names it or is a get_config, it is not for NFC alone nor an empty alarm slot, and, for a
      get_config, it is for a radio and, outside P2P mode, not a P2P field. */
  lemma WholeDumpShows(asks: Option<seq<Ask>>, w: World, out: seq<Sent>, u: nat)
    requires Request(asks).Ok() && TableOk(w.table) && Distinct(w.table) && u < |w.table|
    requires Run(Request(asks), w, 0, |DumpPages(asks, w)|, out)
    ensures var f := w.table[u];
      && ((exists k: nat :: k < |out| && ShownBy(out[k], f)) <==>
            && !f.nfcOnly && (f.section == ALARMS ==> f.tag !in w.reader.emptySlots)
            && if asks.Some? then Ask(f.section, f.tag) in asks.value else !f.lrwSkip && (f.section == P2P ==> w.reader.p2pMode))
      && (forall j: nat, k: nat :: j < |out| && k < |out| && ShownBy(out[j], f) && ShownBy(out[k], f) ==> j == k)
  {
    hide DumpOf, Shown, Pages, ConfigPlan, ParamPlan, Distinct, DumpPage;
    var f := w.table[u];
    forall k: nat | k < |out|
      ensures ShownBy(out[k], f) <==> Shown(DumpPage(asks, w, k), f)
    {
      RequestAt(Request(asks), w, k);
      assert PageAt(Request(asks), w, 0 + k) == Some(out[k]);
    }
    forall k: nat | Shown(DumpPage(asks, w, k), f)
      ensures k < |out|
    {
      ShownPage(asks, w, k, f);
    }
    AnyPageShows(asks, w, u);
    AllPages(asks, w, out, f);
  }

  lemma ShownPage(asks: Option<seq<Ask>>, w: World, k: nat, f: Field)
    ensures Shown(DumpPage(asks, w, k), f) ==> k < |DumpPages(asks, w)|
  {
    hide DumpOf, Shown, DumpTable, DumpPages;
    ShownIff(DumpTable(asks, w), DumpPages(asks, w), k, f);
  }

  lemma AnyPageShows(asks: Option<seq<Ask>>, w: World, u: nat)
    requires Request(asks).Ok() && TableOk(w.table) && Distinct(w.table) && u < |w.table|
    ensures var f := w.table[u];
      && ((exists k: nat :: Shown(DumpPage(asks, w, k), f)) <==>
            && !f.nfcOnly && (f.section == ALARMS ==> f.tag !in w.reader.emptySlots)
            && if asks.Some? then Ask(f.section, f.tag) in asks.value else !f.lrwSkip && (f.section == P2P ==> w.reader.p2pMode))
      && (forall j: nat, k: nat :: Shown(DumpPage(asks, w, j), f) && Shown(DumpPage(asks, w, k), f) ==> j == k)
  {
    hide DumpOf, Shown, Pages, ConfigPlan, ParamPlan, Distinct;
    var r := w.reader.(tp := Lorawan);
    if asks.None? {
      assert forall k: nat :: DumpPage(asks, w, k) == DumpOf(w.table, Pages(ConfigPlan(w.table, r)), k);
      ConfigShows(w.table, r, u);
    } else {
      assert forall k: nat :: DumpPage(asks, w, k) == DumpOf(Asked(w.table, asks.value), Pages(ParamPlan(w.table, asks.value, r)), k);
      ParamShows(w.table, asks.value, r, u);
    }
  }

  lemma AllPages(asks: Option<seq<Ask>>, w: World, out: seq<Sent>, f: Field)
    requires forall k: nat :: k < |out| ==> (ShownBy(out[k], f) <==> Shown(DumpPage(asks, w, k), f))
    requires forall k: nat :: Shown(DumpPage(asks, w, k), f) ==> k < |out|
    ensures (exists k: nat :: k < |out| && ShownBy(out[k], f)) <==> (exists k: nat :: Shown(DumpPage(asks, w, k), f))
  {
    hide DumpPage, ShownBy, Shown;
  }

  ghost predicate ShownBy(s: Sent, f: Field) { s.OfDump? && Shown(s.dump, f) }

  /** What the packing gives for a dump. */
  lemma DumpGood(asks: Option<seq<Ask>>, w: World)
    requires Request(asks).Ok() && TableOk(w.table)
    ensures var table, units, pages := DumpTable(asks, w), DumpUnits(asks, w), DumpPages(asks, w);
      && TableOk(table) && (forall u: nat :: u in units ==> u < |table|)
      && (forall a: nat :: OnAPage(pages, a) <==> a in units)
      && (forall j: nat, k: nat, a: nat :: On(pages, j, a) && On(pages, k, a) ==> j == k)
  {
    hide Pages, Dumped, Answered, OnAPage, On, PackPlan, Asked;
    var r := w.reader.(tp := Lorawan);
    if asks.None? {
      PackGood(Sizes(w.table), DumpedUnits(w.table, r), r.tp.Budget());
    } else {
      AskedOk(w.table, asks.value);
      PackGood(Sizes(Asked(w.table, asks.value)), AnsweredUnits(w.table, asks.value, r), r.tp.Budget());
    }
  }

  lemma DumpedShown(table: seq<Field>, units: set<nat>, pages: seq<set<nat>>, out: seq<Sent>, u: nat)
    requires u in units && u < |table| && OnAPage(pages, u) && |pages| == |out|
    requires forall k: nat :: k < |out| ==> (Shows(table, out, k, u) <==> exists v: nat :: v in units && SameName(table, u, v) && On(pages, k, v))
    requires forall j: nat, k: nat, a: nat :: On(pages, j, a) && On(pages, k, a) ==> j == k
    ensures exists k: nat :: Shows(table, out, k, u)
    ensures OneName(table, units) ==> forall j: nat, k: nat :: Shows(table, out, j, u) && Shows(table, out, k, u) ==> j == k
  {
    var k: nat :| On(pages, k, u);
    assert SameName(table, u, u);
    assert Shows(table, out, k, u);
    if OneName(table, units) {
      forall j: nat | Shows(table, out, j, u)
        ensures j == k
      {
        var v: nat :| v in units && SameName(table, u, v) && On(pages, j, v);
      }
    }
  }

  /** A page of a dump shows exactly the fields placed on it. */
  lemma DumpShows(asks: Option<seq<Ask>>, w: World, out: seq<Sent>, k: nat, u: nat)
    requires TableOk(DumpTable(asks, w)) && k < |out| == |DumpPages(asks, w)| && out[k] == OfDump(DumpPage(asks, w, k))
    requires forall a: nat :: OnAPage(DumpPages(asks, w), a) <==> a in DumpUnits(asks, w)
    requires forall a: nat :: a in DumpUnits(asks, w) ==> a < |DumpTable(asks, w)|
    ensures Shows(DumpTable(asks, w), out, k, u)
      <==> u < |DumpTable(asks, w)| && exists v: nat :: v in DumpUnits(asks, w) && SameName(DumpTable(asks, w), u, v) && On(DumpPages(asks, w), k, v)
  {
    hide DumpTable, DumpPages, DumpUnits, TagsOf, HasTag;
    var table, pages := DumpTable(asks, w), DumpPages(asks, w);
    if u < |table| {
      TagsOfHas(table, pages[k], table[u].section, |table|, table[u].tag);
      forall v: nat
        ensures HasTag(table, pages[k], table[u].section, |table|, table[u].tag, v)
          <==> v in DumpUnits(asks, w) && SameName(table, u, v) && On(pages, k, v)
      {
        TagIs(table, pages, k, u, v);
      }
    }
  }

  lemma TagIs(table: seq<Field>, pages: seq<set<nat>>, k: nat, u: nat, v: nat)
    requires k < |pages| && u < |table| && forall a: nat :: OnAPage(pages, a) ==> a < |table|
    ensures HasTag(table, pages[k], table[u].section, |table|, table[u].tag, v)
      <==> OnAPage(pages, v) && SameName(table, u, v) && On(pages, k, v)
  {
    assert On(pages, k, v) ==> OnAPage(pages, v);
  }

  /** A request for parameters answers no name twice. */
  lemma ParamsOneName(table: seq<Field>, asks: seq<Ask>, r: Reader)
    requires TableOk(table) && AskOk(asks)
    ensures OneName(Asked(table, asks), AnsweredUnits(table, asks, r))
  {
    hide Asked, Lookup;
    AskedOk(table, asks);
    forall u: nat, v: nat | u in AnsweredUnits(table, asks, r) && v in AnsweredUnits(table, asks, r) && SameName(Asked(table, asks), u, v)
      ensures u == v
    {
      assert asks[u] == asks[v];
    }
  }

  function PlanOf(src: Source, w: World): Plan
    requires src.Ok() && !src.Request?
  {
    match src
    case SettingsInfo(seqNo, cap) => CsPlan(w.settings, seqNo, cap)
    case InfoOf(snap, cap) => InfoPlan(snap, cap)
    case RadioOf(rs, seqNo, cap) => RsPlan(rs, seqNo, cap)
  }

  lemma UnitsOut(pages: seq<set<nat>>, out: seq<Sent>, a: nat)
    requires |pages| == |out| && forall k: nat :: k < |out| ==> out[k] == OfUnits(pages[k], k, |out|)
    ensures (exists k: nat :: k < |out| && a in out[k].units) <==> OnAPage(pages, a)
  {
    if OnAPage(pages, a) {
      var k: nat :| On(pages, k, a);
      assert k < |out| && a in out[k].units;
    }
    if k: nat :| k < |out| && a in out[k].units {
      assert On(pages, k, a);
    }
  }

  lemma StreamGood(src: Source, w: World)
    requires src.Ok() && !src.Request?
    ensures var pages := UnitPages(src, w);
      && (forall a: nat :: a < PlanOf(src, w).n ==> (OnAPage(pages, a) <==> a in PlanOf(src, w).eligible && PlanOf(src, w).fits({a})))
      && (forall j: nat, k: nat, a: nat :: On(pages, j, a) && On(pages, k, a) ==> j == k)
  {
    hide Pages, CsPlan, InfoPlan, RsPlan, OnAPage;
    match src
    case SettingsInfo(seqNo, cap) => CsPagesGood(w.settings, seqNo, cap);
    case InfoOf(snap, cap) => InfoPagesGood(snap, cap);
    case RadioOf(rs, seqNo, cap) => RsPagesGood(rs, seqNo, cap);
  }

  /** A request from the other radio has the same pages: a P2P dump may be continued as a LoRaWAN one. */
  lemma SameOverP2p(table: seq<Field>, asks: seq<Ask>, r: Reader)
    requires TableOk(table)
    ensures ConfigPlan(table, r.(tp := P2pRadio)) == ConfigPlan(table, r.(tp := Lorawan))
    ensures ParamPlan(table, asks, r.(tp := P2pRadio)) == ParamPlan(table, asks, r.(tp := Lorawan))
  {
    assert DumpedUnits(table, r.(tp := P2pRadio)) == DumpedUnits(table, r.(tp := Lorawan));
    assert AnsweredUnits(table, asks, r.(tp := P2pRadio)) == AnsweredUnits(table, asks, r.(tp := Lorawan));
  }
}
