/** get_config and get_param: configuration fields packed into pages by bounds on their encoded sizes. */
module ConfigDump {
  import opened Bytes
  import opened Paging

  const SECTIONS: nat := 5
  const SENSORS: nat := 2
  const ALARMS: nat := 3
  const P2P: nat := 4

  datatype Transport = Lorawan | P2pRadio | Nfc | Wired
  {
    predicate Radio() { Lorawan? || P2pRadio? }

    function Budget(): nat { if Nfc? then 200 else 30 }
  }

  /** A field that can be read back: `size` bounds its encoding. */
  datatype Field = Field(section: nat, tag: nat, size: nat, nfcOnly: bool, lrwSkip: bool)

  /** The table of fields: ordered by section, every field takes room. */
  predicate TableOk(table: seq<Field>) {
    && (forall i :: 0 <= i < |table| ==> table[i].section < SECTIONS && table[i].size > 0)
    && (forall i, j :: 0 <= i < j < |table| ==> table[i].section <= table[j].section)
  }

  /** What decides which fields an answer has: the transport, the radio mode, the empty alarm slots. */
  datatype Reader = Reader(tp: Transport, p2pMode: bool, emptySlots: set<nat>)

  predicate Dumped(f: Field, r: Reader) {
    && (f.nfcOnly ==> r.tp.Nfc?)
    && !(f.lrwSkip && r.tp.Radio())
    && !(f.section == P2P && r.tp.Radio() && !r.p2pMode)
    && !(f.section == ALARMS && f.tag in r.emptySlots)
  }

  // ---- Packing by size ---------------------------------------------------------------------------------

  function Used(sizes: seq<nat>, units: set<nat>, top: nat): nat
    requires top <= |sizes|
  {
    if top == 0 then 0 else Used(sizes, units, top - 1) + if top - 1 in units then sizes[top - 1] else 0
  }

  function PackPlan(sizes: seq<nat>, eligible: set<nat>, budget: nat): Plan {
    Plan(|sizes|, eligible, s => true,
         (page: set<nat>, u: nat) => page == {} || (u < |sizes| && Used(sizes, page, |sizes|) + sizes[u] <= budget))
  }

  lemma {:induction false} UsedOne(sizes: seq<nat>, units: set<nat>, u: nat, top: nat)
    requires top <= |sizes| && u < |sizes| && u !in units
    ensures Used(sizes, units + {u}, top) == Used(sizes, units, top) + if u < top then sizes[u] else 0
  {
    if top > 0 {
      UsedOne(sizes, units, u, top - 1);
    }
  }

  lemma {:induction false} UsedNone(sizes: seq<nat>, top: nat)
    requires top <= |sizes|
    ensures Used(sizes, {}, top) == 0
  {
    if top > 0 {
      UsedNone(sizes, top - 1);
    }
  }

  /** What a page may hold: one field, or fields within the budget. */
  ghost predicate WithinBudget(sizes: seq<nat>, page: set<nat>, budget: nat) {
    Used(sizes, page, |sizes|) <= budget || exists u :: page == {u}
  }

  lemma {:induction false} PackWithin(sizes: seq<nat>, eligible: set<nat>, budget: nat, u: nat)
    requires u <= |sizes|
    ensures var l := Lay(PackPlan(sizes, eligible, budget), u);
      forall k: nat :: k < |Closed(l)| ==> WithinBudget(sizes, Closed(l)[k], budget)
  {
    hide WithinBudget, Used;
    var p := PackPlan(sizes, eligible, budget);
    if u > 0 {
      PackWithin(sizes, eligible, budget, u - 1);
      LayPaged(p, u - 1);
      var l := Lay(p, u - 1);
      NotYet(p, u - 1);
      OneField(sizes, u - 1, budget);
      if u - 1 in eligible && p.joins(l.1, u - 1) {
        JoinWithin(sizes, l.1, u - 1, budget);
        forall k: nat | k < |l.0|
          ensures WithinBudget(sizes, l.0[k], budget)
        {
          assert Closed(l)[k] == l.0[k];
        }
      }
    }
  }

  lemma OneField(sizes: seq<nat>, u: nat, budget: nat)
    ensures WithinBudget(sizes, {u}, budget)
  {
  }

  lemma JoinWithin(sizes: seq<nat>, page: set<nat>, u: nat, budget: nat)
    requires u < |sizes| && u !in page && (page == {} || Used(sizes, page, |sizes|) + sizes[u] <= budget)
    ensures WithinBudget(sizes, page + {u}, budget)
  {
    if page == {} {
      assert page + {u} == {u};
    } else {
      UsedOne(sizes, page, u, |sizes|);
    }
  }

  /** The open page has only units laid before. */
  lemma NotYet(p: Plan, u: nat)
    ensures forall a: nat :: a in Lay(p, u).1 ==> a < u
  {
    LayPaged(p, u);
    var l := Lay(p, u);
    forall a: nat | a in l.1
      ensures a < u
    {
      assert On(Closed(l), |l.0|, a);
    }
  }

  /** Whichever page is asked for, the pages are the same; every eligible unit is on exactly one; and a
      page keeps to the budget unless it is a single field. */
  lemma PackGood(sizes: seq<nat>, eligible: set<nat>, budget: nat)
    requires forall u :: u in eligible ==> u < |sizes|
    ensures var pages := Pages(PackPlan(sizes, eligible, budget));
      && (forall a: nat :: OnAPage(pages, a) <==> a in eligible)
      && (forall j: nat, k: nat, a: nat :: On(pages, j, a) && On(pages, k, a) ==> j == k)
      && (forall k: nat :: k < |pages| ==> pages[k] != {} && WithinBudget(sizes, pages[k], budget))
  {
    hide Pages, WithinBudget;
    var p := PackPlan(sizes, eligible, budget);
    PagesAre(p);
    PackWithin(sizes, eligible, budget, |sizes|);
    PagesAreClosed(p);
  }

  lemma PagesAreClosed(p: Plan)
    ensures Pages(p) == Closed(Lay(p, p.n))
  {
  }

  // ---- get_config --------------------------------------------------------------------------------------

  function Sizes(table: seq<Field>): (r: seq<nat>)
    ensures |r| == |table|
  {
    seq(|table|, i requires 0 <= i < |table| => table[i].size)
  }

  function DumpedUnits(table: seq<Field>, r: Reader): set<nat> {
    set u: nat | u < |table| && Dumped(table[u], r)
  }

  function ConfigPlan(table: seq<Field>, r: Reader): Plan {
    PackPlan(Sizes(table), DumpedUnits(table, r), r.tp.Budget())
  }

  /** Tags of the fields of section `s` on a page, in table order, below `top`. */
  function TagsOf(table: seq<Field>, page: set<nat>, s: nat, top: nat): seq<nat>
    requires top <= |table|
  {
    if top == 0 then []
    else TagsOf(table, page, s, top - 1) + if top - 1 in page && table[top - 1].section == s then [table[top - 1].tag] else []
  }

  /** The answer: the tags to fill in, per section, or that there is no such page. */
  datatype Dump = OutOfRange | Removed(fault: nat) | Dump(sections: seq<seq<nat>>, index: nat, count: nat)

  /** The dump of page `want`; an answer without a field still has one page. */
  function DumpOf(table: seq<Field>, pages: seq<set<nat>>, want: nat): Dump {
    var count := if pages == [] then 1 else |pages|;
    if want >= count then OutOfRange
    else
      var page := if want < |pages| then pages[want] else {};
      Dump(seq(SECTIONS, s requires 0 <= s < SECTIONS => TagsOf(table, page, s, |table|)), want, count)
  }

  /** The page a packing loop is collecting, after unit `u` - 1. */
  function Wanted(l: Layout, want: nat): set<nat> {
    if want < |l.0| then l.0[want] else if want == |l.0| then l.1 else {}
  }

  /** The loop state of a packing pass agrees with the layout so far. */
  ghost predicate Packs(sizes: seq<nat>, p: Plan, u: nat, curPage: nat, used: nat) {
    var l := Lay(p, u);
    && curPage == |l.0| && used == Used(sizes, l.1, |sizes|) && (used > 0 <==> l.1 != {})
  }

  lemma {:induction false} UsedPositive(sizes: seq<nat>, units: set<nat>, a: nat, top: nat)
    requires top <= |sizes| && a in units && a < top && sizes[a] > 0
    ensures Used(sizes, units, top) > 0
  {
    if a < top - 1 {
      UsedPositive(sizes, units, a, top - 1);
    }
  }

  /** One eligible unit: it joins the open page, or starts the next one. */
  lemma PackStep(sizes: seq<nat>, eligible: set<nat>, budget: nat, u: nat, curPage: nat, used: nat)
    requires u < |sizes| && sizes[u] > 0 && u in eligible && Packs(sizes, PackPlan(sizes, eligible, budget), u, curPage, used)
    ensures var p := PackPlan(sizes, eligible, budget); var fresh' := used > 0 && used + sizes[u] > budget;
      var l, l' := Lay(p, u), Lay(p, u + 1);
      && Packs(sizes, p, u + 1, if fresh' then curPage + 1 else curPage, (if fresh' then 0 else used) + sizes[u])
      && l' == (if fresh' then (l.0 + [l.1], {u}) else (l.0, l.1 + {u}))
      && u !in l.1
  {
    hide Used;
    var p := PackPlan(sizes, eligible, budget);
    var l := Lay(p, u);
    LayPaged(p, u);
    NotYet(p, u);
    UsedOne(sizes, l.1, u, |sizes|);
    UsedOne(sizes, {}, u, |sizes|);
    UsedNone(sizes, |sizes|);
    assert {} + {u} == {u};
  }

  lemma SkipStep(sizes: seq<nat>, p: Plan, u: nat, curPage: nat, used: nat)
    requires u !in p.eligible && Packs(sizes, p, u, curPage, used)
    ensures Lay(p, u + 1) == Lay(p, u) && Packs(sizes, p, u + 1, curPage, used)
  {
  }

  /** The unit just placed is on the page being collected exactly if that page is open. */
  lemma WantedStep(l: Layout, u: nat, starts: bool, want: nat)
    ensures var l' := if starts then (l.0 + [l.1], {u}) else (l.0, l.1 + {u});
      Wanted(l', want) == if want == |l'.0| then Wanted(l, want) + {u} else Wanted(l, want)
  {
    assert {} + {u} == {u};
  }

  /** The collected tags: section `s` at ids[off[s]..off[s] + n[s]]; the section being collected is at
      the end, later ones have none yet. */
  ghost predicate Collected(table: seq<Field>, page: set<nat>, u: nat, ids: seq<nat>, off: seq<nat>, n: seq<nat>) {
    && u <= |table| && |off| == |n| == SECTIONS
    && (forall s: nat :: s < SECTIONS ==> off[s] + n[s] <= |ids| && ids[off[s]..off[s] + n[s]] == TagsOf(table, page, s, u))
    && (forall s: nat :: s < SECTIONS && (u == 0 || table[u - 1].section < s) ==> n[s] == 0)
    && (u > 0 && table[u - 1].section < SECTIONS && n[table[u - 1].section] > 0 ==> off[table[u - 1].section] + n[table[u - 1].section] == |ids|)
  }

  lemma {:induction false} TagsSame(table: seq<Field>, page: set<nat>, more: set<nat>, s: nat, top: nat)
    requires top <= |table| && forall a: nat :: a < top ==> (a in page <==> a in more)
    ensures TagsOf(table, page, s, top) == TagsOf(table, more, s, top)
  {
    if top > 0 {
      TagsSame(table, page, more, s, top - 1);
    }
  }

  /** A field that is not collected. */
  lemma CollectNot(table: seq<Field>, page: set<nat>, u: nat, ids: seq<nat>, off: seq<nat>, n: seq<nat>)
    requires TableOk(table) && u < |table| && Collected(table, page, u, ids, off, n) && u !in page
    ensures Collected(table, page, u + 1, ids, off, n)
  {
    hide TagsOf;
    forall s: nat | s < SECTIONS
      ensures TagsOf(table, page, s, u + 1) == TagsOf(table, page, s, u)
    {
      TagsStep(table, page, s, u);
    }
  }

  lemma TagsStep(table: seq<Field>, page: set<nat>, s: nat, u: nat)
    requires u < |table|
    ensures TagsOf(table, page, s, u + 1) == TagsOf(table, page, s, u) + if u in page && table[u].section == s then [table[u].tag] else []
  {
  }

  lemma SliceEnd(ids: seq<nat>, off: nat, n: nat, tag: nat)
    requires off + n == |ids|
    ensures (ids + [tag])[off..off + n + 1] == ids[off..off + n] + [tag]
    ensures n == 0 ==> ids[off..off + n] == []
  {
  }

  lemma SliceKept(ids: seq<nat>, off: nat, n: nat, tag: nat)
    requires off + n <= |ids|
    ensures (ids + [tag])[off..off + n] == ids[off..off + n]
  {
  }

  /** A field that is collected: at the end, and its section starts there if it is the first. */
  lemma CollectOne(table: seq<Field>, page: set<nat>, u: nat, ids: seq<nat>, off: seq<nat>, n: seq<nat>)
    requires TableOk(table) && u < |table| && Collected(table, page, u, ids, off, n) && u !in page
    ensures table[u].section < SECTIONS && |n| == |off| == SECTIONS
    ensures var s := table[u].section;
      Collected(table, page + {u}, u + 1, ids + [table[u].tag], if n[s] == 0 then off[s := |ids|] else off, n[s := n[s] + 1])
  {
    hide TagsOf;
    var t := table[u].section;
    var ids', n' := ids + [table[u].tag], n[t := n[t] + 1];
    var off' := if n[t] == 0 then off[t := |ids|] else off;
    forall s: nat | s < SECTIONS
      ensures off'[s] + n'[s] <= |ids'| && ids'[off'[s]..off'[s] + n'[s]] == TagsOf(table, page + {u}, s, u + 1)
    {
      CollectSection(table, page, u, ids, off[s], n[s], s);
    }
  }

  /** The same, section by section. */
  lemma CollectSection(table: seq<Field>, page: set<nat>, u: nat, ids: seq<nat>, off: nat, n: nat, s: nat)
    requires u < |table| && off + n <= |ids| && ids[off..off + n] == TagsOf(table, page, s, u)
    requires s == table[u].section && n > 0 ==> off + n == |ids|
    ensures var off' := if s == table[u].section && n == 0 then |ids| else off;
      var n' := if s == table[u].section then n + 1 else n;
      off' + n' <= |ids| + 1 && (ids + [table[u].tag])[off'..off' + n'] == TagsOf(table, page + {u}, s, u + 1)
  {
    hide TagsOf;
    TagsStep(table, page + {u}, s, u);
    TagsSame(table, page, page + {u}, s, u);
    TagAdded(ids, off, n, table[u].tag, s == table[u].section, TagsOf(table, page, s, u));
  }

  /** The tags of one section, of which `tag` may be the next. */
  lemma TagAdded(ids: seq<nat>, off: nat, n: nat, tag: nat, mine: bool, tags: seq<nat>)
    requires off + n <= |ids| && ids[off..off + n] == tags && (mine && n > 0 ==> off + n == |ids|)
    ensures var off' := if mine && n == 0 then |ids| else off; var n' := if mine then n + 1 else n;
      off' + n' <= |ids| + 1 && (ids + [tag])[off'..off' + n'] == if mine then tags + [tag] else tags
  {
    if !mine {
      SliceKept(ids, off, n, tag);
    } else if n == 0 {
      SliceEnd(ids, |ids|, 0, tag);
    } else {
      SliceEnd(ids, off, n, tag);
    }
  }

  /** Field `a` puts `tag` into the list of section `s`. */
  ghost predicate HasTag(table: seq<Field>, page: set<nat>, s: nat, top: nat, tag: nat, a: nat) {
    a < top && a < |table| && a in page && table[a].section == s && table[a].tag == tag
  }

  lemma {:induction false} TagsOfHas(table: seq<Field>, page: set<nat>, s: nat, top: nat, tag: nat)
    requires top <= |table|
    ensures tag in TagsOf(table, page, s, top) <==> exists a: nat :: HasTag(table, page, s, top, tag, a)
  {
    if top > 0 {
      TagsOfHas(table, page, s, top - 1, tag);
      TagsStep(table, page, s, top - 1);
      hide TagsOf;
      if tag in TagsOf(table, page, s, top - 1) {
        var a: nat :| HasTag(table, page, s, top - 1, tag, a);
        assert HasTag(table, page, s, top, tag, a);
      }
      if top - 1 in page && table[top - 1].section == s && table[top - 1].tag == tag {
        assert HasTag(table, page, s, top, tag, top - 1);
      }
      forall a: nat | HasTag(table, page, s, top, tag, a)
        ensures tag in TagsOf(table, page, s, top)
      {
        if a < top - 1 {
          assert HasTag(table, page, s, top - 1, tag, a);
        }
      }
    }
  }

  // ---- What an answer shows ------------------------------------------------------------------------------

  /** The answer shows field `f`. */
  ghost predicate Shown(d: Dump, f: Field) {
    d.Dump? && f.section < |d.sections| && f.tag in d.sections[f.section]
  }

  /** No two fields of the table have the same name. */
  ghost predicate Distinct(table: seq<Field>) {
    forall i, j :: 0 <= i < j < |table| ==> !(table[i].section == table[j].section && table[i].tag == table[j].tag)
  }

  /** No answer shows an empty alarm slot, and only one over NFC shows a field that is for NFC alone. */
  ghost predicate Discreet(table: seq<Field>, r: Reader, d: Dump) {
    forall u :: 0 <= u < |table| && Shown(d, table[u]) ==>
      (table[u].nfcOnly ==> r.tp.Nfc?) && (table[u].section == ALARMS ==> table[u].tag !in r.emptySlots)
  }

  /** A dump over a radio shows no field that is not for it, and P2P fields only in P2P mode. */
  ghost predicate Terse(table: seq<Field>, r: Reader, d: Dump) {
    forall u :: 0 <= u < |table| && Shown(d, table[u]) && r.tp.Radio() ==>
      !table[u].lrwSkip && (table[u].section == P2P ==> r.p2pMode)
  }

  /** A page shows the names of the fields placed on it. */
  lemma ShownIff(table: seq<Field>, pages: seq<set<nat>>, k: nat, f: Field)
    ensures Shown(DumpOf(table, pages, k), f) <==>
              f.section < SECTIONS && exists v: nat :: On(pages, k, v) && v < |table| && table[v].section == f.section && table[v].tag == f.tag
  {
    hide TagsOf, HasTag;
    var page := if k < |pages| then pages[k] else {};
    TagsOfHas(table, page, f.section, |table|, f.tag);
    forall v: nat
      ensures HasTag(table, page, f.section, |table|, f.tag, v) <==> On(pages, k, v) && v < |table| && table[v].section == f.section && table[v].tag == f.tag
    {
      HasTagOn(table, pages, k, f, v);
    }
  }

  lemma HasTagOn(table: seq<Field>, pages: seq<set<nat>>, k: nat, f: Field, v: nat)
    ensures HasTag(table, if k < |pages| then pages[k] else {}, f.section, |table|, f.tag, v) <==>
              On(pages, k, v) && v < |table| && table[v].section == f.section && table[v].tag == f.tag
  {
  }

  /** The fields of the table that the pages of a get_config show are all but those for NFC alone over
      anything else, empty alarm slots, and over a radio those not for it and, outside P2P mode, the P2P
      fields; each is on one page. */
  lemma ConfigShows(table: seq<Field>, r: Reader, u: nat)
    requires TableOk(table) && Distinct(table) && u < |table|
    ensures var pages := Pages(ConfigPlan(table, r));
      && ((exists k: nat :: Shown(DumpOf(table, pages, k), table[u])) <==>
            && (table[u].nfcOnly ==> r.tp.Nfc?) && (table[u].section == ALARMS ==> table[u].tag !in r.emptySlots)
            && (r.tp.Radio() ==> !table[u].lrwSkip && (table[u].section == P2P ==> r.p2pMode)))
      && (forall j: nat, k: nat :: Shown(DumpOf(table, pages, j), table[u]) && Shown(DumpOf(table, pages, k), table[u]) ==> j == k)
  {
    hide DumpOf, Shown, PackPlan, Pages, On, OnAPage;
    var pages := Pages(ConfigPlan(table, r));
    PackGood(Sizes(table), DumpedUnits(table, r), r.tp.Budget());
    forall k: nat
      ensures Shown(DumpOf(table, pages, k), table[u]) <==> On(pages, k, u)
    {
      ShownIff(table, pages, k, table[u]);
    }
    OnSome(pages, u);
  }

  lemma OnSome(pages: seq<set<nat>>, u: nat)
    ensures OnAPage(pages, u) <==> exists k: nat :: On(pages, k, u)
  {
  }

  lemma ConfigDiscreet(table: seq<Field>, r: Reader, want: nat)
    requires TableOk(table) && Distinct(table)
    ensures var d := DumpOf(table, Pages(ConfigPlan(table, r)), want); Discreet(table, r, d) && Terse(table, r, d)
  {
    hide DumpOf, Shown, ConfigPlan, Pages;
    var pages := Pages(ConfigPlan(table, r));
    forall u | 0 <= u < |table| && Shown(DumpOf(table, pages, want), table[u])
      ensures (table[u].nfcOnly ==> r.tp.Nfc?) && (table[u].section == ALARMS ==> table[u].tag !in r.emptySlots)
      ensures r.tp.Radio() ==> !table[u].lrwSkip && (table[u].section == P2P ==> r.p2pMode)
    {
      ConfigShows(table, r, u);
    }
  }

  /** `app_cmd_handle_get_config`: one pass over the table packs the fields, collects the tags of page
      `want`, and learns the number of pages. */
  method GetConfig(table: seq<Field>, r: Reader, want: nat) returns (d: Dump)
    requires TableOk(table)
    ensures d == DumpOf(table, Pages(ConfigPlan(table, r)), want)
    ensures Distinct(table) ==> Discreet(table, r, d) && Terse(table, r, d)
  {
    hide Collected, Packs, TagsOf, Lay, Place, Dumped, Discreet, Terse, Distinct;
    if Distinct(table) {
      ConfigDiscreet(table, r, want);
    }
    ghost var sizes, p := Sizes(table), ConfigPlan(table, r);
    var ids: seq<nat>, off: seq<nat>, n: seq<nat> := [], seq(SECTIONS, _ => 0), seq(SECTIONS, _ => 0);
    var curPage: nat, used: nat := 0, 0;
    var u := 0;
    Nothing(table, sizes, p, want, off);
    while u < |table|
      invariant 0 <= u <= |table| && |off| == |n| == SECTIONS
      invariant Packs(sizes, p, u, curPage, used)
      invariant Collected(table, Wanted(Lay(p, u), want), u, ids, off, n)
    {
      NotYetWanted(p, u, want);
      if !Dumped(table[u], r) {
        SkipStep(sizes, p, u, curPage, used);
        CollectNot(table, Wanted(Lay(p, u), want), u, ids, off, n);
      } else {
        PackStep(sizes, DumpedUnits(table, r), r.tp.Budget(), u, curPage, used);
        PacksPage(sizes, p, u, curPage, used);
        WantedStep(Lay(p, u), u, used > 0 && used + table[u].size > r.tp.Budget(), want);
        if used > 0 && used + table[u].size > r.tp.Budget() {
          curPage := curPage + 1;
          used := 0;
        }
        used := used + table[u].size;
        if curPage == want {
          CollectOne(table, Wanted(Lay(p, u), want), u, ids, off, n);
          var s := table[u].section;
          if n[s] == 0 {
            off := off[s := |ids|];
          }
          ids := ids + [table[u].tag];
          n := n[s := n[s] + 1];
        } else {
          CollectNot(table, Wanted(Lay(p, u), want), u, ids, off, n);
        }
      }
      u := u + 1;
    }
    var count := curPage + 1;
    PagesFound(table, sizes, p, want, curPage, used, ids, off, n);
    if want >= count {
      return OutOfRange;
    }
    d := Dump(seq(SECTIONS, s requires 0 <= s < SECTIONS && |off| == |n| == SECTIONS && off[s] + n[s] <= |ids| => ids[off[s]..off[s] + n[s]]), want, count);
  }

  lemma Nothing(table: seq<Field>, sizes: seq<nat>, p: Plan, want: nat, off: seq<nat>)
    requires |off| == SECTIONS && off == seq(SECTIONS, _ => 0)
    ensures Packs(sizes, p, 0, 0, 0) && Collected(table, Wanted(Lay(p, 0), want), 0, [], off, off)
  {
    UsedNone(sizes, |sizes|);
  }

  lemma NotYetWanted(p: Plan, u: nat, want: nat)
    ensures u !in Wanted(Lay(p, u), want)
  {
    LayPaged(p, u);
    var l := Lay(p, u);
    if u in Wanted(l, want) {
      assert Closed(l)[want] == Wanted(l, want);
      assert On(Closed(l), want, u);
    }
  }

  lemma PacksPage(sizes: seq<nat>, p: Plan, u: nat, curPage: nat, used: nat)
    requires Packs(sizes, p, u, curPage, used)
    ensures curPage == |Lay(p, u).0|
  {
  }

  lemma PagesFound(table: seq<Field>, sizes: seq<nat>, p: Plan, want: nat, curPage: nat, used: nat, ids: seq<nat>, off: seq<nat>, n: seq<nat>)
    requires p.n == |table| && Packs(sizes, p, p.n, curPage, used)
    requires Collected(table, Wanted(Lay(p, p.n), want), p.n, ids, off, n)
    ensures var pages := Pages(p);
      && curPage + 1 == (if pages == [] then 1 else |pages|)
      && Wanted(Lay(p, p.n), want) == (if want < |pages| then pages[want] else {})
    ensures |off| == |n| == SECTIONS
      && forall s: nat :: s < SECTIONS ==> off[s] + n[s] <= |ids| && ids[off[s]..off[s] + n[s]] == TagsOf(table, Wanted(Lay(p, p.n), want), s, |table|)
  {
    hide TagsOf, Used;
    LayPaged(p, p.n);
  }

  // ---- get_param -----------------------------------------------------------------------------------------

  /** A request names fields by section and id, section by section. */
  datatype Ask = Ask(section: nat, id: nat)

  predicate AskOk(asks: seq<Ask>) {
    && (forall i :: 0 <= i < |asks| ==> asks[i].section < SECTIONS)
    && (forall i, j :: 0 <= i < j < |asks| ==> asks[i].section <= asks[j].section)
  }

  predicate Names(f: Field, a: Ask) { f.section == a.section && f.tag == a.id }

  /** The first field of that name, if it can be read back at all. */
  function Lookup(table: seq<Field>, a: Ask): Option<Field> {
    if table == [] then None else if Names(table[0], a) then Some(table[0]) else Lookup(table[1..], a)
  }

  lemma {:induction false} LookupIs(table: seq<Field>, a: Ask)
    requires TableOk(table)
    ensures Lookup(table, a).Some? ==> Names(Lookup(table, a).value, a) && Lookup(table, a).value.size > 0
  {
    if table != [] && !Names(table[0], a) {
      LookupIs(table[1..], a);
    }
  }

  /** The fields a request names, one per entry; an entry that names none stands for itself. */
  function Asked(table: seq<Field>, asks: seq<Ask>): (r: seq<Field>)
    ensures |r| == |asks|
  {
    seq(|asks|, i requires 0 <= i < |asks| =>
      var f := Lookup(table, asks[i]); if f.Some? then f.value else Field(asks[i].section, asks[i].id, 1, true, true))
  }

  /** An entry is answered the first time it is named, if it names a field that this transport may read;
      unlike a dump, on a radio also fields a radio dump leaves out. */
  predicate Answered(table: seq<Field>, asks: seq<Ask>, r: Reader, u: nat)
    requires u < |asks|
  {
    && (forall k :: 0 <= k < u ==> asks[k] != asks[u])
    && var f := Lookup(table, asks[u]);
      f.Some? && (f.value.nfcOnly ==> r.tp.Nfc?) && !(asks[u].section == ALARMS && asks[u].id in r.emptySlots)
  }

  function AnsweredUnits(table: seq<Field>, asks: seq<Ask>, r: Reader): set<nat> {
    set u: nat | u < |asks| && Answered(table, asks, r, u)
  }

  function ParamPlan(table: seq<Field>, asks: seq<Ask>, r: Reader): Plan {
    PackPlan(Sizes(Asked(table, asks)), AnsweredUnits(table, asks, r), r.tp.Budget())
  }

  lemma AskedOk(table: seq<Field>, asks: seq<Ask>)
    requires TableOk(table) && AskOk(asks)
    ensures TableOk(Asked(table, asks))
    ensures forall i :: 0 <= i < |asks| ==> Asked(table, asks)[i].section == asks[i].section && Asked(table, asks)[i].tag == asks[i].id
  {
    hide Lookup;
    forall i | 0 <= i < |asks|
      ensures var f := Asked(table, asks)[i]; f.section == asks[i].section && f.tag == asks[i].id && f.size > 0
    {
      LookupIs(table, asks[i]);
    }
  }

  /** With distinct names the first field of a name is the only one. */
  lemma {:induction false} LookupFinds(table: seq<Field>, a: Ask, u: nat)
    requires Distinct(table) && u < |table| && Names(table[u], a)
    ensures Lookup(table, a) == Some(table[u])
  {
    if u > 0 {
      LookupFinds(table[1..], a, u - 1);
    }
  }

  /** The fields of the table that the pages of a get_param show are those the request names, but for those
      for NFC alone over anything else and empty alarm slots; each is on one page. */
  lemma ParamShows(table: seq<Field>, asks: seq<Ask>, r: Reader, u: nat)
    requires TableOk(table) && Distinct(table) && AskOk(asks) && u < |table|
    ensures var asked, pages := Asked(table, asks), Pages(ParamPlan(table, asks, r));
      && ((exists k: nat :: Shown(DumpOf(asked, pages, k), table[u])) <==>
            && Ask(table[u].section, table[u].tag) in asks
            && (table[u].nfcOnly ==> r.tp.Nfc?) && (table[u].section == ALARMS ==> table[u].tag !in r.emptySlots))
      && (forall j: nat, k: nat :: Shown(DumpOf(asked, pages, j), table[u]) && Shown(DumpOf(asked, pages, k), table[u]) ==> j == k)
  {
    hide DumpOf, Shown, PackPlan, Pages, On, OnAPage, Asked, Lookup, Answered;
    var asked, pages := Asked(table, asks), Pages(ParamPlan(table, asks, r));
    var a := Ask(table[u].section, table[u].tag);
    PackGood(Sizes(asked), AnsweredUnits(table, asks, r), r.tp.Budget());
    AskedOk(table, asks);
    LookupFinds(table, a, u);
    forall k: nat
      ensures Shown(DumpOf(asked, pages, k), table[u]) <==> AskedOn(pages, asks, a, k)
    {
      ShownIff(asked, pages, k, table[u]);
    }
    NamedOnce(table, asks, r, a, pages);
  }

  /** Page `k` answers an entry with this name. */
  ghost predicate AskedOn(pages: seq<set<nat>>, asks: seq<Ask>, a: Ask, k: nat) {
    exists v: nat :: On(pages, k, v) && v < |asks| && asks[v] == a
  }

  /** An entry that may be answered is, once. */
  lemma NamedOnce(table: seq<Field>, asks: seq<Ask>, r: Reader, a: Ask, pages: seq<set<nat>>)
    requires Lookup(table, a).Some? && forall v: nat :: OnAPage(pages, v) <==> v in AnsweredUnits(table, asks, r)
    requires forall j: nat, k: nat, v: nat :: On(pages, j, v) && On(pages, k, v) ==> j == k
    ensures (exists k: nat :: AskedOn(pages, asks, a, k)) <==>
              a in asks && (Lookup(table, a).value.nfcOnly ==> r.tp.Nfc?) && !(a.section == ALARMS && a.id in r.emptySlots)
    ensures forall j: nat, k: nat :: AskedOn(pages, asks, a, j) && AskedOn(pages, asks, a, k) ==> j == k
  {
    hide On, Lookup;
    forall k: nat, v: nat | On(pages, k, v)
      ensures OnAPage(pages, v)
    {
    }
    if a in asks && (Lookup(table, a).value.nfcOnly ==> r.tp.Nfc?) && !(a.section == ALARMS && a.id in r.emptySlots) {
      var u :| 0 <= u < |asks| && asks[u] == a;
      var v := AnsweredOnce(table, asks, r, u);
      assert OnAPage(pages, v);
      var k: nat :| On(pages, k, v);
      assert AskedOn(pages, asks, a, k);
    }
  }

  lemma ParamDiscreet(table: seq<Field>, asks: seq<Ask>, r: Reader, want: nat)
    requires TableOk(table) && Distinct(table) && AskOk(asks)
    ensures Discreet(table, r, DumpOf(Asked(table, asks), Pages(ParamPlan(table, asks, r)), want))
  {
    hide DumpOf, Shown, ParamPlan, Pages, Asked;
    var d := DumpOf(Asked(table, asks), Pages(ParamPlan(table, asks, r)), want);
    forall u | 0 <= u < |table| && Shown(d, table[u])
      ensures (table[u].nfcOnly ==> r.tp.Nfc?) && (table[u].section == ALARMS ==> table[u].tag !in r.emptySlots)
    {
      ParamShows(table, asks, r, u);
    }
  }

  /** A removed sensor field in the request. */
  predicate AsksRemoved(asks: seq<Ask>, removed: set<nat>, u: nat)
    requires u < |asks|
  {
    asks[u].section == SENSORS && asks[u].id in removed
  }

  /** `app_cmd_handle_get_param`. */
  method GetParam(table: seq<Field>, asks: seq<Ask>, r: Reader, removed: set<nat>, want: nat) returns (d: Dump)
    requires TableOk(table) && AskOk(asks)
    ensures d.Removed? <==> exists u :: 0 <= u < |asks| && AsksRemoved(asks, removed, u)
    ensures d.Removed? ==> exists u :: 0 <= u < |asks| && AsksRemoved(asks, removed, u) && d.fault == 300 + asks[u].id
                             && forall k :: 0 <= k < u ==> !AsksRemoved(asks, removed, k)
    ensures !d.Removed? ==> d == DumpOf(Asked(table, asks), Pages(ParamPlan(table, asks, r)), want)
    ensures Distinct(table) ==> Discreet(table, r, d)
  {
    hide Packs, TagsOf, Lay, Place, Answered, TableOk, Lookup, Asked, Discreet, Distinct;
    if Distinct(table) {
      ParamDiscreet(table, asks, r, want);
      RemovedDiscreet(table, r);
    }
    var j := 0;
    while j < |asks|
      invariant 0 <= j <= |asks| && forall k :: 0 <= k < j ==> !AsksRemoved(asks, removed, k)
    {
      if AsksRemoved(asks, removed, j) {
        return Removed(300 + asks[j].id);
      }
      j := j + 1;
    }
    ghost var asked := Asked(table, asks);
    ghost var sizes, p := Sizes(asked), ParamPlan(table, asks, r);
    AskedOk(table, asks);
    var out: seq<seq<nat>> := seq(SECTIONS, _ => []);
    var curPage: nat, used: nat := 0, 0;
    var u := 0;
    NothingYet(asked, sizes, p, want);
    while u < |asks|
      invariant 0 <= u <= |asks| && |out| == SECTIONS
      invariant Packs(sizes, p, u, curPage, used)
      invariant forall s: nat :: s < SECTIONS ==> out[s] == TagsOf(asked, Wanted(Lay(p, u), want), s, u)
    {
      NotYetWanted(p, u, want);
      forall s: nat | s < SECTIONS
        ensures TagsOf(asked, Wanted(Lay(p, u), want), s, u + 1) == TagsOf(asked, Wanted(Lay(p, u), want), s, u)
        ensures TagsOf(asked, Wanted(Lay(p, u), want) + {u}, s, u + 1)
             == TagsOf(asked, Wanted(Lay(p, u), want), s, u) + if asks[u].section == s then [asks[u].id] else []
      {
        TagsStep(asked, Wanted(Lay(p, u), want), s, u);
        TagsStep(asked, Wanted(Lay(p, u), want) + {u}, s, u);
        TagsSame(asked, Wanted(Lay(p, u), want), Wanted(Lay(p, u), want) + {u}, s, u);
      }
      if !Answered(table, asks, r, u) {
        SkipStep(sizes, p, u, curPage, used);
      } else {
        var size := FieldSize(table, asks, r, u);
        PackStep(sizes, AnsweredUnits(table, asks, r), r.tp.Budget(), u, curPage, used);
        PacksPage(sizes, p, u, curPage, used);
        WantedStep(Lay(p, u), u, used > 0 && used + size > r.tp.Budget(), want);
        if used > 0 && used + size > r.tp.Budget() {
          curPage := curPage + 1;
          used := 0;
        }
        used := used + size;
        if curPage == want {
          var s := asks[u].section;
          out := out[s := out[s] + [asks[u].id]];
        }
      }
      u := u + 1;
    }
    var count := curPage + 1;
    ParamFound(sizes, p, want, curPage, used);
    if want >= count {
      return OutOfRange;
    }
    assert out == DumpOf(asked, Pages(p), want).sections;
    d := Dump(out, want, count);
  }

  lemma RemovedDiscreet(table: seq<Field>, r: Reader)
    ensures forall fault: nat :: Discreet(table, r, Removed(fault))
  {
  }

  /** The size bound of an answered entry. */
  method FieldSize(table: seq<Field>, asks: seq<Ask>, r: Reader, u: nat) returns (size: nat)
    requires u < |asks| && Answered(table, asks, r, u) && TableOk(table)
    ensures size == Sizes(Asked(table, asks))[u] > 0
  {
    LookupIs(table, asks[u]);
    size := Lookup(table, asks[u]).value.size;
  }

  lemma NothingYet(asked: seq<Field>, sizes: seq<nat>, p: Plan, want: nat)
    ensures Packs(sizes, p, 0, 0, 0)
    ensures forall s: nat :: TagsOf(asked, Wanted(Lay(p, 0), want), s, 0) == []
  {
    UsedNone(sizes, |sizes|);
  }

  lemma ParamFound(sizes: seq<nat>, p: Plan, want: nat, curPage: nat, used: nat)
    requires Packs(sizes, p, p.n, curPage, used)
    ensures var pages := Pages(p);
      && curPage + 1 == (if pages == [] then 1 else |pages|)
      && Wanted(Lay(p, p.n), want) == (if want < |pages| then pages[want] else {})
  {
    hide Used;
    LayPaged(p, p.n);
  }

  /** Each field a request names is answered for exactly one of its entries. */
  lemma {:induction false} AnsweredOnce(table: seq<Field>, asks: seq<Ask>, r: Reader, u: nat) returns (k: nat)
    requires u < |asks| && Lookup(table, asks[u]).Some?
    requires Lookup(table, asks[u]).value.nfcOnly ==> r.tp.Nfc?
    requires !(asks[u].section == ALARMS && asks[u].id in r.emptySlots)
    ensures k <= u && asks[k] == asks[u] && Answered(table, asks, r, k)
    ensures forall j :: 0 <= j < |asks| && asks[j] == asks[u] && Answered(table, asks, r, j) ==> j == k
  {
    if j :| 0 <= j < u && asks[j] == asks[u] {
      k := AnsweredOnce(table, asks, r, j);
    } else {
      k := u;
    }
  }
}
