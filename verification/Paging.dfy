/** Greedy paging of an ordered list of units, as all command answers do it: a unit joins the open page
    if it fits there, else it starts the next page; one that does not fit a page of its own is left
    out. */
module Paging {

  /** `eligible` units below `n`; which sets of units fit one page; and which units may join a page
      apart from that. */
  datatype Plan = Plan(n: nat, eligible: set<nat>, fits: set<nat> -> bool, joins: (set<nat>, nat) -> bool)

  type Layout = (seq<set<nat>>, set<nat>)

  /** The closed pages and the open page after unit `u`. */
  function Place(p: Plan, l: Layout, u: nat): Layout {
    if u !in p.eligible then l
    else if p.joins(l.1, u) && p.fits(l.1 + {u}) then (l.0, l.1 + {u})
    else if !p.fits({u}) then l
    else (Closed(l), {u})
  }

  /** All pages, once the open one is closed. */
  function Closed(l: Layout): seq<set<nat>> { if l.1 == {} then l.0 else l.0 + [l.1] }

  function Lay(p: Plan, u: nat): Layout {
    if u == 0 then ([], {}) else Place(p, Lay(p, u - 1), u - 1)
  }

  function Pages(p: Plan): seq<set<nat>> { Closed(Lay(p, p.n)) }

  /** Unit `a` is on page `k`. */
  ghost predicate On(pages: seq<set<nat>>, k: nat, a: nat) { k < |pages| && a in pages[k] }

  ghost predicate OnAPage(pages: seq<set<nat>>, a: nat) {
    exists k: nat :: On(pages, k, a)
  }

  /** The pages of the units below `u`: in order, each fitting, none empty, and the units on them are the
      eligible ones, but for those that do not fit a page of their own. */
  ghost predicate Paged(p: Plan, u: nat, pages: seq<set<nat>>) {
    && (forall k: nat :: k < |pages| ==> pages[k] != {} && p.fits(pages[k]))
    && (forall k: nat, a: nat :: On(pages, k, a) ==> a < u && a in p.eligible)
    && (forall j: nat, k: nat, a: nat, b: nat :: On(pages, j, a) && On(pages, k, b) && j < k ==> a < b)
    && (forall a: nat :: a < u && a in p.eligible && p.fits({a}) ==> OnAPage(pages, a))
    && |pages| <= u
  }

  lemma {:induction false} LayPaged(p: Plan, u: nat)
    ensures Paged(p, u, Closed(Lay(p, u)))
    ensures Lay(p, u).1 == {} ==> Lay(p, u).0 == []
  {
    hide Paged, Place;
    if u > 0 {
      LayPaged(p, u - 1);
      PlacePaged(p, Lay(p, u - 1), u - 1);
    } else {
      NonePaged(p);
    }
  }

  lemma NonePaged(p: Plan)
    ensures Paged(p, 0, [])
  {
  }

  lemma PlacePaged(p: Plan, l: Layout, u: nat)
    requires Paged(p, u, Closed(l)) && (l.1 == {} ==> l.0 == [])
    ensures Paged(p, u + 1, Closed(Place(p, l, u)))
    ensures Place(p, l, u).1 == {} ==> Place(p, l, u).0 == []
  {
    hide Paged;
    if u in p.eligible && p.joins(l.1, u) && p.fits(l.1 + {u}) {
      OpenGrows(p, u, l);
    } else if u in p.eligible && p.fits({u}) {
      PageAdded(p, u, Closed(l));
    } else {
      UnitLeftOut(p, u, Closed(l));
    }
  }

  lemma UnitLeftOut(p: Plan, u: nat, pages: seq<set<nat>>)
    requires Paged(p, u, pages) && !(u in p.eligible && p.fits({u}))
    ensures Paged(p, u + 1, pages)
  {
  }

  lemma OpenGrows(p: Plan, u: nat, l: Layout)
    requires Paged(p, u, Closed(l)) && (l.1 == {} ==> l.0 == []) && u in p.eligible && p.fits(l.1 + {u})
    ensures Paged(p, u + 1, l.0 + [l.1 + {u}])
  {
    var was, pages := Closed(l), l.0 + [l.1 + {u}];
    forall k: nat, a: nat
      ensures On(pages, k, a) <==> On(was, k, a) || (k == |l.0| && a == u)
    {
      if k < |l.0| {
        assert pages[k] == was[k];
      }
    }
    forall a: nat | a < u + 1 && a in p.eligible && p.fits({a})
      ensures OnAPage(pages, a)
    {
      if a == u {
        assert On(pages, |l.0|, a);
      } else {
        assert OnAPage(was, a);
        var k: nat :| On(was, k, a);
        assert On(pages, k, a);
      }
    }
    forall k: nat | k < |pages|
      ensures pages[k] != {} && p.fits(pages[k])
    {
      if k < |l.0| {
        assert pages[k] == was[k];
      }
    }
  }

  lemma PageAdded(p: Plan, u: nat, was: seq<set<nat>>)
    requires Paged(p, u, was) && u in p.eligible && p.fits({u})
    ensures Paged(p, u + 1, was + [{u}])
  {
    var pages := was + [{u}];
    forall k: nat, a: nat
      ensures On(pages, k, a) <==> On(was, k, a) || (k == |was| && a == u)
    {
    }
    forall a: nat | a < u + 1 && a in p.eligible && p.fits({a})
      ensures OnAPage(pages, a)
    {
      if a == u {
        assert On(pages, |was|, a);
      } else {
        assert OnAPage(was, a);
        var k: nat :| On(was, k, a);
        assert On(pages, k, a);
      }
    }
  }

  /** Every eligible unit that fits a page of its own is on exactly one page, and, when what fits still
      fits with less, no other unit is. */
  lemma PagesPartition(p: Plan, a: nat)
    requires a < p.n
    ensures Paged(p, p.n, Pages(p))
    ensures forall j: nat, k: nat :: On(Pages(p), j, a) && On(Pages(p), k, a) ==> j == k
    ensures (forall s: set<nat> :: a in s && p.fits(s) ==> p.fits({a})) ==>
              (OnAPage(Pages(p), a) <==> a in p.eligible && p.fits({a}))
  {
    hide Pages;
    PagesAre(p);
  }

  lemma PagesAre(p: Plan)
    ensures Paged(p, p.n, Pages(p))
  {
    LayPaged(p, p.n);
  }
}
