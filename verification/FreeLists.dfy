/** Linked lists threaded through the page array, and the stable partition of one. */
module FreeLists {
  import opened Mmu
  import opened Options
  import opened PageTables

  /** struct PageInfo, with `link` the index of the next free page. */
  datatype PageInfo = PageInfo(link: Option<nat>, ref: nat)

  function Refs(ps: seq<PageInfo>): (rs: seq<nat>)
    ensures |rs| == |ps| && forall p :: 0 <= p < |ps| ==> rs[p] == ps[p].ref
  {
    seq(|ps|, p requires 0 <= p < |ps| => ps[p].ref)
  }

  function Next(q: seq<nat>, k: nat): Option<nat> {
    if k + 1 < |q| then Some(q[k + 1]) else None
  }

  lemma NextIs(q: seq<nat>, k: nat)
    ensures Next(q, k) == if k + 1 < |q| then Some(q[k + 1]) else None
  {
  }

  /** The list that starts at `head` and follows the links visits exactly `q` and then ends. */
  predicate Links(ps: seq<PageInfo>, head: Option<nat>, q: seq<nat>) {
    && head == (if q == [] then None else Some(q[0]))
    && forall k {:trigger Next(q, k)} :: 0 <= k < |q| ==> q[k] < |ps| && ps[q[k]].link == Next(q, k)
  }

  /** Pages off the list have no link. */
  predicate OffList(ps: seq<PageInfo>, q: seq<nat>) {
    forall p :: 0 <= p < |ps| && p !in q ==> ps[p].link == None
  }

  function SetLink(ps: seq<PageInfo>, p: nat, link: Option<nat>): (ps': seq<PageInfo>)
    requires p < |ps|
    ensures |ps'| == |ps| && Refs(ps') == Refs(ps)
  {
    ps[p := ps[p].(link := link)]
  }

  lemma LinkAt(ps: seq<PageInfo>, head: Option<nat>, q: seq<nat>, k: nat)
    requires Links(ps, head, q) && k < |q|
    ensures q[k] < |ps| && ps[q[k]].link == Next(q, k)
  {
    assert Next(q, k) == Next(q, k);
  }

  lemma PopLinks(ps: seq<PageInfo>, head: Option<nat>, q: seq<nat>)
    requires Links(ps, head, q) && NoDuplicates(q) && q != [] && q[0] < |ps|
    ensures Links(SetLink(ps, q[0], None), ps[q[0]].link, q[1..]) && NoDuplicates(q[1..]) && q[0] !in q[1..]
  {
    var rest := q[1..];
    var ps' := SetLink(ps, q[0], None);
    LinkAt(ps, head, q, 0);
    forall k | 0 <= k < |rest| ensures rest[k] < |ps'| && ps'[rest[k]].link == Next(rest, k) {
      assert rest[k] == q[k + 1] && Next(rest, k) == Next(q, k + 1);
    }
  }

  lemma PushLinks(ps: seq<PageInfo>, head: Option<nat>, q: seq<nat>, p: nat)
    requires Links(ps, head, q) && NoDuplicates(q) && p < |ps| && p !in q
    ensures Links(SetLink(ps, p, head), Some(p), [p] + q) && NoDuplicates([p] + q)
  {
    var longer := [p] + q;
    var ps' := SetLink(ps, p, head);
    forall k | 0 <= k < |longer| ensures longer[k] < |ps'| && ps'[longer[k]].link == Next(longer, k) {
      if k > 0 {
        assert longer[k] == q[k - 1] && Next(longer, k) == Next(q, k - 1);
      }
    }
  }

  lemma SameLinks(ps: seq<PageInfo>, ps': seq<PageInfo>, head: Option<nat>, q: seq<nat>)
    requires Links(ps, head, q) && |ps'| == |ps| && forall p :: 0 <= p < |ps| && p in q ==> ps'[p].link == ps[p].link
    ensures Links(ps', head, q)
  {
    forall k | 0 <= k < |q| ensures q[k] < |ps'| && ps'[q[k]].link == Next(q, k) {
      LinkAt(ps, head, q, k);
    }
  }

  // ----- page_free and its double-free check -----

  /** page_free's test: a page with neither a count nor a link gets pushed, the others make it panic. */
  predicate FreePanics(ps: seq<PageInfo>, p: nat)
    requires p < |ps|
  {
    ps[p].ref != 0 || ps[p].link != None
  }

  lemma TailLinks(ps: seq<PageInfo>, head: Option<nat>, q: seq<nat>)
    requires Links(ps, head, q) && q != [] && q[0] < |ps|
    ensures Links(ps, ps[q[0]].link, q[1..])
  {
    LinkAt(ps, head, q, 0);
    forall k | 0 <= k < |q[1..]| ensures q[1..][k] < |ps| && ps[q[1..][k]].link == Next(q[1..], k) {
      LinkAt(ps, head, q, k + 1);
      assert q[1..][k] == q[k + 1] && Next(q[1..], k) == Next(q, k + 1);
    }
  }

  /** A page that the check lets through leaves a well-formed list exactly if it was not on the list already.
      The check cannot see that for the last page, whose link is NULL: pushing it closes a cycle. */
  lemma FreeKeepsListIff(ps: seq<PageInfo>, head: Option<nat>, q: seq<nat>, p: nat)
    requires Links(ps, head, q) && NoDuplicates(q) && p < |ps| && !FreePanics(ps, p)
    ensures (exists q' :: Links(SetLink(ps, p, head), Some(p), q')) <==> p !in q
  {
    if p !in q {
      PushLinks(ps, head, q, p);
    } else {
      TailUnseen(ps, head, q, p);
    }
  }

  /** A listed page that the check lets through is the last one, and pushing it closes a cycle. */
  lemma TailUnseen(ps: seq<PageInfo>, head: Option<nat>, q: seq<nat>, p: nat)
    requires Links(ps, head, q) && NoDuplicates(q) && p < |ps| && !FreePanics(ps, p) && p in q
    ensures p == q[|q| - 1]
    ensures forall q' :: !Links(SetLink(ps, p, head), Some(p), q')
  {
    var k :| 0 <= k < |q| && q[k] == p;
    LinkAt(ps, head, q, k);
    forall q' ensures !Links(SetLink(ps, p, head), Some(p), q') {
      NoListOnCycle(ps, head, q, q');
    }
  }

  /** The last page of any list passes the check when its count is zero: for instance the only page of a list of one. */
  lemma TailPasses(ps: seq<PageInfo>, head: Option<nat>, q: seq<nat>, p: nat)
    requires Links(ps, head, q) && NoDuplicates(q) && q != [] && q[|q| - 1] == p < |ps| && ps[p].ref == 0
    ensures !FreePanics(ps, p)
    ensures forall q' :: !Links(SetLink(ps, p, head), Some(p), q')
  {
    LinkAt(ps, head, q, |q| - 1);
    TailUnseen(ps, head, q, p);
  }

  /** One free page, freed again: it links to itself. */
  lemma FreedTwice()
    ensures var ps := [PageInfo(None, 0)];
      && Links(ps, Some(0), [0]) && !FreePanics(ps, 0)
      && SetLink(ps, 0, Some(0)) == [PageInfo(Some(0), 0)]
      && forall q :: !Links(SetLink(ps, 0, Some(0)), Some(0), q)
  {
    TailPasses([PageInfo(None, 0)], Some(0), [0], 0);
  }

  /** On the cycle every page has a successor, so no list ends. */
  lemma NoListOnCycle(ps: seq<PageInfo>, head: Option<nat>, q: seq<nat>, q': seq<nat>)
    requires Links(ps, head, q) && NoDuplicates(q) && q != [] && q[|q| - 1] < |ps|
    ensures !Links(SetLink(ps, q[|q| - 1], head), Some(q[|q| - 1]), q')
  {
    var tail := q[|q| - 1];
    var ps' := SetLink(ps, tail, head);
    if Links(ps', Some(tail), q') {
      var k := |q'| - 1;
      StaysOn(ps, head, q, q', k);
      LinkAt(ps', Some(tail), q', k);
      var j :| 0 <= j < |q| && q[j] == q'[k];
      LinkAt(ps, head, q, j);
    }
  }

  lemma {:induction false} StaysOn(ps: seq<PageInfo>, head: Option<nat>, q: seq<nat>, q': seq<nat>, k: nat)
    requires Links(ps, head, q) && NoDuplicates(q) && q != [] && q[|q| - 1] < |ps|
    requires Links(SetLink(ps, q[|q| - 1], head), Some(q[|q| - 1]), q')
    requires k < |q'|
    ensures q'[k] in q
  {
    var ps' := SetLink(ps, q[|q| - 1], head);
    if k > 0 {
      StaysOn(ps, head, q, q', k - 1);
      LinkAt(ps', Some(q[|q| - 1]), q', k - 1);
      var j :| 0 <= j < |q| && q[j] == q'[k - 1];
      LinkAt(ps, head, q, j);
    }
  }

  // ----- the partition in check_page_free_list -----

  /** The pages of `q` whose directory index is at or above `limit`, or below it, in order. */
  function OfType(q: seq<nat>, limit: nat, high: bool): (r: seq<nat>)
    ensures forall p :: p in r <==> p in q && (Pdx(p) >= limit <==> high)
    ensures |r| <= |q|
  {
    if q == [] then []
    else
      var last := q[|q| - 1];
      var before := OfType(q[..|q| - 1], limit, high);
      if Pdx(last) >= limit <==> high then before + [last] else before
  }

  lemma {:induction false} OfTypeDistinct(q: seq<nat>, limit: nat, high: bool)
    requires NoDuplicates(q)
    ensures NoDuplicates(OfType(q, limit, high))
  {
    if q != [] {
      OfTypeDistinct(q[..|q| - 1], limit, high);
    }
  }

  /** The order within a class is the order on the list. */
  lemma {:induction false} OfTypeOrdered(q: seq<nat>, limit: nat, high: bool, a: nat, b: nat)
    requires a < b < |OfType(q, limit, high)|
    ensures exists i, j :: 0 <= i < j < |q| && q[i] == OfType(q, limit, high)[a] && q[j] == OfType(q, limit, high)[b]
  {
    var n := |q| - 1;
    var before := OfType(q[..n], limit, high);
    if b < |before| {
      OfTypeOrdered(q[..n], limit, high, a, b);
      var i, j :| 0 <= i < j < n && q[..n][i] == before[a] && q[..n][j] == before[b];
      assert q[i] == before[a] && q[j] == before[b];
    } else {
      assert before[a] in q[..n];
      var i :| 0 <= i < n && q[..n][i] == before[a];
      assert q[i] == before[a] && q[n] == OfType(q, limit, high)[b];
    }
  }

  /** The partition keeps every page, once. */
  lemma {:induction false} PartitionKeeps(q: seq<nat>, limit: nat)
    ensures multiset(OfType(q, limit, false) + OfType(q, limit, true)) == multiset(q)
  {
    if q != [] {
      var n := |q| - 1;
      assert q == q[..n] + [q[n]];
      PartitionKeeps(q[..n], limit);
    }
  }

  /** A list under construction: linked from `head` to `tail`, whose own link is still to be written. */
  predicate OpenLinks(ps: seq<PageInfo>, head: Option<nat>, tail: Option<nat>, q: seq<nat>) {
    && (q == [] ==> tail == None)
    && (q != [] ==> head == Some(q[0]) && tail == Some(q[|q| - 1]))
    && forall k {:trigger Next(q, k)} :: 0 <= k < |q| ==> q[k] < |ps| && (k + 1 < |q| ==> ps[q[k]].link == Next(q, k))
  }

  lemma OpenAt(ps: seq<PageInfo>, head: Option<nat>, tail: Option<nat>, q: seq<nat>, k: nat)
    requires OpenLinks(ps, head, tail, q) && k < |q|
    ensures q[k] < |ps| && (k + 1 < |q| ==> ps[q[k]].link == Next(q, k))
  {
    assert Next(q, k) == Next(q, k);
  }

  lemma OpenElsewhere(ps: seq<PageInfo>, head: Option<nat>, tail: Option<nat>, q: seq<nat>, p: nat, link: Option<nat>)
    requires OpenLinks(ps, head, tail, q) && p < |ps| && p !in q
    ensures OpenLinks(SetLink(ps, p, link), head, tail, q)
  {
    forall k | 0 <= k < |q| ensures q[k] < |ps| && (k + 1 < |q| ==> SetLink(ps, p, link)[q[k]].link == Next(q, k)) {
      OpenAt(ps, head, tail, q, k);
    }
  }

  /** Appending: the last page's link, or the head if there is none yet, is pointed at `p`. */
  lemma OpenAppend(ps: seq<PageInfo>, head: Option<nat>, tail: Option<nat>, q: seq<nat>, p: nat)
    requires OpenLinks(ps, head, tail, q) && NoDuplicates(q) && p < |ps| && p !in q
    ensures tail.None? ==> OpenLinks(ps, Some(p), Some(p), q + [p])
    ensures tail.Some? ==> tail.value < |ps| && OpenLinks(SetLink(ps, tail.value, Some(p)), head, Some(p), q + [p])
  {
    var longer := q + [p];
    if tail.Some? {
      OpenAt(ps, head, tail, q, |q| - 1);
      var ps' := SetLink(ps, tail.value, Some(p));
      forall k | 0 <= k < |longer|
        ensures longer[k] < |ps| && (k + 1 < |longer| ==> ps'[longer[k]].link == Next(longer, k))
      {
        if k < |q| { OpenAt(ps, head, tail, q, k); }
      }
    }
  }

  /** Closing: the last link is NULL. */
  lemma OpenClose(ps: seq<PageInfo>, head: Option<nat>, tail: Option<nat>, q: seq<nat>)
    requires OpenLinks(ps, head, tail, q) && NoDuplicates(q)
    ensures tail.None? ==> Links(ps, None, q)
    ensures tail.Some? ==> tail.value < |ps| && Links(SetLink(ps, tail.value, None), head, q)
  {
    if tail.Some? {
      OpenAt(ps, head, tail, q, |q| - 1);
      var ps' := SetLink(ps, tail.value, None);
      forall k | 0 <= k < |q| ensures q[k] < |ps| && ps'[q[k]].link == Next(q, k) {
        OpenAt(ps, head, tail, q, k);
      }
    }
  }

  /** Joining: the last link of the open list is pointed at the head of the closed one. */
  lemma OpenJoin(ps: seq<PageInfo>, head: Option<nat>, tail: Option<nat>, q: seq<nat>, head2: Option<nat>, q2: seq<nat>)
    requires OpenLinks(ps, head, tail, q) && NoDuplicates(q) && Links(ps, head2, q2)
    requires forall p :: p in q ==> p !in q2
    ensures tail.None? ==> Links(ps, head2, q + q2)
    ensures tail.Some? ==> tail.value < |ps| && Links(SetLink(ps, tail.value, head2), head, q + q2)
  {
    if tail.Some? {
      OpenAt(ps, head, tail, q, |q| - 1);
      var ps' := SetLink(ps, tail.value, head2);
      var all := q + q2;
      forall k | 0 <= k < |all| ensures all[k] < |ps| && ps'[all[k]].link == Next(all, k) {
        if k < |q| {
          OpenAt(ps, head, tail, q, k);
        } else {
          LinkAt(ps, head2, q2, k - |q|);
          assert tail.value in q && all[k] in q2;
          assert Next(all, k) == Next(q2, k - |q|);
        }
      }
    } else {
      assert q + q2 == q2;
    }
  }

  /** `*tail = link` where `tail` points at the last page's link field or, if None, at a local head. */
  function Through(ps: seq<PageInfo>, tail: Option<nat>, link: Option<nat>): seq<PageInfo>
    requires tail.Some? ==> tail.value < |ps|
  {
    if tail.None? then ps else SetLink(ps, tail.value, link)
  }

  lemma ThroughRefs(ps: seq<PageInfo>, tail: Option<nat>, link: Option<nat>)
    requires tail.Some? ==> tail.value < |ps|
    ensures |Through(ps, tail, link)| == |ps| && Refs(Through(ps, tail, link)) == Refs(ps)
  {
  }

  lemma ThroughOffList(ps: seq<PageInfo>, q: seq<nat>, tail: Option<nat>, link: Option<nat>)
    requires OffList(ps, q) && (tail.Some? ==> tail.value < |ps| && tail.value in q)
    ensures OffList(Through(ps, tail, link), q) && Refs(Through(ps, tail, link)) == Refs(ps)
  {
  }

  function Local(head: Option<nat>, tail: Option<nat>, link: Option<nat>): Option<nat> {
    if tail.None? then link else head
  }

  /** From position `i` on the pages of `q` are linked as on the original list. */
  predicate LinksFrom(ps: seq<PageInfo>, q: seq<nat>, i: nat) {
    forall k {:trigger Next(q, k)} :: i <= k < |q| ==> q[k] < |ps| && ps[q[k]].link == Next(q, k)
  }

  lemma LinksFromAt(ps: seq<PageInfo>, q: seq<nat>, i: nat, k: nat)
    requires LinksFrom(ps, q, i) && i <= k < |q|
    ensures q[k] < |ps| && ps[q[k]].link == Next(q, k)
  {
    assert Next(q, k) == Next(q, k);
  }

  /** Before page q[i] is looked at: what follows is still linked as it was, and the pages passed are
      on the two open lists. */
  predicate Splitting(ps: seq<PageInfo>, q: seq<nat>, limit: nat, i: nat,
                      head0: Option<nat>, tail0: Option<nat>, head1: Option<nat>, tail1: Option<nat>)
  {
    && i <= |q|
    && LinksFrom(ps, q, i)
    && OpenLinks(ps, head0, tail0, OfType(q[..i], limit, false))
    && OpenLinks(ps, head1, tail1, OfType(q[..i], limit, true))
    && (tail0.Some? ==> tail0.value < |ps| && tail0.value in q[..i])
    && (tail1.Some? ==> tail1.value < |ps| && tail1.value in q[..i])
  }

  lemma SplitStart(ps: seq<PageInfo>, head: Option<nat>, q: seq<nat>, limit: nat, head0: Option<nat>, head1: Option<nat>)
    requires Links(ps, head, q)
    ensures Splitting(ps, q, limit, 0, head0, None, head1, None)
  {
    assert q[..0] == [];
    forall k | 0 <= k < |q| ensures q[k] < |ps| && ps[q[k]].link == Next(q, k) {
      LinkAt(ps, head, q, k);
    }
  }

  lemma LinksAhead(ps: seq<PageInfo>, q: seq<nat>, i: nat, p: nat, link: Option<nat>)
    requires NoDuplicates(q) && i < |q| && p < |ps| && p in q[..i] && LinksFrom(ps, q, i)
    ensures LinksFrom(SetLink(ps, p, link), q, i)
  {
    var j :| 0 <= j < i && q[j] == p;
    forall k | i <= k < |q| ensures q[k] < |ps| && SetLink(ps, p, link)[q[k]].link == Next(q, k) {
      LinksFromAt(ps, q, i, k);
      assert q[k] != q[j];
    }
  }

  lemma LinksFromLater(ps: seq<PageInfo>, q: seq<nat>, i: nat)
    requires LinksFrom(ps, q, i) && i < |q|
    ensures LinksFrom(ps, q, i + 1)
  {
    forall k | i + 1 <= k < |q| ensures q[k] < |ps| && ps[q[k]].link == Next(q, k) {
      LinksFromAt(ps, q, i, k);
    }
  }

  lemma OfTypeStep(q: seq<nat>, i: nat, limit: nat)
    requires i < |q|
    ensures var low, high := OfType(q[..i], limit, false), OfType(q[..i], limit, true);
      && OfType(q[..i + 1], limit, false) == (if Pdx(q[i]) >= limit then low else low + [q[i]])
      && OfType(q[..i + 1], limit, true) == (if Pdx(q[i]) >= limit then high + [q[i]] else high)
  {
    assert q[..i + 1][..i] == q[..i] && q[..i + 1][i] == q[i];
  }

  lemma TailOn(ps: seq<PageInfo>, head: Option<nat>, tail: Option<nat>, q: seq<nat>)
    requires OpenLinks(ps, head, tail, q)
    ensures tail.Some? ==> tail.value in q
  {
  }

  lemma PrefixGrows(q: seq<nat>, i: nat)
    requires NoDuplicates(q) && i < |q|
    ensures NoDuplicates(q[..i]) && q[i] !in q[..i] && q[i] in q[..i + 1] && forall x :: x in q[..i] ==> x in q[..i + 1]
  {
    assert q[..i + 1][i] == q[i];
  }

  lemma SplitStep(ps: seq<PageInfo>, q: seq<nat>, limit: nat, i: nat,
                  head0: Option<nat>, tail0: Option<nat>, head1: Option<nat>, tail1: Option<nat>)
    requires Splitting(ps, q, limit, i, head0, tail0, head1, tail1) && NoDuplicates(q) && i < |q|
    ensures q[i] < |ps|
    ensures var p := Some(q[i]);
      if Pdx(q[i]) >= limit then
        && Splitting(Through(ps, tail1, p), q, limit, i + 1, head0, tail0, Local(head1, tail1, p), p)
        && Through(ps, tail1, p)[q[i]].link == Next(q, i)
      else
        && Splitting(Through(ps, tail0, p), q, limit, i + 1, Local(head0, tail0, p), p, head1, tail1)
        && Through(ps, tail0, p)[q[i]].link == Next(q, i)
  {
    hide OfType, OpenLinks, LinksFrom, NoDuplicates, Next, SetLink;
    var low, high := OfType(q[..i], limit, false), OfType(q[..i], limit, true);
    var p := q[i];
    PrefixGrows(q, i);
    TailOn(ps, head0, tail0, low);
    TailOn(ps, head1, tail1, high);
    LinksFromAt(ps, q, i, i);
    OfTypeDistinct(q[..i], limit, false);
    OfTypeDistinct(q[..i], limit, true);
    OfTypeStep(q, i, limit);
    if Pdx(p) >= limit {
      OpenAppend(ps, head1, tail1, high, p);
      if tail1.Some? {
        OpenElsewhere(ps, head0, tail0, low, tail1.value, Some(p));
        LinksAhead(ps, q, i, tail1.value, Some(p));
        LinksFromAt(Through(ps, tail1, Some(p)), q, i, i);
      }
      LinksFromLater(Through(ps, tail1, Some(p)), q, i);
    } else {
      OpenAppend(ps, head0, tail0, low, p);
      if tail0.Some? {
        OpenElsewhere(ps, head1, tail1, high, tail0.value, Some(p));
        LinksAhead(ps, q, i, tail0.value, Some(p));
        LinksFromAt(Through(ps, tail0, Some(p)), q, i, i);
      }
      LinksFromLater(Through(ps, tail0, Some(p)), q, i);
    }
  }

  lemma DistinctTogether(q: seq<nat>, r: seq<nat>)
    requires NoDuplicates(q) && NoDuplicates(r) && forall p :: p in q ==> p !in r
    ensures NoDuplicates(q + r)
  {
    forall i, j | 0 <= i < j < |q + r| ensures (q + r)[i] != (q + r)[j] {
      if i < |q| <= j {
        assert (q + r)[i] in q && (q + r)[j] in r;
      }
    }
  }

  /** `*tp[1] = 0; *tp[0] = pp2;` joins the two lists. */
  lemma SplitEnd(ps: seq<PageInfo>, q: seq<nat>, limit: nat,
                 head0: Option<nat>, tail0: Option<nat>, head1: Option<nat>, tail1: Option<nat>)
    requires Splitting(ps, q, limit, |q|, head0, tail0, head1, tail1) && NoDuplicates(q)
    ensures var ps1 := Through(ps, tail1, None); var h1 := Local(head1, tail1, None);
      var r := OfType(q, limit, false) + OfType(q, limit, true);
      Links(Through(ps1, tail0, h1), Local(head0, tail0, h1), r) && NoDuplicates(r)
    ensures OffList(ps, q) ==> OffList(Through(Through(ps, tail1, None), tail0, Local(head1, tail1, None)),
                                       OfType(q, limit, false) + OfType(q, limit, true))
  {
    var low, high := OfType(q, limit, false), OfType(q, limit, true);
    assert q[..|q|] == q;
    OfTypeDistinct(q, limit, false);
    OfTypeDistinct(q, limit, true);
    DistinctTogether(low, high);
    if OffList(ps, q) {
      ThroughOffList(ps, q, tail1, None);
      ThroughOffList(Through(ps, tail1, None), q, tail0, Local(head1, tail1, None));
    }
    hide OfType;
    OpenClose(ps, head1, tail1, high);
    if tail1.Some? {
      OpenElsewhere(ps, head0, tail0, low, tail1.value, None);
    }
    OpenJoin(Through(ps, tail1, None), head0, tail0, low, Local(head1, tail1, None), high);
  }
}
