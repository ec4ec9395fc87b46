/** Copy-on-write fork over whole runs: what environments read, what a child starts with, and what duppage's
    two calls guarantee when faults fall between them. */
module CowRuns {
  import opened Mmu
  import opened Options
  import opened CowMemory
  import opened CowInvariant
  import opened CowRefinement

  ghost predicate Run(ss: seq<Users>, ops: seq<Op>) {
    && |ss| == |ops| + 1
    && forall k :: 0 <= k < |ops| ==> Enabled(ss[k], ops[k]) && ss[k + 1] == Apply(ss[k], ops[k])
  }

  /** The copying machine's run beside it. */
  ghost function Replay(ss: seq<Users>, ops: seq<Op>, m: Model): Model
    requires Run(ss, ops)
  {
    if ops == [] then m
    else
      var n := |ops| - 1;
      assert Run(ss[..n + 1], ops[..n]) by { Prefix(ss, ops); }
      Perform(Replay(ss[..n + 1], ops[..n], m), Meaning(ss[n], ops[n]))
  }

  lemma Prefix(ss: seq<Users>, ops: seq<Op>)
    requires Run(ss, ops) && ops != []
    ensures var n := |ops| - 1; Run(ss[..n + 1], ops[..n]) && ss[..n + 1][n] == ss[n]
  {
  }

  /** What environment `e` reads in page `pn`, and what the copying machine has there. */
  function Reads(s: Users, e: nat, pn: nat): Option<Page> {
    if Slot(e, pn) in s.pt then Some(Content(s, s.pt[Slot(e, pn)].frame)) else None
  }

  function ModelReads(m: Model, e: nat, pn: nat): Option<Page> {
    match Look(m, Slot(e, pn))
    case None => None
    case Some(Private(content, _)) => Some(content)
    case Some(Shared(o)) => Some(Object(m, o))
  }

  /** Copy-on-write fork refines copying fork: over every run, every running environment reads in every page
      what the machine that copies all pages has there. */
  lemma {:induction false} RunRefines(ss: seq<Users>, ops: seq<Op>, m: Model)
    requires Run(ss, ops) && Inv(ss[0]) && Agree(ss[0], m)
    ensures var s, m' := ss[|ops|], Replay(ss, ops, m);
      && Inv(s) && Agree(s, m')
      && (forall e, pn: nat :: Runs(s, e) && pn != TEMP ==> Reads(s, e, pn) == ModelReads(m', e, pn))
  {
    if ops != [] {
      var n := |ops| - 1;
      Prefix(ss, ops);
      RunRefines(ss[..n + 1], ops[..n], m);
      hide Inv, Agree;
      StepKeeps(ss[n], ops[n]);
      StepRefines(ss[n], Replay(ss[..n + 1], ops[..n], m), ops[n]);
    }
    ReadsAgree(ss[|ops|], Replay(ss, ops, m));
  }

  lemma ReadsAgree(s: Users, m: Model)
    requires Agree(s, m)
    ensures forall e, pn: nat :: Runs(s, e) && pn != TEMP ==> Reads(s, e, pn) == ModelReads(m, e, pn)
  {
    forall e: nat, pn: nat | Runs(s, e) && pn != TEMP ensures Reads(s, e, pn) == ModelReads(m, e, pn) {
      assert Look(m, Slot(e, pn)) == ViewOf(s, Slot(e, pn));
    }
  }

  /** Every state has a copying counterpart. */
  function ModelOf(s: Users): Model {
    Model(map k | k in s.pt && ViewOf(s, k).Some? :: ViewOf(s, k).value, s.mem)
  }

  lemma ModelOfAgrees(s: Users)
    ensures Agree(s, ModelOf(s))
  {
  }

  // ----- what a child starts with -----

  /** Environment `e` is inside a fork of `c`. */
  predicate ForkOf(s: Users, e: nat, c: nat) {
    Runs(s, e) && ChildOf(s, e, c)
  }

  /** The child has its page `pn`, or needs no page. */
  predicate Settled(fork: Fork, pn: nat) {
    pn < fork.next || (pn == fork.next && fork.half.Some? && !fork.half.value)
  }

  /** An operation inside the fork. */
  predicate Within(op: Op, e: nat) {
    op != Exit(e) && op != EndFork(e)
  }

  /** An operation inside the fork that leaves the parent's page `pn` to the handler and to duppage. */
  predicate Calm(op: Op, e: nat, pn: nat) {
    Within(op, e) && !(op.Write? && op.e == e && op.pn == pn)
  }

  /** The parent sees `v` in page `pn`, and so will the child once it has the page. */
  predicate Inheriting(s: Users, e: nat, c: nat, pn: nat, v: Option<View>) {
    && ForkOf(s, e, c)
    && ViewOf(s, Slot(e, pn)) == v
    && ViewOf(s, Slot(c, pn)) == if Settled(s.ctl[e].fork.value, pn) then v else None
  }

  /** The model step does not change page `k`. */
  predicate Leaves(act: Act, k: Slot) {
    match act
    case Nothing => true
    case Store(k', _, _) => k' != k
    case CopyPage(_, to) => to != k
    case ZeroPage(k') => k' != k
    case Discard(es) => k.env !in es
  }

  lemma LeavesLook(m: Model, act: Act, k: Slot)
    requires Leaves(act, k)
    ensures Look(Perform(m, act), k) == Look(m, k)
  {
  }

  /** Steps of other environments neither reach the forking parent nor its child. */
  lemma StrangerStep(s: Users, op: Op, e: nat, c: nat, pn: nat)
    requires Enabled(s, op) && ForkOf(s, e, c) && op.e != e
    requires Standing(s, op.e) && Standing(s, e) && Standing(s, c)
    ensures ForkOf(Apply(s, op), e, c) && Apply(s, op).ctl[e].fork == s.ctl[e].fork
    ensures Leaves(Meaning(s, op), Slot(e, pn)) && Leaves(Meaning(s, op), Slot(c, pn))
  {
    hide FaultState, HalfState, Has, Owned, Fresh;
  }

  /** The parent's own steps move its fork along, one page at a time. */
  lemma OwnStep(s: Users, op: Op, e: nat, c: nat, pn: nat)
    requires Enabled(s, op) && ForkOf(s, e, c) && op.e == e && Within(op, e) && pn < STACK_PAGES
    requires Standing(s, e) && Standing(s, c)
    ensures ForkOf(Apply(s, op), e, c)
    ensures Calm(op, e, pn) ==> Leaves(Meaning(s, op), Slot(e, pn))
    ensures var fork, fork' := s.ctl[e].fork.value, Apply(s, op).ctl[e].fork.value;
      if Settled(fork, pn) == Settled(fork', pn) then Leaves(Meaning(s, op), Slot(c, pn))
      else Settled(fork', pn) && Meaning(s, op) == CopyPage(Slot(e, pn), Slot(c, pn))
  {
    hide FaultState, HalfState, Fresh;
  }

  lemma ForkStanding(s: Users, e: nat, c: nat)
    requires Inv(s) && ForkOf(s, e, c)
    ensures e in s.ctl && s.ctl[e].fork.Some? && Standing(s, e) && c in s.ctl && Standing(s, c)
  {
    InvParts(s, e);
    InvParts(s, c);
  }

  lemma OpStanding(s: Users, op: Op)
    requires Inv(s) && Enabled(s, op)
    ensures op.e in s.ctl && Standing(s, op.e)
  {
  }

  lemma CalmStep(s: Users, op: Op, e: nat, c: nat, pn: nat, v: Option<View>)
    requires Inv(s) && Enabled(s, op) && Inheriting(s, e, c, pn, v) && Calm(op, e, pn) && pn < STACK_PAGES
    ensures Inheriting(Apply(s, op), e, c, pn, v)
  {
    var m, s' := ModelOf(s), Apply(s, op);
    var act := Meaning(s, op);
    hide Inv, Agree, Standing, Apply, Meaning, ViewOf, Perform, Leaves, Enabled, Look, ModelOf, ForkOf;
    ForkStanding(s, e, c);
    OpStanding(s, op);
    ModelOfAgrees(s);
    StepRefines(s, m, op);
    BothViews(s, s', m, Perform(m, act), Slot(e, pn));
    BothViews(s, s', m, Perform(m, act), Slot(c, pn));
    if op.e == e { OwnStep(s, op, e, c, pn); } else { StrangerStep(s, op, e, c, pn); }
    LeavesLook(m, act, Slot(e, pn));
    if Leaves(act, Slot(c, pn)) { LeavesLook(m, act, Slot(c, pn)); }
    CopyLook(m, Slot(e, pn), Slot(c, pn));
  }

  lemma CopyLook(m: Model, from: Slot, to: Slot)
    ensures Look(Perform(m, CopyPage(from, to)), to) == if Look(m, from).Some? then Look(m, from) else Look(m, to)
  {
  }

  lemma BothViews(s: Users, s': Users, m: Model, m': Model, k: Slot)
    requires Agree(s, m) && Agree(s', m')
    ensures Look(m, k) == ViewOf(s, k) && Look(m', k) == ViewOf(s', k)
  {
  }

  lemma {:induction false} CalmRun(ss: seq<Users>, ops: seq<Op>, e: nat, c: nat, pn: nat, v: Option<View>)
    requires Run(ss, ops) && Inv(ss[0]) && Inheriting(ss[0], e, c, pn, v) && pn < STACK_PAGES
    requires forall k :: 0 <= k < |ops| ==> Calm(ops[k], e, pn)
    ensures Inv(ss[|ops|]) && Inheriting(ss[|ops|], e, c, pn, v)
  {
    hide Inv, Inheriting, Calm;
    if ops != [] {
      var n := |ops| - 1;
      Prefix(ss, ops);
      CalmRun(ss[..n + 1], ops[..n], e, c, pn, v);
      StepKeeps(ss[n], ops[n]);
      CalmStep(ss[n], ops[n], e, c, pn, v);
    }
  }

  lemma StartInherits(s: Users, e: nat, c: nat, pn: nat)
    requires Inv(s) && Enabled(s, StartFork(e, c))
    ensures Inheriting(Apply(s, StartFork(e, c)), e, c, pn, ViewOf(s, Slot(e, pn)))
  {
    var op := StartFork(e, c);
    assert Standing(s, e) && Mapping(s);
    assert Slot(c, pn) !in s.pt;
    hide Inv, Standing, Mapping;
    assert ForkOf(Apply(s, op), e, c) && ViewOf(s, Slot(c, pn)) == None;
    assert !Settled(Apply(s, op).ctl[e].fork.value, pn);
    ForkEndsViews(s, op, Slot(e, pn));
    ForkEndsViews(s, op, Slot(c, pn));
  }

  lemma ForkEndsViews(s: Users, op: Op, k: Slot)
    requires Mapping(s) && (op.StartFork? || op.EndFork?) && Enabled(s, op) && Standing(s, op.e)
    ensures ViewOf(Apply(s, op), k) == ViewOf(s, k)
  {
    hide *;
    ForkEndsSteady(s, op, k);
    SteadyView(s, Apply(s, op), k);
  }

  /** Whatever anyone does while a fork is under way, faults and writes of the parent included: in every page that
      the parent itself does not write to, the child starts with what the parent had, and the parent has it still. */
  lemma ForkCopies(ss: seq<Users>, ops: seq<Op>, e: nat, c: nat, pn: nat)
    requires Run(ss, ops) && Inv(ss[0]) && |ops| >= 2 && pn < STACK_PAGES
    requires ops[0] == StartFork(e, c) && ops[|ops| - 1] == EndFork(e)
    requires forall k :: 0 < k < |ops| - 1 ==> Calm(ops[k], e, pn)
    ensures var s := ss[|ops|];
      && Runs(s, c)
      && ViewOf(s, Slot(c, pn)) == ViewOf(ss[0], Slot(e, pn))
      && ViewOf(s, Slot(e, pn)) == ViewOf(ss[0], Slot(e, pn))
  {
    var n := |ops| - 1;
    var v := ViewOf(ss[0], Slot(e, pn));
    hide Inv, ViewOf, Apply, Enabled, Inheriting, Runs;
    InnerRun(ss, ops);
    StepKeeps(ss[0], ops[0]);
    StartInherits(ss[0], e, c, pn);
    assert ss[1..n + 1][n - 1] == ss[n];
    CalmRun(ss[1..n + 1], ops[1..n], e, c, pn, v);
    EndInherits(ss[n], e, c, pn, v);
  }

  lemma EndInherits(s: Users, e: nat, c: nat, pn: nat, v: Option<View>)
    requires Inv(s) && Enabled(s, EndFork(e)) && Inheriting(s, e, c, pn, v) && pn < STACK_PAGES
    ensures var s' := Apply(s, EndFork(e)); Runs(s', c) && ViewOf(s', Slot(c, pn)) == ViewOf(s', Slot(e, pn)) == v
  {
    assert Standing(s, e) && Mapping(s);
    ForkEndsViews(s, EndFork(e), Slot(e, pn));
    ForkEndsViews(s, EndFork(e), Slot(c, pn));
  }

  // ----- pages that the parent writes meanwhile -----

  /** Step `k` is the one that gives the child its page `pn`. */
  predicate Settles(ss: seq<Users>, ops: seq<Op>, k: nat, e: nat, pn: nat) {
    && k < |ops| && |ss| == |ops| + 1 && ops[k].e == e
    && e in ss[k].ctl && ss[k].ctl[e].fork.Some? && !Settled(ss[k].ctl[e].fork.value, pn)
    && e in ss[k + 1].ctl && ss[k + 1].ctl[e].fork.Some? && Settled(ss[k + 1].ctl[e].fork.value, pn)
  }

  /** The child sees what the parent saw at the step that settled the page, or nothing before that step. */
  ghost predicate Handed(ss: seq<Users>, ops: seq<Op>, e: nat, c: nat, pn: nat)
    requires |ss| == |ops| + 1
  {
    var s := ss[|ops|];
    && ForkOf(s, e, c)
    && if Settled(s.ctl[e].fork.value, pn)
       then exists k: nat :: Settles(ss, ops, k, e, pn) && ViewOf(s, Slot(c, pn)) == ViewOf(ss[k], Slot(e, pn))
       else ViewOf(s, Slot(c, pn)) == None
  }

  /** One step: it leaves the child's view, or settles the page with what the parent sees right then. */
  lemma HandStep(s: Users, op: Op, e: nat, c: nat, pn: nat)
    requires Inv(s) && Enabled(s, op) && ForkOf(s, e, c) && Within(op, e) && pn < STACK_PAGES
    requires !Settled(s.ctl[e].fork.value, pn) ==> ViewOf(s, Slot(c, pn)) == None
    ensures var s' := Apply(s, op);
      && ForkOf(s', e, c)
      && var was, now := Settled(s.ctl[e].fork.value, pn), Settled(s'.ctl[e].fork.value, pn);
         if was == now then ViewOf(s', Slot(c, pn)) == ViewOf(s, Slot(c, pn))
         else now && op.e == e && ViewOf(s', Slot(c, pn)) == ViewOf(s, Slot(e, pn))
  {
    var m, s' := ModelOf(s), Apply(s, op);
    var act := Meaning(s, op);
    hide Inv, Agree, Standing, Apply, Meaning, ViewOf, Perform, Leaves, Enabled, Look, ModelOf, ForkOf;
    ForkStanding(s, e, c);
    OpStanding(s, op);
    ModelOfAgrees(s);
    StepRefines(s, m, op);
    BothViews(s, s', m, Perform(m, act), Slot(e, pn));
    BothViews(s, s', m, Perform(m, act), Slot(c, pn));
    if op.e == e { OwnStep(s, op, e, c, pn); } else { StrangerStep(s, op, e, c, pn); }
    if Leaves(act, Slot(c, pn)) { LeavesLook(m, act, Slot(c, pn)); }
    CopyLook(m, Slot(e, pn), Slot(c, pn));
  }

  lemma SettledBefore(ss: seq<Users>, ops: seq<Op>, k: nat, e: nat, pn: nat)
    requires |ss| == |ops| + 1 && ops != []
    ensures var n := |ops| - 1; Settles(ss[..n + 1], ops[..n], k, e, pn) ==> Settles(ss, ops, k, e, pn) && ss[..n + 1][k] == ss[k]
  {
  }

  lemma {:induction false} HandRun(ss: seq<Users>, ops: seq<Op>, e: nat, c: nat, pn: nat)
    requires Run(ss, ops) && Inv(ss[0]) && Handed(ss[..1], [], e, c, pn) && pn < STACK_PAGES
    requires forall k :: 0 <= k < |ops| ==> Within(ops[k], e)
    ensures Inv(ss[|ops|]) && Handed(ss, ops, e, c, pn)
  {
    if ops == [] {
      assert ss[..1] == ss;
    } else {
      var n := |ops| - 1;
      hide Inv, Enabled, Apply, ViewOf;
      Prefix(ss, ops);
      assert ss[..n + 1][..1] == ss[..1];
      HandRun(ss[..n + 1], ops[..n], e, c, pn);
      StepKeeps(ss[n], ops[n]);
      HandStep(ss[n], ops[n], e, c, pn);
      HandMore(ss, ops, e, c, pn);
    }
  }

  lemma HandMore(ss: seq<Users>, ops: seq<Op>, e: nat, c: nat, pn: nat)
    requires |ss| == |ops| + 1 && ops != []
    requires Handed(ss[..|ops|], ops[..|ops| - 1], e, c, pn)
    requires ForkOf(ss[|ops|], e, c) && ForkOf(ss[|ops| - 1], e, c)
    requires var n := |ops| - 1;
      var was, now := Settled(ss[n].ctl[e].fork.value, pn), Settled(ss[n + 1].ctl[e].fork.value, pn);
      if was == now then ViewOf(ss[n + 1], Slot(c, pn)) == ViewOf(ss[n], Slot(c, pn))
      else now && ops[n].e == e && ViewOf(ss[n + 1], Slot(c, pn)) == ViewOf(ss[n], Slot(e, pn))
    ensures Handed(ss, ops, e, c, pn)
  {
    hide ViewOf, Settled;
    var n := |ops| - 1;
    assert ss[..n + 1][n] == ss[n];
    if Settled(ss[n + 1].ctl[e].fork.value, pn) {
      if Settled(ss[n].ctl[e].fork.value, pn) {
        var k: nat :| Settles(ss[..n + 1], ops[..n], k, e, pn) && ViewOf(ss[n], Slot(c, pn)) == ViewOf(ss[..n + 1][k], Slot(e, pn));
        SettledBefore(ss, ops, k, e, pn);
      } else {
        assert Settles(ss, ops, n, e, pn);
      }
    }
  }

  /** In every page, written by the parent meanwhile or not, the child of a finished fork starts with what the parent saw at
      the one step that settled the page: duppage's second call if the page was writable at the first, else the first. */
  lemma ForkCopiesAt(ss: seq<Users>, ops: seq<Op>, e: nat, c: nat, pn: nat)
    requires Run(ss, ops) && Inv(ss[0]) && |ops| >= 2 && pn < STACK_PAGES
    requires ops[0] == StartFork(e, c) && ops[|ops| - 1] == EndFork(e)
    requires forall k :: 0 < k < |ops| - 1 ==> Within(ops[k], e)
    ensures Runs(ss[|ops|], c)
    ensures exists k: nat :: Settles(ss, ops, k, e, pn) && ViewOf(ss[|ops|], Slot(c, pn)) == ViewOf(ss[k], Slot(e, pn))
  {
    var n := |ops| - 1;
    hide Inv, ViewOf, Apply, Enabled, Settled, ForkOf, Runs;
    StepKeeps(ss[0], ops[0]);
    HandStarts(ss[0], e, c, pn);
    assert ss[1] == Apply(ss[0], ops[0]);
    InnerRun(ss, ops);
    assert ss[1..n + 1][..1] == [ss[1]];
    HandRun(ss[1..n + 1], ops[1..n], e, c, pn);
    assert ss[1..n + 1][n - 1] == ss[n];
    HandedAt(ss, ops, e, c, pn);
    EndHands(ss[n], e, c, pn);
  }

  lemma InnerRun(ss: seq<Users>, ops: seq<Op>)
    requires Run(ss, ops) && |ops| >= 2
    ensures Run(ss[1..|ops|], ops[1..|ops| - 1]) && Enabled(ss[0], ops[0]) && ss[1] == Apply(ss[0], ops[0])
    ensures var n := |ops| - 1; Enabled(ss[n], ops[n]) && ss[n + 1] == Apply(ss[n], ops[n])
  {
    hide Enabled, Apply;
  }

  lemma HandStarts(s: Users, e: nat, c: nat, pn: nat)
    requires Inv(s) && Enabled(s, StartFork(e, c))
    ensures Handed([Apply(s, StartFork(e, c))], [], e, c, pn)
  {
    StartInherits(s, e, c, pn);
    assert !Settled(Apply(s, StartFork(e, c)).ctl[e].fork.value, pn);
  }

  /** What was handed over inside the fork, in terms of the whole run. */
  lemma HandedAt(ss: seq<Users>, ops: seq<Op>, e: nat, c: nat, pn: nat)
    requires |ss| == |ops| + 1 && |ops| >= 2 && Handed(ss[1..|ops|], ops[1..|ops| - 1], e, c, pn)
    ensures ForkOf(ss[|ops| - 1], e, c)
    ensures Settled(ss[|ops| - 1].ctl[e].fork.value, pn) ==>
      exists k: nat :: Settles(ss, ops, k, e, pn) && ViewOf(ss[|ops| - 1], Slot(c, pn)) == ViewOf(ss[k], Slot(e, pn))
  {
    hide ViewOf, Settled;
    var n := |ops| - 1;
    assert ss[1..n + 1][n - 1] == ss[n];
    if Settled(ss[n].ctl[e].fork.value, pn) {
      var k: nat :| Settles(ss[1..n + 1], ops[1..n], k, e, pn) && ViewOf(ss[n], Slot(c, pn)) == ViewOf(ss[1..n + 1][k], Slot(e, pn));
      assert ss[1..n + 1][k] == ss[k + 1] && ss[1..n + 1][k + 1] == ss[k + 2] && ops[1..n][k] == ops[k + 1];
      assert Settles(ss, ops, k + 1, e, pn);
    }
  }

  lemma EndHands(s: Users, e: nat, c: nat, pn: nat)
    requires Inv(s) && Enabled(s, EndFork(e)) && ForkOf(s, e, c) && pn < STACK_PAGES
    ensures Settled(s.ctl[e].fork.value, pn)
    ensures var s' := Apply(s, EndFork(e)); Runs(s', c) && ViewOf(s', Slot(c, pn)) == ViewOf(s, Slot(c, pn))
  {
    assert Standing(s, e) && Mapping(s);
    ForkEndsViews(s, EndFork(e), Slot(c, pn));
  }

  // ----- faults between duppage's two calls -----

  /** The step in which the parent's handler puts a copy at page `pn`. */
  predicate Replaces(s: Users, op: Op, e: nat, pn: nat) {
    op == MoveFrame(e) && Faulting(s, e) && s.ctl[e].fault.value.pn == pn
  }

  /** Environment `e` is between duppage's calls; `replaced` says whether its handler has put a copy there since. */
  predicate Between(s: Users, e: nat, fork: Fork, replaced: bool) {
    && Runs(s, e) && s.ctl[e].fork == Some(fork) && fork.half.Some? && Slot(e, fork.next) in s.pt
    && (Writable(s.pt[Slot(e, fork.next)]) <==> fork.half.value || replaced)
  }

  /** Nobody but the handler changes the parent's entry between the calls. */
  lemma EntryStays(s: Users, op: Op, e: nat, fork: Fork)
    requires Enabled(s, op) && Runs(s, e) && s.ctl[e].fork == Some(fork) && fork.half.Some?
    requires Standing(s, e) && Standing(s, op.e) && op != DupAgain(e) && op != Exit(e)
    ensures var s' := Apply(s, op);
      && Runs(s', e) && s'.ctl[e].fork == Some(fork)
      && (SameSlot(s, s', Slot(e, fork.next)) || Replaces(s, op, e, fork.next))
  {
    hide Has, CowOnly, Owned, Fresh, Share, Writable, Cow;
  }

  lemma ReplacedEntry(s: Users, op: Op, e: nat, pn: nat)
    requires Enabled(s, op) && Replaces(s, op, e, pn) && Standing(s, e)
    ensures Slot(e, pn) in Apply(s, op).pt && Writable(Apply(s, op).pt[Slot(e, pn)])
  {
    PermFacts(s.pt[Slot(e, TEMP)].frame);
  }

  lemma BetweenStep(s: Users, op: Op, e: nat, fork: Fork, replaced: bool)
    requires Inv(s) && Enabled(s, op) && Between(s, e, fork, replaced) && op != DupAgain(e) && op != Exit(e)
    ensures Between(Apply(s, op), e, fork, replaced || Replaces(s, op, e, fork.next))
  {
    hide Inv, Standing, Apply, Writable, Enabled, Replaces;
    InvParts(s, e);
    OpStanding(s, op);
    EntryStays(s, op, e, fork);
    if Replaces(s, op, e, fork.next) {
      ReplacedEntry(s, op, e, fork.next);
    }
  }

  /** The parent's page is the child's frame exactly while the parent either may still write to both or may not
      write at all. */
  lemma HalfFrames(s: Users, e: nat, fork: Fork)
    requires Inv(s) && Runs(s, e) && s.ctl[e].fork == Some(fork) && fork.half.Some?
    ensures HalfState(s, e, fork)
    ensures var mine, theirs := Slot(e, fork.next), Slot(fork.child, fork.next);
      s.pt[mine].frame == s.pt[theirs].frame <==> fork.half.value || !Writable(s.pt[mine])
  {
    assert Standing(s, e) && Standing(s, fork.child);
    var mine, theirs := Slot(e, fork.next), Slot(fork.child, fork.next);
    if SameFrame(s, mine, theirs) && Owned(s.pt[mine]) {
      OnlyTwins(s, mine, theirs);
    }
  }

  ghost predicate Replaced(ss: seq<Users>, ops: seq<Op>, e: nat, pn: nat)
    requires |ss| == |ops| + 1
  {
    exists k :: 0 <= k < |ops| && Replaces(ss[k], ops[k], e, pn)
  }

  lemma {:induction false} BetweenRun(ss: seq<Users>, ops: seq<Op>, e: nat, fork: Fork)
    requires Run(ss, ops) && Inv(ss[0]) && Between(ss[0], e, fork, false)
    requires forall k :: 0 <= k < |ops| ==> ops[k] != DupAgain(e) && ops[k] != Exit(e)
    ensures Inv(ss[|ops|]) && Between(ss[|ops|], e, fork, Replaced(ss, ops, e, fork.next))
  {
    hide Inv, Between;
    if ops != [] {
      var n := |ops| - 1;
      Prefix(ss, ops);
      BetweenRun(ss[..n + 1], ops[..n], e, fork);
      StepKeeps(ss[n], ops[n]);
      BetweenStep(ss[n], ops[n], e, fork, Replaced(ss[..n + 1], ops[..n], e, fork.next));
      assert Replaced(ss, ops, e, fork.next) <==>
        Replaced(ss[..n + 1], ops[..n], e, fork.next) || Replaces(ss[n], ops[n], e, fork.next)
      by { hide Replaces; }
    }
  }

  /** Environment `e` is about to dup a writable or copy-on-write page. */
  predicate DupsPage(s: Users, e: nat) {
    Enabled(s, Dup(e)) &&
    var k := Slot(e, s.ctl[e].fork.value.next);
    k in s.pt && (Owned(s.pt[k]) || CowOnly(s.pt[k]))
  }

  lemma DupStarts(s: Users, e: nat)
    requires DupsPage(s, e) && Standing(s, e)
    ensures var fork := s.ctl[e].fork.value; var mine := s.pt[Slot(e, fork.next)];
      Between(Apply(s, Dup(e)), e, fork.(half := Some(Writable(mine))), false)
  {
    PermFacts(s.pt[Slot(e, s.ctl[e].fork.value.next)].frame);
  }

  lemma DupEnds(s: Users, e: nat, fork: Fork)
    requires Enabled(s, DupAgain(e)) && s.ctl[e].fork == Some(fork) && HalfState(s, e, fork) && fork.child != e
    ensures var s' := Apply(s, DupAgain(e)); var mine, theirs := Slot(e, fork.next), Slot(fork.child, fork.next);
      && mine in s'.pt && theirs in s'.pt && CowOnly(s'.pt[mine]) && CowOnly(s'.pt[theirs])
      && s'.pt[mine].frame == s.pt[mine].frame && s'.pt[theirs].frame == s.pt[theirs].frame
  {
    PermFacts(s.pt[Slot(e, fork.next)].frame);
  }

  /** What holds after any run between the calls. */
  lemma DupMiddle(ss: seq<Users>, ops: seq<Op>, e: nat, fork: Fork)
    requires Run(ss, ops) && Inv(ss[0]) && Between(ss[0], e, fork, false)
    requires forall k :: 0 <= k < |ops| ==> ops[k] != DupAgain(e) && ops[k] != Exit(e)
    ensures var s := ss[|ops|]; var mine, theirs := Slot(e, fork.next), Slot(fork.child, fork.next);
      && s.ctl.Keys >= {e} && s.ctl[e].fork == Some(fork) && fork.half.Some? && HalfState(s, e, fork) && fork.child != e
      && (s.pt[mine].frame == s.pt[theirs].frame <==> fork.half.value || !Replaced(ss, ops, e, fork.next))
  {
    hide Replaced;
    BetweenRun(ss, ops, e, fork);
    HalfFrames(ss[|ops|], e, fork);
    ChildIsOther(ss[|ops|], e, fork);
  }

  /** Both pages are copy-on-write; `together` says whether they show one frame. */
  predicate BothCow(s: Users, mine: Slot, theirs: Slot, together: bool) {
    && mine in s.pt && theirs in s.pt && CowOnly(s.pt[mine]) && CowOnly(s.pt[theirs])
    && (s.pt[mine].frame == s.pt[theirs].frame <==> together)
  }

  /** duppage under interleaving: from the first call to the second, whatever stores and faults fall between,
      parent and child both end up copy-on-write. They share one frame exactly when the page was writable at the
      first call or the parent's handler did not replace it in between. */
  lemma DuppageInterleaved(s: Users, ss: seq<Users>, ops: seq<Op>, e: nat)
    requires Inv(s) && DupsPage(s, e) && |ss| == |ops| + 1 && Run(ss, ops) && ss[0] == Apply(s, Dup(e))
    requires forall k :: 0 <= k < |ops| ==> ops[k] != DupAgain(e) && ops[k] != Exit(e)
    requires Enabled(ss[|ops|], DupAgain(e))
    ensures var fork := s.ctl[e].fork.value; var mine := Slot(e, fork.next);
      BothCow(Apply(ss[|ops|], DupAgain(e)), mine, Slot(fork.child, fork.next),
              Writable(s.pt[mine]) || !Replaced(ss, ops, e, fork.next))
  {
    hide Inv, Standing, Apply, Writable, Replaced, Between, HalfState, Run, DupsPage, Enabled, BothCow;
    DupsFacts(s, e);
    var fork := s.ctl[e].fork.value;
    var half := fork.(half := Some(Writable(s.pt[Slot(e, fork.next)])));
    InvParts(s, e);
    DupStarts(s, e);
    StepKeeps(s, Dup(e));
    DupMiddle(ss, ops, e, half);
    DupEnds(ss[|ops|], e, half);
    BothCowIs(Apply(ss[|ops|], DupAgain(e)), Slot(e, fork.next), Slot(fork.child, fork.next));
  }

  lemma DupsFacts(s: Users, e: nat)
    requires DupsPage(s, e)
    ensures Enabled(s, Dup(e)) && e in s.ctl && s.ctl[e].fork.Some? && Slot(e, s.ctl[e].fork.value.next) in s.pt
  {
  }

  lemma BothCowIs(s: Users, mine: Slot, theirs: Slot)
    requires mine in s.pt && theirs in s.pt && CowOnly(s.pt[mine]) && CowOnly(s.pt[theirs])
    ensures BothCow(s, mine, theirs, s.pt[mine].frame == s.pt[theirs].frame)
  {
  }

  lemma ChildIsOther(s: Users, e: nat, fork: Fork)
    requires Inv(s) && Runs(s, e) && s.ctl[e].fork == Some(fork)
    ensures fork.child != e
  {
    assert Standing(s, e);
  }
}
