/** Copy-on-write fork refines a fork that copies every page: the model gives each environment private page
    contents, and a run of the copy-on-write machine reads exactly as the model does. */
module CowRefinement {
  import opened Mmu
  import opened Options
  import opened CowMemory
  import opened CowInvariant

  /** A page as its environment sees it: its own content, or a shared object. */
  datatype View = Private(content: Page, writable: bool) | Shared(object: nat)

  datatype Model = Model(pages: map<Slot, View>, objects: map<nat, Page>)

  datatype Act =
    | Nothing
    | Store(k: Slot, off: nat, v: Byte)
    | CopyPage(from: Slot, to: Slot)
    | ZeroPage(k: Slot)
    | Discard(es: set<nat>)

  function Look(m: Model, k: Slot): Option<View> {
    if k in m.pages then Some(m.pages[k]) else None
  }

  function Object(m: Model, o: nat): Page {
    if o in m.objects then m.objects[o] else ZeroFrame()
  }

  function Perform(m: Model, act: Act): Model {
    match act
    case Nothing => m
    case Store(k, off, v) =>
      if k !in m.pages then m
      else (match m.pages[k]
            case Private(content, w) => if w then m.(pages := m.pages[k := Private(Poke(content, off, v), w)]) else m
            case Shared(o) => m.(objects := m.objects[o := Poke(Object(m, o), off, v)]))
    case CopyPage(from, to) => if from in m.pages then m.(pages := m.pages[to := m.pages[from]]) else m
    case ZeroPage(k) => m.(pages := m.pages[k := Private(ZeroFrame(), true)])
    case Discard(es) => m.(pages := map k | k in m.pages && k.env !in es :: m.pages[k])
  }

  /** The child of a fork that its parent did not live to finish; nobody will make it runnable. */
  predicate Orphan(s: Users, e: nat) {
    e in s.ctl && s.ctl[e].parent.Some? && s.ctl[e].parent.value !in s.ctl
  }

  /** What environment `k.env` sees at page `k.pn`; PFTEMP belongs to pgfault, and a pending page is not there yet. */
  function ViewOf(s: Users, k: Slot): Option<View> {
    if k !in s.pt || k.pn == TEMP || Pending(s, k) || Orphan(s, k.env) then None
    else if Share(s.pt[k]) then Some(Shared(s.pt[k].frame))
    else Some(Private(Content(s, s.pt[k].frame), Writable(s.pt[k]) || Cow(s.pt[k])))
  }

  ghost predicate Agree(s: Users, m: Model) {
    && (forall k :: Look(m, k) == ViewOf(s, k))
    && (forall k :: k in s.pt && Share(s.pt[k]) ==> Object(m, s.pt[k].frame) == Content(s, s.pt[k].frame))
  }

  /** What a step means to the copying fork. A page that was writable at duppage's first call is copied by the
      second, as until then the parent may still write to it; any other page is copied by the first. */
  function Meaning(s: Users, op: Op): Act
    requires Enabled(s, op)
  {
    match op
    case Write(e, pn, off, v) => Store(Slot(e, pn), off, v)
    case Dup(e) =>
      var fork := s.ctl[e].fork.value;
      var k := Slot(e, fork.next);
      if k in s.pt && Owned(s.pt[k]) then Nothing else CopyPage(k, Slot(fork.child, fork.next))
    case DupAgain(e) =>
      var fork := s.ctl[e].fork.value;
      if fork.half.value then CopyPage(Slot(e, fork.next), Slot(fork.child, fork.next)) else Nothing
    case ChildStack(e, f) => ZeroPage(Slot(s.ctl[e].fork.value.child, UX_PAGE))
    case Exit(e) => Discard({e} + if s.ctl[e].fork.Some? then {s.ctl[e].fork.value.child} else {})
    case _ => Nothing
  }

  /** A permitted store changes the view of its own page, or the shared object, and no other view. */
  lemma WriteView(s: Users, m: Model, op: Op, k: Slot)
    requires Inv(s) && Agree(s, m) && op.Write? && Enabled(s, op)
    ensures Look(Perform(m, Meaning(s, op)), k) == ViewOf(Apply(s, op), k)
  {
    hide Inv, Agree, Standing;
    var k0 := Slot(op.e, op.pn);
    WriteMaps(s, op);
    assert Pending(Apply(s, op), k) == Pending(s, k) && Orphan(Apply(s, op), k.env) == Orphan(s, k.env);
    InvParts(s, op.e);
    WriteKind(s, op);
    AgreeAt(s, m, k0);
    AgreeAt(s, m, k);
    if k in s.pt && k != k0 && SameFrame(s, k0, k) && Owned(s.pt[k0]) {
      OnlyTwins(s, k0, k);
    }
  }

  lemma AgreeAt(s: Users, m: Model, k: Slot)
    requires Agree(s, m)
    ensures Look(m, k) == ViewOf(s, k)
  {
  }

  /** A page that may be written is private or shared, and outside the handler it is not PFTEMP. */
  lemma WriteKind(s: Users, op: Op)
    requires Pages(s) && Standing(s, op.e) && op.Write? && Enabled(s, op)
    ensures var k0 := Slot(op.e, op.pn);
      k0 in s.pt && k0.pn != TEMP && (Owned(s.pt[k0]) || Share(s.pt[k0])) && Writable(s.pt[k0])
    ensures forall k :: SameFrame(s, Slot(op.e, op.pn), k) ==> (Share(s.pt[k]) <==> Share(s.pt[Slot(op.e, op.pn)]))
  {
  }

  lemma WriteObject(s: Users, m: Model, op: Op, k: Slot)
    requires Inv(s) && Agree(s, m) && op.Write? && Enabled(s, op) && k in s.pt && Share(s.pt[k])
    ensures Object(Perform(m, Meaning(s, op)), s.pt[k].frame) == Content(Apply(s, op), s.pt[k].frame)
  {
    var k0 := Slot(op.e, op.pn);
    assert Standing(s, op.e) && Look(m, k0) == ViewOf(s, k0);
    assert SameFrame(s, k, k0) ==> Share(s.pt[k0]);
    hide Standing, Mapping;
  }

  lemma WriteRefines(s: Users, m: Model, op: Op)
    requires Inv(s) && Agree(s, m) && op.Write? && Enabled(s, op)
    ensures Agree(Apply(s, op), Perform(m, Meaning(s, op)))
  {
    assert Apply(s, op).pt == s.pt;
    hide Inv, Look, ViewOf, Apply, Enabled, Perform, Meaning;
    forall k ensures Look(Perform(m, Meaning(s, op)), k) == ViewOf(Apply(s, op), k) {
      WriteView(s, m, op, k);
    }
    forall k | k in s.pt && Share(s.pt[k])
      ensures Object(Perform(m, Meaning(s, op)), s.pt[k].frame) == Content(Apply(s, op), s.pt[k].frame)
    {
      WriteObject(s, m, op, k);
    }
  }

  // ----- pgfault changes no view -----

  /** Nothing that the view of `k` depends on has changed. */
  predicate Steady(s: Users, s': Users, k: Slot) {
    && SameSlot(s, s', k) && (Pending(s, k) <==> Pending(s', k)) && (Orphan(s, k.env) <==> Orphan(s', k.env))
    && (k in s.pt ==> Content(s', s.pt[k].frame) == Content(s, s.pt[k].frame) || Pending(s, k))
  }

  lemma SteadyView(s: Users, s': Users, k: Slot)
    requires Steady(s, s', k)
    ensures ViewOf(s', k) == ViewOf(s, k)
  {
  }

  predicate Moves(s: Users, op: Op, k: Slot) {
    op.MoveFrame? && Faulting(s, op.e) && k == Slot(op.e, s.ctl[op.e].fault.value.pn)
  }

  /** The frame that pgfault takes or fills is behind no view. */
  predicate Untouched(s: Users, s': Users, k: Slot) {
    k in s.pt ==> Content(s', s.pt[k].frame) == Content(s, s.pt[k].frame) || Pending(s, k)
  }

  lemma CopyUntouched(s: Users, op: Op, k: Slot)
    requires Inv(s) && op.CopyByte? && Enabled(s, op) && k.pn != TEMP
    ensures Untouched(s, Apply(s, op), k)
  {
    var temp := Slot(op.e, TEMP);
    assert Standing(s, op.e);
    if SameFrame(s, temp, k) {
      OnlyTwins(s, temp, k);
    }
  }

  lemma OtherUntouched(s: Users, op: Op, k: Slot)
    requires InHandler(op) && !op.CopyByte? && Enabled(s, op)
    ensures Untouched(s, Apply(s, op), k)
  {
    hide Has;
  }

  /** PFTEMP aside, only MoveFrame touches an entry. */
  lemma HandlerSteady(s: Users, op: Op, k: Slot)
    requires InHandler(op) && Enabled(s, op) && k.pn != TEMP && Untouched(s, Apply(s, op), k)
    ensures Moves(s, op, k) || Steady(s, Apply(s, op), k)
  {
    hide Has, Fresh, Content, Poke;
  }

  /** MoveFrame replaces a frame by its finished copy. */
  lemma MoveView(s: Users, op: Op, k: Slot)
    requires Inv(s) && Enabled(s, op) && Moves(s, op, k)
    ensures ViewOf(Apply(s, op), k) == ViewOf(s, k)
  {
    assert Standing(s, op.e);
    var temp := Slot(op.e, TEMP);
    PermFacts(s.pt[temp].frame);
    assert Content(s, s.pt[temp].frame) == Content(s, s.pt[k].frame);
    hide Inv;
  }

  lemma HandlerObjects(s: Users, op: Op, k: Slot)
    requires Inv(s) && InHandler(op) && Enabled(s, op)
    requires k in Apply(s, op).pt && Share(Apply(s, op).pt[k])
    ensures k in s.pt && s.pt[k] == Apply(s, op).pt[k]
    ensures Content(Apply(s, op), s.pt[k].frame) == Content(s, s.pt[k].frame)
  {
    if !op.Enter? {
      assert Standing(s, op.e);
      PermFacts(if op.TakeFrame? then op.f else if op.MoveFrame? then s.pt[Slot(op.e, TEMP)].frame else 0);
    }
  }

  lemma HandlerRefines(s: Users, m: Model, op: Op)
    requires Inv(s) && Agree(s, m) && InHandler(op) && Enabled(s, op)
    ensures Agree(Apply(s, op), m)
  {
    var s' := Apply(s, op);
    forall k ensures Look(m, k) == ViewOf(s', k) {
      assert Look(m, k) == ViewOf(s, k);
      assert k.pn == TEMP ==> ViewOf(s, k) == ViewOf(s', k) == None;
      hide *;
      if k.pn != TEMP {
        if op.CopyByte? { CopyUntouched(s, op, k); } else { OtherUntouched(s, op, k); }
        HandlerSteady(s, op, k);
        if Moves(s, op, k) { MoveView(s, op, k); } else { SteadyView(s, s', k); }
      }
    }
    forall k | k in s'.pt && Share(s'.pt[k]) ensures Object(m, s'.pt[k].frame) == Content(s', s'.pt[k].frame) {
      hide Inv, Apply, InHandler, Enabled;
      HandlerObjects(s, op, k);
    }
  }

  // ----- fork -----

  lemma DupPending(s: Users, op: Op, k: Slot)
    requires op.Dup? && Enabled(s, op) && k != Slot(s.ctl[op.e].fork.value.child, s.ctl[op.e].fork.value.next)
    ensures (Pending(s, k) <==> Pending(Apply(s, op), k)) && (Orphan(s, k.env) <==> Orphan(Apply(s, op), k.env))
  {
    hide Share, Cow, Writable, User;
  }

  lemma DupSteady(s: Users, op: Op, k: Slot)
    requires op.Dup? && Enabled(s, op) && k != Slot(s.ctl[op.e].fork.value.child, s.ctl[op.e].fork.value.next)
    ensures Steady(s, Apply(s, op), k)
  {
    DupPending(s, op, k);
    hide Pending, Orphan, Share, Cow, Writable, User;
  }

  /** The child's page after duppage's first call. */
  lemma DupView(s: Users, op: Op)
    requires Mapping(s) && SharedApart(s) && op.Dup? && Enabled(s, op) && Standing(s, op.e)
    ensures var fork := s.ctl[op.e].fork.value; var k, dst := Slot(op.e, fork.next), Slot(fork.child, fork.next);
      && ViewOf(s, dst) == None
      && ViewOf(Apply(s, op), dst) == if k in s.pt && Owned(s.pt[k]) then None else ViewOf(s, k)
  {
    var fork := s.ctl[op.e].fork.value;
    var k := Slot(op.e, fork.next);
    if k in s.pt {
      PermFacts(s.pt[k].frame);
    }
  }

  lemma DupLook(s: Users, m: Model, op: Op, k: Slot)
    requires op.Dup? && Enabled(s, op)
    requires var fork := s.ctl[op.e].fork.value; Look(m, Slot(fork.child, fork.next)) == None
    ensures var fork := s.ctl[op.e].fork.value; var src, dst := Slot(op.e, fork.next), Slot(fork.child, fork.next);
      Look(Perform(m, Meaning(s, op)), k) ==
        if k != dst then Look(m, k) else if src in s.pt && Owned(s.pt[src]) then None else Look(m, src)
    ensures Perform(m, Meaning(s, op)).objects == m.objects
  {
    hide Owned;
  }

  /** What duppage shares with the child is the same object, with the same content. */
  lemma DupObject(s: Users, op: Op, k: Slot)
    requires op.Dup? && Enabled(s, op) && k in Apply(s, op).pt && Share(Apply(s, op).pt[k])
    ensures Apply(s, op).mem == s.mem
    ensures exists k' :: k' in s.pt && Share(s.pt[k']) && s.pt[k'].frame == Apply(s, op).pt[k].frame
  {
    var fork := s.ctl[op.e].fork.value;
    var src := Slot(op.e, fork.next);
    if src in s.pt {
      PermFacts(s.pt[src].frame);
    }
    var same := if k in s.pt && s.pt[k] == Apply(s, op).pt[k] then k else src;
    assert same in s.pt && Share(s.pt[same]) && s.pt[same].frame == Apply(s, op).pt[k].frame;
  }

  lemma DupRefines(s: Users, m: Model, op: Op)
    requires Inv(s) && Agree(s, m) && op.Dup? && Enabled(s, op)
    ensures Agree(Apply(s, op), Perform(m, Meaning(s, op)))
  {
    var s', m' := Apply(s, op), Perform(m, Meaning(s, op));
    var fork := s.ctl[op.e].fork.value;
    var src, dst := Slot(op.e, fork.next), Slot(fork.child, fork.next);
    assert Standing(s, op.e) && Mapping(s) && SharedApart(s);
    hide Inv, Standing, Mapping, SharedApart, Apply, Enabled, Perform, Meaning, ViewOf, Look;
    DupView(s, op);
    assert Look(m, src) == ViewOf(s, src) && Look(m, dst) == None;
    forall k ensures Look(m', k) == ViewOf(s', k) {
      assert Look(m, k) == ViewOf(s, k);
      DupLook(s, m, op, k);
      if k != dst {
        DupSteady(s, op, k);
        SteadyView(s, s', k);
      }
    }
    forall k | k in s'.pt && Share(s'.pt[k]) ensures Object(m', s'.pt[k].frame) == Content(s', s'.pt[k].frame) {
      DupObject(s, op, k);
      DupLook(s, m, op, k);
    }
  }

  /** After duppage's second call both pages show what the parent saw. */
  lemma DupAgainView(s: Users, op: Op)
    requires op.DupAgain? && Enabled(s, op) && Standing(s, op.e)
    ensures var fork := s.ctl[op.e].fork.value; var k, dst := Slot(op.e, fork.next), Slot(fork.child, fork.next);
      var s' := Apply(s, op);
      && ViewOf(s, k).Some? && ViewOf(s', k) == ViewOf(s, k)
      && ViewOf(s', dst) == if fork.half.value then ViewOf(s, k) else ViewOf(s, dst)
  {
    var fork := s.ctl[op.e].fork.value;
    PermFacts(s.pt[Slot(op.e, fork.next)].frame);
  }

  lemma DupAgainSteady(s: Users, op: Op, k: Slot)
    requires op.DupAgain? && Enabled(s, op)
    requires k != Slot(op.e, s.ctl[op.e].fork.value.next)
    requires k != Slot(s.ctl[op.e].fork.value.child, s.ctl[op.e].fork.value.next)
    ensures Steady(s, Apply(s, op), k)
  {
    hide Has;
  }

  /** The entry that duppage rewrites is not a shared page's. */
  lemma DupAgainObjects(s: Users, op: Op, k: Slot)
    requires op.DupAgain? && Enabled(s, op) && Standing(s, op.e) && k in Apply(s, op).pt && Share(Apply(s, op).pt[k])
    ensures k in s.pt && s.pt[k] == Apply(s, op).pt[k]
  {
    PermFacts(s.pt[Slot(op.e, s.ctl[op.e].fork.value.next)].frame);
  }

  lemma DupAgainRefines(s: Users, m: Model, op: Op)
    requires Inv(s) && Agree(s, m) && op.DupAgain? && Enabled(s, op)
    ensures Agree(Apply(s, op), Perform(m, Meaning(s, op)))
  {
    var s', m' := Apply(s, op), Perform(m, Meaning(s, op));
    var fork := s.ctl[op.e].fork.value;
    var src, dst := Slot(op.e, fork.next), Slot(fork.child, fork.next);
    assert Standing(s, op.e);
    DupAgainView(s, op);
    forall k ensures Look(m', k) == ViewOf(s', k) {
      assert Look(m, k) == ViewOf(s, k) && Look(m, src) == ViewOf(s, src);
      assert Look(m', k) == if k == dst && fork.half.value then Look(m, src) else Look(m, k);
      hide *;
      if k != src && k != dst {
        DupAgainSteady(s, op, k);
        SteadyView(s, s', k);
      }
    }
    forall k | k in s'.pt && Share(s'.pt[k]) ensures Object(m', s'.pt[k].frame) == Content(s', s'.pt[k].frame) {
      DupAgainObjects(s, op, k);
    }
  }

  lemma ForkEndsSteady(s: Users, op: Op, k: Slot)
    requires Mapping(s) && (op.StartFork? || op.EndFork?) && Enabled(s, op) && Standing(s, op.e)
    ensures Steady(s, Apply(s, op), k)
  {
    assert op.StartFork? ==> k.env != op.c || k !in s.pt;
    hide Has, Mapping;
  }

  lemma ForkEndsRefine(s: Users, m: Model, op: Op)
    requires Inv(s) && Agree(s, m) && (op.StartFork? || op.EndFork?) && Enabled(s, op)
    ensures Agree(Apply(s, op), m)
  {
    var s' := Apply(s, op);
    assert Standing(s, op.e) && Mapping(s);
    assert s'.pt == s.pt && s'.mem == s.mem;
    forall k ensures Look(m, k) == ViewOf(s', k) {
      assert Look(m, k) == ViewOf(s, k);
      hide *;
      ForkEndsSteady(s, op, k);
      SteadyView(s, s', k);
    }
  }

  lemma ChildStackSteady(s: Users, op: Op, k: Slot)
    requires op.ChildStack? && Enabled(s, op) && k != Slot(s.ctl[op.e].fork.value.child, UX_PAGE) && Standing(s, op.e)
    ensures Steady(s, Apply(s, op), k)
  {
    hide Has;
  }

  lemma ChildStackRefines(s: Users, m: Model, op: Op)
    requires Inv(s) && Agree(s, m) && op.ChildStack? && Enabled(s, op)
    ensures Agree(Apply(s, op), Perform(m, Meaning(s, op)))
  {
    var s', m' := Apply(s, op), Perform(m, Meaning(s, op));
    var dst := Slot(s.ctl[op.e].fork.value.child, UX_PAGE);
    assert Standing(s, op.e);
    PermFacts(op.f);
    forall k ensures Look(m', k) == ViewOf(s', k) {
      assert Look(m, k) == ViewOf(s, k);
      assert k != dst ==> Look(m', k) == Look(m, k);
      hide Inv;
      if k != dst {
        hide *;
        ChildStackSteady(s, op, k);
        SteadyView(s, s', k);
      }
    }
  }

  /** With its parent the child it was building is gone for good. */
  lemma ExitView(s: Users, op: Op, k: Slot)
    requires op.Exit? && Enabled(s, op) && Standing(s, op.e) && (k.env in s.ctl ==> Standing(s, k.env))
    ensures ViewOf(Apply(s, op), k) ==
      if k.env == op.e || ChildOf(s, op.e, k.env) then None else ViewOf(s, k)
  {
  }

  lemma ExitLook(s: Users, m: Model, op: Op, k: Slot)
    requires op.Exit? && Enabled(s, op)
    ensures Look(Perform(m, Meaning(s, op)), k) == if k.env == op.e || ChildOf(s, op.e, k.env) then None else Look(m, k)
    ensures Perform(m, Meaning(s, op)).objects == m.objects && Apply(s, op).mem == s.mem
    ensures forall k' :: k' in Apply(s, op).pt ==> k' in s.pt && Apply(s, op).pt[k'] == s.pt[k']
  {
  }

  lemma ExitRuns(s: Users, op: Op)
    requires op.Exit? && Enabled(s, op)
    ensures op.e in s.ctl
  {
  }

  lemma ExitRefines(s: Users, m: Model, op: Op)
    requires Inv(s) && Agree(s, m) && op.Exit? && Enabled(s, op)
    ensures Agree(Apply(s, op), Perform(m, Meaning(s, op)))
  {
    var s', m' := Apply(s, op), Perform(m, Meaning(s, op));
    ExitLook(s, m, op, Slot(0, 0));
    assert Controls(s);
    hide Inv, Apply, Enabled, Perform, Meaning, ViewOf, Look, Standing;
    assert Standing(s, op.e) by { ExitRuns(s, op); }
    forall k ensures Look(m', k) == ViewOf(s', k) {
      assert k.env in s.ctl ==> Standing(s, k.env);
      assert Look(m, k) == ViewOf(s, k);
      ExitLook(s, m, op, k);
      ExitView(s, op, k);
    }
  }

  /** Simulation: every step of the copy-on-write machine is a step of the copying one. */
  lemma StepRefines(s: Users, m: Model, op: Op)
    requires Inv(s) && Agree(s, m) && Enabled(s, op)
    ensures Agree(Apply(s, op), Perform(m, Meaning(s, op)))
  {
    assert InHandler(op) || op.StartFork? || op.EndFork? ==> Perform(m, Meaning(s, op)) == m;
    assert !InHandler(op) && !op.StartFork? && !op.EndFork? ==> op.Write? || op.Dup? || op.DupAgain? || op.ChildStack? || op.Exit?;
    hide *;
    match op
    case Write(_, _, _, _) => WriteRefines(s, m, op);
    case StartFork(_, _) => ForkEndsRefine(s, m, op);
    case EndFork(_) => ForkEndsRefine(s, m, op);
    case Dup(_) => DupRefines(s, m, op);
    case DupAgain(_) => DupAgainRefines(s, m, op);
    case ChildStack(_, _) => ChildStackRefines(s, m, op);
    case Exit(_) => ExitRefines(s, m, op);
    case _ => HandlerRefines(s, m, op);
  }
}
