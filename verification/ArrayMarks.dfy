/** Growable arrays across a mark: which stand after it is undone, and whose memory is taken back. */
module ArrayMarks {
  import opened Words
  import opened Memory
  import opened ArenaModel
  import opened ArenaSafety
  import opened ArenaRuns
  import opened ArenaMarks
  import opened ArrayMemory
  import opened ArrayModel
  import opened ArrayRuns
  import opened ArraySystems

  // ----- sequences -----

  /** Does the operation grow or deallocate array n, that is, change its capacity? */
  predicate Resizes(t: VecSys, op: SysOp, n: nat) {
    && op.On? && op.name == n && n in t.vecs && VecAllowed(t.vecs[n], op.op)
    && VecDo(t.vecs[n], op.op, t.depth).max != t.vecs[n].max
  }

  predicate EverResized(t: VecSys, ops: seq<SysOp>, n: nat)
    decreases |ops|
  {
    ops != [] && VecEnabled(t, ops[0]) && (Resizes(t, ops[0], n) || EverResized(VecStep(t, ops[0]), ops[1..], n))
  }

  /** Every state of the run has more than d open marks. */
  predicate DepthAbove(t: VecSys, ops: seq<SysOp>, d: nat)
    requires VecRunEnabled(t, ops)
    decreases |ops|
  {
    t.depth > d && (ops != [] ==> DepthAbove(VecStep(t, ops[0]), ops[1..], d))
  }

  /** In the arena, with capacity, and got it while at most d marks were open. */
  predicate OldArena(t: VecSys, n: nat, d: nat) {
    n in t.vecs && !t.vecs[n].onHeap && t.vecs[n].max > 0 && t.vecs[n].stamp <= d
  }

  lemma StampStep(t: VecSys, op: SysOp, n: nat, d: nat)
    requires VecEnabled(t, op) && t.depth > d
    ensures n in t.vecs && n in VecStep(t, op).vecs ==> VecStep(t, op).vecs[n].onHeap == t.vecs[n].onHeap
    ensures OldArena(VecStep(t, op), n, d) <==> OldArena(t, n, d) && !Resizes(t, op, n)
  {
    if n in t.vecs && op.On? && op.name == n && op.op.Remove? {
      FindFromRange(t.vecs[n].items, op.op.e);
    }
  }

  /** What a stamp says of a stretch of a run during which more than d marks stay open: an arena array got its
      capacity before it exactly when it was there with it and was neither grown nor deallocated since. */
  lemma {:induction false} StampRun(t: VecSys, ops: seq<SysOp>, n: nat, d: nat)
    requires VecRunEnabled(t, ops) && DepthAbove(t, ops, d)
    ensures OldArena(VecRun(t, ops), n, d) <==> OldArena(t, n, d) && !EverResized(t, ops, n)
    decreases |ops|
  {
    if ops != [] {
      StampStep(t, ops[0], n, d);
      StampRun(VecStep(t, ops[0]), ops[1..], n, d);
    }
  }

  /** The calls on array n alone, on a sequence of its own. */
  function Alone(v: Vec, ops: seq<SysOp>, n: nat): Vec
    decreases |ops|
  {
    if ops == [] then v
    else if ops[0].On? && ops[0].name == n && VecAllowed(v, ops[0].op) then
      Alone(VecDo(v, ops[0].op, v.stamp), ops[1..], n)
    else Alone(v, ops[1..], n)
  }

  /** No mark above d takes the array back. */
  predicate Lasting(v: Vec, d: nat) { v.max == 0 || v.onHeap || v.stamp <= d }

  lemma AloneStep(t: VecSys, op: SysOp, n: nat, d: nat)
    requires VecEnabled(t, op) && t.depth > d && n in t.vecs && Lasting(t.vecs[n], d) && !Resizes(t, op, n)
    ensures var u := VecStep(t, op);
            && n in u.vecs && Lasting(u.vecs[n], d)
            && u.vecs[n] == if op.On? && op.name == n then VecDo(t.vecs[n], op.op, t.vecs[n].stamp) else t.vecs[n]
  {
    if op.On? && op.name == n && op.op.Remove? {
      FindFromRange(t.vecs[n].items, op.op.e);
    }
  }

  lemma {:induction false} AloneRun(t: VecSys, ops: seq<SysOp>, n: nat, d: nat)
    requires VecRunEnabled(t, ops) && DepthAbove(t, ops, d)
    requires n in t.vecs && Lasting(t.vecs[n], d) && !EverResized(t, ops, n)
    ensures n in VecRun(t, ops).vecs && Lasting(VecRun(t, ops).vecs[n], d)
    ensures VecRun(t, ops).vecs[n] == Alone(t.vecs[n], ops, n)
    decreases |ops|
  {
    if ops != [] {
      AloneStep(t, ops[0], n, d);
      AloneRun(VecStep(t, ops[0]), ops[1..], n, d);
    }
  }

  // ----- arrays -----

  ghost predicate SysAbove(s: Sys, ops: seq<SysOp>, d: nat)
    requires SysRunEnabled(s, ops)
    decreases |ops|
  {
    |s.w.marks| > d && (ops != [] ==> SysAbove(SysStep(s, ops[0]), ops[1..], d))
  }

  /** Open a mark, run operations that keep it open and close every mark of their own; then it can be undone. */
  ghost predicate SysBracket(s: Sys, ops: seq<SysOp>) {
    && SysEnabled(s, Other(PushMark))
    && var u := SysStep(s, Other(PushMark));
       && SysRunEnabled(u, ops) && SysAbove(u, ops, |s.w.marks|)
       && |SysRun(u, ops).w.marks| == |s.w.marks| + 1 && SysEnabled(SysRun(u, ops), Other(Release))
  }

  ghost function SysInside(s: Sys, ops: seq<SysOp>): Sys
    requires SysBracket(s, ops)
  {
    SysRun(SysStep(s, Other(PushMark)), ops)
  }

  ghost function SysAfter(s: Sys, ops: seq<SysOp>): Sys
    requires SysBracket(s, ops)
  {
    SysStep(SysInside(s, ops), Other(Release))
  }

  lemma {:induction false} AboveInStep(s: Sys, t: VecSys, ops: seq<SysOp>, d: nat)
    requires SysOk(s) && SysRep(s, t) && SysRunEnabled(s, ops) && SysAbove(s, ops, d)
    ensures VecRunEnabled(t, ops) && DepthAbove(t, ops, d)
    decreases |ops|
  {
    if ops != [] {
      StepInStep(s, t, ops[0]);
      AboveInStep(SysStep(s, ops[0]), VecStep(t, ops[0]), ops[1..], d);
    }
  }

  /** The sequences' side of a bracket. */
  lemma BracketInStep(s: Sys, t: VecSys, ops: seq<SysOp>)
    requires SysOk(s) && SysRep(s, t) && SysBracket(s, ops)
    ensures var u := VecStep(t, Other(PushMark));
            && u == t.(depth := t.depth + 1) && t.depth == |s.w.marks|
            && VecRunEnabled(u, ops) && DepthAbove(u, ops, t.depth)
            && SysOk(SysInside(s, ops)) && SysRep(SysInside(s, ops), VecRun(u, ops))
            && VecEnabled(VecRun(u, ops), Other(Release))
            && SysOk(SysAfter(s, ops)) && SysRep(SysAfter(s, ops), VecStep(VecRun(u, ops), Other(Release)))
  {
    StepInStep(s, t, Other(PushMark));
    var x, u := SysStep(s, Other(PushMark)), VecStep(t, Other(PushMark));
    AboveInStep(x, u, ops, |s.w.marks|);
    ArraysRefineSequences(x, u, ops);
    StepInStep(SysInside(s, ops), VecRun(u, ops), Other(Release));
  }

  /** No array got its capacity at a depth of marks not yet reached. */
  lemma StampIsPast(s: Sys, t: VecSys, n: nat)
    requires SysOk(s) && SysRep(s, t) && n in s.arrs
    ensures Lasting(t.vecs[n], |s.w.marks|)
  {
    assert ArrOk(s.w, s.arrs[n]) && RepVec(s.w, s.arrs[n], t.vecs[n]);
  }

  /** The same buffer, in the same place? */
  predicate SamePlace(s: Sys, v: Sys, n: nat)
    requires n in s.arrs && n in v.arrs
  {
    v.arrs[n].max == s.arrs[n].max
    && (s.arrs[n].max > 0 ==> v.arrs[n].buf == s.arrs[n].buf && Data(v.w, v.arrs[n]) == Data(s.w, s.arrs[n]))
  }

  lemma OwnCallInPlace(s: Sys, n: nat, o: ArrayOp)
    requires SysOk(s) && SysEnabled(s, On(n, o)) && DoArr(s.w, s.arrs[n], o).max == s.arrs[n].max
    ensures SamePlace(s, SysStep(s, On(n, o)), n)
  {
    var a := s.arrs[n];
    match o
    case Append(e, at) => NewMaxIsLarger(a, a.len);
    case PutGrow(i, e, fill, at) => NewMaxIsLarger(a, i);
    case _ =>
  }

  lemma NewMaxIsLarger(a: Arr, j: nat)
    ensures j >= a.max ==> NewMax(a.max, j) > a.max
  {
  }

  lemma BlockInPlace(s: Sys, v: Sys, n: nat)
    requires n in s.arrs && n in v.arrs && v.arrs[n] == s.arrs[n]
    requires s.arrs[n].max > 0 ==> s.arrs[n].buf in s.w.live && SameBlock(s.w, v.w, s.arrs[n].buf)
    ensures SamePlace(s, v, n)
  {
  }

  lemma OtherCallInPlace(s: Sys, t: VecSys, k: nat, o: ArrayOp, n: nat)
    requires SysOk(s) && SysRep(s, t) && SysEnabled(s, On(k, o)) && n in s.arrs && k != n
    ensures SamePlace(s, SysStep(s, On(k, o)), n)
  {
    ArrayEffect(s.w, s.arrs[k], t.vecs[k], o);
    var u, b := DoWorld(s.w, s.arrs[k], o), DoArr(s.w, s.arrs[k], o);
    BystanderBlock(s, k, u, b, n);
    BlockInPlace(s, Sys(u, s.arrs[k := b]), n);
  }

  lemma CreationInPlace(s: Sys, op: SysOp, n: nat)
    requires SysOk(s) && op.Create? && SysEnabled(s, op) && n in s.arrs
    ensures SamePlace(s, SysStep(s, op), n)
  {
    CreatedEffect(s.w, op.initial, op.len, op.filler, op.zero, op.onHeap, op.at);
    assert ArrOk(s.w, s.arrs[n]);
    BlockInPlace(s, SysStep(s, op), n);
  }

  lemma OtherStepInPlace(s: Sys, o: Op, n: nat)
    requires SysOk(s) && SysEnabled(s, Other(o)) && n in s.arrs && n in SysStep(s, Other(o)).arrs
    ensures SamePlace(s, SysStep(s, Other(o)), n)
  {
    assert ArrOk(s.w, s.arrs[n]);
    if s.arrs[n].max > 0 {
      assert s.arrs[n].NeedsBuf();
      OtherKeepsBlock(s.w, o, s.arrs[n].buf);
    }
    BlockInPlace(s, SysStep(s, Other(o)), n);
  }

  lemma PlaceStep(s: Sys, t: VecSys, op: SysOp, n: nat)
    requires SysOk(s) && SysRep(s, t) && SysEnabled(s, op) && VecEnabled(t, op) && !Resizes(t, op, n)
    requires n in s.arrs && n in SysStep(s, op).arrs && SysRep(SysStep(s, op), VecStep(t, op))
    ensures SamePlace(s, SysStep(s, op), n)
  {
    match op
    case On(k, o) =>
      if k == n {
        assert RepVec(s.w, s.arrs[n], t.vecs[n]);
        assert RepVec(SysStep(s, op).w, SysStep(s, op).arrs[n], VecStep(t, op).vecs[n]);
        OwnCallInPlace(s, n, o);
      } else {
        OtherCallInPlace(s, t, k, o, n);
      }
    case Create(k, initial, len, filler, zero, onHeap, at) => CreationInPlace(s, op, n);
    case Other(o) => OtherStepInPlace(s, o, n);
  }

  lemma BystanderBlock(s: Sys, k: nat, u: World, b: Arr, n: nat)
    requires SysOk(s) && k in s.arrs && n in s.arrs && k != n && OthersKept(s.w, s.arrs[k], u, b)
    ensures s.arrs[n].max > 0 ==> s.arrs[n].buf in s.w.live && SameBlock(s.w, u, s.arrs[n].buf)
  {
    assert ArrOk(s.w, s.arrs[n]);
    if s.arrs[n].max > 0 && s.arrs[k].NeedsBuf() {
      assert s.arrs[n].NeedsBuf() && s.arrs[n].buf != s.arrs[k].buf;
    }
  }

  lemma {:induction false} PlaceRun(s: Sys, t: VecSys, ops: seq<SysOp>, n: nat, d: nat)
    requires SysOk(s) && SysRep(s, t) && SysRunEnabled(s, ops) && VecRunEnabled(t, ops) && DepthAbove(t, ops, d)
    requires n in s.arrs && Lasting(t.vecs[n], d) && !EverResized(t, ops, n)
    ensures n in SysRun(s, ops).arrs && SamePlace(s, SysRun(s, ops), n)
    decreases |ops|
  {
    if ops != [] {
      StepInStep(s, t, ops[0]);
      AloneStep(t, ops[0], n, d);
      PlaceStep(s, t, ops[0], n);
      PlaceRun(SysStep(s, ops[0]), VecStep(t, ops[0]), ops[1..], n, d);
    }
  }

  /** Undoing the mark after a bracket in which the array was not resized. */
  lemma OutlivesRelease(v: Sys, t: VecSys, n: nat)
    requires SysOk(v) && SysRep(v, t) && SysEnabled(v, Other(Release)) && n in v.arrs && Lasting(t.vecs[n], t.depth - 1)
    ensures var u := SysStep(v, Other(Release));
            n in u.arrs && SamePlace(v, u, n) && Items(u.w, u.arrs[n]) == t.vecs[n].items
  {
    StepInStep(v, t, Other(Release));
    var u := SysStep(v, Other(Release));
    assert n in VecStep(t, Other(Release)).vecs;
    PlaceStep(v, t, Other(Release), n);
    assert RepVec(u.w, u.arrs[n], t.vecs[n]);
  }

  /** An array that is neither grown nor deallocated while a mark is open stands when the mark has been undone,
      in the place where it was, with the items that the calls on it make of a sequence, whatever else ran in
      between. */
  lemma ArrayOutlivesMark(s: Sys, t: VecSys, ops: seq<SysOp>, n: nat)
    requires SysOk(s) && SysRep(s, t) && SysBracket(s, ops)
    requires n in s.arrs && !EverResized(VecStep(t, Other(PushMark)), ops, n)
    ensures var v := SysAfter(s, ops);
            && n in v.arrs && SamePlace(s, v, n)
            && Items(v.w, v.arrs[n]) == Alone(t.vecs[n], ops, n).items
  {
    var x, u := SysStep(s, Other(PushMark)), VecStep(t, Other(PushMark));
    BracketInStep(s, t, ops);
    StepInStep(s, t, Other(PushMark));
    StampIsPast(s, t, n);
    PlaceStep(s, t, Other(PushMark), n);
    AloneRun(u, ops, n, t.depth);
    PlaceRun(x, u, ops, n, t.depth);
    OutlivesRelease(SysInside(s, ops), VecRun(u, ops), n);
    PlaceTransitive(s, x, SysInside(s, ops), SysAfter(s, ops), n);
  }

  lemma PlaceTransitive(a: Sys, b: Sys, c: Sys, d: Sys, n: nat)
    requires n in a.arrs && n in b.arrs && n in c.arrs && n in d.arrs
    requires SamePlace(a, b, n) && SamePlace(b, c, n) && SamePlace(c, d, n)
    ensures SamePlace(a, d, n)
  {
  }

  /** Of the arena arrays that have capacity when a mark is undone, exactly those stand that had it when the
      mark was opened and were neither grown nor deallocated since. */
  lemma ArrayOutlivesMarkExactly(s: Sys, t: VecSys, ops: seq<SysOp>, n: nat)
    requires SysOk(s) && SysRep(s, t) && SysBracket(s, ops)
    requires var a := SysInside(s, ops).arrs; n in a && !a[n].onHeap && a[n].max > 0
    ensures n in SysAfter(s, ops).arrs <==>
              && n in s.arrs && !s.arrs[n].onHeap && s.arrs[n].max > 0
              && !EverResized(VecStep(t, Other(PushMark)), ops, n)
  {
    BracketInStep(s, t, ops);
    var u := VecStep(t, Other(PushMark));
    StampRun(u, ops, n, t.depth);
    OldArenaIs(s, t, n);
    StandsIsOld(SysInside(s, ops), VecRun(u, ops), n);
  }

  lemma OldArenaIs(s: Sys, t: VecSys, n: nat)
    requires SysOk(s) && SysRep(s, t)
    ensures OldArena(t, n, t.depth) <==> n in s.arrs && !s.arrs[n].onHeap && s.arrs[n].max > 0
  {
    if n in s.arrs {
      assert RepVec(s.w, s.arrs[n], t.vecs[n]);
      StampIsPast(s, t, n);
    }
  }

  lemma StandsIsOld(v: Sys, t: VecSys, n: nat)
    requires SysOk(v) && SysRep(v, t) && SysEnabled(v, Other(Release)) && t.depth > 0
    requires n in v.arrs && !v.arrs[n].onHeap && v.arrs[n].max > 0
    ensures n in SysStep(v, Other(Release)).arrs <==> OldArena(t, n, t.depth - 1)
  {
    StepInStep(v, t, Other(Release));
    assert RepVec(v.w, v.arrs[n], t.vecs[n]);
    assert n in VecStep(t, Other(Release)).vecs <==> OldArena(t, n, t.depth - 1);
  }

  // ----- memory -----

  lemma ClearFrame(w: World, v: World, d: nat)
    requires d < |w.marks| && Clear(w, d) && v.area == w.area && v.marks == w.marks
    requires forall id :: id in v.live ==> id in w.live && v.live[id] == w.live[id]
    ensures Clear(v, d)
  {
  }

  lemma ClearGrow(w: World, a: Arr, j: nat, at: nat, d: nat)
    requires Inv(w) && ArrOk(w, a) && GrowAllowed(w, a, j, at) && d < |w.marks| && Clear(w, d)
    ensures d < |GrowWorld(w, a, j, at).marks| && Clear(GrowWorld(w, a, j, at), d)
  {
    AllocatedEffect(w, a, j, at);
    ClearStep(w, BufOp(a.onHeap, Bytes(NewMax(a.max, j), a.Esz()), at), d);
    ClearFrame(Allocated(w, a, j, at), GrowWorld(w, a, j, at), d);
  }

  /** No array operation undercuts a mark. */
  lemma ClearOn(w: World, a: Arr, o: ArrayOp, d: nat)
    requires Inv(w) && ArrOk(w, a) && Allowed(w, a, o) && d < |w.marks| && Clear(w, d)
    ensures d < |DoWorld(w, a, o).marks| && Clear(DoWorld(w, a, o), d)
  {
    match o
    case Append(e, at) =>
      if a.len >= a.max {
        ClearGrow(w, a, a.len, at, d);
      }
    case PutGrow(i, e, fill, at) =>
      if i >= a.max {
        ClearGrow(w, a, i, at, d);
      }
    case _ =>
      ClearFrame(w, DoWorld(w, a, o), d);
  }

  lemma ClearSysStep(s: Sys, op: SysOp, d: nat)
    requires SysOk(s) && SysEnabled(s, op) && d < |s.w.marks| && d < |SysStep(s, op).w.marks| && Clear(s.w, d)
    requires op.Other? ==> !Undercuts(s.w, op.step, d)
    ensures Clear(SysStep(s, op).w, d)
  {
    match op
    case On(n, o) => ClearOn(s.w, s.arrs[n], o, d);
    case Create(n, initial, len, filler, zero, onHeap, at) =>
      var b := BufOp(onHeap, Bytes(initial, |zero|), at);
      ClearStep(s.w, b, d);
      ClearFrame(Step(s.w, b), SysStep(s, op).w, d);
    case Other(o) => ClearStep(s.w, o, d);
  }

  /** Some other client undercuts mark d. */
  ghost predicate SysUndercut(s: Sys, ops: seq<SysOp>, d: nat)
    requires SysRunEnabled(s, ops) && SysAbove(s, ops, d)
    decreases |ops|
  {
    ops != [] && ((ops[0].Other? && Undercuts(s.w, ops[0].step, d)) || SysUndercut(SysStep(s, ops[0]), ops[1..], d))
  }

  lemma {:induction false} ClearSysRun(s: Sys, t: VecSys, ops: seq<SysOp>, d: nat)
    requires SysOk(s) && SysRep(s, t) && SysRunEnabled(s, ops) && SysAbove(s, ops, d)
    requires Clear(s.w, d) && !SysUndercut(s, ops, d)
    ensures |SysRun(s, ops).w.marks| > d && Clear(SysRun(s, ops).w, d)
    decreases |ops|
  {
    if ops != [] {
      StepInStep(s, t, ops[0]);
      ClearSysStep(s, ops[0], d);
      ClearSysRun(SysStep(s, ops[0]), VecStep(t, ops[0]), ops[1..], d);
    }
  }

  /** Unless another client undercuts the mark, undoing it takes back the memory of an arena array's buffer
      exactly when the array does not stand: when it was created, grown, or deallocated and grown since. */
  lemma ArrayMemoryTakenBack(s: Sys, t: VecSys, ops: seq<SysOp>, n: nat)
    requires SysOk(s) && SysRep(s, t) && SysBracket(s, ops)
    requires !SysUndercut(SysStep(s, Other(PushMark)), ops, |s.w.marks|)
    requires var a := SysInside(s, ops).arrs; n in a && !a[n].onHeap && a[n].max > 0
    ensures SysInside(s, ops).arrs[n].buf in SysInside(s, ops).w.live
    ensures Reusable(SysAfter(s, ops).w, SysInside(s, ops).w.live[SysInside(s, ops).arrs[n].buf])
            <==> n !in SysAfter(s, ops).arrs
  {
    var x, u := SysStep(s, Other(PushMark)), VecStep(t, Other(PushMark));
    BracketInStep(s, t, ops);
    StepInStep(s, t, Other(PushMark));
    BracketStartsClear(s.w);
    ClearSysRun(x, u, ops, |s.w.marks|);
    ClearTakesBack(SysInside(s, ops), n);
  }

  lemma ClearTakesBack(v: Sys, n: nat)
    requires SysOk(v) && SysEnabled(v, Other(Release)) && Clear(v.w, |v.w.marks| - 1)
    requires n in v.arrs && !v.arrs[n].onHeap && v.arrs[n].max > 0
    ensures v.arrs[n].buf in v.w.live
    ensures var u := SysStep(v, Other(Release));
            Reusable(u.w, v.w.live[v.arrs[n].buf]) <==> n !in u.arrs
  {
    var id := v.arrs[n].buf;
    BufferIsBlock(v, n);
    ReleaseUndoes(v.w);
    TakenBackExactly(v.w, DoRelease(v.w), id);
    ClearMeansTakenBack(v.w, DoRelease(v.w), id);
    StandsIsKept(v, n);
  }

  lemma StandsIsKept(v: Sys, n: nat)
    requires SysEnabled(v, Other(Release)) && n in v.arrs && v.arrs[n].NeedsBuf() && v.arrs[n].buf in v.w.live
    ensures SysStep(v, Other(Release)).w == DoRelease(v.w)
    ensures n in SysStep(v, Other(Release)).arrs <==> v.w.live[v.arrs[n].buf].depth <= |v.w.marks| - 1
  {
  }

  lemma BufferIsBlock(s: Sys, n: nat)
    requires SysOk(s) && n in s.arrs && !s.arrs[n].onHeap && s.arrs[n].max > 0
    ensures s.arrs[n].NeedsBuf() && s.arrs[n].buf in s.w.live
    ensures s.w.live[s.arrs[n].buf].home.InChunk? && s.w.live[s.arrs[n].buf].size > 0
  {
    assert ArrOk(s.w, s.arrs[n]);
    AtLeastOne(s.arrs[n].max, s.arrs[n].Esz());
  }
}
