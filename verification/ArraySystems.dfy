/** Many arrays in one process, over whole runs of array calls, marks and other clients. */
module ArraySystems {
  import opened Words
  import opened Memory
  import opened ArenaModel
  import opened ArenaSafety
  import opened ArenaRuns
  import opened ArrayMemory
  import opened ArrayModel
  import opened ArrayRuns

  // ----- many arrays, one process -----

  datatype Sys = Sys(w: World, arrs: map<nat, Arr>)

  datatype SysOp =
    | On(name: nat, op: ArrayOp)
    | Create(name: nat, initial: nat, len: nat, filler: Elem, zero: Elem, onHeap: bool, at: nat)
    | Other(step: Op)   // marks, destruction of the arena, and any other client of it or of the C heap

  ghost predicate SysOk(s: Sys) {
    && Inv(s.w)
    && (forall n :: n in s.arrs ==> ArrOk(s.w, s.arrs[n]))
    && (forall n, k {:trigger s.arrs[n].NeedsBuf(), s.arrs[k].NeedsBuf()} ::
          n in s.arrs && k in s.arrs && n != k ==>
            s.arrs[n].NeedsBuf() && s.arrs[k].NeedsBuf() ==> s.arrs[n].buf != s.arrs[k].buf)
  }

  ghost predicate SysEnabled(s: Sys, op: SysOp) {
    match op
    case On(n, o) => n in s.arrs && Allowed(s.w, s.arrs[n], o)
    case Create(n, initial, len, filler, zero, onHeap, at) =>
      n !in s.arrs && CreateAllowed(s.w, initial, len, filler, zero, onHeap, at)
    case Other(o) =>
      && Enabled(s.w, o)
      && forall n :: n in s.arrs && s.arrs[n].NeedsBuf() ==> !Touches(o, s.arrs[n].buf)
  }

  /** After a reset or a destruction, the arrays whose block is a block no more are gone. */
  function Standing(w: World, arrs: map<nat, Arr>): map<nat, Arr> {
    map n | n in arrs && (arrs[n].NeedsBuf() ==> arrs[n].buf in w.live) :: arrs[n]
  }

  ghost function SysStep(s: Sys, op: SysOp): Sys
    requires SysEnabled(s, op)
  {
    match op
    case On(n, o) => Sys(DoWorld(s.w, s.arrs[n], o), s.arrs[n := DoArr(s.w, s.arrs[n], o)])
    case Create(n, initial, len, filler, zero, onHeap, at) =>
      Sys(Created(s.w, initial, len, filler, zero, onHeap, at), s.arrs[n := NewArr(s.w, initial, len, zero, onHeap)])
    case Other(o) => var u := Step(s.w, o); Sys(u, Standing(u, s.arrs))
  }

  /** Sequences by name, and the number of open marks. */
  datatype VecSys = VecSys(vecs: map<nat, Vec>, depth: nat)

  /** No arena array got its capacity before the innermost mark: the arena is destroyed only under marks that
      saved no chunk. */
  predicate NoneBelow(t: VecSys) {
    forall n :: n in t.vecs ==> t.vecs[n].max == 0 || t.vecs[n].onHeap || t.vecs[n].stamp >= t.depth
  }

  predicate VecEnabled(t: VecSys, op: SysOp) {
    match op
    case On(n, o) => n in t.vecs && VecAllowed(t.vecs[n], o)
    case Create(n, initial, len, filler, zero, onHeap, at) => n !in t.vecs
    case Other(o) => (o.Reset? || o.Release? ==> t.depth > 0) && (o.Destruct? ==> NoneBelow(t))
  }

  /** The arrays that stand after undoing the innermost of `depth` marks: those that got their present
      capacity before it, those in the C heap, and those without capacity. (After a destruction, as if there
      were no arena before it: depth 0.) */
  function Older(vecs: map<nat, Vec>, depth: nat): map<nat, Vec> {
    map n | n in vecs && (vecs[n].max == 0 || vecs[n].onHeap || vecs[n].stamp < depth) :: vecs[n]
  }

  function VecStep(t: VecSys, op: SysOp): VecSys
    requires VecEnabled(t, op)
  {
    match op
    case On(n, o) => t.(vecs := t.vecs[n := VecDo(t.vecs[n], o, t.depth)])
    case Create(n, initial, len, filler, zero, onHeap, at) =>
      t.(vecs := t.vecs[n := Vec(Repeat(filler, len), initial, if onHeap then 0 else t.depth, zero, onHeap)])
    case Other(o) =>
      if o.PushMark? then t.(depth := t.depth + 1)
      else if o.Reset? then t.(vecs := Older(t.vecs, t.depth))
      else if o.Release? then VecSys(Older(t.vecs, t.depth), t.depth - 1)
      else if o.Destruct? then t.(vecs := Older(t.vecs, 0))
      else t
  }

  ghost predicate SysRep(s: Sys, t: VecSys) {
    && t.depth == |s.w.marks| && s.arrs.Keys == t.vecs.Keys
    && forall n :: n in s.arrs ==> RepVec(s.w, s.arrs[n], t.vecs[n])
  }

  lemma KeepRep(w: World, u: World, a: Arr, v: Vec)
    requires RepVec(w, a, v) && (a.NeedsBuf() ==> a.buf in w.live && SameBlock(w, u, a.buf))
    ensures RepVec(u, a, v)
  {
    KeepArr(w, u, a);
  }

  /** An array that an operation on another array left alone. */
  lemma BystanderRep(s: Sys, n: nat, u: World, b: Arr, k: nat, v: Vec)
    requires SysOk(s) && n in s.arrs && k in s.arrs && k != n
    requires OthersKept(s.w, s.arrs[n], u, b) && RepVec(s.w, s.arrs[k], v)
    ensures RepVec(u, s.arrs[k], v)
    ensures s.arrs[k].NeedsBuf() && b.NeedsBuf() ==> s.arrs[k].buf != b.buf
  {
    var a, c := s.arrs[n], s.arrs[k];
    if c.NeedsBuf() {
      assert c.buf < s.w.next;
      assert a.NeedsBuf() ==> c.buf != a.buf;
      assert SameBlock(s.w, u, c.buf);
    }
    KeepRep(s.w, u, c, v);
  }

  lemma OnRep(s: Sys, t: VecSys, n: nat, o: ArrayOp)
    requires SysOk(s) && SysRep(s, t) && SysEnabled(s, On(n, o))
    ensures VecEnabled(t, On(n, o))
    ensures SysOk(SysStep(s, On(n, o))) && SysRep(SysStep(s, On(n, o)), VecStep(t, On(n, o)))
  {
    ArrayEffect(s.w, s.arrs[n], t.vecs[n], o);
    var u, b := DoWorld(s.w, s.arrs[n], o), DoArr(s.w, s.arrs[n], o);
    forall k | k in s.arrs && k != n
      ensures RepVec(u, s.arrs[k], t.vecs[k])
      ensures s.arrs[k].NeedsBuf() && b.NeedsBuf() ==> s.arrs[k].buf != b.buf
    {
      BystanderRep(s, n, u, b, k, t.vecs[k]);
    }
    Rebuild(s, u, n, b);
    RebuildRep(s, t, u, n, b, VecDo(t.vecs[n], o, t.depth));
  }

  /** The arrays of a system after one of them, old or new, was replaced. */
  lemma Rebuild(s: Sys, u: World, n: nat, b: Arr)
    requires SysOk(s) && Inv(u) && ArrOk(u, b)
    requires forall k :: k in s.arrs && k != n ==>
               ArrOk(u, s.arrs[k]) && (s.arrs[k].NeedsBuf() && b.NeedsBuf() ==> s.arrs[k].buf != b.buf)
    ensures SysOk(Sys(u, s.arrs[n := b]))
  {
  }

  /** No array notices a new block. */
  lemma NewBlockBystanders(s: Sys, t: VecSys, u: World)
    requires SysOk(s) && SysRep(s, t)
    requires forall i :: i in s.w.live ==> SameBlock(s.w, u, i)
    ensures forall k :: k in s.arrs ==>
              RepVec(u, s.arrs[k], t.vecs[k]) && (s.arrs[k].NeedsBuf() ==> s.arrs[k].buf < s.w.next)
  {
    forall k | k in s.arrs
      ensures RepVec(u, s.arrs[k], t.vecs[k]) && (s.arrs[k].NeedsBuf() ==> s.arrs[k].buf < s.w.next)
    {
      KeepRep(s.w, u, s.arrs[k], t.vecs[k]);
    }
  }

  lemma CreateRep(s: Sys, t: VecSys, n: nat, initial: nat, len: nat, filler: Elem, zero: Elem, onHeap: bool, at: nat)
    requires SysOk(s) && SysRep(s, t) && SysEnabled(s, Create(n, initial, len, filler, zero, onHeap, at))
    ensures var op := Create(n, initial, len, filler, zero, onHeap, at);
            SysOk(SysStep(s, op)) && SysRep(SysStep(s, op), VecStep(t, op))
  {
    CreatedEffect(s.w, initial, len, filler, zero, onHeap, at);
    var u, a := Created(s.w, initial, len, filler, zero, onHeap, at), NewArr(s.w, initial, len, zero, onHeap);
    NewBlockBystanders(s, t, u);
    Rebuild(s, u, n, a);
    RebuildRep(s, t, u, n, a, NewVec(s.w, initial, len, filler, zero, onHeap));
  }

  lemma RebuildRep(s: Sys, t: VecSys, u: World, n: nat, b: Arr, v: Vec)
    requires SysRep(s, t) && RepVec(u, b, v) && t.depth == |u.marks|
    requires forall k :: k in s.arrs && k != n ==> RepVec(u, s.arrs[k], t.vecs[k])
    ensures SysRep(Sys(u, s.arrs[n := b]), t.(vecs := t.vecs[n := v]))
  {
  }

  /** Does the step, someone else's, leave the block in place? */
  predicate Leaves(w: World, o: Op, b: Block) {
    && (o.Reset? || o.Release? ==> b.depth < |w.marks|)
    && (o.Destruct? ==> b.home.OnHeap?)
  }

  lemma OtherKeepsBlock(w: World, o: Op, id: nat)
    requires Inv(w) && Enabled(w, o) && id in w.live && !Touches(o, id)
    ensures id in Step(w, o).live <==> Leaves(w, o, w.live[id])
    ensures id in Step(w, o).live ==> SameBlock(w, Step(w, o), id)
  {
    assert id < w.next;
    match o
    case Realloc(j, size, at) => ReallocOthers(w, j, size, at, id);
    case Write(j, offset, value) =>
      assert w.live[j].Has(w.live[j].addr + offset);
      BlocksSeparated(w, j, id, w.live[j].addr + offset);
    case _ =>
  }

  lemma DestroyedAbove(s: Sys, t: VecSys)
    requires SysOk(s) && SysRep(s, t) && Enabled(s.w, Destruct)
    ensures NoneBelow(t)
  {
    forall n | n in t.vecs ensures t.vecs[n].max == 0 || t.vecs[n].onHeap || t.vecs[n].stamp >= t.depth {
      var a := s.arrs[n];
      assert ArrOk(s.w, a) && RepVec(s.w, a, t.vecs[n]);
      if a.max > 0 && !a.onHeap {
        AtLeastOne(a.max, a.Esz());
        BelowNeedsChunk(s.w, a.buf);
      }
    }
  }

  lemma OtherRep(s: Sys, t: VecSys, o: Op)
    requires SysOk(s) && SysRep(s, t) && SysEnabled(s, Other(o))
    ensures VecEnabled(t, Other(o))
    ensures SysOk(SysStep(s, Other(o))) && SysRep(SysStep(s, Other(o)), VecStep(t, Other(o)))
  {
    StepInv(s.w, o);
    OtherEnabled(s, t, o);
    OtherDepth(s, t, o);
    StandingAgree(s, t, o);
    StandingRep(s, t, Step(s.w, o), Standing(Step(s.w, o), s.arrs), VecStep(t, Other(o)));
  }

  lemma OtherEnabled(s: Sys, t: VecSys, o: Op)
    requires SysOk(s) && SysRep(s, t) && SysEnabled(s, Other(o))
    ensures VecEnabled(t, Other(o))
  {
    if o.Destruct? {
      DestroyedAbove(s, t);
    }
  }

  lemma OtherDepth(s: Sys, t: VecSys, o: Op)
    requires SysRep(s, t) && SysEnabled(s, Other(o)) && VecEnabled(t, Other(o))
    ensures VecStep(t, Other(o)).depth == |Step(s.w, o).marks|
    ensures forall k :: k in VecStep(t, Other(o)).vecs ==> k in t.vecs && VecStep(t, Other(o)).vecs[k] == t.vecs[k]
  {
  }

  /** The arrays that keep their blocks are those that the sequences' side keeps. */
  lemma StandingAgree(s: Sys, t: VecSys, o: Op)
    requires SysOk(s) && SysRep(s, t) && SysEnabled(s, Other(o)) && VecEnabled(t, Other(o))
    ensures var u := Step(s.w, o);
            var standing := Standing(u, s.arrs);
            forall k :: k in s.arrs ==>
              && (k in standing <==> k in VecStep(t, Other(o)).vecs)
              && (k in standing ==> RepVec(u, s.arrs[k], t.vecs[k]))
  {
    var u := Step(s.w, o);
    var standing := Standing(u, s.arrs);
    forall k | k in s.arrs
      ensures k in standing <==> k in VecStep(t, Other(o)).vecs
      ensures k in standing ==> RepVec(u, s.arrs[k], t.vecs[k])
    {
      OtherKeepsArray(s.w, o, s.arrs[k], t.vecs[k]);
    }
  }

  lemma StandingRep(s: Sys, t: VecSys, u: World, standing: map<nat, Arr>, q: VecSys)
    requires SysOk(s) && SysRep(s, t) && Inv(u) && q.depth == |u.marks|
    requires forall k :: k in standing ==> k in s.arrs && standing[k] == s.arrs[k]
    requires forall k :: k in q.vecs ==> k in t.vecs && q.vecs[k] == t.vecs[k]
    requires forall k :: k in s.arrs ==>
               (k in standing <==> k in q.vecs) && (k in standing ==> RepVec(u, s.arrs[k], t.vecs[k]))
    ensures SysOk(Sys(u, standing)) && SysRep(Sys(u, standing), q)
  {
    assert standing.Keys == q.vecs.Keys;
  }

  /** Does the array stand after the step? */
  predicate Stands(v: Vec, o: Op, depth: nat) {
    || v.max == 0 || v.onHeap
    || ((o.Reset? || o.Release? ==> v.stamp < depth) && !o.Destruct?)
  }

  lemma OtherKeepsArray(w: World, o: Op, a: Arr, v: Vec)
    requires Inv(w) && Enabled(w, o) && RepVec(w, a, v) && (a.NeedsBuf() ==> !Touches(o, a.buf))
    ensures var stands := a.NeedsBuf() ==> a.buf in Step(w, o).live;
            && (stands <==> Stands(v, o, |w.marks|))
            && (stands ==> RepVec(Step(w, o), a, v))
  {
    if a.NeedsBuf() {
      OtherKeepsBlock(w, o, a.buf);
      assert Placed(w.area, w.regions, w.live[a.buf]);
    }
    if a.NeedsBuf() ==> a.buf in Step(w, o).live {
      KeepRep(w, Step(w, o), a, v);
    }
  }

  ghost predicate SysRunEnabled(s: Sys, ops: seq<SysOp>)
    decreases |ops|
  {
    ops == [] || (SysEnabled(s, ops[0]) && SysRunEnabled(SysStep(s, ops[0]), ops[1..]))
  }

  ghost function SysRun(s: Sys, ops: seq<SysOp>): Sys
    requires SysRunEnabled(s, ops)
    decreases |ops|
  {
    if ops == [] then s else SysRun(SysStep(s, ops[0]), ops[1..])
  }

  predicate VecRunEnabled(t: VecSys, ops: seq<SysOp>)
    decreases |ops|
  {
    ops == [] || (VecEnabled(t, ops[0]) && VecRunEnabled(VecStep(t, ops[0]), ops[1..]))
  }

  function VecRun(t: VecSys, ops: seq<SysOp>): VecSys
    requires VecRunEnabled(t, ops)
    decreases |ops|
  {
    if ops == [] then t else VecRun(VecStep(t, ops[0]), ops[1..])
  }

  /** One step keeps systems of arrays and of sequences in step. */
  lemma StepInStep(s: Sys, t: VecSys, op: SysOp)
    requires SysOk(s) && SysRep(s, t) && SysEnabled(s, op)
    ensures VecEnabled(t, op) && SysOk(SysStep(s, op)) && SysRep(SysStep(s, op), VecStep(t, op))
  {
    match op
    case On(n, o) => OnRep(s, t, n, o);
    case Create(n, initial, len, filler, zero, onHeap, at) =>
      CreateRep(s, t, n, initial, len, filler, zero, onHeap, at);
    case Other(o) => OtherRep(s, t, o);
  }

  /** Over every run of any number of arrays, marks and other clients, each array's items are what the same
      operations make of a plain sequence that nobody else touches. */
  lemma {:induction false} ArraysRefineSequences(s: Sys, t: VecSys, ops: seq<SysOp>)
    requires SysOk(s) && SysRep(s, t) && SysRunEnabled(s, ops)
    ensures VecRunEnabled(t, ops)
    ensures SysOk(SysRun(s, ops)) && SysRep(SysRun(s, ops), VecRun(t, ops))
    decreases |ops|
  {
    if ops != [] {
      StepInStep(s, t, ops[0]);
      ArraysRefineSequences(SysStep(s, ops[0]), VecStep(t, ops[0]), ops[1..]);
    }
  }

  /** The cost of growing, over every run: the elements that grow() has copied since an array was created or
      last deallocated never outnumber the capacity it has gained. */
  lemma RunCopyCost(s: Sys, t: VecSys, ops: seq<SysOp>, n: nat)
    requires SysOk(s) && SysRep(s, t) && SysRunEnabled(s, ops) && n in SysRun(s, ops).arrs
    ensures var a := SysRun(s, ops).arrs[n]; a.copied <= a.max - a.initial
  {
    ArraysRefineSequences(s, t, ops);
    assert ArrOk(SysRun(s, ops).w, SysRun(s, ops).arrs[n]);
  }

  /** The capacity an array started with, and the elements copied by its growths since. */
  datatype Cost = Cost(base: nat, copies: nat)

  /** The cost from the calls: creation and deallocation start it anew, and a call that enlarges the capacity copies
      every element the array has before it. */
  ghost function CostStep(c: Cost, s: Sys, op: SysOp, n: nat): Cost
    requires SysEnabled(s, op)
  {
    if op.Create? && op.name == n then Cost(op.initial, 0)
    else if op.On? && op.name == n then
      if op.op.Dealloc? then Cost(0, 0)
      else if SysStep(s, op).arrs[n].max > s.arrs[n].max then Cost(c.base, c.copies + s.arrs[n].len)
      else c
    else c
  }

  ghost function CostRun(c: Cost, s: Sys, ops: seq<SysOp>, n: nat): Cost
    requires SysRunEnabled(s, ops)
    decreases |ops|
  {
    if ops == [] then c else CostRun(CostStep(c, s, ops[0], n), SysStep(s, ops[0]), ops[1..], n)
  }

  lemma CostStepIs(c: Cost, s: Sys, op: SysOp, n: nat)
    requires SysEnabled(s, op) && (n in s.arrs ==> c == Cost(s.arrs[n].initial, s.arrs[n].copied))
    ensures var v, d := SysStep(s, op), CostStep(c, s, op, n);
            n in v.arrs ==> d == Cost(v.arrs[n].initial, v.arrs[n].copied)
  {
    match op
    case On(k, o) =>
      if k == n {
        OwnCost(s.w, s.arrs[n], o);
      }
    case _ =>
  }

  lemma OwnCost(w: World, a: Arr, o: ArrayOp)
    requires Allowed(w, a, o)
    ensures var b := DoArr(w, a, o);
            if o.Dealloc? then b.initial == b.copied == 0
            else b.initial == a.initial && b.copied == if b.max > a.max then a.copied + a.len else a.copied
  {
    if o.Append? && a.len >= a.max {
      assert NewMax(a.max, a.len) > a.max;
    }
    if o.PutGrow? && o.i >= a.max {
      assert NewMax(a.max, o.i) > a.max;
    }
  }

  lemma {:induction false} CostRunIs(c: Cost, s: Sys, ops: seq<SysOp>, n: nat)
    requires SysRunEnabled(s, ops) && (n in s.arrs ==> c == Cost(s.arrs[n].initial, s.arrs[n].copied))
    ensures var v := SysRun(s, ops);
            n in v.arrs ==> CostRun(c, s, ops, n) == Cost(v.arrs[n].initial, v.arrs[n].copied)
    decreases |ops|
  {
    if ops != [] {
      CostStepIs(c, s, ops[0], n);
      CostRunIs(CostStep(c, s, ops[0], n), SysStep(s, ops[0]), ops[1..], n);
    }
  }

  /** The cost bound in terms of the calls, from the start: between deallocations the elements copied by all growths
      never outnumber the capacity gained. */
  lemma ReachableCopyCost(m: Mem, ops: seq<SysOp>, n: nat)
    requires SysRunEnabled(Sys(Start(m), map[]), ops) && n in SysRun(Sys(Start(m), map[]), ops).arrs
    ensures var c := CostRun(Cost(0, 0), Sys(Start(m), map[]), ops, n);
            c.base + c.copies <= SysRun(Sys(Start(m), map[]), ops).arrs[n].max
  {
    var s := Sys(Start(m), map[]);
    StartInv(m);
    CostRunIs(Cost(0, 0), s, ops, n);
    RunCopyCost(s, VecSys(map[], 0), ops, n);
  }

  /** From the start, with no arrays: the systems of arrays and of sequences stay in step. */
  lemma ArraysAreSequences(m: Mem, ops: seq<SysOp>)
    requires SysRunEnabled(Sys(Start(m), map[]), ops)
    ensures VecRunEnabled(VecSys(map[], 0), ops)
    ensures SysRep(SysRun(Sys(Start(m), map[]), ops), VecRun(VecSys(map[], 0), ops))
  {
    StartInv(m);
    ArraysRefineSequences(Sys(Start(m), map[]), VecSys(map[], 0), ops);
  }
}
