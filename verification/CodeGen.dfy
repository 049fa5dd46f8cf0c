/** The expression code generator (lua/lcode.c, lua/lparser.c). */
module CodeGen {
  // Driven as by `subexpr` of lua/lparser.c.

  import opened Bytecode
  import opened PendingCode
  import opened Patching
  import opened ExpSemantics
  import opened ExpLemmas
  import opened ExpFinish
  import opened JumpLists

  /** `expkind`, for the kinds this fragment produces. */
  datatype ExpKind =
    | VNil | VTrue | VFalse
    | VK(info: nat)          // which constant
    | VKNum(nval: real)
    | VLocal(info: nat)      // register of a local
    | VJmp(info: nat)        // pc of the jump after a comparison
    | VRelocable(info: nat)  // pc of an instruction whose result register is still open
    | VNonReloc(info: nat)   // the register that holds it

  /** `expdesc`: where a value is, and the patch lists of its exits when true and when false. */
  datatype ExpDesc = ExpDesc(k: ExpKind, t: int, f: int)

  predicate HasJumps(e: ExpDesc) {
    e.t != e.f
  }

  /** Largest constant index that fits an RK operand. */
  const MAXINDEXRK: nat := 255

  ghost predicate KindOk(s: Snap, kd: ExpKind) {
    match kd
    case VK(i) => i < |s.k|
    case VRelocable(p) => |s.code| == p + 1 && s.code[p].Not? && s.lim <= p && s.J == {}
    case VJmp(p) =>
      && p >= 1 && |s.code| == p + 1 && s.code[p] == Jmp(NO_JUMP) && s.code[p - 1].Compare?
      && p in s.X && s.lim <= p - 1 && s.J == {}
    case _ => true
  }

  /** The code without the instructions that are still open. */
  ghost function BodyOf(s: Snap, kd: ExpKind): Snap
    requires KindOk(s, kd)
  {
    match kd
    case VRelocable(p) => s.(code := s.code[..p])
    case VJmp(p) => s.(code := s.code[..p - 1], X := s.X - {p})
    case _ => s
  }

  /** What the open part and the descriptor say about the value. */
  ghost function ResOf(s: Snap, kd: ExpKind): Residue
    requires KindOk(s, kd)
  {
    match kd
    case VNil => Const(Nil)
    case VTrue => Const(Boolean(true))
    case VFalse => Const(Boolean(false))
    case VK(i) => Const(s.k[i])
    case VKNum(n) => Const(Number(n))
    case VLocal(r) => InReg(r)
    case VNonReloc(r) => InReg(r)
    case VRelocable(p) => NotReg(s.code[p].b)
    case VJmp(p) => var c := s.code[p - 1]; Cmp(c.op, c.cond, c.rb, c.rc)
  }

  /** The descriptor `e`, with the lists `T` and `F`, stands for the expression of the goal. */
  ghost predicate Describes(g: Goal, s: Snap, e: ExpDesc, T: seq<nat>, F: seq<nat>) {
    && KindOk(s, e.k)
    && Computes(g, BodyOf(s, e.k), ResOf(s, e.k), ToSet(T), ToSet(F))
    && IsList(s.code, e.t, T) && IsList(s.code, e.f, F)
  }

  /** Register accounting (`luaK_reserveregs`, `freeexp`): the only temporary an expression may own
      is the first free register. */
  predicate RegsOk(kd: ExpKind, fr: nat, freereg: nat, nactvar: nat) {
    match kd
    case VLocal(r) => r < nactvar && freereg == fr
    case VNonReloc(r) => (r < nactvar && freereg == fr) || (r == fr && freereg == fr + 1)
    case _ => freereg == fr
  }

  function DischargeVars(e: ExpDesc): ExpDesc {
    if e.k.VLocal? then e.(k := VNonReloc(e.k.info)) else e
  }

  /** Emitting an instruction keeps the lists that are not due here. */
  lemma ListKeptByCode(s: Snap, start: nat, head: int, L: seq<nat>, ext: seq<Instruction>)
    requires SnapOk(s, start) && IsList(s.code, head, L) && ToSet(L) <= s.X && ToSet(L) !! s.J
    ensures IsList(Discharged(s).code + ext, head, L)
  {
    hide Discharged;
    DischargedOk(s, start);
    forall j | j in L ensures j < |s.code| && (Discharged(s).code + ext)[j] == s.code[j] {
      assert j in ToSet(L);
      JumpKept(s, start, ToSet(L), j);
    }
    IsListFrame(s.code, Discharged(s).code + ext, head, L);
  }

  /** Emitting a load of the described value. */
  lemma DescribesLoad(g: Goal, s: Snap, e: ExpDesc, T: seq<nat>, F: seq<nat>, i: Instruction, k': seq<Value>, reg: nat)
    requires Describes(g, s, e, T, F) && !e.k.VJmp? && !e.k.VRelocable?
    requires s.k <= k' && LoadsInto(i, ResOf(s, e.k), reg, k') && g.fr <= reg
    ensures Describes(g, Discharged(s).(code := Discharged(s).code + [i], k := k'), e.(k := VNonReloc(reg)), T, F)
  {
    hide Discharged;
    hide LoadsInto;
    ComputesDischarged(g, s, ResOf(s, e.k), ToSet(T), ToSet(F));
    assert Discharged(s).J == {} && Discharged(s).k == s.k by { DischargedFields(s); }
    ComputesLoad(g, Discharged(s), ResOf(s, e.k), ToSet(T), ToSet(F), i, k', reg);
    assert ToSet(T) <= s.X && ToSet(F) <= s.X;
    ListKeptByCode(s, g.start, e.t, T, [i]);
    ListKeptByCode(s, g.start, e.f, F, [i]);
  }

  lemma DischargedFields(s: Snap)
    ensures Discharged(s).J == {} && Discharged(s).k == s.k && Discharged(s).lim == s.lim
    ensures Discharged(s).X == s.X - s.J
  {
  }

  /** Giving a relocatable instruction its register. */
  lemma DescribesRelocated(g: Goal, s: Snap, e: ExpDesc, T: seq<nat>, F: seq<nat>, reg: nat)
    requires Describes(g, s, e, T, F) && e.k.VRelocable? && g.fr <= reg
    ensures Describes(g, s.(code := s.code[e.k.info := Not(reg, s.code[e.k.info].b)]), e.(k := VNonReloc(reg)), T, F)
  {
    var p := e.k.info;
    var b := BodyOf(s, e.k);
    var i := Not(reg, s.code[p].b);
    assert b.code + [i] == s.code[p := i];
    ComputesLoad(g, b, ResOf(s, e.k), ToSet(T), ToSet(F), i, s.k, reg);
    ListKeptBelow(s.code, s.code[p := i], p, e.t, T);
    ListKeptBelow(s.code, s.code[p := i], p, e.f, F);
  }

  /** A described snapshot is in order, apart from its open instructions. */
  lemma DescribesSnap(g: Goal, s: Snap, e: ExpDesc, T: seq<nat>, F: seq<nat>)
    requires Describes(g, s, e, T, F)
    requires e.k.VRelocable? || e.k.VJmp? ==> SnapOk(s, g.start)
    ensures SnapOk(s, g.start)
  {
  }

  lemma DescribesMoreConstants(g: Goal, s: Snap, e: ExpDesc, T: seq<nat>, F: seq<nat>, k': seq<Value>)
    requires Describes(g, s, e, T, F) && s.k <= k' && SnapOk(s, g.start)
    ensures Describes(g, s.(k := k'), e, T, F) && SnapOk(s.(k := k'), g.start)
  {
    hide Computes;
    ComputesMoreConstants(g, BodyOf(s, e.k), ResOf(s, e.k), ToSet(T), ToSet(F), k');
    SemMoreConstants(s, g.start, k', map[]);
    assert BodyOf(s.(k := k'), e.k) == BodyOf(s, e.k).(k := k');
    assert ResOf(s.(k := k'), e.k) == ResOf(s, e.k);
  }

  lemma NoJumpsHere(s: Snap, start: nat, J: seq<nat>)
    requires SnapOk(s, start) && s.J == ToSet(J) && (s.lim < |s.code| || s.code == [])
    ensures J == []
  {
    assert s.J == {} by {
      assert s.code == [] ==> s.X == {};
    }
    if J != [] {
      NonEmptyToSet(J);
      assert false;
    }
  }

  lemma DescribesGoal(g: Goal, s: Snap, e: ExpDesc, T: seq<nat>, F: seq<nat>)
    requires Describes(g, s, e, T, F)
    ensures GoalOk(g)
  {
  }

  lemma ListHead(code: seq<Instruction>, h1: int, h2: int, L: seq<nat>)
    requires IsList(code, h1, L) && IsList(code, h2, L)
    ensures h1 == h2
  {
  }

  lemma EmptyList(code: seq<Instruction>)
    ensures IsList(code, NO_JUMP, [])
  {
  }

  lemma NonEmptyToSet(J: seq<nat>)
    requires J != []
    ensures ToSet(J) != {}
  {
    assert J[0] in ToSet(J);
  }

  lemma ListKeptBelow(code: seq<Instruction>, code': seq<Instruction>, p: nat, head: int, L: seq<nat>)
    requires IsList(code, head, L) && p < |code| && p <= |code'| && !code[p].Jmp?
    requires forall j :: 0 <= j < p ==> code'[j] == code[j]
    requires p + 1 == |code|
    ensures IsList(code', head, L)
  {
    forall j | j in L ensures j < |code| && j < |code'| && code'[j] == code[j] {
      assert j != p;
    }
    IsListFrame(code, code', head, L);
  }

  // ----- conditional jumps -----

  /** After the guard: go on when the truth is `want`, leave through `L` otherwise. */
  ghost predicate GuardedBy(g: Goal, s: Snap, want: bool, list: int, L: seq<nat>) {
    Guards(g, s, want, ToSet(L)) && IsList(s.code, list, L)
  }

  /** A test has been appended: its jump `pc` is taken when the truth is not `want`; once the exits
      for `want` are declared due here, the code is a guard. */
  ghost predicate Tested(g: Goal, s: Snap, want: bool, pc: nat, T: set<nat>, F: set<nat>) {
    && SnapOk(s, g.start) && s.J == {} && |s.code| == pc + 1
    && T <= s.X && F <= s.X && T !! F && pc in s.X && pc !in T && pc !in F
    && var (due, rest) := if want then (T, F) else (F, T);
       Guards(g, s.(J := due, lim := |s.code|), want, rest + {pc})
  }

  lemma TestedIntro(g: Goal, b: Snap, res: Residue, T: set<nat>, F: set<nat>, i: Instruction, link: int, want: bool)
    requires Computes(g, b, res, T, F) && b.J == {} && Tests(i, res, want)
    ensures Tested(g, b.(code := b.code + [i, Jmp(link)], X := b.X + {|b.code| + 1}), want, |b.code| + 1, T, F)
  {
    TestsActs(i, res, want, b.k, |b.code|, map[]);
    SnapAppendTest(b, g.start, i, link);
    GuardsTest(g, b, res, T, F, i, link, want);
  }

  /** The comparison of a jump descriptor as a test; for `want` true its condition is inverted. */
  lemma TestedComparison(g: Goal, s: Snap, e: ExpDesc, T: seq<nat>, F: seq<nat>, want: bool)
    requires Describes(g, s, e, T, F) && e.k.VJmp?
    ensures var p := e.k.info;
            var c := s.code[p - 1];
            var s' := if want then s.(code := s.code[p - 1 := c.(cond := !c.cond)]) else s;
            && Tested(g, s', want, p, ToSet(T), ToSet(F))
            && IsList(s'.code, e.t, T) && IsList(s'.code, e.f, F) && IsList(s'.code, p, [p])
  {
    var p := e.k.info;
    var c := s.code[p - 1];
    var s' := if want then s.(code := s.code[p - 1 := c.(cond := !c.cond)]) else s;
    var b := BodyOf(s, e.k);
    TestedIntro(g, b, ResOf(s, e.k), ToSet(T), ToSet(F), s'.code[p - 1], NO_JUMP, want);
    assert s' == b.(code := b.code + [s'.code[p - 1], Jmp(NO_JUMP)], X := b.X + {|b.code| + 1});
    IsListFrame(s.code, s'.code, e.t, T);
    IsListFrame(s.code, s'.code, e.f, F);
    assert LinkAt(s'.code, [p], 0);
  }

  lemma TestedLists(g: Goal, s: Snap, want: bool, pc: nat, T: seq<nat>, F: seq<nat>)
    requires Tested(g, s, want, pc, ToSet(T), ToSet(F))
    ensures pc !in T && pc !in F
    ensures forall j :: j in T ==> j !in F
    ensures forall j :: j in F ==> j !in T
  {
    assert forall j :: j in T ==> j in ToSet(T);
    assert forall j :: j in F ==> j in ToSet(F);
  }

  lemma OtherListKept(code: seq<Instruction>, code': seq<Instruction>, D: seq<nat>, head: int, L: seq<nat>)
    requires Relinked(code, code', ToSet(D)) && IsList(code, head, L)
    requires forall j :: j in L ==> j !in D
    ensures IsList(code', head, L)
  {
    IsListFrame(code, code', head, L);
  }

  lemma DisjointLists(L: seq<nat>, M: seq<nat>)
    requires ToSet(L) !! ToSet(M)
    ensures forall j :: j in L ==> j !in M
    ensures forall j :: j in M ==> j !in L
  {
    assert forall j :: j in L ==> j in ToSet(L);
    assert forall j :: j in M ==> j in ToSet(M);
  }

  lemma RelinkedNothing(code: seq<Instruction>, code': seq<Instruction>)
    requires Relinked(code, code', ToSet([]))
    ensures code == code'
  {
  }

  lemma GuardsSnap(g: Goal, s: Snap, want: bool, L: set<nat>)
    requires Guards(g, s, want, L)
    ensures SnapOk(s, g.start)
  {
  }

  /** Declaring the exits for `want` due here, after the test's own jump has joined the others. */
  lemma GuardedIntro(g: Goal, s: Snap, want: bool, pc: nat, T: seq<nat>, F: seq<nat>,
                     code1: seq<Instruction>, code2: seq<Instruction>, list: int)
    requires Tested(g, s, want, pc, ToSet(T), ToSet(F))
    requires Relinked(s.code, code1, ToSet(if want then F else T)) && code2 == code1
    requires IsList(code2, list, (if want then F else T) + [pc])
    ensures var (due, rest) := if want then (T, F) else (F, T);
            GuardedBy(g, Snap(code2, s.k, s.X, ToSet(due), |s.code|), want, list, rest + [pc])
  {
    hide Guards;
    var (due, rest) := if want then (T, F) else (F, T);
    var s' := s.(J := ToSet(due), lim := |s.code|);
    assert ToSet(rest + [pc]) == ToSet(rest) + {pc};
    assert Guards(g, s', want, ToSet(rest + [pc]));
    assert Relinked(s'.code, code2, ToSet(rest + [pc]) + s'.J);
    GuardsRelinked(g, s', want, ToSet(rest + [pc]), code2);
  }

  lemma BodyKeepsLists(s: Snap, e: ExpDesc, T: seq<nat>, F: seq<nat>, start: nat)
    requires KindOk(s, e.k) && e.k.VRelocable? && IsList(s.code, e.t, T) && IsList(s.code, e.f, F)
    ensures IsList(BodyOf(s, e.k).code, e.t, T) && IsList(BodyOf(s, e.k).code, e.f, F)
  {
    ListKeptBelow(s.code, s.code[..e.k.info], e.k.info, e.t, T);
    ListKeptBelow(s.code, s.code[..e.k.info], e.k.info, e.f, F);
  }

  lemma ListAppended(code: seq<Instruction>, code': seq<Instruction>, head: int, L: seq<nat>)
    requires IsList(code, head, L) && code <= code'
    ensures IsList(code', head, L)
  {
    IsListFrame(code, code', head, L);
  }

  lemma ListKeptByCode'(g: Goal, s: Snap, e: ExpDesc, T: seq<nat>, F: seq<nat>, ext: seq<Instruction>)
    requires Describes(g, s, e, T, F) && !e.k.VJmp? && !e.k.VRelocable?
    ensures IsList(Discharged(s).code + ext, e.t, T) && IsList(Discharged(s).code + ext, e.f, F)
  {
    assert ToSet(T) <= s.X && ToSet(F) <= s.X;
    ListKeptByCode(s, g.start, e.t, T, ext);
    ListKeptByCode(s, g.start, e.f, F, ext);
  }

  // ----- all exits into one register -----

  lemma ComputesSnap(g: Goal, s: Snap, res: Residue, T: set<nat>, F: set<nat>)
    requires Computes(g, s, res, T, F)
    ensures SnapOk(s, g.start)
  {
  }

  /** Patching one list keeps another. */
  lemma ListKeptByPatch(code: seq<Instruction>, kk: seq<Value>, X: set<nat>, lim: nat, L: set<nat>,
                        vtarget: int, reg: int, dtarget: int, head: int, M: seq<nat>)
    requires WellFormed(code, kk, X, lim) && L <= X && IsList(code, head, M)
    requires forall j :: j in M ==> j in X && j !in L
    ensures IsList(Patched(code, L, vtarget, reg, dtarget), head, M)
  {
    hide Patched;
    var code' := Patched(code, L, vtarget, reg, dtarget);
    forall j | j in M ensures j < |code| && j < |code'| && code'[j] == code[j] {
      OtherJumpKept(code, kk, X, lim, L, vtarget, reg, dtarget, j);
    }
    IsListFrame(code, code', head, M);
  }

  /** What `JoinExits` needs at each of its two patches. */
  lemma JoinedFacts(g: Goal, s: Snap, reg: nat, T: seq<nat>, F: seq<nat>, t: int, jpc: int, J: seq<nat>)
    requires Computes(g, s, InReg(reg), ToSet(T), ToSet(F)) && s.J == ToSet(J)
    requires AllDeliver(s.code, ToSet(T) + ToSet(F)) && IsList(s.code, t, T) && IsList(s.code, jpc, J)
    ensures var n := |s.code|;
            var codeF := Patched(s.code, ToSet(F), n, reg, -1);
            && ToSet(F) <= s.X && ToSet(T) <= s.X - ToSet(F) && |codeF| == n
            && (forall j :: j in F ==> j < n && Target(s.code, j, n, -1) != NO_JUMP)
            && WellFormed(s.code, s.k, s.X, s.lim) && WellFormed(codeF, s.k, s.X - ToSet(F), n)
            && IsList(codeF, t, T)
            && (forall j :: j in T ==> j < n && Target(codeF, j, n, -1) != NO_JUMP)
            && IsList(Patched(codeF, ToSet(T), n, reg, -1), jpc, J)
            && |Patched(codeF, ToSet(T), n, reg, -1)| == n
  {
    hide Patched;
    var n := |s.code|;
    var codeF := Patched(s.code, ToSet(F), n, reg, -1);
    assert forall j :: j in T ==> j in ToSet(T);
    assert forall j :: j in F ==> j in ToSet(F);
    assert forall j :: j in J ==> j in ToSet(J);
    JoinedOk(g, s, reg, ToSet(T), ToSet(F));
    EndPatchable(s.code, s.k, s.X, s.lim, ToSet(F), reg);
    ListKeptByPatch(s.code, s.k, s.X, s.lim, ToSet(F), n, reg, -1, t, T);
    ListKeptByPatch(s.code, s.k, s.X, s.lim, ToSet(F), n, reg, -1, jpc, J);
    EndPatchable(codeF, s.k, s.X - ToSet(F), n, ToSet(T), reg);
    ListKeptByPatch(codeF, s.k, s.X - ToSet(F), n, ToSet(T), n, reg, -1, jpc, J);
  }

  /** What `LabelExits` needs at each of its two patches. */
  lemma LabelFacts(g: Goal, b: Snap, reg: nat, T: seq<nat>, F: seq<nat>, D: seq<nat>, t: int, f: int, fj: int)
    requires Delivers(g, b, reg, ToSet(T), ToSet(F)) && b.J == ToSet(D)
    requires IsList(b.code, t, T) && IsList(b.code, f, F) && IsList(b.code, fj, D)
    ensures var code1 := b.code + [LoadBool(reg, false, true), LoadBool(reg, true, false)];
            var n := |code1|;
            var codeF := Patched(code1, ToSet(F), n, reg, n - 2);
            && ToSet(F) <= b.X && ToSet(T) <= b.X - ToSet(F) && |codeF| == n
            && WellFormed(code1, b.k, b.X, n) && WellFormed(codeF, b.k, b.X - ToSet(F), n)
            && IsList(code1, f, F) && IsList(code1, fj, D) && IsList(codeF, t, T)
            && (forall j :: j in F ==> j < n) && (forall j :: j in T ==> j < n)
            && IsList(Patched(codeF, ToSet(T), n, reg, n - 1), fj, D)
            && |Patched(codeF, ToSet(T), n, reg, n - 1)| == n
  {
    hide Patched;
    var code1 := b.code + [LoadBool(reg, false, true), LoadBool(reg, true, false)];
    var n := |code1|;
    var codeF := Patched(code1, ToSet(F), n, reg, n - 2);
    assert forall j :: j in T ==> j in ToSet(T);
    assert forall j :: j in F ==> j in ToSet(F);
    assert forall j :: j in D ==> j in ToSet(D);
    LabelsAppended(b, g.start, reg);
    ListAppended(b.code, code1, t, T);
    ListAppended(b.code, code1, f, F);
    ListAppended(b.code, code1, fj, D);
    LabelsPatchable(code1, b.k, b.X, ToSet(F), reg, false);
    PatchedShape(code1, b.k, b.X, n, ToSet(F), n, reg, n - 2);
    ListKeptByPatch(code1, b.k, b.X, n, ToSet(F), n, reg, n - 2, t, T);
    ListKeptByPatch(code1, b.k, b.X, n, ToSet(F), n, reg, n - 2, fj, D);
    LabelsPatchable(codeF, b.k, b.X - ToSet(F), ToSet(T), reg, true);
    PatchedShape(codeF, b.k, b.X - ToSet(F), n, ToSet(T), n, reg, n - 1);
    ListKeptByPatch(codeF, b.k, b.X - ToSet(F), n, ToSet(T), n, reg, n - 1, fj, D);
  }

  lemma HeadInSet(L: seq<nat>)
    requires L != []
    ensures L[0] in ToSet(L)
  {
  }

  lemma NoJumpsNoLists(g: Goal, s: Snap, e: ExpDesc, T: seq<nat>, F: seq<nat>)
    requires Describes(g, s, e, T, F) && !HasJumps(e)
    ensures T == [] && F == [] && e.t == NO_JUMP && e.f == NO_JUMP
  {
    if T != [] && F != [] {
      HeadInSet(T);
      HeadInSet(F);
      assert false;
    }
  }

  lemma ComparisonDelivers(g: Goal, s: Snap, e: ExpDesc, reg: nat, T: seq<nat>, F: seq<nat>)
    requires Describes(g, s, e, T, F) && e.k.VJmp? && SnapOk(s, g.start)
    ensures var p := e.k.info;
            && Delivers(g, s, reg, ToSet(T + [p]), ToSet(F))
            && IsList(s.code, p, [p]) && p !in T
            && (forall j :: j in F ==> j !in T)
  {
    hide Delivers;
    var p := e.k.info;
    var b := BodyOf(s, e.k);
    var c := s.code[p - 1];
    DeliversComparison(g, b, c.op, c.cond, c.rb, c.rc, reg, ToSet(T), ToSet(F), NO_JUMP);
    assert s == b.(code := b.code + [Compare(c.op, c.cond, c.rb, c.rc), Jmp(NO_JUMP)], X := b.X + {|b.code| + 1});
    assert ToSet(T + [p]) == ToSet(T) + {p};
    assert LinkAt(s.code, [p], 0);
    assert forall j :: j in T ==> j in ToSet(T);
    assert forall j :: j in F ==> j in ToSet(F);
  }

  lemma ComparisonRelinked(g: Goal, s: Snap, code': seq<Instruction>, reg: nat, p: nat, T: seq<nat>, F: seq<nat>)
    requires Delivers(g, s, reg, ToSet(T + [p]), ToSet(F)) && Relinked(s.code, code', ToSet(T))
    ensures Delivers(g, s.(code := code'), reg, ToSet(T + [p]), ToSet(F))
  {
    hide Delivers;
    assert Relinked(s.code, code', ToSet(T + [p]) + ToSet(F));
    DeliversRelinked(g, s, reg, ToSet(T + [p]), ToSet(F), code');
  }

  // ----- and, or -----

  lemma LogicalLists(g1: Goal, s1: Snap, want: bool, list: int, L: seq<nat>,
                     g2: Goal, s: Snap, e: ExpDesc, T: seq<nat>, F: seq<nat>, jpc: int, J: seq<nat>)
    requires GuardedBy(g1, s1, want, list, L)
    requires g2 == Goal(s1, g1.start, g1.nact, g1.fr, g2.ex) && Describes(g2, s, e, T, F)
    requires SnapOk(s, g1.start) && s.J == ToSet(J)
    ensures IsList(s.code, list, L)
    ensures forall j :: j in T + F ==> j !in L
    ensures forall j :: j in T ==> j !in F
    ensures forall j :: j in J ==> j !in T && j !in F
  {
    assert forall j :: j in T ==> j in ToSet(T);
    assert forall j :: j in F ==> j in ToSet(F);
    assert forall j :: j in J ==> j in ToSet(J);
    var b := BodyOf(s, e.k);
    forall j | j in L ensures j < |s1.code| && j < |s.code| && s.code[j] == s1.code[j] && j !in ToSet(T) + ToSet(F) {
      assert j in ToSet(L);
      assert SameJump(s1.code, b.code, j);
    }
    IsListFrame(s1.code, s.code, list, L);
  }

  lemma LogicalJoined(g1: Goal, s1: Snap, want: bool, L: seq<nat>,
                      g2: Goal, s: Snap, e: ExpDesc, T: seq<nat>, F: seq<nat>, code': seq<Instruction>)
    requires Guards(g1, s1, want, ToSet(L))
    requires g2 == Goal(s1, g1.start, g1.nact, g1.fr, g2.ex)
    requires KindOk(s, e.k) && Computes(g2, BodyOf(s, e.k), ResOf(s, e.k), ToSet(T), ToSet(F))
    requires SnapOk(s, g1.start)
    requires Relinked(s.code, code', ToSet(if want then F else T))
    ensures var g := g1.(ex := BinE(if want then OprAnd else OprOr, g1.ex, g2.ex));
            var s' := s.(code := code');
            && KindOk(s', e.k) && SnapOk(s', g1.start)
            && Computes(g, BodyOf(s', e.k), ResOf(s', e.k),
                        ToSet(if want then T else T + L), ToSet(if want then F + L else F))
  {
    hide Computes;
    hide Guards;
    var g := g1.(ex := BinE(if want then OprAnd else OprOr, g1.ex, g2.ex));
    var b, res := BodyOf(s, e.k), ResOf(s, e.k);
    var M := ToSet(if want then F else T);
    var T', F' := ToSet(if want then T else T + L), ToSet(if want then F + L else F);
    ComputesLists(g2, b, res, ToSet(T), ToSet(F));
    ComputesLogical(g1, s1, want, ToSet(L), b, res, ToSet(T), ToSet(F), g2.ex);
    assert ToSet(T + L) == ToSet(T) + ToSet(L) && ToSet(F + L) == ToSet(F) + ToSet(L);
    assert SameUpToPending(s.code, code', s.X);
    SemRelinked(s, g1.start, code', map[]);
    RelinkedOpen(s, e.k, code', M);
    assert Relinked(b.code, code'[..|b.code|], T' + F' + b.J);
    ComputesRelinked(g, b, res, T', F', code'[..|b.code|]);
  }

  lemma RelinkedOpen(s: Snap, kd: ExpKind, code': seq<Instruction>, M: set<nat>)
    requires KindOk(s, kd) && Relinked(s.code, code', M)
    requires forall j :: j in M ==> j < |BodyOf(s, kd).code|
    ensures var s', n := s.(code := code'), |BodyOf(s, kd).code|;
            && KindOk(s', kd) && ResOf(s', kd) == ResOf(s, kd)
            && BodyOf(s', kd) == BodyOf(s, kd).(code := code'[..n])
            && Relinked(BodyOf(s, kd).code, code'[..n], M)
  {
    var n := |BodyOf(s, kd).code|;
    assert forall p :: n <= p < |s.code| ==> code'[p] == s.code[p];
  }

  lemma LogicalFrames(code: seq<Instruction>, code': seq<Instruction>, M: seq<nat>, h1: int, L1: seq<nat>, h2: int, L2: seq<nat>)
    requires Relinked(code, code', ToSet(M)) && IsList(code, h1, L1) && IsList(code, h2, L2)
    requires forall j :: j in L1 ==> j !in M
    requires forall j :: j in L2 ==> j !in M
    ensures IsList(code', h1, L1) && IsList(code', h2, L2)
  {
    OtherListKept(code, code', M, h1, L1);
    OtherListKept(code, code', M, h2, L2);
  }

  // ----- comparisons -----

  /** The operand is settled: a constant that fits an RK field, or a register. */
  predicate IsOperand(e: ExpDesc) {
    && e.t == NO_JUMP && e.f == NO_JUMP
    && (e.k.VK? || e.k.VNonReloc?)
  }

  /** `luaK_exp2RK` on a settled operand. */
  function OperandOf(e: ExpDesc): RK
    requires IsOperand(e)
  {
    if e.k.VK? then Kst(e.k.info) else Reg(e.k.info)
  }

  /** The opcode and condition `luaK_posfix` passes for each comparison operator. */
  function OpCodeOf(opr: BinOpr): (Comparison, bool)
    requires !opr.OprAnd? && !opr.OprOr?
  {
    match opr
    case OprEq => (Eq, true)
    case OprNe => (Eq, false)
    case OprLt => (Lt, true)
    case OprLe => (Le, true)
    case OprGt => (Lt, false)
    case OprGe => (Le, false)
  }

  lemma ComparedOperands(g1: Goal, s1: Snap, e1: ExpDesc, g2: Goal, s: Snap, e2: ExpDesc, opr: BinOpr)
    requires !opr.OprAnd? && !opr.OprOr? && IsOperand(e1) && IsOperand(e2)
    requires Describes(g1, s1, e1, [], []) && Describes(g2, s, e2, [], [])
    requires g2 == Goal(s1, g1.start, g1.nact, g2.fr, g2.ex) && g1.fr <= g2.fr
    requires e1.k.VNonReloc? ==> e1.k.info < g2.fr
    ensures Computes(g1.(ex := BinE(opr, g1.ex, g2.ex)), s, ComparisonOf(opr, OperandOf(e1), OperandOf(e2)), {}, {})
  {
    hide Computes;
    assert ToSet([]) == {};
    ComputesComparison(g1, s1, ResOf(s1, e1.k), OperandOf(e1), g2.fr, s, ResOf(s, e2.k), OperandOf(e2), opr, g2.ex);
  }

  lemma ComputesResidue(g: Goal, b: Snap, res: Residue)
    requires Computes(g, b, res, {}, {})
    ensures ResidueOk(res, b.k)
  {
  }

  lemma NotPending(b: Snap, start: nat, p: nat)
    requires SnapOk(b, start) && p >= |b.code|
    ensures p !in b.X
  {
  }

  // ----- negation -----

  /** The open part and the descriptor of `s` say the negation of what `b` and `res` say. */
  ghost predicate Negates(g: Goal, b: Snap, res: Residue, s: Snap, kd: ExpKind, T: set<nat>, F: set<nat>) {
    && Computes(g, b, res, T, F) && !res.NotReg?
    && KindOk(s, kd) && BodyOf(s, kd) == b && ResOf(s, kd) == Negated(res)
  }

  lemma NegatesLists(g: Goal, b: Snap, res: Residue, s: Snap, kd: ExpKind, T: set<nat>, F: set<nat>)
    requires Negates(g, b, res, s, kd, T, F)
    ensures T <= s.X && F <= s.X
  {
  }

  function Inverted(code: seq<Instruction>, p: nat): seq<Instruction>
    requires 1 <= p < |code| && code[p - 1].Compare?
  {
    code[p - 1 := code[p - 1].(cond := !code[p - 1].cond)]
  }

  lemma InvertedOk(s: Snap, start: nat, p: nat)
    requires SnapOk(s, start) && 1 <= p < |s.code| && s.code[p - 1].Compare?
    ensures SnapOk(s.(code := Inverted(s.code, p)), start)
  {
    var code' := Inverted(s.code, p);
    forall q | 0 <= q < |code'| ensures Fits(code', s.k, s.X, s.lim, q) {
      assert Fits(s.code, s.k, s.X, s.lim, q);
    }
  }

  /** Removing values keeps every list and the order of the code. */
  lemma RemovedOk(s: Snap, start: nat, D: set<nat>, h1: int, L1: seq<nat>, h2: int, L2: seq<nat>)
    requires SnapOk(s, start) && D <= s.X && IsList(s.code, h1, L1) && IsList(s.code, h2, L2)
    ensures SnapOk(s.(code := Removed(s.code, D)), start)
    ensures IsList(Removed(s.code, D), h1, L1) && IsList(Removed(s.code, D), h2, L2)
  {
    hide Run;
    RemovedSame(s.code, s.k, s.X, s.lim, D);
    SemRelinked(s, start, Removed(s.code, D), map[]);
    RemovedList(s.code, D, h1, L1);
    RemovedList(s.code, D, h2, L2);
  }

  lemma RemovedList(code: seq<Instruction>, D: set<nat>, head: int, L: seq<nat>)
    requires IsList(code, head, L)
    ensures IsList(Removed(code, D), head, L)
  {
    forall j | j in L ensures j < |code| && Removed(code, D)[j] == code[j] {
      assert Removed(code, D)[j] == RemovedAt(code, D, j);
    }
    IsListFrame(code, Removed(code, D), head, L);
  }

  /** Only the code before the open part changes. */
  lemma RemovedPrefix(code: seq<Instruction>, D: set<nat>, n: nat)
    requires n <= |code| && forall j :: j in D ==> j < n
    ensures Removed(code, D)[..n] == Removed(code[..n], D)
    ensures Removed(code, D)[n..] == code[n..]
  {
    forall p | 0 <= p < n ensures Removed(code, D)[p] == Removed(code[..n], D)[p] {
      assert Removed(code, D)[p] == RemovedAt(code, D, p);
      assert Removed(code[..n], D)[p] == RemovedAt(code[..n], D, p);
    }
    forall p | n <= p < |code| ensures Removed(code, D)[p] == code[p] {
      assert Removed(code, D)[p] == RemovedAt(code, D, p);
    }
  }

  lemma NegatesRemoved(g: Goal, b: Snap, res: Residue, s: Snap, start: nat, kd: ExpKind,
                       T: seq<nat>, F: seq<nat>, t: int, f: int, jpc: int, J: seq<nat>)
    requires Negates(g, b, res, s, kd, ToSet(T), ToSet(F)) && SnapOk(s, start)
    requires IsList(s.code, t, F) && IsList(s.code, f, T) && IsList(s.code, jpc, J)
    ensures var s' := s.(code := Removed(s.code, ToSet(T) + ToSet(F)));
            && SnapOk(s', start) && IsList(s'.code, jpc, J)
            && Describes(g.(ex := NotE(g.ex)), s', ExpDesc(kd, t, f), F, T)
  {
    hide Computes;
    hide Removed;
    hide WellFormed;
    var D := ToSet(T) + ToSet(F);
    ComputesLists(g, b, res, ToSet(T), ToSet(F));
    RemovedOk(s, start, D, t, F, jpc, J);
    RemovedList(s.code, D, f, T);
    ComputesNot(g, b, res, ToSet(T), ToSet(F));
    RemovedOpen(s, kd, D);
  }

  lemma ComputesLists(g: Goal, b: Snap, res: Residue, T: set<nat>, F: set<nat>)
    requires Computes(g, b, res, T, F)
    ensures T <= b.X && F <= b.X && T !! F && SnapOk(b, g.start)
    ensures forall j :: j in b.X ==> j < |b.code| && b.code[j].Jmp?
  {
  }

  /** Removing values in the body leaves the open part alone. */
  lemma RemovedOpen(s: Snap, kd: ExpKind, D: set<nat>)
    requires KindOk(s, kd) && forall j :: j in D ==> j < |BodyOf(s, kd).code|
    ensures var s' := s.(code := Removed(s.code, D));
            && KindOk(s', kd) && ResOf(s', kd) == ResOf(s, kd)
            && BodyOf(s', kd) == BodyOf(s, kd).(code := Removed(BodyOf(s, kd).code, D))
  {
    hide Removed;
    var n := |BodyOf(s, kd).code|;
    var code' := Removed(s.code, D);
    RemovedPrefix(s.code, D, n);
    assert s.code[..n] == BodyOf(s, kd).code;
    assert |code'| == |s.code| by { RemovedLength(s.code, D); }
    assert forall p :: n <= p < |s.code| ==> code'[p] == code'[n..][p - n] == s.code[n..][p - n] == s.code[p];
  }

  lemma RemovedLength(code: seq<Instruction>, D: set<nat>)
    ensures |Removed(code, D)| == |code|
  {
  }

  class FuncState {
    var code: seq<Instruction>   // f->code[0..pc); pc is its length
    var k: seq<Value>            // the constant table
    var h: map<Value, nat>       // where each constant is in k
    var jpc: int                 // head of the list `J` of jumps that are due here
    var lasttarget: int          // latest place that a jump may lead to
    var freereg: nat
    var nactvar: nat
    ghost var J: seq<nat>        // the list jpc
    ghost var X: set<nat>        // all pending jumps
    ghost var start: nat         // where execution enters

    constructor (nparams: nat)
      ensures Valid() && S() == Snap([], [], {}, {}, 0) && start == 0 && nactvar == nparams == freereg
      ensures J == []
    {
      code, k, h := [], [], map[];
      jpc, lasttarget := NO_JUMP, -1;
      freereg, nactvar := nparams, nparams;
      J, X, start := [], {}, 0;
    }

    ghost function Lim(): nat
      reads this
    {
      if lasttarget < 0 then 0 else lasttarget
    }

    ghost function S(): Snap
      reads this
    {
      Snap(code, k, X, ToSet(J), Lim())
    }

    ghost predicate Valid()
      reads this
    {
      && SnapOk(S(), start)
      && IsList(code, jpc, J)
      && -1 <= lasttarget <= |code|
      && (forall v :: v in h ==> h[v] < |k| && k[h[v]] == v)
      && nactvar <= freereg
    }

    ghost predicate Means(g: Goal, e: ExpDesc, T: seq<nat>, F: seq<nat>)
      reads this
    {
      Valid() && g.start == start && g.nact == nactvar && Describes(g, S(), e, T, F)
    }

    // ----- patch lists -----

    method GetJump(pc: nat) returns (next: int)
      requires pc < |code| && code[pc].Jmp?
      ensures next == Next(code, pc)
    {
      var offset := code[pc].sbx;
      if offset == NO_JUMP {  // this jump is the last of its list
        return NO_JUMP;
      }
      next := pc + 1 + offset;
    }

    method FixJump(pc: nat, dest: int)
      requires pc < |code| && dest != NO_JUMP
      modifies `code
      ensures code == old(code)[pc := Jmp(dest - (pc + 1))]
    {
      code := code[pc := Jmp(dest - (pc + 1))];
    }

    /** `luaK_concat`: sequence append on the lists. */
    method Concat(l1: int, l2: int, ghost L: seq<nat>, ghost M: seq<nat>) returns (l: int)
      requires IsList(code, l1, L) && IsList(code, l2, M)
      requires forall j :: j in L ==> j !in M
      modifies `code
      ensures L != [] ==> L[|L| - 1] < |old(code)|
      ensures code == Linked(old(code), L, M) && |code| == |old(code)|
      ensures IsList(code, l, L + M) && Relinked(old(code), code, ToSet(L))
    {
      hide Relinked;
      LinkedIsList(code, l1, L, l2, M);
      assert L != [] ==> L[|L| - 1] in L;
      if l2 == NO_JUMP {
        return l1;
      }
      if l1 == NO_JUMP {
        return l2;
      }
      var list := l1;
      ghost var i := 0;
      assert LinkAt(code, L, 0);
      var next := GetJump(list);
      while next != NO_JUMP
        invariant code == old(code)
        invariant 0 <= i < |L| && L[i] in L && list == L[i] && next == Next(code, L[i])
        decreases |L| - i
      {
        assert LinkAt(code, L, i);
        list := next;
        i := i + 1;
        assert LinkAt(code, L, i);
        next := GetJump(list);
      }
      assert i == |L| - 1 by { assert LinkAt(code, L, i); }
      FixJump(list, l2);
      l := l1;
    }

    /** `need_value`: does some jump of the list not deliver a value? */
    method NeedValue(list: int, ghost L: seq<nat>) returns (need: bool)
      requires IsList(code, list, L)
      ensures need <==> !AllDeliver(code, ToSet(L))
    {
      var l := list;
      ghost var i := 0;
      while l != NO_JUMP
        invariant 0 <= i <= |L| && l == (if i < |L| then L[i] else NO_JUMP)
        invariant forall m :: 0 <= m < i ==> L[m] in L && code[Control(code, L[m])].TestSet?
        decreases |L| - i
      {
        assert l == L[i] && L[i] in ToSet(L) && LinkAt(code, L, i);
        if !code[Control(code, l)].TestSet? {
          return true;
        }
        l := GetJump(l);
        i := i + 1;
      }
      assert forall j :: j in L ==> code[Control(code, j)].TestSet?;
      need := false;
    }

    /** `patchlistaux`. */
    method PatchListAux(list: int, vtarget: int, reg: int, dtarget: int,
                        ghost L: seq<nat>, ghost k: seq<Value>, ghost X: set<nat>, ghost lim: nat)
      requires IsList(code, list, L) && ToSet(L) <= X
      requires L != [] ==> WellFormed(code, k, X, lim)
      requires forall j :: j in L ==> Target(code, j, vtarget, dtarget) != NO_JUMP
      modifies `code
      ensures code == Patched(old(code), ToSet(L), vtarget, reg, dtarget)
    {
      hide WellFormed;
      hide Patched;
      var l := list;
      ghost var i := 0;
      PatchedNothing(code, vtarget, reg, dtarget);
      assert ToSet(L[..0]) == {};
      while l != NO_JUMP
        invariant 0 <= i <= |L| && l == (if i < |L| then L[i] else NO_JUMP)
        invariant code == Patched(old(code), ToSet(L[..i]), vtarget, reg, dtarget)
        decreases |L| - i
      {
        assert l == L[i] && L[i] in L && LinkAt(old(code), L, i);
        assert L[i] in X && L[i] !in L[..i];
        PatchedOneMore(old(code), k, X, lim, ToSet(L[..i]), l, vtarget, reg, dtarget);
        assert ToSet(L[..i + 1]) == ToSet(L[..i]) + {l} by { assert L[..i + 1] == L[..i] + [L[i]]; }
        var next := GetJump(l);
        var c := Control(code, l);
        if code[c].TestSet? {
          PatchTestReg(c, reg);
          FixJump(l, vtarget);
        } else {
          FixJump(l, dtarget);
        }
        l := next;
        i := i + 1;
      }
      assert L[..i] == L;
    }

    /** `patchtestreg` on a TESTSET. */
    method PatchTestReg(c: nat, reg: int)
      requires c < |code| && code[c].TestSet?
      modifies `code
      ensures code == old(code)[c := PatchTest(old(code)[c], reg)]
    {
      if reg != NO_REG && reg != code[c].b && reg >= 0 {
        code := code[c := TestSet(reg, code[c].b, code[c].c)];
      } else {  // the copy would change nothing
        code := code[c := Test(code[c].b, code[c].c)];
      }
    }

    /** `removevalues`. */
    method RemoveValues(list: int, ghost L: seq<nat>, ghost k: seq<Value>, ghost X: set<nat>, ghost lim: nat)
      requires IsList(code, list, L) && WellFormed(code, k, X, lim) && ToSet(L) <= X
      modifies `code
      ensures code == Removed(old(code), ToSet(L))
    {
      var l := list;
      ghost var i := 0;
      assert ToSet(L[..0]) == {};
      assert code == Removed(code, {});
      while l != NO_JUMP
        invariant 0 <= i <= |L| && l == (if i < |L| then L[i] else NO_JUMP)
        invariant code == Removed(old(code), ToSet(L[..i]))
        decreases |L| - i
      {
        assert l == L[i] && L[i] in L && LinkAt(old(code), L, i);
        assert L[i] in X && L[i] !in L[..i];
        RemovedOneMore(old(code), k, X, lim, ToSet(L[..i]), l);
        assert ToSet(L[..i + 1]) == ToSet(L[..i]) + {l} by { assert L[..i + 1] == L[..i] + [L[i]]; }
        var next := GetJump(l);
        var c := Control(code, l);
        if code[c].TestSet? {
          PatchTestReg(c, NO_REG);
        }
        l := next;
        i := i + 1;
      }
      assert L[..i] == L;
    }

    /** `dischargejpc` and the store of the new instruction (`luaK_code`). */
    method Code(i: Instruction) returns (pc: nat)
      requires IsList(code, jpc, J) && ToSet(J) <= X
      requires J != [] ==> WellFormed(code, k, X, Lim())
      modifies `code, `jpc, `J, `X
      ensures code == Patched(old(code), ToSet(old(J)), |old(code)|, NO_REG, |old(code)|) + [i]
      ensures X == old(X) - ToSet(old(J)) && J == [] && jpc == NO_JUMP && pc == |old(code)|
    {
      PatchListAux(jpc, |code|, NO_REG, |code|, J, k, X, Lim());
      jpc := NO_JUMP;
      X := X - ToSet(J);
      J := [];
      pc := |code|;
      code := code + [i];
    }

    // ----- constants and registers -----

    method AddK(v: Value) returns (i: nat)
      requires forall v :: v in h ==> h[v] < |k| && k[h[v]] == v
      modifies `k, `h
      ensures old(k) <= k && i < |k| && k[i] == v
      ensures forall v :: v in h ==> h[v] < |k| && k[h[v]] == v
      ensures |old(k)| <= MAXINDEXRK ==> i <= MAXINDEXRK
    {
      if v in h {
        return h[v];
      }
      i := |k|;
      h := h[v := i];
      k := k + [v];
    }

    method ReserveRegs(n: nat)
      modifies `freereg
      ensures freereg == old(freereg) + n
    {
      freereg := freereg + n;
    }

    method FreeReg(reg: nat)
      requires reg >= nactvar ==> freereg == reg + 1
      modifies `freereg
      ensures freereg == if reg >= nactvar then reg else old(freereg)
    {
      if reg >= nactvar {
        freereg := freereg - 1;
        assert reg == freereg;
      }
    }

    method FreeExp(e: ExpDesc)
      requires e.k.VNonReloc? && e.k.info >= nactvar ==> freereg == e.k.info + 1
      modifies `freereg
      ensures freereg == if e.k.VNonReloc? && e.k.info >= nactvar then e.k.info else old(freereg)
    {
      if e.k.VNonReloc? {
        FreeReg(e.k.info);
      }
    }

    // ----- putting a value into a register -----

    /** Emit an instruction that loads the described value. */
    method CodeLoad(i: Instruction, reg: nat, e: ExpDesc, ghost g: Goal, ghost T: seq<nat>, ghost F: seq<nat>)
      requires Means(g, e, T, F) && !e.k.VJmp? && !e.k.VRelocable?
      requires LoadsInto(i, ResOf(S(), e.k), reg, k) && g.fr <= reg
      modifies `code, `jpc, `J, `X
      ensures Means(g, e.(k := VNonReloc(reg)), T, F)
    {
      hide Describes;
      ghost var s := S();
      DescribesLoad(g, s, e, T, F, i, k, reg);
      var _ := Code(i);
      assert S() == Discharged(s).(code := Discharged(s).code + [i], k := k);
      DescribesSnap(g, S(), e.(k := VNonReloc(reg)), T, F);
    }

    /** `luaK_nil` for one register. */
    method Nil(e: ExpDesc, reg: nat, ghost g: Goal, ghost T: seq<nat>, ghost F: seq<nat>)
      requires Means(g, e, T, F) && e.k.VNil? && g.fr <= reg
      modifies `code, `jpc, `J, `X
      ensures Means(g, e.(k := VNonReloc(reg)), T, F)
    {
      if |code| > lasttarget {  // the last instruction always runs just before
        assert J == [] by { NoJumpsHere(S(), start, J); }
        if |code| == 0 {  // EntryOk: all temporaries are nil on entry
          if reg >= nactvar {
            ComputesCleanRegister(g, S(), ToSet(T), ToSet(F), reg);
            return;
          }
        } else {
          var previous := code[|code| - 1];
          if previous.LoadNil? {
            var pfrom, pto := previous.a, previous.b;
            if pfrom <= reg <= pto + 1 {  // both ranges make one
              WiderNil(reg, e, g, T, F);
              return;
            }
          }
        }
      }
      CodeLoad(LoadNil(reg, reg), reg, e, g, T, F);
    }

    method WiderNil(reg: nat, e: ExpDesc, ghost g: Goal, ghost T: seq<nat>, ghost F: seq<nat>)
      requires Means(g, e, T, F) && e.k.VNil? && g.fr <= reg && J == []
      requires 0 < |code| && |code| > lasttarget && code[|code| - 1].LoadNil?
      requires code[|code| - 1].a <= reg <= code[|code| - 1].b + 1
      modifies `code
      ensures Means(g, e.(k := VNonReloc(reg)), T, F)
    {
      var n := |code| - 1;
      var pfrom, pto := code[n].a, code[n].b;
      ghost var s := S();
      assert pfrom <= pto by { assert Fits(code, k, X, Lim(), n); }
      ComputesWiderNil(g, s, ToSet(T), ToSet(F), pfrom, pto, reg);
      var to' := if reg > pto then reg else pto;
      ListKeptBelow(code, code[..n] + [LoadNil(pfrom, to')], n, e.t, T);
      ListKeptBelow(code, code[..n] + [LoadNil(pfrom, to')], n, e.f, F);
      ListKeptBelow(code, code[..n] + [LoadNil(pfrom, to')], n, jpc, J);
      if reg > pto {
        code := code[..n] + [LoadNil(pfrom, reg)];
      } else {
        assert code[..n] + [LoadNil(pfrom, to')] == code;
      }
    }

    /** `discharge2reg`. */
    method Discharge2Reg(e0: ExpDesc, reg: nat, ghost g: Goal, ghost T: seq<nat>, ghost F: seq<nat>)
      returns (e: ExpDesc)
      requires Means(g, e0, T, F) && g.fr <= reg
      modifies `code, `jpc, `J, `X, `k, `h
      ensures Means(g, e, T, F) && e == e0.(k := if e0.k.VJmp? then e0.k else VNonReloc(reg))
      ensures e0.k.VJmp? ==> code == old(code) && J == old(J) && X == old(X) && k == old(k)
    {
      hide Computes;
      e := DischargeVars(e0);
      match e.k {
        case VNil => Nil(e, reg, g, T, F);
        case VTrue => CodeLoad(LoadBool(reg, true, false), reg, e, g, T, F);
        case VFalse => CodeLoad(LoadBool(reg, false, false), reg, e, g, T, F);
        case VK(i) => CodeLoad(LoadK(reg, i), reg, e, g, T, F);
        case VKNum(n) =>
          var i := NumberK(n, e, g, T, F);
          CodeLoad(LoadK(reg, i), reg, e, g, T, F);
        case VRelocable(p) =>
          Relocate(e, reg, g, T, F);
        case VNonReloc(r) =>
          if reg != r {
            CodeLoad(Move(reg, r), reg, e, g, T, F);
          }
        case VJmp(_) => return;
      }
      e := e.(k := VNonReloc(reg));
    }

    /** Give the open instruction its register. */
    method Relocate(e: ExpDesc, reg: nat, ghost g: Goal, ghost T: seq<nat>, ghost F: seq<nat>)
      requires Means(g, e, T, F) && e.k.VRelocable? && g.fr <= reg
      modifies `code
      ensures Means(g, e.(k := VNonReloc(reg)), T, F)
    {
      hide Computes;
      var p := e.k.info;
      assert J == [] by { NoJumpsHere(S(), start, J); }
      DescribesRelocated(g, S(), e, T, F, reg);
      DescribesSnap(g, S().(code := code[p := Not(reg, code[p].b)]), e.(k := VNonReloc(reg)), T, F);
      code := code[p := Not(reg, code[p].b)];
    }

    /** `luaK_numberK`, in the middle of an expression. */
    method NumberK(n: real, e: ExpDesc, ghost g: Goal, ghost T: seq<nat>, ghost F: seq<nat>) returns (i: nat)
      requires Means(g, e, T, F)
      modifies `k, `h
      ensures Means(g, e, T, F) && i < |k| && k[i] == Number(n)
    {
      ghost var s := S();
      i := AddK(Number(n));
      DescribesMoreConstants(g, s, e, T, F, k);
      DescribesSnap(g, S(), e, T, F);
    }

    // ----- jumps -----

    /** `luaK_getlabel`. */
    method GetLabel() returns (pc: nat)
      modifies `lasttarget
      ensures lasttarget == |code| == pc
    {
      lasttarget := |code|;
      pc := |code|;
    }

    /** `luaK_jump`: the jumps that are due here are kept on hold with the new one. */
    method Jump() returns (j: int, ghost L: seq<nat>)
      requires IsList(code, jpc, J)
      modifies `code, `jpc, `J, `X
      ensures code == old(code) + [Jmp(if old(J) == [] then NO_JUMP else old(J)[0] - (|old(code)| + 1))]
      ensures X == old(X) + {|old(code)|} && J == [] && jpc == NO_JUMP
      ensures L == [|old(code)|] + old(J) && IsList(code, j, L)
    {
      var saved := jpc;
      ghost var saved' := J;
      jpc, J := NO_JUMP, [];
      ghost var code0 := code;
      PatchedNothing(code, |code|, NO_REG, |code|);
      assert ToSet([]) == {};
      j := Code(Jmp(NO_JUMP));
      assert code == code0 + [Jmp(NO_JUMP)];
      IsListFrame(code0, code, saved, saved');
      assert IsList(code, j, [j]) by { assert LinkAt(code, [j], 0); }
      ghost var n: nat := |code0|;
      X := X + {n};
      j := Concat(j, saved, [n], saved');
      L := [n] + saved';
    }

    /** `luaK_patchtohere`. */
    method PatchToHere(list: int, ghost L: seq<nat>)
      requires IsList(code, jpc, J) && IsList(code, list, L)
      requires forall j :: j in J ==> j !in L
      modifies `code, `jpc, `J, `lasttarget
      ensures lasttarget == |code| == |old(code)|
      ensures J == old(J) + L && IsList(code, jpc, J) && Relinked(old(code), code, ToSet(old(J)))
    {
      var _ := GetLabel();
      jpc := Concat(jpc, list, J, L);
      J := J + L;
    }

    /** `condjump`: a test and its pending jump. */
    method CondJump(i: Instruction) returns (j: nat)
      requires IsList(code, jpc, J) && ToSet(J) <= X
      requires J != [] ==> WellFormed(code, k, X, Lim())
      modifies `code, `jpc, `J, `X
      ensures j == |old(code)| + 1
      ensures code == Patched(old(code), ToSet(old(J)), |old(code)|, NO_REG, |old(code)|) + [i, Jmp(NO_JUMP)]
      ensures X == old(X) - ToSet(old(J)) + {j} && J == [] && jpc == NO_JUMP
      ensures IsList(code, j, [j])
    {
      ghost var n := |code|;
      var _ := Code(i);
      var j', L := Jump();
      assert L == [n + 1];
      j := j';
    }

    /** `discharge2anyreg`. */
    method Discharge2AnyReg(e0: ExpDesc, ghost g: Goal, ghost T: seq<nat>, ghost F: seq<nat>) returns (e: ExpDesc)
      requires Means(g, e0, T, F) && RegsOk(e0.k, g.fr, freereg, nactvar) && !e0.k.VJmp? && !e0.k.VLocal?
      modifies `code, `jpc, `J, `X, `k, `h, `freereg
      ensures Means(g, e, T, F) && RegsOk(e.k, g.fr, freereg, nactvar) && e.k.VNonReloc? && e == e0.(k := e.k)
    {
      e := e0;
      if !e.k.VNonReloc? {
        ReserveRegs(1);
        e := Discharge2Reg(e, freereg - 1, g, T, F);
      }
    }

    /** `jumponcond`: test the described value and leave when its truth is `cond`. The jumps of
        the other truth are then due here, which the callers declare. */
    method JumpOnCond(e0: ExpDesc, cond: bool, ghost g: Goal, ghost T: seq<nat>, ghost F: seq<nat>) returns (pc: nat)
      requires Means(g, e0, T, F) && RegsOk(e0.k, g.fr, freereg, nactvar) && !e0.k.VJmp? && !e0.k.VLocal?
      modifies `code, `jpc, `J, `X, `k, `h, `freereg
      ensures Valid() && freereg == g.fr && J == []
      ensures pc + 1 == |code| && IsList(code, pc, [pc])
      ensures IsList(code, e0.t, T) && IsList(code, e0.f, F)
      ensures Tested(g, S(), !cond, pc, ToSet(T), ToSet(F))
    {
      if e0.k.VRelocable? {
        pc := JumpOnNot(e0, cond, g, T, F);
      } else {
        var e := Discharge2AnyReg(e0, g, T, F);
        FreeExp(e);
        pc := JumpOnReg(e, cond, g, T, F);
      }
    }

    /** The value is the negation of a register: test that register instead of emitting NOT. */
    method JumpOnNot(e: ExpDesc, cond: bool, ghost g: Goal, ghost T: seq<nat>, ghost F: seq<nat>) returns (pc: nat)
      requires Means(g, e, T, F) && e.k.VRelocable?
      modifies `code, `jpc, `J, `X
      ensures Valid() && J == []
      ensures pc + 1 == |code| && IsList(code, pc, [pc])
      ensures IsList(code, e.t, T) && IsList(code, e.f, F)
      ensures Tested(g, S(), !cond, pc, ToSet(T), ToSet(F))
    {
      hide Computes;
      hide WellFormed;
      hide Guards;
      hide Patched;
      var p := e.k.info;
      var r := code[p].b;
      ghost var b := BodyOf(S(), e.k);
      assert J == [] && jpc == NO_JUMP by { NoJumpsHere(S(), start, J); }
      BodyKeepsLists(S(), e, T, F, start);
      TestedIntro(g, b, NotReg(r), ToSet(T), ToSet(F), Test(r, !cond), NO_JUMP, !cond);
      code := code[..p];  // remove previous NOT
      PatchedNothing(code, |code|, NO_REG, |code|);
      assert ToSet([]) == {};
      pc := CondJump(Test(r, !cond));
      assert S() == b.(code := b.code + [Test(r, !cond), Jmp(NO_JUMP)], X := b.X + {|b.code| + 1});
      ListAppended(b.code, code, e.t, T);
      ListAppended(b.code, code, e.f, F);
    }

    method JumpOnReg(e: ExpDesc, cond: bool, ghost g: Goal, ghost T: seq<nat>, ghost F: seq<nat>) returns (pc: nat)
      requires Means(g, e, T, F) && e.k.VNonReloc?
      modifies `code, `jpc, `J, `X
      ensures Valid() && J == []
      ensures pc + 1 == |code| && IsList(code, pc, [pc])
      ensures IsList(code, e.t, T) && IsList(code, e.f, F)
      ensures Tested(g, S(), !cond, pc, ToSet(T), ToSet(F))
    {
      hide Computes;
      hide Guards;
      hide Patched;
      var i := TestSet(NO_REG, e.k.info, cond);
      ghost var s := S();
      ghost var b := Discharged(s);
      ComputesDischarged(g, s, InReg(e.k.info), ToSet(T), ToSet(F));
      ListKeptByCode'(g, s, e, T, F, [i, Jmp(NO_JUMP)]);
      TestedIntro(g, b, InReg(e.k.info), ToSet(T), ToSet(F), i, NO_JUMP, !cond);
      DischargedOk(s, start);
      pc := CondJump(i);
      assert S() == b.(code := b.code + [i, Jmp(NO_JUMP)], X := b.X + {|b.code| + 1});
    }

    /** Join the test's jump to the exits for the other truth and declare those for `want` due. */
    method FinishGuard(e: ExpDesc, pc: nat, want: bool, ghost g: Goal, ghost T: seq<nat>, ghost F: seq<nat>)
      returns (list: int, ghost L: seq<nat>)
      requires Valid() && J == [] && jpc == NO_JUMP && IsList(code, pc, [pc]) && g.start == start
      requires IsList(code, e.t, T) && IsList(code, e.f, F)
      requires Tested(g, S(), want, pc, ToSet(T), ToSet(F))
      modifies `code, `jpc, `J, `lasttarget
      ensures Valid() && GuardedBy(g, S(), want, list, L)
    {
      hide Guards;
      hide Relinked;
      hide WellFormed;
      hide Linked;
      ghost var s := S();
      ghost var (D, R) := if want then (T, F) else (F, T);
      TestedLists(g, s, want, pc, T, F);
      list := Concat(if want then e.f else e.t, pc, R, [pc]);
      OtherListKept(s.code, code, R, if want then e.t else e.f, D);
      L := R + [pc];
      ghost var code1 := code;
      PatchToHere(if want then e.t else e.f, D);
      assert code == code1 by { RelinkedNothing(code1, code); }
      GuardedIntro(g, s, want, pc, T, F, code1, code, list);
      assert S() == Snap(code, s.k, s.X, ToSet(D), |s.code|);
      GuardsSnap(g, S(), want, ToSet(L));
    }

    /** `invertjump`. */
    method InvertJump(e: ExpDesc)
      requires e.k.VJmp? && 1 <= e.k.info < |code| && code[e.k.info - 1].Compare?
      modifies `code
      ensures var p := e.k.info - 1;
              code == old(code)[p := old(code)[p].(cond := !old(code)[p].cond)]
    {
      var p := e.k.info - 1;
      code := code[p := code[p].(cond := !code[p].cond)];
    }

    /** A constant whose truth is `want`: nothing to test. */
    method GuardConst(e: ExpDesc, want: bool, ghost g: Goal, ghost T: seq<nat>, ghost F: seq<nat>)
      returns (list: int, ghost L: seq<nat>)
      requires Means(g, e, T, F) && !e.k.VJmp? && !e.k.VRelocable?
      requires ResOf(S(), e.k).Const? && (IsFalse(ResOf(S(), e.k).v) <==> !want)
      modifies `code, `jpc, `J, `lasttarget
      ensures Valid() && GuardedBy(g, S(), want, list, L)
    {
      hide Guards;
      ghost var s := S();
      GuardsConst(g, s, ResOf(s, e.k).v, ToSet(T), ToSet(F), want);
      ghost var D := if want then T else F;
      L := if want then F else T;
      list := if want then e.f else e.t;
      assert ToSet(T) !! ToSet(J) && ToSet(F) !! ToSet(J);
      DisjointLists(J, D);
      PatchToHere(if want then e.t else e.f, D);
      assert ToSet(J) == s.J + ToSet(D);
      OtherListKept(s.code, code, old(J), list, L) by { DisjointLists(old(J), L); }
      GuardsRelinked(g, s.(J := s.J + ToSet(D), lim := |s.code|), want, ToSet(L), code);
      assert S() == s.(code := code, J := s.J + ToSet(D), lim := |s.code|);
      GuardsSnap(g, S(), want, ToSet(L));
    }

    /** `luaK_goiftrue`. */
    method GoIfTrue(e0: ExpDesc, ghost g: Goal, ghost T: seq<nat>, ghost F: seq<nat>)
      returns (e: ExpDesc, ghost L: seq<nat>)
      requires Means(g, e0, T, F) && RegsOk(e0.k, g.fr, freereg, nactvar)
      requires e0.k.VK? ==> !IsFalse(k[e0.k.info])
      modifies this
      ensures Valid() && GuardedBy(g, S(), true, e.f, L) && e.t == NO_JUMP && freereg == g.fr
      ensures start == old(start) && nactvar == old(nactvar)
    {
      hide Computes;
      hide Guards;
      e := DischargeVars(e0);
      var list;
      if e.k.VK? || e.k.VKNum? || e.k.VTrue? {  // GuardConst: there is nothing to test
        list, L := GuardConst(e, true, g, T, F);
      } else {
        var pc;
        if e.k.VJmp? {
          pc := e.k.info;
          assert J == [] by { NoJumpsHere(S(), start, J); }
          TestedComparison(g, S(), e, T, F, true);
          InvertJump(e);
        } else {
          pc := JumpOnCond(e, false, g, T, F);
        }
        list, L := FinishGuard(e, pc, true, g, T, F);
      }
      e := e.(f := list, t := NO_JUMP);
    }

    /** `luaK_goiffalse`. */
    method GoIfFalse(e0: ExpDesc, ghost g: Goal, ghost T: seq<nat>, ghost F: seq<nat>)
      returns (e: ExpDesc, ghost L: seq<nat>)
      requires Means(g, e0, T, F) && RegsOk(e0.k, g.fr, freereg, nactvar)
      modifies this
      ensures Valid() && GuardedBy(g, S(), false, e.t, L) && e.f == NO_JUMP && freereg == g.fr
      ensures start == old(start) && nactvar == old(nactvar)
    {
      hide Computes;
      hide Guards;
      e := DischargeVars(e0);
      var list;
      if e.k.VNil? || e.k.VFalse? {  // GuardConst: there is nothing to test
        list, L := GuardConst(e, false, g, T, F);
      } else {
        var pc;
        if e.k.VJmp? {
          pc := e.k.info;
          assert J == [] by { NoJumpsHere(S(), start, J); }
          TestedComparison(g, S(), e, T, F, false);
        } else {
          pc := JumpOnCond(e, true, g, T, F);
        }
        list, L := FinishGuard(e, pc, false, g, T, F);
      }
      e := e.(t := list, f := NO_JUMP);
    }

    // ----- negation -----

    /** The first half of `codenot`: negate what the descriptor says about the value. */
    method NegateKind(e0: ExpDesc, ghost g: Goal, ghost T: seq<nat>, ghost F: seq<nat>)
      returns (e: ExpDesc, ghost b: Snap, ghost res: Residue)
      requires Means(g, e0, T, F) && RegsOk(e0.k, g.fr, freereg, nactvar) && !e0.k.VLocal?
      requires e0.k.VK? ==> !IsFalse(k[e0.k.info])
      modifies `code, `jpc, `J, `X, `k, `h, `freereg
      ensures Valid() && e == e0.(k := e.k) && IsList(code, e.t, T) && IsList(code, e.f, F)
      ensures Negates(g, b, res, S(), e.k, ToSet(T), ToSet(F)) && RegsOk(e.k, g.fr, freereg, nactvar) && !e.k.VK?
    {
      hide Computes;
      DescribesGoal(g, S(), e0, T, F);
      hide WellFormed;
      hide SnapOk;
      hide IsList;
      if e0.k.VRelocable? || e0.k.VNonReloc? {
        e := Discharge2AnyReg(e0, g, T, F);
        FreeExp(e);
        res := InReg(e.k.info);
        e, b := CodeNotInstr(e, g, T, F);
      } else if e0.k.VJmp? {
        e, b, res := NegateJump(e0, g, T, F);
      } else {
        res := ResOf(S(), e0.k);
        b := S();
        e := e0.(k := if e0.k.VNil? || e0.k.VFalse? then VTrue else VFalse);
      }
    }

    method NegateJump(e0: ExpDesc, ghost g: Goal, ghost T: seq<nat>, ghost F: seq<nat>)
      returns (e: ExpDesc, ghost b: Snap, ghost res: Residue)
      requires Means(g, e0, T, F) && e0.k.VJmp?
      modifies `code
      ensures Valid() && e == e0 && IsList(code, e.t, T) && IsList(code, e.f, F)
      ensures Negates(g, b, res, S(), e.k, ToSet(T), ToSet(F))
    {
      hide Computes;
      hide WellFormed;
      res := ResOf(S(), e0.k);
      b := BodyOf(S(), e0.k);
      assert J == [] by { NoJumpsHere(S(), start, J); }
      e := e0;
      InvertedOk(S(), start, e.k.info);
      IsListFrame(code, Inverted(code, e.k.info), e.t, T);
      IsListFrame(code, Inverted(code, e.k.info), e.f, F);
      InvertJump(e);
      assert BodyOf(S(), e.k) == b;
    }

    method CodeNotInstr(e0: ExpDesc, ghost g: Goal, ghost T: seq<nat>, ghost F: seq<nat>)
      returns (e: ExpDesc, ghost b: Snap)
      requires Means(g, e0, T, F) && e0.k.VNonReloc?
      modifies `code, `jpc, `J, `X
      ensures Valid() && e == e0.(k := VRelocable(|old(code)|)) && IsList(code, e.t, T) && IsList(code, e.f, F)
      ensures Negates(g, b, InReg(e0.k.info), S(), e.k, ToSet(T), ToSet(F))
    {
      hide Computes;
      ghost var s := S();
      var i := Not(0, e0.k.info);
      b := Discharged(s);
      ComputesDischarged(g, s, InReg(e0.k.info), ToSet(T), ToSet(F));
      DischargedOk(s, start);
      SemAppend(b, start, i, k, map[]);
      ListKeptByCode'(g, s, e0, T, F, [i]);
      var pc := Code(i);
      e := e0.(k := VRelocable(pc));
      assert S() == b.(code := b.code + [i], k := k);
      assert BodyOf(S(), e.k) == b;
    }

    /** `codenot`. */
    method CodeNot(e0: ExpDesc, ghost g: Goal, ghost T: seq<nat>, ghost F: seq<nat>) returns (e: ExpDesc)
      requires Means(g, e0, T, F) && RegsOk(e0.k, g.fr, freereg, nactvar)
      requires e0.k.VK? ==> !IsFalse(k[e0.k.info])
      modifies this
      ensures Means(g.(ex := NotE(g.ex)), e, F, T) && RegsOk(e.k, g.fr, freereg, nactvar) && !e.k.VK?
      ensures start == old(start) && nactvar == old(nactvar)
    {
      hide Computes;
      hide Negates;
      ghost var b, res;
      e, b, res := NegateKind(DischargeVars(e0), g, T, F);
      ghost var s := S();
      e := e.(f := e.t, t := e.f);  // exits of the operand change their meaning
      NegatesLists(g, b, res, s, e.k, ToSet(T), ToSet(F));
      RemoveValues(e.f, T, k, X, Lim());
      RemovedOk(s, start, ToSet(T), e.t, F, jpc, J);
      RemoveValues(e.t, F, k, X, Lim());
      RemovedTwice(s.code, ToSet(T), ToSet(F));
      NegatesRemoved(g, b, res, s, start, e.k, T, F, e.t, e.f, jpc, J);
    }

    // ----- all exits into one register -----

    /** `code_label`. */
    method CodeLabel(reg: nat, b: bool, jump: bool) returns (pc: nat)
      requires J == [] && jpc == NO_JUMP
      modifies `code, `jpc, `J, `X, `lasttarget
      ensures code == old(code) + [LoadBool(reg, b, jump)] && pc == |old(code)| == lasttarget
      ensures X == old(X) && J == [] && jpc == NO_JUMP
    {
      var _ := GetLabel();  // nothing before it may be merged with it
      PatchedNothing(code, |code|, NO_REG, |code|);
      assert ToSet([]) == {};
      pc := Code(LoadBool(reg, b, jump));
    }

    /** The last two calls of `patchlistaux` in `exp2reg`. */
    method PatchExits(e: ExpDesc, final: nat, reg: nat, p_f: int, p_t: int,
                      ghost T: seq<nat>, ghost F: seq<nat>, ghost lim: nat)
      requires final == |code| && ToSet(F) <= X && ToSet(T) <= X - ToSet(F)
      requires IsList(code, e.f, F) && WellFormed(code, k, X, lim)
      requires forall j :: j in F ==> Target(code, j, final, p_f) != NO_JUMP
      requires var codeF := Patched(code, ToSet(F), final, reg, p_f);
               && WellFormed(codeF, k, X - ToSet(F), final) && IsList(codeF, e.t, T)
               && forall j :: j in T ==> j < |codeF| && Target(codeF, j, final, p_t) != NO_JUMP
      modifies `code, `X
      ensures code == Patched(Patched(old(code), ToSet(F), final, reg, p_f), ToSet(T), final, reg, p_t)
      ensures X == old(X) - ToSet(F) - ToSet(T)
    {
      hide Patched;
      hide WellFormed;
      PatchListAux(e.f, final, reg, p_f, F, k, X, lim);
      PatchListAux(e.t, final, reg, p_t, T, k, X - ToSet(F), final);
      X := X - ToSet(F) - ToSet(T);
    }

    /** The end of `exp2reg` when every exit delivers its value. */
    method JoinExits(e: ExpDesc, reg: nat, ghost g: Goal, ghost T: seq<nat>, ghost F: seq<nat>)
      requires Means(g, e, T, F) && e.k == VNonReloc(reg) && g.fr <= reg
      requires AllDeliver(code, ToSet(T)) && AllDeliver(code, ToSet(F))
      modifies `code, `lasttarget, `X
      ensures Means(g, ExpDesc(VNonReloc(reg), NO_JUMP, NO_JUMP), [], [])
    {
      hide Computes;
      hide Patched;
      hide Fits;
      ghost var s := S();
      assert AllDeliver(code, ToSet(T) + ToSet(F));
      JoinedFacts(g, s, reg, T, F, e.t, jpc, J);
      FinishJoined(g, s, reg, ToSet(T), ToSet(F));
      var final := GetLabel();
      PatchExits(e, final, reg, NO_JUMP, NO_JUMP, T, F, s.lim);
      assert S() == Joined(s, reg, ToSet(T), ToSet(F));
      assert ToSet([]) == {};
      ComputesSnap(g, S(), InReg(reg), {}, {});
    }

    /** The end of `exp2reg` when some exit needs a boolean: two labels load it; `fj` jumps over. */
    method LabelExits(e: ExpDesc, fj: int, reg: nat, ghost g: Goal, ghost b: Snap,
                      ghost D: seq<nat>, ghost T: seq<nat>, ghost F: seq<nat>)
      requires Delivers(g, b, reg, ToSet(T), ToSet(F)) && g.fr <= reg
      requires b.code == code && b.X == X && b.k == k && b.J == ToSet(D) && J == [] && jpc == NO_JUMP
      requires IsList(code, e.t, T) && IsList(code, e.f, F) && IsList(code, fj, D)
      requires g.start == start && g.nact == nactvar && -1 <= lasttarget && nactvar <= freereg
      requires forall v :: v in h ==> h[v] < |k| && k[h[v]] == v
      modifies `code, `jpc, `J, `X, `lasttarget
      ensures Means(g, ExpDesc(VNonReloc(reg), NO_JUMP, NO_JUMP), [], [])
    {
      hide Delivers;
      hide Computes;
      hide Patched;
      hide WellFormed;
      hide Relinked;
      hide IsList;
      hide SnapOk;
      EmptyList(code);
      LabelFacts(g, b, reg, T, F, D, e.t, e.f, fj);
      FinishLabels(g, b, reg, ToSet(T), ToSet(F));
      var p_f := CodeLabel(reg, false, true);
      var p_t := CodeLabel(reg, true, false);
      ghost var code1 := b.code + [LoadBool(reg, false, true), LoadBool(reg, true, false)];
      assert code == code1;
      EmptyList(code);
      PatchToHere(fj, D);
      assert code == code1 by { RelinkedNothing(code1, code); }
      assert J == D;
      ListHead(code, jpc, fj, D);
      var final := GetLabel();
      PatchExits(e, final, reg, p_f, p_t, T, F, |code1|);
      assert S() == WithLabels(b, reg, ToSet(T), ToSet(F));
      assert ToSet([]) == {};
      EmptyList(code);
      ComputesSnap(g, S(), InReg(reg), {}, {});
    }

    /** `exp2reg`. */
    method Exp2Reg(e0: ExpDesc, reg: nat, ghost g: Goal, ghost T: seq<nat>, ghost F: seq<nat>) returns (e: ExpDesc)
      requires Means(g, e0, T, F) && g.fr <= reg
      modifies `code, `jpc, `J, `X, `k, `h, `lasttarget
      ensures e == ExpDesc(VNonReloc(reg), NO_JUMP, NO_JUMP) && Means(g, e, [], [])
    {
      hide Computes;
      e := Discharge2Reg(e0, reg, g, T, F);
      if e.k.VJmp? {
        ComparisonToReg(e, reg, g, T, F);
      } else if HasJumps(e) {
        var need := NeedValue(e.t, T);
        if !need {
          need := NeedValue(e.f, F);
        }
        if need {
          ValueOverLabels(e, reg, g, T, F);
        } else {
          JoinExits(e, reg, g, T, F);
        }
      } else {
        NoJumpsNoLists(g, S(), e, T, F);
      }
      e := ExpDesc(VNonReloc(reg), NO_JUMP, NO_JUMP);
    }

    /** A value in `reg` jumps over the labels for the exits that need a boolean. */
    method ValueOverLabels(e: ExpDesc, reg: nat, ghost g: Goal, ghost T: seq<nat>, ghost F: seq<nat>)
      requires Means(g, e, T, F) && e.k == VNonReloc(reg) && g.fr <= reg
      modifies `code, `jpc, `J, `X, `lasttarget
      ensures Means(g, ExpDesc(VNonReloc(reg), NO_JUMP, NO_JUMP), [], [])
    {
      hide Computes;
      hide Delivers;
      hide WellFormed;
      ghost var s := S();
      ghost var n := |code|;
      ghost var link := if J == [] then NO_JUMP else J[0] - (n + 1);
      DeliversJump(g, s, reg, ToSet(T), ToSet(F), link);
      var fj, D := Jump();
      ghost var b := Snap(s.code + [Jmp(link)], s.k, s.X + {n}, s.J + {n}, n + 1);
      assert ToSet(D) == s.J + {n};
      ListAppended(s.code, code, e.t, T);
      ListAppended(s.code, code, e.f, F);
      LabelExits(e, fj, reg, g, b, D, T, F);
    }

    /** A comparison becomes a boolean: its jump, which never delivers a value, so that labels are
        always needed, joins the true list, and falling through is false. */
    method ComparisonToReg(e0: ExpDesc, reg: nat, ghost g: Goal, ghost T: seq<nat>, ghost F: seq<nat>)
      requires Means(g, e0, T, F) && e0.k.VJmp? && g.fr <= reg
      modifies `code, `jpc, `J, `X, `lasttarget
      ensures Means(g, ExpDesc(VNonReloc(reg), NO_JUMP, NO_JUMP), [], [])
    {
      hide Computes;
      hide Delivers;
      hide WellFormed;
      hide Relinked;
      var p := e0.k.info;
      ghost var s := S();
      assert J == [] && jpc == NO_JUMP by { NoJumpsHere(s, start, J); }
      ComparisonDelivers(g, s, e0, reg, T, F);
      ghost var T' := T + [p];
      var t := Concat(e0.t, p, T, [p]);
      ComparisonRelinked(g, s, code, reg, p, T, F);
      OtherListKept(s.code, code, T, e0.f, F);
      EmptyList(code);
      assert ToSet([]) == {};
      LabelExits(ExpDesc(e0.k, t, e0.f), NO_JUMP, reg, g, s.(code := code), [], T', F);
    }

    /** `luaK_exp2nextreg`. */
    method Exp2NextReg(e0: ExpDesc, ghost g: Goal, ghost T: seq<nat>, ghost F: seq<nat>) returns (e: ExpDesc)
      requires Means(g, e0, T, F) && RegsOk(e0.k, g.fr, freereg, nactvar)
      modifies `code, `jpc, `J, `X, `k, `h, `lasttarget, `freereg
      ensures e == ExpDesc(VNonReloc(g.fr), NO_JUMP, NO_JUMP) && Means(g, e, [], []) && freereg == g.fr + 1
    {
      hide Computes;
      DescribesGoal(g, S(), e0, T, F);
      e := DischargeVars(e0);
      FreeExp(e);
      ReserveRegs(1);
      e := Exp2Reg(e, freereg - 1, g, T, F);
    }

    /** `luaK_exp2anyreg`. */
    method Exp2AnyReg(e0: ExpDesc, ghost g: Goal, ghost T: seq<nat>, ghost F: seq<nat>) returns (e: ExpDesc, r: nat)
      requires Means(g, e0, T, F) && RegsOk(e0.k, g.fr, freereg, nactvar)
      modifies `code, `jpc, `J, `X, `k, `h, `lasttarget, `freereg
      ensures e == ExpDesc(VNonReloc(r), NO_JUMP, NO_JUMP) && Means(g, e, [], [])
      ensures RegsOk(e.k, g.fr, freereg, nactvar)
    {
      hide Computes;
      DescribesGoal(g, S(), e0, T, F);
      e := DischargeVars(e0);
      if e.k.VNonReloc? {
        if !HasJumps(e) {
          NoJumpsNoLists(g, S(), e, T, F);
          return e, e.k.info;
        }
        if e.k.info >= nactvar {  // a temporary may be overwritten
          e := Exp2Reg(e, e.k.info, g, T, F);
          return e, e.k.info;
        }
      }
      e := Exp2NextReg(e, g, T, F);
      r := e.k.info;
    }

    /** `luaK_exp2val`. */
    method Exp2Val(e0: ExpDesc, ghost g: Goal, ghost T: seq<nat>, ghost F: seq<nat>) returns (e: ExpDesc)
      requires Means(g, e0, T, F) && RegsOk(e0.k, g.fr, freereg, nactvar)
      modifies `code, `jpc, `J, `X, `k, `h, `lasttarget, `freereg
      ensures e.t == NO_JUMP && e.f == NO_JUMP && Means(g, e, [], []) && !e.k.VLocal?
      ensures RegsOk(e.k, g.fr, freereg, nactvar)
    {
      hide Computes;
      if HasJumps(e0) {
        var r;
        e, r := Exp2AnyReg(e0, g, T, F);
      } else {
        NoJumpsNoLists(g, S(), e0, T, F);
        e := DischargeVars(e0);
      }
    }

    /** `luaK_exp2RK`. */
    method Exp2RK(e0: ExpDesc, ghost g: Goal, ghost T: seq<nat>, ghost F: seq<nat>) returns (e: ExpDesc, o: RK)
      requires Means(g, e0, T, F) && RegsOk(e0.k, g.fr, freereg, nactvar)
      modifies `code, `jpc, `J, `X, `k, `h, `lasttarget, `freereg
      ensures e.t == NO_JUMP && e.f == NO_JUMP && Means(g, e, [], [])
      ensures RegsOk(e.k, g.fr, freereg, nactvar)
      ensures e.k == match o case Kst(i) => VK(i) case Reg(r) => VNonReloc(r)
    {
      hide Computes;
      e := Exp2Val(e0, g, T, F);
      if e.k.VKNum? || e.k.VTrue? || e.k.VFalse? || e.k.VNil? {
        if |k| <= MAXINDEXRK {  // constant fits in RK operand?
          var i := ConstantK(e, g);
          e := e.(k := VK(i));
          return e, Kst(i);
        }
      } else if e.k.VK? {
        if e.k.info <= MAXINDEXRK {  // constant fits in argC?
          return e, Kst(e.k.info);
        }
      }
      var r;
      e, r := Exp2AnyReg(e, g, [], []);
      o := Reg(r);
    }

    /** `nilK`, `luaK_numberK` or `boolK`. */
    method ConstantK(e: ExpDesc, ghost g: Goal) returns (i: nat)
      requires Means(g, e, [], []) && (e.k.VKNum? || e.k.VTrue? || e.k.VFalse? || e.k.VNil?)
      modifies `k, `h
      ensures Means(g, e.(k := VK(i)), [], []) && (|old(k)| <= MAXINDEXRK ==> i <= MAXINDEXRK)
    {
      hide Computes;
      ghost var s := S();
      var v := if e.k.VNil? then Value.Nil else if e.k.VKNum? then Number(e.k.nval) else Boolean(e.k.VTrue?);
      i := AddK(v);
      DescribesMoreConstants(g, s, e, [], [], k);
      assert ResOf(S(), VK(i)) == ResOf(S(), e.k);
    }

    // ----- operators -----

    /** `codecomp`. The left operand was made an RK operand before the right one was compiled. */
    method CodeComp(opr: BinOpr, e1: ExpDesc, e2: ExpDesc, ghost g1: Goal, ghost s1: Snap,
                    ghost g2: Goal, ghost T: seq<nat>, ghost F: seq<nat>) returns (e: ExpDesc)
      requires !opr.OprAnd? && !opr.OprOr? && IsOperand(e1) && nactvar <= g1.fr <= g2.fr
      requires Describes(g1, s1, e1, [], []) && RegsOk(e1.k, g1.fr, g2.fr, nactvar)
      requires g2 == Goal(s1, g1.start, g1.nact, g2.fr, g2.ex) && Means(g2, e2, T, F)
      requires RegsOk(e2.k, g2.fr, freereg, nactvar)
      modifies `code, `jpc, `J, `X, `k, `h, `lasttarget, `freereg
      ensures Means(g1.(ex := BinE(opr, g1.ex, g2.ex)), e, [], []) && RegsOk(e.k, g1.fr, freereg, nactvar) && e.k.VJmp?
    {
      hide Describes;
      hide Computes;
      hide SnapOk;
      hide IsList;
      var (op, cond) := OpCodeOf(opr);
      var o1 := OperandOf(e1);
      var e2', o2 := Exp2RK(e2, g2, T, F);
      FreeExp(e2');
      FreeExp(e1);
      ComparedOperands(g1, s1, e1, g2, S(), e2', opr);
      if cond == false && op != Eq {  // ComparisonOf: a > b is b < a
        o1, o2 := o2, o1;
        cond := true;
      }
      e := CodeCompare(Compare(op, cond, o1, o2), g1.(ex := BinE(opr, g1.ex, g2.ex)));
    }

    method CodeCompare(i: Instruction, ghost g: Goal) returns (e: ExpDesc)
      requires Valid() && i.Compare? && g.start == start && g.nact == nactvar
      requires Computes(g, S(), Cmp(i.op, i.cond, i.rb, i.rc), {}, {})
      modifies `code, `jpc, `J, `X
      ensures e.k.VJmp? && Means(g, e, [], [])
    {
      hide Computes;
      ghost var s := S();
      ghost var res := Cmp(i.op, i.cond, i.rb, i.rc);
      ghost var b := Discharged(s);
      ComputesDischarged(g, s, res, {}, {});
      DischargedOk(s, start);
      ComputesResidue(g, b, res);
      SnapAppendTest(b, start, i, NO_JUMP);
      var pc := CondJump(i);
      e := ExpDesc(VJmp(pc), NO_JUMP, NO_JUMP);
      assert S() == b.(code := b.code + [i, Jmp(NO_JUMP)], X := b.X + {|b.code| + 1});
      NotPending(b, start, pc);
      assert BodyOf(S(), e.k) == b;
      EmptyList(code);
      assert ToSet([]) == {};
    }

    /** The right operand of `and` (`want`) or `or`: its list takes in the exits of the left one. */
    method JoinLogical(want: bool, e1: ExpDesc, e2: ExpDesc, ghost g1: Goal, ghost s1: Snap, ghost L: seq<nat>,
                       ghost g2: Goal, ghost T: seq<nat>, ghost F: seq<nat>)
      returns (e: ExpDesc, ghost T': seq<nat>, ghost F': seq<nat>)
      requires GuardedBy(g1, s1, want, if want then e1.f else e1.t, L)
      requires g2 == Goal(s1, g1.start, g1.nact, g1.fr, g2.ex) && Means(g2, e2, T, F)
      modifies `code
      ensures Means(g1.(ex := BinE(if want then OprAnd else OprOr, g1.ex, g2.ex)), e, T', F')
      ensures e.k == DischargeVars(e2).k && k == old(k)
    {
      hide Computes;
      hide Guards;
      hide SnapOk;
      e := DischargeVars(e2);
      ghost var s := S();
      ghost var g := g1.(ex := BinE(if want then OprAnd else OprOr, g1.ex, g2.ex));
      ghost var M := if want then F else T;
      LogicalLists(g1, s1, want, if want then e1.f else e1.t, L, g2, s, e, T, F, jpc, J);
      var list := Concat(if want then e.f else e.t, if want then e1.f else e1.t, M, L);
      T' := if want then T else T + L;
      F' := if want then F + L else F;
      e := if want then e.(f := list) else e.(t := list);
      LogicalJoined(g1, s1, want, L, g2, s, e, T, F, code);
      LogicalFrames(s.code, code, M, if want then e.t else e.f, if want then T else F, jpc, J);
    }

    /** `luaK_prefix`, `luaK_infix` and `luaK_posfix` called in the order `subexpr` calls them for the
        parse tree `ex`. */
    method SubExpr(ex: Expr, ghost g: Goal) returns (e: ExpDesc, ghost T: seq<nat>, ghost F: seq<nat>)
      requires Valid() && LocalsBelow(ex, nactvar) && g == Goal(S(), start, nactvar, freereg, ex)
      modifies this
      ensures Means(g, e, T, F) && RegsOk(e.k, g.fr, freereg, nactvar)
      ensures e.k.VK? ==> !IsFalse(k[e.k.info])
      ensures start == old(start) && nactvar == old(nactvar)
      decreases ex
    {
      T, F := [], [];
      match ex
      case NilE => e := SimpleExp(VNil, g);
      case TrueE => e := SimpleExp(VTrue, g);
      case FalseE => e := SimpleExp(VFalse, g);
      case NumE(n) => e := SimpleExp(VKNum(n), g);
      case StrE(str) => e := CodeString(str, g);
      case LocalE(r) => e := SimpleExp(VLocal(r), g);
      case NotE(x) =>
        ghost var T1, F1;
        e, T1, F1 := SubExpr(x, g.(ex := x));
        e := CodeNot(e, g.(ex := x), T1, F1);
        T, F := F1, T1;
      case BinE(op, l, r) =>
        e, T, F := BinaryExp(op, l, r, g);
    }

    /** A binary operator: infix action, right operand, postfix action. */
    method BinaryExp(op: BinOpr, l: Expr, r: Expr, ghost g: Goal)
      returns (e: ExpDesc, ghost T: seq<nat>, ghost F: seq<nat>)
      requires Valid() && LocalsBelow(BinE(op, l, r), nactvar) && g == Goal(S(), start, nactvar, freereg, BinE(op, l, r))
      modifies this
      ensures Means(g, e, T, F) && RegsOk(e.k, g.fr, freereg, nactvar)
      ensures e.k.VK? ==> !IsFalse(k[e.k.info])
      ensures start == old(start) && nactvar == old(nactvar)
      decreases BinE(op, l, r), 0
    {
      hide Computes;
      hide Guards;
      hide SnapOk;
      hide IsList;
      ghost var g1 := g.(ex := l);
      var e1;
      e1, T, F := SubExpr(l, g1);
      if op.OprAnd? || op.OprOr? {
        ghost var L;
        if op.OprAnd? {
          e1, L := GoIfTrue(e1, g1, T, F);
        } else {
          e1, L := GoIfFalse(e1, g1, T, F);
        }
        ghost var s1 := S();
        ghost var g2 := Goal(s1, start, nactvar, freereg, r);
        var e2;
        e2, T, F := SubExpr(r, g2);
        e, T, F := JoinLogical(op.OprAnd?, e1, e2, g1, s1, L, g2, T, F);
      } else {
        var o1;
        DescribesGoal(g1, S(), e1, T, F);
        e1, o1 := Exp2RK(e1, g1, T, F);
        ghost var s1 := S();
        ghost var g2 := Goal(s1, start, nactvar, freereg, r);
        var e2;
        e2, T, F := SubExpr(r, g2);
        e := CodeComp(op, e1, e2, g1, s1, g2, T, F);
        T, F := [], [];
      }
    }

    /** `init_exp` in `simpleexp`: no code. */
    method SimpleExp(kd: ExpKind, ghost g: Goal) returns (e: ExpDesc)
      requires Valid() && LocalsBelow(g.ex, nactvar) && g == Goal(S(), start, nactvar, freereg, g.ex)
      requires !kd.VJmp? && !kd.VRelocable? && !kd.VNonReloc? && KindOk(S(), kd)
      requires forall R :: Residual(ResOf(S(), kd), k, R) == Eval(g.ex, R)
      requires kd.VLocal? ==> kd.info < nactvar
      ensures e == ExpDesc(kd, NO_JUMP, NO_JUMP) && Means(g, e, [], []) && RegsOk(e.k, g.fr, freereg, nactvar)
    {
      hide Computes;
      ComputesNothing(g, ResOf(S(), kd));
      EmptyList(code);
      assert ToSet([]) == {};
      e := ExpDesc(kd, NO_JUMP, NO_JUMP);
    }

    /** `codestring`. */
    method CodeString(str: string, ghost g: Goal) returns (e: ExpDesc)
      requires Valid() && g == Goal(S(), start, nactvar, freereg, StrE(str))
      modifies `k, `h
      ensures Means(g, e, [], []) && RegsOk(e.k, g.fr, freereg, nactvar)
      ensures e.k.VK? && e.k.info < |k| && k[e.k.info] == Str(str)
    {
      hide Computes;
      ghost var s := S();
      ComputesNothing(g, Const(Str(str)));
      var i := AddK(Str(str));
      ComputesMoreConstants(g, s, Const(Str(str)), {}, {}, k);
      ComputesSnap(g, S(), Const(Str(str)), {}, {});
      EmptyList(code);
      assert ToSet([]) == {};
      e := ExpDesc(VK(i), NO_JUMP, NO_JUMP);
    }
  }
}
