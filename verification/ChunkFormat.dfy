/** The format of precompiled chunks (lua/ldump.c, lua/lundump.c). */
module ChunkFormat {
  // What the dumper writes, the loader reads back.

  import opened Basics
  import Checker

  type Str = seq<Byte>

  /** A constant; a string constant of size zero in a chunk is loaded as a null string. */
  datatype Const = KNil | KBool(b: bool) | KNum(bits: nat) | KStr(s: Option<Str>)

  datatype LocVar = LocVar(varname: Option<Str>, startpc: nat, endpc: nat)

  /** A function prototype. */
  datatype Proto = Proto(
    source: Option<Str>,
    linedefined: nat,
    lastlinedefined: nat,
    nups: Byte,
    numparams: Byte,
    isVararg: Byte,
    maxstacksize: Byte,
    code: seq<Checker.Word>,
    k: seq<Const>,
    p: seq<Proto>,
    lineinfo: seq<nat>,
    locvars: seq<LocVar>,
    upvalues: seq<Option<Str>>)

  /** What the bytecode checker looks at. */
  function View(f: Proto): Checker.Proto {
    Checker.Proto(f.code, f.maxstacksize, f.numparams,
                  f.isVararg % 2 == 1, f.isVararg / 2 % 2 == 1, f.isVararg / 4 % 2 == 1,
                  f.nups, |f.upvalues|, |f.lineinfo|,
                  seq(|f.k|, i requires 0 <= i < |f.k| => f.k[i].KStr?),
                  seq(|f.p|, i requires 0 <= i < |f.p| => f.p[i].nups as nat))
  }

  // ----- numbers and blocks -----

  const INT_SIZE: nat := 4       // sizeof(int)
  const SIZE_T: nat := 4         // sizeof(size_t)
  const SIZE_MAX: nat := 0xFFFF_FFFF
  const INSTRUCTION: nat := 4    // sizeof(Instruction)
  const NUMBER: nat := 8         // sizeof(lua_Number)
  const MAX_INT: nat := 0x7FFF_FFFF

  function Pow256(n: nat): (p: nat)
    ensures p > 0
  {
    if n == 0 then 1 else 256 * Pow256(n - 1)
  }

  /** The bytes of a number, the lowest first. */
  function Bytes(n: nat, x: nat): (s: seq<Byte>)
    ensures |s| == n
  {
    if n == 0 then [] else [x % 256] + Bytes(n - 1, x / 256)
  }

  function Value(s: seq<Byte>): (x: nat)
    ensures x < Pow256(|s|)
  {
    if s == [] then 0 else s[0] + 256 * Value(s[1..])
  }

  lemma {:induction false} ValueOfBytes(n: nat, x: nat)
    requires x < Pow256(n)
    ensures Value(Bytes(n, x)) == x
  {
    if n > 0 {
      ValueOfBytes(n - 1, x / 256);
      assert Bytes(n, x)[1..] == Bytes(n - 1, x / 256);
    }
  }

  // ----- what the dumper writes -----

  function DumpStr(s: Option<Str>): seq<Byte> {
    match s
    case None => Bytes(SIZE_T, 0)
    case Some(t) => Bytes(SIZE_T, |t| + 1) + t + [0]
  }

  function DumpWords(n: nat, ws: seq<nat>): seq<Byte> {
    if ws == [] then [] else Bytes(n, ws[0]) + DumpWords(n, ws[1..])
  }

  function DumpConst(c: Const): seq<Byte> {
    match c
    case KNil => [0]
    case KBool(b) => [1, if b then 1 else 0]
    case KNum(x) => [3] + Bytes(NUMBER, x)
    case KStr(s) => [4] + DumpStr(s)
  }

  function DumpConsts(k: seq<Const>): seq<Byte> {
    if k == [] then [] else DumpConst(k[0]) + DumpConsts(k[1..])
  }

  function DumpLocVars(vs: seq<LocVar>): seq<Byte> {
    if vs == [] then []
    else DumpStr(vs[0].varname) + Bytes(INT_SIZE, vs[0].startpc) + Bytes(INT_SIZE, vs[0].endpc) + DumpLocVars(vs[1..])
  }

  function DumpStrs(ss: seq<Option<Str>>): seq<Byte> {
    if ss == [] then [] else DumpStr(ss[0]) + DumpStrs(ss[1..])
  }

  function DumpDebug(f: Proto, strip: bool): seq<Byte> {
    if strip then Bytes(INT_SIZE, 0) + Bytes(INT_SIZE, 0) + Bytes(INT_SIZE, 0)
    else
      Bytes(INT_SIZE, |f.lineinfo|) + DumpWords(INT_SIZE, f.lineinfo) +
      (Bytes(INT_SIZE, |f.locvars|) + DumpLocVars(f.locvars) +
       (Bytes(INT_SIZE, |f.upvalues|) + DumpStrs(f.upvalues)))
  }

  function DumpHead(f: Proto): seq<Byte> {
    Bytes(INT_SIZE, f.linedefined) + (Bytes(INT_SIZE, f.lastlinedefined) + [f.nups, f.numparams, f.isVararg, f.maxstacksize])
  }

  /** The bytes of a prototype whose parent has source `p`. */
  function DumpFn(f: Proto, p: Option<Str>, strip: bool): seq<Byte>
    decreases f, |f.p| + 1
  {
    DumpStr(if f.source == p || strip then None else f.source) +
    (DumpHead(f) +
     (Bytes(INT_SIZE, |f.code|) + DumpWords(INSTRUCTION, f.code) +
      (Bytes(INT_SIZE, |f.k|) + DumpConsts(f.k) +
       (Bytes(INT_SIZE, |f.p|) + DumpFns(f, 0, strip) +
        DumpDebug(f, strip)))))
  }

  /** The nested prototypes of `f` from `i` on, one after the other. */
  function DumpFns(f: Proto, i: nat, strip: bool): seq<Byte>
    requires i <= |f.p|
    decreases f, |f.p| - i
  {
    if i == |f.p| then [] else DumpFn(f.p[i], f.source, strip) + DumpFns(f, i + 1, strip)
  }

  // ----- what the loader reads -----

  /** The outcome of reading from a stream: failure, or a value and the rest of the stream. */
  datatype Parsed<T> = Fail | Done(v: T, rest: seq<Byte>)

  function Block(s: seq<Byte>, n: nat): Parsed<seq<Byte>> {
    if |s| < n then Fail else Done(s[..n], s[n..])
  }

  function ReadWord(s: seq<Byte>, n: nat): (r: Parsed<nat>)
    ensures r.Done? ==> |r.rest| == |s| - n && r.v < Pow256(n)
  {
    match Block(s, n) case Fail => Fail case Done(b, rest) => Done(Value(b), rest)
  }

  /** `LoadInt`: negative integers are bad. */
  function ReadInt(s: seq<Byte>): (r: Parsed<nat>)
    ensures r.Done? ==> |r.rest| == |s| - INT_SIZE && r.v <= MAX_INT
  {
    match ReadWord(s, INT_SIZE)
    case Fail => Fail
    case Done(x, rest) => if x > MAX_INT then Fail else Done(x, rest)
  }

  function ReadByte(s: seq<Byte>): Parsed<Byte> {
    if s == [] then Fail else Done(s[0], s[1..])
  }

  function ReadStr(s: seq<Byte>): (r: Parsed<Option<Str>>)
    ensures r.Done? ==> |r.rest| < |s|
  {
    match ReadWord(s, SIZE_T)
    case Fail => Fail
    case Done(size, rest) =>
      if size == 0 then Done(None, rest)
      else match Block(rest, size) case Fail => Fail case Done(b, rest') => Done(Some(b[..size - 1]), rest')
  }

  function ReadWords(s: seq<Byte>, n: nat, size: nat): (r: Parsed<seq<nat>>)
    ensures r.Done? ==> |r.rest| <= |s| && |r.v| == n && forall i :: 0 <= i < n ==> r.v[i] < Pow256(size)
    decreases n
  {
    if n == 0 then Done([], s)
    else match ReadWord(s, size)
      case Fail => Fail
      case Done(w, rest) =>
        match ReadWords(rest, n - 1, size) case Fail => Fail case Done(ws, rest') => Done([w] + ws, rest')
  }

  function ReadConst(s: seq<Byte>): (r: Parsed<Const>)
    ensures r.Done? ==> |r.rest| < |s|
  {
    match ReadByte(s)
    case Fail => Fail
    case Done(t, rest) =>
      if t == 0 then Done(KNil, rest)
      else if t == 1 then (match ReadByte(rest) case Fail => Fail case Done(b, rest') => Done(KBool(b != 0), rest'))
      else if t == 3 then (match ReadWord(rest, NUMBER) case Fail => Fail case Done(x, rest') => Done(KNum(x), rest'))
      else if t == 4 then
        (match ReadStr(rest)
         case Fail => Fail
         case Done(o, rest') => Done(KStr(o), rest'))
      else Fail  // bad constant
  }

  function ReadConsts(s: seq<Byte>, n: nat): (r: Parsed<seq<Const>>)
    ensures r.Done? ==> |r.rest| <= |s|
    decreases n
  {
    if n == 0 then Done([], s)
    else match ReadConst(s)
      case Fail => Fail
      case Done(c, rest) =>
        match ReadConsts(rest, n - 1) case Fail => Fail case Done(cs, rest') => Done([c] + cs, rest')
  }

  function ReadLocVar(s: seq<Byte>): (r: Parsed<LocVar>)
    ensures r.Done? ==> |r.rest| < |s|
  {
    match ReadStr(s)
    case Fail => Fail
    case Done(name, rest) =>
      match ReadInt(rest)
      case Fail => Fail
      case Done(startpc, rest') =>
        match ReadInt(rest') case Fail => Fail case Done(endpc, rest'') => Done(LocVar(name, startpc, endpc), rest'')
  }

  function ReadLocVars(s: seq<Byte>, n: nat): (r: Parsed<seq<LocVar>>)
    ensures r.Done? ==> |r.rest| <= |s|
    decreases n
  {
    if n == 0 then Done([], s)
    else match ReadLocVar(s)
      case Fail => Fail
      case Done(v, rest) =>
        match ReadLocVars(rest, n - 1) case Fail => Fail case Done(vs, rest') => Done([v] + vs, rest')
  }

  function ReadStrs(s: seq<Byte>, n: nat): (r: Parsed<seq<Option<Str>>>)
    ensures r.Done? ==> |r.rest| <= |s|
    decreases n
  {
    if n == 0 then Done([], s)
    else match ReadStr(s)
      case Fail => Fail
      case Done(v, rest) =>
        match ReadStrs(rest, n - 1) case Fail => Fail case Done(vs, rest') => Done([v] + vs, rest')
  }

  function ReadCode(s: seq<Byte>): (r: Parsed<seq<Checker.Word>>)
    ensures r.Done? ==> |r.rest| < |s|
  {
    match ReadInt(s)
    case Fail => Fail
    case Done(n, rest) =>
      match ReadWords(rest, n, INSTRUCTION)
      case Fail => Fail
      case Done(ws, rest') => Done(ws, rest')
  }

  datatype Debug = Debug(lineinfo: seq<nat>, locvars: seq<LocVar>, upvalues: seq<Option<Str>>)

  function ReadDebug(s: seq<Byte>): (r: Parsed<Debug>)
    ensures r.Done? ==> |r.rest| < |s|
  {
    match ReadInt(s)
    case Fail => Fail
    case Done(n, s1) =>
      match ReadWords(s1, n, INT_SIZE)
      case Fail => Fail
      case Done(lineinfo, s2) =>
        match ReadInt(s2)
        case Fail => Fail
        case Done(n2, s3) =>
          match ReadLocVars(s3, n2)
          case Fail => Fail
          case Done(locvars, s4) =>
            match ReadInt(s4)
            case Fail => Fail
            case Done(n3, s5) =>
              match ReadStrs(s5, n3)
              case Fail => Fail
              case Done(upvalues, s6) => Done(Debug(lineinfo, locvars, upvalues), s6)
  }

  datatype Head = Head(linedefined: nat, lastlinedefined: nat, nups: Byte, numparams: Byte, isVararg: Byte, maxstacksize: Byte)

  function ReadHead(s: seq<Byte>): (r: Parsed<Head>)
    ensures r.Done? ==> |r.rest| < |s|
  {
    match ReadInt(s)
    case Fail => Fail
    case Done(line, s1) =>
      match ReadInt(s1)
      case Fail => Fail
      case Done(lastline, s2) =>
        match Block(s2, 4) case Fail => Fail case Done(b, s3) => Done(Head(line, lastline, b[0], b[1], b[2], b[3]), s3)
  }

  const MAXCCALLS: nat := 200

  /** `LoadFunction`: `p` is the source of the parent, `calls` the number of nested C calls. */
  ghost function ReadFn(s: seq<Byte>, p: Str, calls: nat): (r: Parsed<Proto>)
    ensures r.Done? ==> |r.rest| < |s|
    decreases |s|, 1, 0
  {
    if calls + 1 > MAXCCALLS then Fail  // code too deep
    else
      match ReadStr(s)
      case Fail => Fail
      case Done(source0, s1) =>
        var source := match source0 case None => p case Some(t) => t;
        match ReadHead(s1)
        case Fail => Fail
        case Done(h, s2) =>
          match ReadCode(s2)
          case Fail => Fail
          case Done(code, s3) => ReadRest(s3, source, h, code, calls + 1, |s|)
  }

  /** The part of a prototype after its code. */
  ghost function ReadRest(s: seq<Byte>, source: Str, h: Head, code: seq<Checker.Word>, calls: nat, size: nat): (r: Parsed<Proto>)
    requires |s| < size
    ensures r.Done? ==> |r.rest| <= |s|
    decreases size, 0, 0
  {
    match ReadInt(s)
    case Fail => Fail
    case Done(nk, s1) =>
      match ReadConsts(s1, nk)
      case Fail => Fail
      case Done(k, s2) =>
        match ReadInt(s2)
        case Fail => Fail
        case Done(np, s3) =>
          match ReadFns(s3, np, source, calls)
          case Fail => Fail
          case Done(ps, s4) =>
            match ReadDebug(s4)
            case Fail => Fail
            case Done(d, s5) =>
              var f := Proto(Some(source), h.linedefined, h.lastlinedefined, h.nups, h.numparams, h.isVararg, h.maxstacksize,
                             code, k, ps, d.lineinfo, d.locvars, d.upvalues);
              if Checker.Accepted(View(f)) then Done(f, s5) else Fail  // bad code
  }

  ghost function ReadFns(s: seq<Byte>, n: nat, source: Str, calls: nat): (r: Parsed<seq<Proto>>)
    ensures r.Done? ==> |r.rest| <= |s|
    decreases |s|, 2, n
  {
    if n == 0 then Done([], s)
    else match ReadFn(s, source, calls)
      case Fail => Fail
      case Done(f, rest) =>
        match ReadFns(rest, n - 1, source, calls) case Fail => Fail case Done(fs, rest') => Done([f] + fs, rest')
  }

  // ----- reading back what was written -----

  lemma Assoc(a: seq<Byte>, b: seq<Byte>, c: seq<Byte>)
    ensures a + b + c == a + (b + c)
  {
  }

  lemma BlockBack(b: seq<Byte>, tail: seq<Byte>)
    ensures Block(b + tail, |b|) == Done(b, tail)
  {
    assert (b + tail)[..|b|] == b && (b + tail)[|b|..] == tail;
  }

  lemma WordBack(n: nat, x: nat, tail: seq<Byte>)
    requires x < Pow256(n)
    ensures ReadWord(Bytes(n, x) + tail, n) == Done(x, tail)
  {
    BlockBack(Bytes(n, x), tail);
    ValueOfBytes(n, x);
  }

  lemma IntBack(x: nat, tail: seq<Byte>)
    requires x <= MAX_INT
    ensures ReadInt(Bytes(INT_SIZE, x) + tail) == Done(x, tail)
  {
    WordBack(INT_SIZE, x, tail);
  }

  /** A string that can be stored: its size fits. */
  predicate StrOk(s: Option<Str>) {
    s.Some? ==> |s.v| + 1 < Pow256(SIZE_T)
  }

  lemma StrBack(s: Option<Str>, tail: seq<Byte>)
    requires StrOk(s)
    ensures ReadStr(DumpStr(s) + tail) == Done(s, tail)
  {
    match s
    case None => WordBack(SIZE_T, 0, tail);
    case Some(t) =>
      WordBack(SIZE_T, |t| + 1, t + [0] + tail);
      assert DumpStr(s) + tail == Bytes(SIZE_T, |t| + 1) + (t + [0] + tail);
      BlockBack(t + [0], tail);
      assert (t + [0])[..|t|] == t;
  }

  lemma {:induction false} WordsBack(ws: seq<nat>, n: nat, tail: seq<Byte>)
    requires forall i :: 0 <= i < |ws| ==> ws[i] < Pow256(n)
    ensures ReadWords(DumpWords(n, ws) + tail, |ws|, n) == Done(ws, tail)
  {
    if ws == [] {
      assert DumpWords(n, ws) + tail == tail;
    } else {
      hide ReadWord;
      Assoc(Bytes(n, ws[0]), DumpWords(n, ws[1..]), tail);
      WordBack(n, ws[0], DumpWords(n, ws[1..]) + tail);
      WordsBack(ws[1..], n, tail);
      assert [ws[0]] + ws[1..] == ws;
    }
  }

  predicate ConstOk(c: Const) {
    match c
    case KNum(x) => x < Pow256(NUMBER)
    case KStr(s) => StrOk(s)
    case _ => true
  }

  lemma ConstBack(c: Const, tail: seq<Byte>)
    requires ConstOk(c)
    ensures ReadConst(DumpConst(c) + tail) == Done(c, tail)
  {
    hide Bytes;
    hide Value;
    hide Pow256;
    hide StrOk;
    hide DumpStr;
    hide ReadStr;
    hide ReadWord;
    match c
    case KNil => assert (DumpConst(c) + tail)[1..] == tail;
    case KBool(b) => assert (DumpConst(c) + tail)[1..] == [if b then 1 else 0] + tail && ([if b then 1 else 0] + tail)[1..] == tail;
    case KNum(x) =>
      assert (DumpConst(c) + tail)[1..] == Bytes(NUMBER, x) + tail;
      WordBack(NUMBER, x, tail);
    case KStr(s) =>
      assert (DumpConst(c) + tail)[1..] == DumpStr(s) + tail;
      StrBack(s, tail);
  }

  lemma {:induction false} ConstsBack(k: seq<Const>, tail: seq<Byte>)
    requires forall i :: 0 <= i < |k| ==> ConstOk(k[i])
    ensures ReadConsts(DumpConsts(k) + tail, |k|) == Done(k, tail)
  {
    if k == [] {
      assert DumpConsts(k) + tail == tail;
    } else {
      hide DumpConst;
      hide ReadConst;
      Assoc(DumpConst(k[0]), DumpConsts(k[1..]), tail);
      ConstBack(k[0], DumpConsts(k[1..]) + tail);
      ConstsBack(k[1..], tail);
      assert [k[0]] + k[1..] == k;
    }
  }

  predicate LocVarOk(v: LocVar) {
    StrOk(v.varname) && v.startpc <= MAX_INT && v.endpc <= MAX_INT
  }

  lemma LocVarBack(v: LocVar, tail: seq<Byte>)
    requires LocVarOk(v)
    ensures ReadLocVar(DumpStr(v.varname) + Bytes(INT_SIZE, v.startpc) + Bytes(INT_SIZE, v.endpc) + tail) == Done(v, tail)
  {
    hide DumpStr;
    hide ReadStr;
    hide ReadInt;
    hide Bytes;
    var t2 := Bytes(INT_SIZE, v.endpc) + tail;
    var t1 := Bytes(INT_SIZE, v.startpc) + t2;
    Assoc(DumpStr(v.varname) + Bytes(INT_SIZE, v.startpc), Bytes(INT_SIZE, v.endpc), tail);
    Assoc(DumpStr(v.varname), Bytes(INT_SIZE, v.startpc), t2);
    StrBack(v.varname, t1);
    IntBack(v.startpc, t2);
    IntBack(v.endpc, tail);
  }

  lemma {:induction false} LocVarsBack(vs: seq<LocVar>, tail: seq<Byte>)
    requires forall i :: 0 <= i < |vs| ==> LocVarOk(vs[i])
    ensures ReadLocVars(DumpLocVars(vs) + tail, |vs|) == Done(vs, tail)
  {
    if vs == [] {
      assert DumpLocVars(vs) + tail == tail;
    } else {
      hide ReadLocVar;
      var v := vs[0];
      hide DumpStr;
      hide Bytes;
      Assoc(DumpStr(v.varname) + Bytes(INT_SIZE, v.startpc) + Bytes(INT_SIZE, v.endpc), DumpLocVars(vs[1..]), tail);
      LocVarBack(v, DumpLocVars(vs[1..]) + tail);
      LocVarsBack(vs[1..], tail);
      assert [v] + vs[1..] == vs;
    }
  }

  lemma {:induction false} StrsBack(ss: seq<Option<Str>>, tail: seq<Byte>)
    requires forall i :: 0 <= i < |ss| ==> StrOk(ss[i])
    ensures ReadStrs(DumpStrs(ss) + tail, |ss|) == Done(ss, tail)
  {
    hide StrOk;
    hide DumpStr;
    hide ReadStr;
    hide Bytes;
    hide Pow256;
    if ss == [] {
      assert DumpStrs(ss) + tail == tail;
    } else {
      Assoc(DumpStr(ss[0]), DumpStrs(ss[1..]), tail);
      StrBack(ss[0], DumpStrs(ss[1..]) + tail);
      StrsBack(ss[1..], tail);
      assert [ss[0]] + ss[1..] == ss;
    }
  }

  // ----- whole prototypes -----

  /** A prototype that can be written: its parts fit their fields, the checker accepts its code, and it
      is not nested too deep. */
  ghost predicate WellFormed(f: Proto, calls: nat) {
    && calls + 1 <= MAXCCALLS
    && f.source.Some? && StrOk(f.source)
    && PartsOk(f) && DebugOk(f)
    && Checker.Accepted(View(f))
    && forall i :: 0 <= i < |f.p| ==> WellFormed(f.p[i], calls + 1)
  }

  predicate PartsOk(f: Proto) {
    && f.linedefined <= MAX_INT && f.lastlinedefined <= MAX_INT
    && |f.code| <= MAX_INT && |f.k| <= MAX_INT && |f.p| <= MAX_INT
    && forall i :: 0 <= i < |f.k| ==> ConstOk(f.k[i])
  }

  predicate DebugOk(f: Proto) {
    && |f.lineinfo| <= MAX_INT && |f.locvars| <= MAX_INT && |f.upvalues| <= MAX_INT
    && (forall i :: 0 <= i < |f.lineinfo| ==> f.lineinfo[i] < Pow256(INT_SIZE))
    && (forall i :: 0 <= i < |f.locvars| ==> LocVarOk(f.locvars[i]))
    && (forall i :: 0 <= i < |f.upvalues| ==> StrOk(f.upvalues[i]))
  }

  /** What is left of a prototype that was stripped: no debug data, and the source of the loader. */
  function Stripped(f: Proto, source: Str): Proto
    decreases f, |f.p| + 1
  {
    f.(source := Some(source), lineinfo := [], locvars := [], upvalues := [], p := StrippedAll(f, source, 0))
  }

  function StrippedAll(f: Proto, source: Str, i: nat): (ps: seq<Proto>)
    requires i <= |f.p|
    ensures |ps| == |f.p| - i
    decreases f, |f.p| - i
  {
    if i == |f.p| then [] else [Stripped(f.p[i], source)] + StrippedAll(f, source, i + 1)
  }

  /** What comes back. */
  function Restored(f: Proto, source: Str, strip: bool): Proto {
    if strip then Stripped(f, source) else f
  }

  lemma HeadBack(f: Proto, tail: seq<Byte>)
    requires PartsOk(f)
    ensures ReadHead(DumpHead(f) + tail) == Done(Head(f.linedefined, f.lastlinedefined, f.nups, f.numparams, f.isVararg, f.maxstacksize), tail)
  {
    hide Bytes;
    hide ReadInt;
    var b := [f.nups, f.numparams, f.isVararg, f.maxstacksize];
    assert DumpHead(f) + tail == Bytes(INT_SIZE, f.linedefined) + (Bytes(INT_SIZE, f.lastlinedefined) + (b + tail));
    IntBack(f.linedefined, Bytes(INT_SIZE, f.lastlinedefined) + (b + tail));
    IntBack(f.lastlinedefined, b + tail);
    BlockBack(b, tail);
  }

  lemma CodeBack(code: seq<Checker.Word>, tail: seq<Byte>)
    requires |code| <= MAX_INT
    ensures ReadCode(Bytes(INT_SIZE, |code|) + DumpWords(INSTRUCTION, code) + tail) == Done(code, tail)
  {
    hide Pow256;
    hide Bytes;
    hide ReadWords;
    hide DumpWords;
    hide ReadInt;
    assert Bytes(INT_SIZE, |code|) + DumpWords(INSTRUCTION, code) + tail == Bytes(INT_SIZE, |code|) + (DumpWords(INSTRUCTION, code) + tail);
    IntBack(|code|, DumpWords(INSTRUCTION, code) + tail);
    InstructionSize();
    var ws: seq<nat> := code;
    forall i | 0 <= i < |ws| ensures ws[i] < Pow256(INSTRUCTION) {
      assert ws[i] == code[i];
    }
    WordsBack(ws, INSTRUCTION, tail);
  }

  lemma InstructionSize()
    ensures Pow256(INSTRUCTION) == 0x1_0000_0000
  {
  }

  lemma DebugBack(f: Proto, strip: bool, tail: seq<Byte>)
    requires DebugOk(f)
    ensures ReadDebug(DumpDebug(f, strip) + tail) ==
              Done(if strip then Debug([], [], []) else Debug(f.lineinfo, f.locvars, f.upvalues), tail)
  {
    if strip {
      NoDebugBack(f, tail);
    } else {
      FullDebugBack(f, tail);
    }
  }

  lemma NoDebugBack(f: Proto, tail: seq<Byte>)
    ensures ReadDebug(DumpDebug(f, true) + tail) == Done(Debug([], [], []), tail)
  {
    hide Bytes;
    hide ReadInt;
    var z := Bytes(INT_SIZE, 0);
    assert DumpDebug(f, true) + tail == z + (z + (z + tail));
    IntBack(0, z + (z + tail));
    IntBack(0, z + tail);
    IntBack(0, tail);
  }

  lemma FullDebugBack(f: Proto, tail: seq<Byte>)
    requires DebugOk(f)
    ensures ReadDebug(DumpDebug(f, false) + tail) == Done(Debug(f.lineinfo, f.locvars, f.upvalues), tail)
  {
    hide Bytes;
    hide ReadInt;
    hide ReadWords;
    hide ReadLocVars;
    hide ReadStrs;
    hide DumpWords;
    hide DumpLocVars;
    hide DumpStrs;
    var s5 := DumpStrs(f.upvalues) + tail;
    var s4 := Bytes(INT_SIZE, |f.upvalues|) + s5;
    var s3 := DumpLocVars(f.locvars) + s4;
    var s2 := Bytes(INT_SIZE, |f.locvars|) + s3;
    var s1 := DumpWords(INT_SIZE, f.lineinfo) + s2;
    assert DumpDebug(f, false) + tail == Bytes(INT_SIZE, |f.lineinfo|) + s1;
    IntBack(|f.lineinfo|, s1);
    WordsBack(f.lineinfo, INT_SIZE, s2);
    IntBack(|f.locvars|, s3);
    LocVarsBack(f.locvars, s4);
    IntBack(|f.upvalues|, s5);
    StrsBack(f.upvalues, tail);
  }

  /** The checker accepts code with or without debug data. */
  lemma StrippedAccepted(f: Proto, source: Str)
    requires Checker.Accepted(View(f))
    ensures Checker.Accepted(View(Stripped(f, source)))
  {
    var a, b := View(f), View(Stripped(f, source));
    forall j | 0 <= j < |f.p| ensures b.subNups[j] == a.subNups[j] {
      StrippedAt(f, source, 0, j);
    }
    assert b.subNups == a.subNups;
    assert b == a.(sizelineinfo := 0, sizeupvalues := 0);
    SizesDoNotMatter(a);
  }

  lemma SizesDoNotMatter(a: Checker.Proto)
    requires Checker.Accepted(a)
    ensures Checker.Accepted(a.(sizelineinfo := 0, sizeupvalues := 0))
  {
    var b := a.(sizelineinfo := 0, sizeupvalues := 0);
    forall pc | 0 <= pc < |b.code| && Checker.Instr(b.code, pc) ensures Checker.WordOk(b, pc) {
      assert Checker.WordOk(a, pc);
      SameWordOk(a, b, pc);
    }
  }

  lemma SameWordOk(a: Checker.Proto, b: Checker.Proto, pc: nat)
    requires Checker.Precheck(a) && Checker.Precheck(b) && b == a.(sizelineinfo := 0, sizeupvalues := 0) && pc < |a.code| && Checker.WordOk(a, pc)
    ensures Checker.WordOk(b, pc)
  {
    hide Checker.Op;
    hide Checker.ArgA;
    hide Checker.ArgB;
    hide Checker.ArgC;
    hide Checker.ArgBx;
    assert Checker.OperandsOk(b, pc) == Checker.OperandsOk(a, pc);
  }

  lemma {:induction false} StrippedAt(f: Proto, source: Str, i: nat, j: nat)
    requires i + j < |f.p|
    ensures StrippedAll(f, source, i)[j] == Stripped(f.p[i + j], source)
    decreases j
  {
    if j > 0 {
      StrippedAt(f, source, i + 1, j - 1);
    }
  }

  /** The source that the loader gives to the prototype. */
  function LoadedSource(f: Proto, q: Str, strip: bool): Str
    requires f.source.Some?
  {
    if strip then q else f.source.v
  }

  /** The source is written only if it is not that of the parent, and the loader fills it in. */
  lemma SourceBack(f: Proto, p: Option<Str>, q: Str, strip: bool, tail: seq<Byte>)
    requires f.source.Some? && StrOk(f.source) && (p == None || p == Some(q))
    ensures var s := DumpStr(if f.source == p || strip then None else f.source) + tail;
            var r := ReadStr(s);
            r.Done? && r.rest == tail && (match r.v case None => q case Some(t) => t) == LoadedSource(f, q, strip)
  {
    StrBack(if f.source == p || strip then None else f.source, tail);
  }

  /** Reading the bytes of a prototype gives it back, and leaves what follows. */
  lemma {:induction false} FnBack(f: Proto, p: Option<Str>, q: Str, strip: bool, calls: nat, tail: seq<Byte>)
    requires WellFormed(f, calls) && (p == None || p == Some(q))
    ensures ReadFn(DumpFn(f, p, strip) + tail, q, calls) == Done(Restored(f, q, strip), tail)
    decreases f, |f.p| + 2
  {
    hide ReadStr;
    hide ReadHead;
    hide ReadCode;
    hide ReadRest;
    hide DumpStr;
    hide DumpHead;
    hide DumpDebug;
    hide DumpWords;
    hide DumpConsts;
    hide DumpFns;
    hide Bytes;
    var s3 := DumpTail(f, strip) + tail;
    var s2 := Bytes(INT_SIZE, |f.code|) + DumpWords(INSTRUCTION, f.code) + s3;
    var s1 := DumpHead(f) + s2;
    var s0 := DumpFn(f, p, strip) + tail;
    assert s0 == DumpStr(if f.source == p || strip then None else f.source) + s1 by { hide DumpTail; SplitDump(f, p, strip, tail); }
    SourceBack(f, p, q, strip, s1);
    HeadBack(f, s2);
    CodeBack(f.code, s3);
    RestBack(f, q, strip, calls, tail, |s0|);
  }

  /** The bytes after the code. */
  function DumpTail(f: Proto, strip: bool): seq<Byte> {
    Bytes(INT_SIZE, |f.k|) + DumpConsts(f.k) + (Bytes(INT_SIZE, |f.p|) + DumpFns(f, 0, strip) + DumpDebug(f, strip))
  }

  lemma SplitDump(f: Proto, p: Option<Str>, strip: bool, tail: seq<Byte>)
    ensures DumpFn(f, p, strip) + tail ==
              DumpStr(if f.source == p || strip then None else f.source) +
              (DumpHead(f) + (Bytes(INT_SIZE, |f.code|) + DumpWords(INSTRUCTION, f.code) + (DumpTail(f, strip) + tail)))
  {
    hide DumpStr;
    hide DumpHead;
    hide DumpDebug;
    hide DumpWords;
    hide DumpConsts;
    hide DumpFns;
    hide Bytes;
    var a, b, c, d := DumpStr(if f.source == p || strip then None else f.source), DumpHead(f),
                      Bytes(INT_SIZE, |f.code|) + DumpWords(INSTRUCTION, f.code), DumpTail(f, strip);
    assert DumpFn(f, p, strip) == a + (b + (c + d));
    hide DumpTail;
    assert a + (b + (c + d)) + tail == a + (b + (c + (d + tail)));
  }

  lemma {:induction false} RestBack(f: Proto, q: Str, strip: bool, calls: nat, tail: seq<Byte>, size: nat)
    requires WellFormed(f, calls) && |DumpTail(f, strip) + tail| < size
    ensures var h := Head(f.linedefined, f.lastlinedefined, f.nups, f.numparams, f.isVararg, f.maxstacksize);
            ReadRest(DumpTail(f, strip) + tail, LoadedSource(f, q, strip), h, f.code, calls + 1, size) == Done(Restored(f, q, strip), tail)
    decreases f, |f.p| + 1
  {
    hide ReadInt;
    hide ReadConsts;
    hide ReadFns;
    hide ReadDebug;
    hide DumpDebug;
    hide DumpConsts;
    hide DumpFns;
    hide Bytes;
    hide Checker.Accepted;
    var s4 := DumpDebug(f, strip) + tail;
    var s3 := DumpFns(f, 0, strip) + s4;
    var s2 := Bytes(INT_SIZE, |f.p|) + s3;
    var s1 := DumpConsts(f.k) + s2;
    assert DumpTail(f, strip) + tail == Bytes(INT_SIZE, |f.k|) + s1;
    IntBack(|f.k|, s1);
    ConstsBack(f.k, s2);
    IntBack(|f.p|, s3);
    FnsBack(f, q, strip, calls, 0, s4);
    DebugBack(f, strip, tail);
    assert f.p[0..] == f.p;
    if strip {
      StrippedAccepted(f, q);
    }
  }

  lemma {:induction false} FnsBack(f: Proto, q: Str, strip: bool, calls: nat, i: nat, tail: seq<Byte>)
    requires WellFormed(f, calls) && i <= |f.p|
    ensures ReadFns(DumpFns(f, i, strip) + tail, |f.p| - i, LoadedSource(f, q, strip), calls + 1) ==
              Done(if strip then StrippedAll(f, q, i) else f.p[i..], tail)
    decreases f, |f.p| - i
  {
    hide ReadFn;
    hide DumpFn;
    hide Stripped;
    hide PartsOk;
    hide DebugOk;
    hide Checker.Accepted;
    hide Bytes;
    hide Pow256;
    hide StrOk;
    if i == |f.p| {
      assert DumpFns(f, i, strip) + tail == tail;
    } else {
      var s1 := DumpFns(f, i + 1, strip) + tail;
      Assoc(DumpFn(f.p[i], f.source, strip), DumpFns(f, i + 1, strip), tail);
      if strip {
        StripIgnoresParent(f.p[i], f.source, None);
        FnBack(f.p[i], None, q, strip, calls + 1, s1);
      } else {
        FnBack(f.p[i], f.source, f.source.v, strip, calls + 1, s1);
      }
      FnsBack(f, q, strip, calls, i + 1, tail);
      assert f.p[i..] == [f.p[i]] + f.p[i + 1..];
      assert StrippedAll(f, q, i) == [Stripped(f.p[i], q)] + StrippedAll(f, q, i + 1);
      assert DumpFns(f, i, strip) + tail == DumpFn(f.p[i], f.source, strip) + s1;
      hide WellFormed;
      hide DumpFns;
      hide StrippedAll;
      ReadFnsNext(DumpFn(f.p[i], f.source, strip) + s1, |f.p| - i, LoadedSource(f, q, strip), calls + 1, s1);
    }
  }

  /** Reading several prototypes is reading one and then the others. */
  lemma ReadFnsNext(s: seq<Byte>, n: nat, source: Str, calls: nat, rest: seq<Byte>)
    requires n > 0 && ReadFn(s, source, calls).Done? && ReadFn(s, source, calls).rest == rest
    ensures ReadFns(s, n, source, calls) ==
              match ReadFns(rest, n - 1, source, calls)
              case Fail => Fail
              case Done(fs, rest') => Done([ReadFn(s, source, calls).v] + fs, rest')
  {
    hide ReadFn;
  }

  lemma StripIgnoresParent(f: Proto, p: Option<Str>, p': Option<Str>)
    ensures DumpFn(f, p, true) == DumpFn(f, p', true)
  {
  }

  // ----- whole chunks -----

  /** `luaU_header`: signature, version, format, endianness and sizes. */
  function Header(): seq<Byte> {
    [27, 76, 117, 97, 0x51, 0, 1, INT_SIZE, SIZE_T, INSTRUCTION, NUMBER, 0]
  }

  function DumpChunk(f: Proto, strip: bool): seq<Byte> {
    Header() + DumpFn(f, None, strip)
  }

  ghost function ReadChunk(s: seq<Byte>, calls: nat): Parsed<Proto> {
    match Block(s, 12)
    case Fail => Fail
    case Done(h, rest) => if h != Header() then Fail else ReadFn(rest, [61, 63], calls)  // "=?"
  }

  /** Loading a dumped chunk gives back the prototype; a stripped one has lost only its sources and its
      debug data. */
  lemma ChunkBack(f: Proto, strip: bool, calls: nat, tail: seq<Byte>)
    requires WellFormed(f, calls)
    ensures ReadChunk(DumpChunk(f, strip) + tail, calls) == Done(Restored(f, [61, 63], strip), tail)
  {
    hide DumpFn;
    hide ReadFn;
    assert DumpChunk(f, strip) + tail == Header() + (DumpFn(f, None, strip) + tail);
    BlockBack(Header(), DumpFn(f, None, strip) + tail);
    FnBack(f, None, [61, 63], strip, calls, tail);
  }
}