/** Chunks byte by byte (lua/ldump.c). */
module ChunkMeaning {
  // The dumper and the loader share the format, the view of the checker and the limits of the fields.
  // Here the bytes of a chunk, the flags and the limits are written out.
  import opened Basics
  import opened ChunkFormat
  import opened ChunkIO
  import Checker
  import opened CheckerMeaning

  // ----- what the checker sees -----

  /** The bits 1, 2 and 4 of the flags tell of the parameter `arg`, of `...` and of the need for `arg`. */
  lemma ViewFlags(f: Proto)
    ensures var v := View(f);
      f.isVararg % 8 == (if v.hasArg then 1 else 0) + (if v.isVararg then 2 else 0) + (if v.needsArg then 4 else 0)
  {
    Bits(f.isVararg);
  }

  lemma Bits(x: Byte)
    ensures x % 8 == x % 2 + 2 * (x / 2 % 2) + 4 * (x / 4 % 2)
  {
    var half, quarter, d := x / 2, x / 4, x / 8;
    assert quarter == half / 2 && d == quarter / 2;
    assert x == 8 * d + 4 * (quarter % 2) + 2 * (half % 2) + x % 2;
  }

  lemma ViewParts(f: Proto)
    ensures var v := View(f);
      && v.code == f.code && v.maxstacksize == f.maxstacksize && v.numparams == f.numparams && v.nups == f.nups
      && v.sizeupvalues == |f.upvalues| && v.sizelineinfo == |f.lineinfo|
      && |v.kIsString| == |f.k| && (forall i :: 0 <= i < |f.k| ==> (v.kIsString[i] <==> exists s :: f.k[i] == KStr(s)))
      && |v.subNups| == |f.p| && forall i :: 0 <= i < |f.p| ==> v.subNups[i] == f.p[i].nups
  {
    forall i | 0 <= i < |f.k| ensures View(f).kIsString[i] <==> exists s :: f.k[i] == KStr(s) {
      if f.k[i].KStr? {
        assert f.k[i] == KStr(f.k[i].s);
      }
    }
  }

  // ----- prototypes that only return -----

  predicate Short(s: Option<Str>) {
    match s case None => true case Some(t) => |t| < 0xFFFF_FFFF
  }

  /** A prototype whose code is RETURN 0 1, nested at most `levels` deep. */
  predicate OnlyReturns(f: Proto, levels: nat)
    decreases f
  {
    && levels > 0
    && f.source != None && Short(f.source) && f.linedefined < 0x8000_0000 && f.lastlinedefined < 0x8000_0000
    && f.isVararg in {0, 2, 3, 7} && 1 <= f.maxstacksize <= 250
    && (if f.isVararg == 0 || f.isVararg == 2 then f.numparams <= f.maxstacksize else f.numparams < f.maxstacksize)
    && f.code == [0x80_001E] && (f.lineinfo == [] || (|f.lineinfo| == 1 && f.lineinfo[0] < 0x1_0000_0000))
    && |f.k| < 0x8000_0000 && (forall i :: 0 <= i < |f.k| ==>
         (f.k[i].KNum? ==> f.k[i].bits < 0x1_0000_0000_0000_0000) && (f.k[i].KStr? ==> Short(f.k[i].s)))
    && |f.upvalues| <= f.nups && (forall i :: 0 <= i < |f.upvalues| ==> Short(f.upvalues[i]))
    && |f.locvars| < 0x8000_0000 && (forall i :: 0 <= i < |f.locvars| ==>
         Short(f.locvars[i].varname) && f.locvars[i].startpc < 0x8000_0000 && f.locvars[i].endpc < 0x8000_0000)
    && |f.p| < 0x8000_0000 && forall i :: 0 <= i < |f.p| ==> OnlyReturns(f.p[i], levels - 1)
  }

  lemma Limits()
    ensures Pow256(4) == 0x1_0000_0000 && Pow256(8) == 0x1_0000_0000_0000_0000
  {
    assert Pow256(2) == 0x1_0000 && Pow256(4) == 256 * 256 * Pow256(2);
    assert Pow256(6) == 256 * 256 * Pow256(4) && Pow256(8) == 256 * 256 * Pow256(6);
  }

  lemma ReturnIsAccepted(f: Proto, levels: nat)
    requires OnlyReturns(f, levels)
    ensures Checker.Accepted(View(f))
  {
    ViewFlags(f);
    ViewParts(f);
    hide View;
    OnlyReturn(View(f));
  }

  lemma {:induction false} OnlyReturnsIsWellFormed(f: Proto, calls: nat)
    requires calls <= 199 && OnlyReturns(f, 200 - calls)
    ensures WellFormed(f, calls)
    decreases f
  {
    Limits();
    ReturnIsAccepted(f, 200 - calls);
    forall i | 0 <= i < |f.p| ensures WellFormed(f.p[i], calls + 1) {
      OnlyReturnsIsWellFormed(f.p[i], calls + 1);
    }
    hide View;
    hide Pow256;
  }

  /** Saving a prototype that only returns, and loading it from a reader that cuts the bytes in any way. */
  method SaveAndLoad(f: Proto, strip: bool, writer: nat -> int, cut: seq<Byte> -> seq<seq<Byte>>) returns (status: int, r: Loaded<Proto>)
    requires OnlyReturns(f, 200) && forall b :: Flat(cut(b)) == b
    ensures (forall n: nat :: writer(n) == 0) ==> status == 0
    ensures status == 0 && !strip ==> r == Good(f)
    ensures status == 0 && strip ==>
      && r.Good? && |r.v.p| == |f.p|
      && r.v == f.(source := Some([61, 63]), lineinfo := [], locvars := [], upvalues := [], p := r.v.p)
  {
    hide OnlyReturns;
    hide DumpFn;
    hide ReadFn;
    hide WellFormed;
    OnlyReturnsIsWellFormed(f, 0);
    status, r := DumpAndLoad(f, strip, writer, cut(DumpChunk(f, strip)), 0);
  }

  // ----- literal bytes -----

  lemma HeaderBytes()
    ensures Header() == [0x1B, 'L' as nat, 'u' as nat, 'a' as nat, 0x51, 0, 1, 4, 4, 4, 8, 0]
  {
  }

  /** A function that only returns, with one constant of each kind and all of its debug data. */
  function Sample(): Proto {
    Proto(Some([0x40, 0x78]), 5, 7, 1, 3, 2, 4, [0x80_001E],
          [KNil, KBool(true), KNum(0x3FF0_0000_0000_0000), KStr(Some([0x61]))], [],
          [6], [LocVar(Some([0x62]), 0, 1)], [Some([0x63])])
  }

  function SampleBytes(): seq<Byte> {
    [0x1B, 0x4C, 0x75, 0x61, 0x51, 0, 1, 4, 4, 4, 8, 0] +  // signature and sizes
    ([3, 0, 0, 0, 0x40, 0x78, 0] +                          // the source "@x"
     ([5, 0, 0, 0, 7, 0, 0, 0, 1, 3, 2, 4] +                // lines, upvalues, parameters, flags, stack
      ([1, 0, 0, 0] + [0x1E, 0, 0x80, 0] +                  // RETURN 0 1
       ([4, 0, 0, 0] + SampleConsts() +
        ([0, 0, 0, 0] + [] +                                // no nested functions
         SampleDebug())))))
  }

  function SampleConsts(): seq<Byte> {
    [0] + [1, 1] +                         // nil and true
    [3, 0, 0, 0, 0, 0, 0, 0xF0, 0x3F] +    // 1.0
    [4, 2, 0, 0, 0, 0x61, 0]               // "a"
  }

  function SampleDebug(): seq<Byte> {
    [1, 0, 0, 0, 6, 0, 0, 0] +                                                // line 6
    [1, 0, 0, 0] + [2, 0, 0, 0, 0x62, 0] + [0, 0, 0, 0] + [1, 0, 0, 0] +     // local variable "b"
    [1, 0, 0, 0] + [2, 0, 0, 0, 0x63, 0]                                      // upvalue "c"
  }

  /** The bytes of a number are the only ones with its value. */
  lemma {:induction false} BytesOfValue(s: seq<Byte>)
    ensures Bytes(|s|, Value(s)) == s
  {
    if s != [] {
      BytesOfValue(s[1..]);
      LowByte(s[0], Value(s[1..]));
      assert s == [s[0]] + s[1..];
    }
  }

  lemma LowByte(b: Byte, x: nat)
    ensures (b + 256 * x) % 256 == b && (b + 256 * x) / 256 == x
  {
  }

  lemma Value2(a: Byte, b: Byte, t: seq<Byte>)
    ensures Value([a, b] + t) == a + 0x100 * b + 0x1_0000 * Value(t)
  {
    assert ([a, b] + t)[1..] == [b] + t && ([b] + t)[1..] == t;
  }

  lemma Bytes4(a: Byte, b: Byte, c: Byte, d: Byte)
    ensures Bytes(4, a + 0x100 * b + 0x1_0000 * c + 0x100_0000 * d) == [a, b, c, d]
  {
    hide Bytes;
    Value2(c, d, []);
    Value2(a, b, [c, d]);
    assert [a, b] + [c, d] == [a, b, c, d] && [c, d] + [] == [c, d];
    BytesOfValue([a, b, c, d]);
  }

  lemma OneBytes()
    ensures Bytes(8, 0x3FF0_0000_0000_0000) == [0, 0, 0, 0, 0, 0, 0xF0, 0x3F]
  {
    hide Bytes;
    Value2(0xF0, 0x3F, []);
    Value2(0, 0, [0xF0, 0x3F]);
    Value2(0, 0, [0, 0, 0xF0, 0x3F]);
    Value2(0, 0, [0, 0, 0, 0, 0xF0, 0x3F]);
    assert [0xF0, 0x3F] + [] == [0xF0, 0x3F];
    assert [0, 0] + [0xF0, 0x3F] == [0, 0, 0xF0, 0x3F];
    assert [0, 0] + [0, 0, 0xF0, 0x3F] == [0, 0, 0, 0, 0xF0, 0x3F];
    assert [0, 0] + [0, 0, 0, 0, 0xF0, 0x3F] == [0, 0, 0, 0, 0, 0, 0xF0, 0x3F];
    BytesOfValue([0, 0, 0, 0, 0, 0, 0xF0, 0x3F]);
    hide Value;
  }

  lemma NumberBytes()
    ensures forall b: Byte :: Bytes(4, b) == [b, 0, 0, 0]
    ensures Bytes(4, 0x80_001E) == [0x1E, 0, 0x80, 0]
  {
    hide Bytes;
    forall b: Byte ensures Bytes(4, b) == [b, 0, 0, 0] {
      Bytes4(b, 0, 0, 0);
    }
    Bytes4(0x1E, 0, 0x80, 0);
  }

  lemma ConstBytes()
    ensures DumpConsts(Sample().k) == SampleConsts()
  {
    hide Bytes;
    NumberBytes();
    OneBytes();
    var k := Sample().k;
    assert DumpConsts(k[3..]) == DumpConst(k[3]);
    assert DumpConsts(k[2..]) == DumpConst(k[2]) + DumpConsts(k[3..]) by { assert k[2..][1..] == k[3..]; }
    assert DumpConsts(k[1..]) == DumpConst(k[1]) + DumpConsts(k[2..]) by { assert k[1..][1..] == k[2..]; }
  }

  lemma SampleParts()
    ensures var f := Sample();
      && DumpStr(f.source) == [3, 0, 0, 0, 0x40, 0x78, 0]
      && DumpHead(f) == [5, 0, 0, 0, 7, 0, 0, 0, 1, 3, 2, 4]
      && DumpWords(4, f.code) == [0x1E, 0, 0x80, 0]
      && DumpFns(f, 0, false) == []
  {
    hide Bytes;
    NumberBytes();
    var f := Sample();
    NoneNested(f, false);
    assert DumpWords(4, f.code) == [0x1E, 0, 0x80, 0] by { assert DumpWords(4, f.code[1..]) == []; }
    hide DumpWords;
    hide DumpConsts;
  }

  lemma DebugBytes()
    ensures DumpDebug(Sample(), false) == SampleDebug()
  {
    hide Bytes;
    NumberBytes();
    var f := Sample();
    assert DumpWords(4, f.lineinfo) == [6, 0, 0, 0] by { assert DumpWords(4, f.lineinfo[1..]) == []; }
    assert DumpStr(Some([0x62])) == [2, 0, 0, 0, 0x62, 0] && DumpStr(Some([0x63])) == [2, 0, 0, 0, 0x63, 0];
    assert DumpLocVars(f.locvars) == [2, 0, 0, 0, 0x62, 0] + [0, 0, 0, 0] + [1, 0, 0, 0] by { assert DumpLocVars(f.locvars[1..]) == []; }
    assert DumpStrs(f.upvalues) == [2, 0, 0, 0, 0x63, 0] by { assert DumpStrs(f.upvalues[1..]) == []; }
    hide DumpWords;
    hide DumpLocVars;
    hide DumpStrs;
    hide DumpStr;
  }

  lemma SampleIsWritten()
    ensures DumpChunk(Sample(), false) == SampleBytes()
  {
    hide Bytes;
    hide DumpConsts;
    hide DumpFns;
    hide DumpStr;
    hide DumpHead;
    hide DumpWords;
    hide DumpDebug;
    NumberBytes();
    ConstBytes();
    DebugBytes();
    SampleParts();
  }

  lemma NoneNested(f: Proto, strip: bool)
    requires f.p == []
    ensures DumpFns(f, 0, strip) == []
  {
  }

  /** The literal bytes are loaded as the function that they stand for. */
  lemma SampleIsRead()
    ensures ReadChunk(SampleBytes(), 0) == Done(Sample(), [])
  {
    hide DumpChunk;
    hide ReadChunk;
    hide WellFormed;
    OnlyReturnsIsWellFormed(Sample(), 0);
    ChunkBack(Sample(), false, 0, []);
    SampleIsWritten();
    assert SampleBytes() + [] == SampleBytes();
  }
}
