/** Writing and loading chunks (lua/ldump.c, lua/lundump.c, lua/lzio.c). */
module ChunkIO {
  // Chunks go out through a writer and come in from a reader that delivers blocks of any sizes.

  import opened Basics
  import Checker
  import opened ChunkFormat

  // ----- dumping -----

  class DumpState {
    const strip: bool
    const writer: nat -> int     // the status that the writer returns for its n-th block
    var blocks: nat              // how many blocks were written
    var out: seq<Byte>           // what was written
    var status: int

    constructor (strip: bool, writer: nat -> int)
      ensures this.strip == strip && this.writer == writer && status == 0 && out == []
    {
      this.strip, this.writer, blocks, out, status := strip, writer, 0, [], 0;
    }

    /** Unless the writer fails, the bytes `b` were written; once it has failed nothing is written, and
        the status is the one that it gave for the last block. */
    twostate predicate Wrote(b: seq<Byte>)
      reads this
    {
      && (status == 0 ==> old(status) == 0 && out == old(out) + b)
      && (old(status) != 0 ==> out == old(out) && status == old(status) && blocks == old(blocks))
      && (old(status) == 0 && status != 0 ==> blocks > 0 && status == writer(blocks - 1))
    }

    method DumpBlock(b: seq<Byte>)
      modifies `out, `status, `blocks
      ensures Wrote(b)
    {
      if status == 0 {
        out := out + b;
        status := writer(blocks);
        blocks := blocks + 1;
      }
    }

    method DumpInt(x: nat)
      modifies `out, `status, `blocks
      ensures Wrote(Bytes(INT_SIZE, x))
    {
      DumpBlock(Bytes(INT_SIZE, x));
    }

    method DumpString(s: Option<Str>)
      modifies `out, `status, `blocks
      ensures Wrote(DumpStr(s))
    {
      match s
      case None => DumpBlock(Bytes(SIZE_T, 0));
      case Some(t) =>
        DumpBlock(Bytes(SIZE_T, |t| + 1));
        DumpBlock(t + [0]);
        assert Bytes(SIZE_T, |t| + 1) + (t + [0]) == DumpStr(s);
    }

    method DumpConstant(c: Const)
      modifies `out, `status, `blocks
      ensures Wrote(DumpConst(c))
    {
      hide Bytes;
      hide DumpStr;
      match c {
        case KNil => DumpBlock([0]);
        case KBool(b) =>
          DumpBlock([1]);
          DumpBlock([if b then 1 else 0]);
        case KNum(x) =>
          DumpBlock([3]);
          DumpBlock(Bytes(NUMBER, x));
        case KStr(s) =>
          DumpBlock([4]);
          DumpString(s);
      }
    }

    /** `DumpConstants`, without the nested prototypes. */
    method DumpConstants(k: seq<Const>)
      modifies `out, `status, `blocks
      ensures Wrote(Bytes(INT_SIZE, |k|) + DumpConsts(k))
    {
      hide Bytes;
      hide DumpConst;
      DumpInt(|k|);
      ghost var b := Bytes(INT_SIZE, |k|);
      var i := 0;
      while i < |k|
        invariant 0 <= i <= |k| && Wrote(b) && b + DumpConsts(k[i..]) == Bytes(INT_SIZE, |k|) + DumpConsts(k)
      {
        DumpConstant(k[i]);
        assert k[i..][1..] == k[i + 1..];
        b := b + DumpConst(k[i]);
        i := i + 1;
      }
      assert b + [] == b;
    }

    /** `DumpVector` of machine words. */
    method DumpVector(n: nat, ws: seq<nat>)
      modifies `out, `status, `blocks
      ensures Wrote(Bytes(INT_SIZE, |ws|) + DumpWords(n, ws))
    {
      DumpInt(|ws|);
      DumpBlock(DumpWords(n, ws));
    }

    method DumpLocalVars(vs: seq<LocVar>)
      modifies `out, `status, `blocks
      ensures Wrote(Bytes(INT_SIZE, |vs|) + DumpLocVars(vs))
    {
      hide Bytes;
      hide DumpStr;
      DumpInt(|vs|);
      ghost var b := Bytes(INT_SIZE, |vs|);
      var i := 0;
      while i < |vs|
        invariant 0 <= i <= |vs| && Wrote(b) && b + DumpLocVars(vs[i..]) == Bytes(INT_SIZE, |vs|) + DumpLocVars(vs)
      {
        DumpString(vs[i].varname);
        DumpInt(vs[i].startpc);
        DumpInt(vs[i].endpc);
        assert vs[i..][1..] == vs[i + 1..];
        b := b + DumpStr(vs[i].varname) + Bytes(INT_SIZE, vs[i].startpc) + Bytes(INT_SIZE, vs[i].endpc);
        i := i + 1;
      }
      assert b + [] == b;
    }

    method DumpUpvalueNames(ss: seq<Option<Str>>)
      modifies `out, `status, `blocks
      ensures Wrote(Bytes(INT_SIZE, |ss|) + DumpStrs(ss))
    {
      hide Bytes;
      hide DumpStr;
      DumpInt(|ss|);
      ghost var b := Bytes(INT_SIZE, |ss|);
      var i := 0;
      while i < |ss|
        invariant 0 <= i <= |ss| && Wrote(b) && b + DumpStrs(ss[i..]) == Bytes(INT_SIZE, |ss|) + DumpStrs(ss)
      {
        DumpString(ss[i]);
        assert ss[i..][1..] == ss[i + 1..];
        b := b + DumpStr(ss[i]);
        i := i + 1;
      }
      assert b + [] == b;
    }

    /** `DumpDebug`. */
    method DumpDebugData(f: Proto)
      modifies `out, `status, `blocks
      ensures Wrote(DumpDebug(f, strip))
    {
      hide Bytes;
      hide DumpWords;
      hide DumpLocVars;
      hide DumpStrs;
      hide DumpDebug;
      DumpVector(INT_SIZE, if strip then [] else f.lineinfo);
      DumpLocalVars(if strip then [] else f.locvars);
      DumpUpvalueNames(if strip then [] else f.upvalues);
      DebugParts(f, strip);
    }

    /** `DumpFunction`. */
    method DumpFunction(f: Proto, p: Option<Str>)
      modifies `out, `status, `blocks
      ensures Wrote(DumpFn(f, p, strip))
      decreases f, |f.p| + 1, 1
    {
      hide Bytes;
      hide DumpStr;
      hide DumpHead;
      hide DumpWords;
      hide DumpConsts;
      hide DumpFns;
      hide DumpDebug;
      hide DumpFn;
      hide DumpTail;
      DumpString(if f.source == p || strip then None else f.source);
      DumpHeadFields(f);
      DumpVector(INSTRUCTION, f.code);
      DumpAfterCode(f);
      FnParts(f, p, strip);
    }

    /** Constants, nested prototypes and debug data. */
    method DumpAfterCode(f: Proto)
      modifies `out, `status, `blocks
      ensures Wrote(DumpTail(f, strip))
      decreases f, |f.p| + 1, 0
    {
      hide Bytes;
      hide DumpConsts;
      hide DumpFns;
      hide DumpDebug;
      DumpConstants(f.k);
      DumpNested(f);
      DumpDebugData(f);
      Assoc(Bytes(INT_SIZE, |f.k|) + DumpConsts(f.k), Bytes(INT_SIZE, |f.p|) + DumpFns(f, 0, strip), DumpDebug(f, strip));
    }

    method DumpHeadFields(f: Proto)
      modifies `out, `status, `blocks
      ensures Wrote(DumpHead(f))
    {
      hide Bytes;
      DumpInt(f.linedefined);
      DumpInt(f.lastlinedefined);
      DumpBlock([f.nups]);
      DumpBlock([f.numparams]);
      DumpBlock([f.isVararg]);
      DumpBlock([f.maxstacksize]);
    }

    /** The last part of `DumpConstants`. */
    method DumpNested(f: Proto)
      modifies `out, `status, `blocks
      ensures Wrote(Bytes(INT_SIZE, |f.p|) + DumpFns(f, 0, strip))
      decreases f, |f.p|
    {
      hide Bytes;
      hide DumpFn;
      DumpInt(|f.p|);
      ghost var b := Bytes(INT_SIZE, |f.p|);
      var i := 0;
      while i < |f.p|
        invariant 0 <= i <= |f.p| && Wrote(b) && b + DumpFns(f, i, strip) == Bytes(INT_SIZE, |f.p|) + DumpFns(f, 0, strip)
      {
        DumpFunction(f.p[i], f.source);
        b := b + DumpFn(f.p[i], f.source, strip);
        i := i + 1;
      }
      assert b + [] == b;
    }

    /** `luaU_dump`: a dump that succeeds has written the whole chunk. */
    method Dump(f: Proto)
      requires out == [] && status == 0
      modifies `out, `status, `blocks
      ensures status == 0 ==> out == DumpChunk(f, strip)
      ensures status != 0 ==> blocks > 0 && status == writer(blocks - 1)
    {
      hide DumpFn;
      DumpBlock(Header());
      DumpFunction(f, None);
    }
  }

  lemma DebugParts(f: Proto, strip: bool)
    ensures var l, v, u := if strip then [] else f.lineinfo, if strip then [] else f.locvars, if strip then [] else f.upvalues;
            Bytes(INT_SIZE, |l|) + DumpWords(INT_SIZE, l) + (Bytes(INT_SIZE, |v|) + DumpLocVars(v)) + (Bytes(INT_SIZE, |u|) + DumpStrs(u))
            == DumpDebug(f, strip)
  {
    hide Bytes;
    if strip {
      var z := Bytes(INT_SIZE, 0);
      assert z + DumpWords(INT_SIZE, []) + (z + DumpLocVars([])) + (z + DumpStrs([])) == z + z + z;
    }
  }

  lemma FnParts(f: Proto, p: Option<Str>, strip: bool)
    ensures DumpStr(if f.source == p || strip then None else f.source) + DumpHead(f)
            + (Bytes(INT_SIZE, |f.code|) + DumpWords(INSTRUCTION, f.code)) + DumpTail(f, strip)
            == DumpFn(f, p, strip)
  {
    hide Bytes;
    hide DumpStr;
    hide DumpHead;
    hide DumpWords;
    hide DumpTail;
    hide DumpFn;
    SplitDump(f, p, strip, []);
    var a, b, c, d := DumpStr(if f.source == p || strip then None else f.source), DumpHead(f),
                      Bytes(INT_SIZE, |f.code|) + DumpWords(INSTRUCTION, f.code), DumpTail(f, strip);
    assert DumpFn(f, p, strip) + [] == DumpFn(f, p, strip) && d + [] == d;
    Assoc(a + b, c, d);
    Assoc(a, b, c + d);
  }

  // ----- buffered streams -----

  const EOZ: int := -1

  /** What a reader delivers: its blocks up to the first empty one. */
  ghost function Flat(blocks: seq<seq<Byte>>): seq<Byte> {
    if blocks == [] || blocks[0] == [] then [] else blocks[0] + Flat(blocks[1..])
  }

  lemma Taken(buff: seq<Byte>, p: nat, m: nat, more: seq<Byte>)
    requires p + m <= |buff|
    ensures buff[p..] + more == buff[p..p + m] + (buff[p + m..] + more)
  {
    assert buff[p..] == buff[p..p + m] + buff[p + m..];
  }

  class Zio {
    var n: nat                     // how many bytes of `buff` are left
    var p: nat                     // where they begin
    var buff: seq<Byte>
    var blocks: seq<seq<Byte>>     // what the reader is going to return

    constructor (blocks: seq<seq<Byte>>)
      ensures Valid() && Rest() == Flat(blocks)
    {
      n, p, buff, this.blocks := 0, 0, [], blocks;
    }

    ghost predicate Valid()
      reads this
    {
      p + n == |buff|
    }

    /** The bytes that are still to come. */
    ghost function Rest(): seq<Byte>
      requires Valid()
      reads this
    {
      buff[p..] + Flat(blocks)
    }

    /** The end was met by `zgetc`: the count of unread bytes has wrapped around, and reading on would
        leave the buffer. */
    ghost predicate Exhausted()
      reads this
    {
      n == SIZE_MAX && p == |buff|
    }

    /** `luaZ_fill`: get the next block, and its first byte; at the end nothing changes. */
    method Fill() returns (c: int)
      requires p == |buff|
      modifies this
      ensures var rest := old(Flat(blocks));
              if rest == [] then c == EOZ && n == old(n) && p == |buff|
              else
                && Valid() && c == rest[0] && Rest() == rest[1..]
                && p > 0 && buff[p - 1] == c && buff[p - 1..] + Flat(blocks) == rest
    {
      if blocks == [] {
        return EOZ;
      }
      var block := blocks[0];
      blocks := blocks[1..];
      if |block| == 0 {
        return EOZ;
      }
      n, p, buff := |block| - 1, 1, block;
      c := buff[0];
    }

    /** `zgetc`, which must not be used again once it has returned the end of the stream. */
    method GetC() returns (c: int)
      requires Valid()
      modifies this
      ensures -1 <= c < 256
      ensures if old(Rest()) == [] then c == EOZ && Exhausted()
              else c == old(Rest())[0] && Valid() && Rest() == old(Rest())[1..]
    {
      var more := n > 0;
      n := if n == 0 then SIZE_MAX else n - 1;
      if more {
        Taken(buff, p, 1, Flat(blocks));
        c := buff[p];
        p := p + 1;
      } else {
        c := Fill();
      }
    }

    /** `luaZ_lookahead`. */
    method Lookahead() returns (c: int)
      requires Valid()
      modifies this
      ensures Valid()
      ensures if old(Rest()) == [] then c == EOZ else c == old(Rest())[0] && Rest() == old(Rest()) && n > 0
    {
      if n == 0 {
        c := Fill();
        if c == EOZ {
          return EOZ;
        }
        n := n + 1;  // the byte stays in the stream
        p := p - 1;
      }
      c := buff[p];
    }

    /** `luaZ_read`: the next bytes, however they are spread over blocks; and how many are missing. */
    method Read(size: nat) returns (b: seq<Byte>, missing: nat)
      requires Valid()
      modifies this
      ensures Valid() && (missing == 0 <==> |old(Rest())| >= size)
      ensures missing == 0 ==> b == old(Rest())[..size] && Rest() == old(Rest())[size..]
    {
      hide Flat;
      hide Rest;
      ghost var all := Rest();
      b, missing := [], size;
      while missing > 0
        invariant Valid() && missing + |b| == size && b + Rest() == all
        decreases missing
      {
        ghost var r := Rest();
        var c := Lookahead();
        if c == EOZ {
          assert |all| == |b|;
          return;
        }
        var chunk := Copy(missing);
        Assoc(b, chunk, Rest());
        b := b + chunk;
        missing := missing - |chunk|;
      }
      FirstPart(b, Rest(), all);
    }

    /** Copy as many of the wanted bytes as the buffer has. */
    method Copy(missing: nat) returns (chunk: seq<Byte>)
      requires Valid() && n > 0 && missing > 0
      modifies `n, `p
      ensures Valid() && 0 < |chunk| <= missing && chunk + Rest() == old(Rest())
    {
      var m := if missing <= n then missing else n;  // min. between missing and n
      Taken(buff, p, m, Flat(blocks));
      chunk := buff[p..p + m];
      n := n - m;
      p := p + m;
    }
  }

  lemma FirstPart(b: seq<Byte>, rest: seq<Byte>, all: seq<Byte>)
    requires b + rest == all
    ensures all[..|b|] == b && all[|b|..] == rest
  {
  }

  // ----- loading -----

  /** A value, or an error in the precompiled chunk. */
  datatype Loaded<T> = Bad | Good(v: T)

  /** The loader got what the format says, and left the stream where it should be. */
  ghost predicate Agrees<T>(r: Loaded<T>, p: Parsed<T>, rest: seq<Byte>) {
    match p
    case Fail => r.Bad?
    case Done(v, s) => r == Good(v) && rest == s
  }

  method LoadBlock(z: Zio, n: nat) returns (r: Loaded<seq<Byte>>)
    requires z.Valid()
    modifies z
    ensures z.Valid() && Agrees(r, Block(old(z.Rest()), n), z.Rest())
  {
    var b, missing := z.Read(n);
    if missing != 0 {
      return Bad;  // unexpected end
    }
    return Good(b);
  }

  method LoadWord(z: Zio, n: nat) returns (r: Loaded<nat>)
    requires z.Valid()
    modifies z
    ensures z.Valid() && Agrees(r, ReadWord(old(z.Rest()), n), z.Rest())
  {
    var b := LoadBlock(z, n);
    if b.Bad? {
      return Bad;
    }
    return Good(Value(b.v));
  }

  method LoadInt(z: Zio) returns (r: Loaded<nat>)
    requires z.Valid()
    modifies z
    ensures z.Valid() && Agrees(r, ReadInt(old(z.Rest())), z.Rest())
  {
    r := LoadWord(z, INT_SIZE);
    if r.Good? && r.v > MAX_INT {
      return Bad;  // bad integer
    }
  }

  method LoadByte(z: Zio) returns (r: Loaded<Byte>)
    requires z.Valid()
    modifies z
    ensures z.Valid() && Agrees(r, ReadByte(old(z.Rest())), z.Rest())
  {
    var b := LoadBlock(z, 1);
    if b.Bad? {
      return Bad;
    }
    return Good(b.v[0]);
  }

  method LoadString(z: Zio) returns (r: Loaded<Option<Str>>)
    requires z.Valid()
    modifies z
    ensures z.Valid() && Agrees(r, ReadStr(old(z.Rest())), z.Rest())
  {
    hide Pow256;
    var size := LoadWord(z, SIZE_T);
    if size.Bad? {
      return Bad;
    }
    if size.v == 0 {
      return Good(None);
    }
    var b := LoadBlock(z, size.v);
    if b.Bad? {
      return Bad;
    }
    return Good(Some(b.v[..size.v - 1]));
  }

  /** The values read so far come before those that are still to be read. */
  ghost function Prepend<T>(xs: seq<T>, p: Parsed<seq<T>>): Parsed<seq<T>> {
    match p case Fail => Fail case Done(ys, rest) => Done(xs + ys, rest)
  }

  lemma PrependNone<T>(p: Parsed<seq<T>>)
    ensures Prepend([], p) == p
  {
    if p.Done? {
      assert [] + p.v == p.v;
    }
  }

  lemma PrependNext<T>(xs: seq<T>, x: T, p: Parsed<seq<T>>)
    ensures Prepend(xs, Prepend([x], p)) == Prepend(xs + [x], p)
  {
    if p.Done? {
      assert xs + ([x] + p.v) == xs + [x] + p.v;
    }
  }

  lemma PrependAll<T>(xs: seq<T>, rest: seq<Byte>)
    ensures Prepend(xs, Done([], rest)) == Done(xs, rest)
  {
    assert xs + [] == xs;
  }

  method LoadWords(z: Zio, n: nat, size: nat) returns (r: Loaded<seq<nat>>)
    requires z.Valid()
    modifies z
    ensures z.Valid() && Agrees(r, ReadWords(old(z.Rest()), n, size), z.Rest())
  {
    hide ReadWord;
    ghost var all := ReadWords(z.Rest(), n, size);
    var ws, i := [], 0;
    PrependNone(all);
    while i < n
      invariant z.Valid() && i <= n && all == Prepend(ws, ReadWords(z.Rest(), n - i, size))
    {
      ghost var s := z.Rest();
      var w := LoadWord(z, size);
      if w.Bad? {
        return Bad;
      }
      assert ReadWords(s, n - i, size) == Prepend([w.v], ReadWords(z.Rest(), n - i - 1, size));
      PrependNext(ws, w.v, ReadWords(z.Rest(), n - i - 1, size));
      ws := ws + [w.v];
      i := i + 1;
    }
    PrependAll(ws, z.Rest());
    return Good(ws);
  }

  method LoadConstant(z: Zio) returns (r: Loaded<Const>)
    requires z.Valid()
    modifies z
    ensures z.Valid() && Agrees(r, ReadConst(old(z.Rest())), z.Rest())
  {
    hide ReadWord;
    hide ReadStr;
    var t := LoadByte(z);
    if t.Bad? {
      return Bad;
    }
    if t.v == 0 {
      return Good(KNil);
    } else if t.v == 1 {
      var b := LoadByte(z);
      return if b.Bad? then Bad else Good(KBool(b.v != 0));
    } else if t.v == 3 {
      var x := LoadWord(z, NUMBER);
      return if x.Bad? then Bad else Good(KNum(x.v));
    } else if t.v == 4 {
      var x := LoadString(z);
      return if x.Bad? then Bad else Good(KStr(x.v));
    } else {
      return Bad;  // bad constant
    }
  }

  method LoadConstants(z: Zio) returns (r: Loaded<seq<Const>>)
    requires z.Valid()
    modifies z
    ensures z.Valid()
    ensures match ReadInt(old(z.Rest()))
            case Fail => r.Bad?
            case Done(n, s) => Agrees(r, ReadConsts(s, n), z.Rest())
  {
    hide ReadConst;
    hide ReadInt;
    var n := LoadInt(z);
    if n.Bad? {
      return Bad;
    }
    ghost var all := ReadConsts(z.Rest(), n.v);
    var cs, i := [], 0;
    PrependNone(all);
    while i < n.v
      invariant z.Valid() && i <= n.v && all == Prepend(cs, ReadConsts(z.Rest(), n.v - i))
    {
      ghost var s := z.Rest();
      var c := LoadConstant(z);
      if c.Bad? {
        return Bad;
      }
      assert ReadConsts(s, n.v - i) == Prepend([c.v], ReadConsts(z.Rest(), n.v - i - 1));
      PrependNext(cs, c.v, ReadConsts(z.Rest(), n.v - i - 1));
      cs := cs + [c.v];
      i := i + 1;
    }
    PrependAll(cs, z.Rest());
    return Good(cs);
  }

  method LoadLocVar(z: Zio) returns (r: Loaded<LocVar>)
    requires z.Valid()
    modifies z
    ensures z.Valid() && Agrees(r, ReadLocVar(old(z.Rest())), z.Rest())
  {
    hide ReadStr;
    hide ReadInt;
    var name := LoadString(z);
    if name.Bad? {
      return Bad;
    }
    var startpc := LoadInt(z);
    if startpc.Bad? {
      return Bad;
    }
    var endpc := LoadInt(z);
    if endpc.Bad? {
      return Bad;
    }
    return Good(LocVar(name.v, startpc.v, endpc.v));
  }

  method LoadLocVars(z: Zio, n: nat) returns (r: Loaded<seq<LocVar>>)
    requires z.Valid()
    modifies z
    ensures z.Valid() && Agrees(r, ReadLocVars(old(z.Rest()), n), z.Rest())
  {
    hide ReadLocVar;
    ghost var all := ReadLocVars(z.Rest(), n);
    var vs, i := [], 0;
    PrependNone(all);
    while i < n
      invariant z.Valid() && i <= n && all == Prepend(vs, ReadLocVars(z.Rest(), n - i))
    {
      ghost var s := z.Rest();
      var v := LoadLocVar(z);
      if v.Bad? {
        return Bad;
      }
      assert ReadLocVars(s, n - i) == Prepend([v.v], ReadLocVars(z.Rest(), n - i - 1));
      PrependNext(vs, v.v, ReadLocVars(z.Rest(), n - i - 1));
      vs := vs + [v.v];
      i := i + 1;
    }
    PrependAll(vs, z.Rest());
    return Good(vs);
  }

  method LoadStrings(z: Zio, n: nat) returns (r: Loaded<seq<Option<Str>>>)
    requires z.Valid()
    modifies z
    ensures z.Valid() && Agrees(r, ReadStrs(old(z.Rest()), n), z.Rest())
  {
    hide ReadStr;
    ghost var all := ReadStrs(z.Rest(), n);
    var vs, i := [], 0;
    PrependNone(all);
    while i < n
      invariant z.Valid() && i <= n && all == Prepend(vs, ReadStrs(z.Rest(), n - i))
    {
      ghost var s := z.Rest();
      var v := LoadString(z);
      if v.Bad? {
        return Bad;
      }
      assert ReadStrs(s, n - i) == Prepend([v.v], ReadStrs(z.Rest(), n - i - 1));
      PrependNext(vs, v.v, ReadStrs(z.Rest(), n - i - 1));
      vs := vs + [v.v];
      i := i + 1;
    }
    PrependAll(vs, z.Rest());
    return Good(vs);
  }

  method LoadDebug(z: Zio) returns (r: Loaded<Debug>)
    requires z.Valid()
    modifies z
    ensures z.Valid() && Agrees(r, ReadDebug(old(z.Rest())), z.Rest())
  {
    hide ReadInt;
    hide ReadWords;
    hide ReadLocVars;
    hide ReadStrs;
    var n := LoadInt(z);
    if n.Bad? {
      return Bad;
    }
    var lineinfo := LoadWords(z, n.v, INT_SIZE);
    if lineinfo.Bad? {
      return Bad;
    }
    n := LoadInt(z);
    if n.Bad? {
      return Bad;
    }
    var locvars := LoadLocVars(z, n.v);
    if locvars.Bad? {
      return Bad;
    }
    n := LoadInt(z);
    if n.Bad? {
      return Bad;
    }
    var upvalues := LoadStrings(z, n.v);
    if upvalues.Bad? {
      return Bad;
    }
    return Good(Debug(lineinfo.v, locvars.v, upvalues.v));
  }

  method LoadHead(z: Zio) returns (r: Loaded<Head>)
    requires z.Valid()
    modifies z
    ensures z.Valid() && Agrees(r, ReadHead(old(z.Rest())), z.Rest())
  {
    hide ReadInt;
    var line := LoadInt(z);
    if line.Bad? {
      return Bad;
    }
    var lastline := LoadInt(z);
    if lastline.Bad? {
      return Bad;
    }
    var b := LoadBlock(z, 4);  // nups, numparams, is_vararg and maxstacksize
    if b.Bad? {
      return Bad;
    }
    return Good(Head(line.v, lastline.v, b.v[0], b.v[1], b.v[2], b.v[3]));
  }

  method LoadCode(z: Zio) returns (r: Loaded<seq<Checker.Word>>)
    requires z.Valid()
    modifies z
    ensures z.Valid() && Agrees(r, ReadCode(old(z.Rest())), z.Rest())
  {
    hide ReadInt;
    hide ReadWords;
    var n := LoadInt(z);
    if n.Bad? {
      return Bad;
    }
    ghost var s := z.Rest();
    var ws := LoadWords(z, n.v, INSTRUCTION);
    if ws.Bad? {
      return Bad;
    }
    InstructionSize();
    assert ReadWords(s, n.v, INSTRUCTION).Done?;
    return Good(ws.v);
  }

  /** `LoadFunction`: what it loads is what the format says, errors included. */
  method LoadFunction(z: Zio, p: Str, calls: nat) returns (r: Loaded<Proto>)
    requires z.Valid()
    modifies z
    ensures z.Valid() && Agrees(r, ReadFn(old(z.Rest()), p, calls), z.Rest())
    decreases |z.Rest()|, 1
  {
    hide ReadStr;
    hide ReadHead;
    hide ReadCode;
    hide ReadRest;
    if calls + 1 > MAXCCALLS {
      return Bad;  // code too deep
    }
    ghost var size := |z.Rest()|;
    var source0 := LoadString(z);
    if source0.Bad? {
      return Bad;
    }
    var source := match source0.v case None => p case Some(t) => t;
    var h := LoadHead(z);
    if h.Bad? {
      return Bad;
    }
    var code := LoadCode(z);
    if code.Bad? {
      return Bad;
    }
    r := LoadRest(z, source, h.v, code.v, calls + 1, size);
  }

  method LoadRest(z: Zio, source: Str, h: Head, code: seq<Checker.Word>, calls: nat, ghost size: nat) returns (r: Loaded<Proto>)
    requires z.Valid() && |z.Rest()| < size
    modifies z
    ensures z.Valid() && Agrees(r, ReadRest(old(z.Rest()), source, h, code, calls, size), z.Rest())
    decreases size, 0
  {
    hide ReadInt;
    hide ReadConsts;
    hide ReadFns;
    hide ReadDebug;
    hide View;
    hide Checker.Accepted;
    var k := LoadConstants(z);
    if k.Bad? {
      return Bad;
    }
    var n := LoadInt(z);
    if n.Bad? {
      return Bad;
    }
    var ps := LoadFunctions(z, n.v, source, calls);
    if ps.Bad? {
      return Bad;
    }
    var d := LoadDebug(z);
    if d.Bad? {
      return Bad;
    }
    var f := Proto(Some(source), h.linedefined, h.lastlinedefined, h.nups, h.numparams, h.isVararg, h.maxstacksize,
                   code, k.v, ps.v, d.v.lineinfo, d.v.locvars, d.v.upvalues);
    var ok := Checker.CheckCode(View(f));
    if !ok {
      return Bad;  // bad code
    }
    return Good(f);
  }

  method LoadFunctions(z: Zio, n: nat, source: Str, calls: nat) returns (r: Loaded<seq<Proto>>)
    requires z.Valid()
    modifies z
    ensures z.Valid() && Agrees(r, ReadFns(old(z.Rest()), n, source, calls), z.Rest())
    decreases |z.Rest()|, 2
  {
    hide ReadFn;
    ghost var size := |z.Rest()|;
    ghost var all := ReadFns(z.Rest(), n, source, calls);
    var fs, i := [], 0;
    PrependNone(all);
    while i < n
      invariant z.Valid() && i <= n && |z.Rest()| <= size && all == Prepend(fs, ReadFns(z.Rest(), n - i, source, calls))
    {
      ghost var s := z.Rest();
      var f := LoadFunction(z, source, calls);
      if f.Bad? {
        return Bad;
      }
      assert ReadFns(s, n - i, source, calls) == Prepend([f.v], ReadFns(z.Rest(), n - i - 1, source, calls));
      PrependNext(fs, f.v, ReadFns(z.Rest(), n - i - 1, source, calls));
      fs := fs + [f.v];
      i := i + 1;
    }
    PrependAll(fs, z.Rest());
    return Good(fs);
  }

  /** `luaU_undump`. */
  method Undump(z: Zio, calls: nat) returns (r: Loaded<Proto>)
    requires z.Valid()
    modifies z
    ensures z.Valid() && Agrees(r, ReadChunk(old(z.Rest()), calls), z.Rest())
  {
    hide ReadFn;
    var h := LoadBlock(z, 12);
    if h.Bad? {
      return Bad;
    }
    if h.v != Header() {
      return Bad;  // bad header
    }
    r := LoadFunction(z, [61, 63], calls);
  }

  /** Dump a prototype, and load it from a reader that delivers the bytes in blocks of any sizes. */
  method DumpAndLoad(f: Proto, strip: bool, writer: nat -> int, cut: seq<seq<Byte>>, calls: nat) returns (status: int, r: Loaded<Proto>)
    requires WellFormed(f, calls) && Flat(cut) == DumpChunk(f, strip)
    ensures status == 0 ==> r == Good(Restored(f, [61, 63], strip))
    ensures status != 0 ==> exists n: nat :: writer(n) == status
  {
    hide DumpChunk;
    hide ReadChunk;
    var D := new DumpState(strip, writer);
    D.Dump(f);
    status, r := D.status, Bad;
    if status == 0 {
      var z := new Zio(cut);
      assert D.out == Flat(cut);
      r := Undump(z, calls);
      ChunkBack(f, strip, calls, []);
      assert DumpChunk(f, strip) + [] == DumpChunk(f, strip);
    }
  }
}