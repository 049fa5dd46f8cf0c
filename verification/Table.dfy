/** Lua tables (lua/ltable.c). */
module Table {
  // An array part and a hash part that together behave as one finite map.

  import opened Basics
  import opened NodeChains
  import opened TableSizes
  import opened TableCounts
  import opened TableMap
  import opened Traversal

  /** How `luaH_set` ends: with a slot, or with one of its run-time errors. */
  datatype SetResult = SetOk | KeyIsNil | KeyIsNaN | TableOverflow

  /** What a pointer to a value refers to; `NoSlot` is `luaO_nilobject`. */
  datatype Slot = NoSlot | ArraySlot(i: nat) | NodeSlot(j: nat)

  /** What `luaH_next` leaves on the stack. */
  datatype NextResult = InvalidKey | NoMore | Entry(k: Key, v: Val)

  const MAX_INT: int := 0x7FFF_FFFD  // INT_MAX - 2

  /** A border: `t[n]` is present (or `n` is 0) and `t[n + 1]` is not. */
  predicate IsBorder(m: map<Key, Val>, n: nat) {
    (n == 0 || Int(n) in m) && Int(n + 1) !in m
  }

  class Table {
    const main: (Key, nat) -> nat   // where a key belongs in a hash part of that size
    var arr: array<Val>             // array part: keys 1..arr.Length
    var node: array<Node>           // the nodes, linked into chains
    var isDummy: bool               // the hash part is the shared, never written, dummy node
    var lastfree: int               // LastFreeOk: no node from here on is free
    ghost var rank: seq<nat>
    ghost var contents: map<Key, Val>
    ghost var rehashes: nat         // how often the table was rehashed

    ghost predicate Valid()
      reads this, arr, node
    {
      && (forall k, n :: n > 0 ==> main(k, n) < n)
      && node.Length > 0 && arr.Length <= Pow2(MAXBITS)
      && ChainsOk(node[..], rank, main)
      && Represents(arr[..], node[..], contents)
      && LastFreeOk()
    }

    ghost function Now(): (t: Snapshot)
      reads this, arr, node
    {
      Snapshot(arr[..], node[..], contents)
    }

    /** `luaH_new`. */
    constructor (main: (Key, nat) -> nat, narray: nat, nhash: nat)
      requires (forall k, n :: n > 0 ==> main(k, n) < n) && narray <= Pow2(MAXBITS) && nhash <= Pow2(MAXBITS)
      ensures Valid() && contents == map[] && fresh(arr) && fresh(node) && rehashes == 0
    {
      hide Pow2;
      hide FreshNodes;
      this.main, contents, rehashes := main, map[], 0;
      arr := new Val[narray](_ => Nil);
      CeilLog2Overflow(nhash);
      var size := if nhash == 0 then 1 else Pow2(CeilLog2(nhash));
      var nodes := NewNodes(size);
      node := nodes;
      isDummy, lastfree := nhash == 0, if nhash == 0 then 0 else size;
      rank := Zeros(size);
      new;
      FreshChains(size, main);
      EmptyTable(arr[..], size);
      hide ChainsOk;
      hide Represents;
    }

    /** `lastfree` only moves down: no node at or above it is free. */
    ghost predicate LastFreeOk()
      reads this, node
    {
      && -1 <= lastfree <= node.Length
      && (isDummy ==> node[..] == FreshNodes(1) && lastfree <= 0)
      && (!isDummy ==> forall i :: 0 <= i < node.Length && lastfree <= i ==> !node[i].key.Free?)
    }

    /** The slot belongs to the key. */
    ghost predicate SlotOf(s: Slot, key: Key)
      reads this, arr, node
    {
      match s
      case NoSlot => false
      case ArraySlot(i) => i < arr.Length && key == Int(i + 1)
      case NodeSlot(j) => j < node.Length && node[j].key == Live(key)
    }

    /** `luaH_get`, `luaH_getnum` and `luaH_getstr`: find the slot of a key. */
    method Find(key: Key) returns (s: Slot)
      requires Valid()
      ensures s == NoSlot ==> !InArray(key, arr.Length) && Absent(node[..], key)
      ensures s != NoSlot ==> SlotOf(s, key)
    {
      if key == KNil {
        assert KeysStorable(node[..]);
        return NoSlot;
      }
      if key.Int? && 1 <= key.i <= arr.Length {
        return ArraySlot(key.i - 1);
      }
      s := FindNode(key);
    }

    /** Search the chain of the key's main position. */
    method FindNode(key: Key) returns (s: Slot)
      requires Valid()
      ensures s == NoSlot ==> Absent(node[..], key)
      ensures s != NoSlot ==> s.NodeSlot? && SlotOf(s, key)
    {
      hide Represents;
      hide Pow2;
      var n := main(key, node.Length);
      ghost var ns := node[..];
      forall j | 0 <= j < |ns| && ns[j].key == Live(key) ensures Reach(ns, rank, n, j) {
        assert Placed(ns, rank, main, j);
      }
      while true
        invariant 0 <= n < node.Length
        invariant forall j :: 0 <= j < |ns| && ns[j].key == Live(key) ==> Reach(ns, rank, n, j)
        decreases rank[n]
      {
        if node[n].key == Live(key) {
          return NodeSlot(n);
        }
        assert ns[n] == node[n];
        if node[n].next == NO_NODE {
          return NoSlot;
        }
        n := node[n].next;
      }
    }

    /** Read the value of a key (`lua_rawget`). */
    method Get(key: Key) returns (v: Val)
      requires Valid()
      ensures v == Lookup(contents, key)
    {
      hide ChainsOk;
      hide Pow2;
      var s := Find(key);
      match s
      case NoSlot =>
        AbsentKey(arr[..], node[..], contents, key);
        v := Nil;
      case ArraySlot(i) => v := arr[i]; assert v == arr[..][i];
      case NodeSlot(j) => v := node[j].val; assert node[j] == node[..][j];
    }

    /** `getfreepos`. */
    method GetFreePos() returns (n: int)
      requires LastFreeOk() && node.Length > 0
      modifies `lastfree
      ensures -1 <= n < node.Length && lastfree == n && n < old(lastfree) + 1
      ensures n >= 0 ==> !isDummy && node[n].key.Free?
      ensures !isDummy ==> forall i :: 0 <= i < node.Length && n < i ==> !node[i].key.Free?
    {
      while lastfree > 0
        invariant 0 <= lastfree <= node.Length || lastfree == -1 == old(lastfree)
        invariant lastfree <= old(lastfree)
        invariant !isDummy ==> forall i :: 0 <= i < node.Length && lastfree <= i ==> !node[i].key.Free?
        decreases lastfree
      {
        lastfree := lastfree - 1;
        if node[lastfree].key.Free? {
          return lastfree;
        }
      }
      lastfree := -1;
      return -1;
    }

    /** Put the key into its main position, whose value is nil. */
    method TakeMainPosition(mp: nat, key: Key)
      requires Valid() && !isDummy && Storable(key) && mp < node.Length && mp == main(key, node.Length)
      requires node[mp].val == Nil && Absent(node[..], key) && !InArray(key, arr.Length)
      modifies node
      ensures Valid() && node[mp] == Node(Live(key), Nil, old(node[mp].next)) && Used(node[..]) <= old(Used(node[..])) + 1
    {
      hide ChainsOk;
      hide Represents;
      hide Used;
      hide Pow2;
      hide Absent;
      ghost var ns := node[..];
      assert ns[mp] == node[mp];
      TakeOver(ns, rank, main, mp, key, Nil);
      RepresentsTaken(arr[..], ns, contents, mp, key);
      UsedAdd(ns, Taken(ns, mp, key, Nil), mp);
      node[mp] := Node(Live(key), node[mp].val, node[mp].next);
      assert node[..] == Taken(ns, mp, key, Nil);
    }

    /** The colliding node is in its own main position: the new key goes to the free node `n`. */
    method LinkFreeNode(mp: nat, n: nat, key: Key)
      requires Valid'(n) && Storable(key) && mp < node.Length && mp == main(key, node.Length)
      requires node[mp].key.Live? && main(node[mp].key.k, node.Length) == mp
      requires Absent(node[..], key) && !InArray(key, arr.Length)
      modifies node, `rank
      ensures Valid() && node[n] == Node(Live(key), Nil, old(node[mp].next)) && Used(node[..]) <= old(Used(node[..])) + 1
    {
      hide ChainsOk;
      hide Represents;
      hide Used;
      hide Pow2;
      hide Absent;
      ghost var ns := node[..];
      assert ns[mp] == node[mp] && ns[n] == node[n];
      assert mp != n;
      InsertAfter(ns, rank, main, mp, n, key);
      RepresentsLinked(arr[..], ns, contents, mp, n, key);
      UsedAdd(ns, LinkAfter(ns, mp, n, key), n);
      RankLength(ns, rank, main);
      rank := RankAfter(rank, mp, n);
      node[n] := Node(Live(key), Nil, node[mp].next);
      node[mp] := node[mp].(next := n);
      assert node[..] == LinkAfter(ns, mp, n, key);
    }

    /** The colliding node is out of its main position: it moves to `n` and the key takes `mp`. */
    method MoveCollidingNode(mp: nat, n: nat, key: Key)
      requires Valid'(n) && Storable(key) && mp < node.Length && mp == main(key, node.Length)
      requires node[mp].key.Live? && main(node[mp].key.k, node.Length) != mp
      requires Absent(node[..], key) && !InArray(key, arr.Length)
      modifies node, `rank
      ensures Valid() && node[mp] == Node(Live(key), Nil, NO_NODE) && Used(node[..]) <= old(Used(node[..])) + 1
    {
      hide ChainsOk;
      hide Represents;
      hide Used;
      hide Pow2;
      hide Absent;
      var othern := FindPrevious(mp);
      ghost var ns := node[..];
      assert ns[mp] == node[mp] && ns[n] == node[n] && ns[othern] == node[othern];
      MoveOutRank(ns, rank, main, othern, mp, n, key);
      InsertMoving(ns, rank, main, othern, mp, n, key);
      RepresentsMoved(arr[..], ns, contents, othern, mp, n, key);
      UsedAdd(ns, MoveOut(ns, othern, mp, n, key), n);
      RankLength(ns, rank, main);
      rank := rank[n := rank[mp]];
      node[othern] := node[othern].(next := n);  // the predecessor skips the node that leaves
      node[n] := node[mp];
      node[mp] := Node(Live(key), Nil, NO_NODE);
      assert node[..] == MoveOut(ns, othern, mp, n, key);
    }

    /** Find the predecessor of an out-of-place node by walking its chain. */
    method FindPrevious(mp: nat) returns (othern: nat)
      requires node.Length > 0 && ChainsOk(node[..], rank, main) && (forall k, n :: n > 0 ==> main(k, n) < n)
      requires mp < node.Length && node[mp].key.Live? && main(node[mp].key.k, node.Length) != mp
      ensures othern < node.Length && node[othern].next == mp
    {
      ghost var ns := node[..];
      assert Placed(ns, rank, main, mp);
      othern := main(node[mp].key.k, node.Length);
      while node[othern].next != mp
        invariant othern < node.Length && othern != mp && Reach(ns, rank, othern, mp)
        decreases rank[othern]
      {
        assert ns[othern] == node[othern];
        othern := node[othern].next;
      }
    }

    /** Valid, with `n` just taken by `GetFreePos`. */
    ghost predicate Valid'(n: nat)
      reads this, arr, node
    {
      && (forall k, n :: n > 0 ==> main(k, n) < n)
      && node.Length > 0 && arr.Length <= Pow2(MAXBITS)
      && ChainsOk(node[..], rank, main)
      && Represents(arr[..], node[..], contents)
      && !isDummy && n < node.Length && node[n].key.Free? && lastfree == n
      && forall i :: n < i < node.Length ==> !node[i].key.Free?
    }

    /** A key can be inserted without a rehash. */
    ghost predicate HasRoom(key: Key)
      reads this, arr, node
    {
      || InArray(key, arr.Length)
      || !Absent(node[..], key)
      || (!isDummy && Used(node[..]) < node.Length)
    }

    /** `newkey`. A ghost budget bounds the rehashes: inside a rehash it is zero, and then a free
        node is always found. */
    method NewKey(key: Key, ghost budget: nat) returns (s: Slot, ok: bool)
      requires Valid() && Storable(key) && Absent(node[..], key) && !InArray(key, arr.Length)
      requires budget <= 1 && (budget == 0 ==> HasRoom(key))
      modifies this, arr, node
      ensures contents == old(contents) && (ok ==> Valid() && SlotOf(s, key))
      ensures old(rehashes) <= rehashes <= old(rehashes) + budget
      ensures budget == 0 ==> ok && arr == old(arr) && node == old(node) && Used(node[..]) <= old(Used(node[..])) + 1
                              && isDummy == old(isDummy) && arr[..] == old(arr[..])
      ensures arr == old(arr) || fresh(arr)
      ensures node == old(node) || fresh(node)
      ensures !ok ==> |contents| + 1 > Pow2(MAXBITS)
      decreases budget, 2
    {
      hide ChainsOk;
      hide Represents;
      hide Used;
      hide Pow2;
      hide Absent;
      ok, s := true, NoSlot;
      var mp := main(key, node.Length);
      if node[mp].val != Nil || isDummy {
        MainOccupied(mp);
        var n := GetFreePos();
        if n == -1 {  // NoFreeNode: all nodes are used
          assert budget == 1 by { NoFreeNode(); }
          ok := Rehash(key, budget);
          if ok {
            var r;
            s, r := Set(key, 0);  // HasRoom: without another rehash
          }
          return;
        }
        if main(node[mp].key.k, node.Length) != mp {
          MoveCollidingNode(mp, n, key);
          s := NodeSlot(mp);
        } else {
          LinkFreeNode(mp, n, key);
          s := NodeSlot(n);
        }
      } else {
        TakeMainPosition(mp, key);
        s := NodeSlot(mp);
      }
    }

    lemma MainOccupied(mp: nat)
      requires Valid() && mp < node.Length && (node[mp].val != Nil || isDummy)
      ensures !isDummy ==> node[mp].key.Live?
    {
      assert node[mp] == node[..][mp];
    }

    lemma NoFreeNode()
      requires node.Length > 0 && (isDummy || forall i :: 0 <= i < node.Length ==> !node[i].key.Free?)
      ensures isDummy || Used(node[..]) == node.Length
    {
      if !isDummy {
        FullMeansUsed(node[..]);
      }
    }

    /** `luaH_set`, `luaH_setnum` and `luaH_setstr`: the slot for a key, created if need be. */
    method Set(key: Key, ghost budget: nat) returns (s: Slot, r: SetResult)
      requires Valid() && budget <= 1 && (budget == 0 ==> Storable(key) && HasRoom(key))
      modifies this, arr, node
      ensures contents == old(contents)
      ensures r == KeyIsNil <==> key == KNil
      ensures r == KeyIsNaN <==> key == KNaN
      ensures r == TableOverflow ==> |contents| + 1 > Pow2(MAXBITS)
      ensures r != TableOverflow ==> Valid()
      ensures r == SetOk ==> SlotOf(s, key)
      ensures old(SomeSlot(key)) ==> r == SetOk && Now() == old(Now()) && arr == old(arr) && node == old(node)
                                     && rank == old(rank)
      ensures old(rehashes) <= rehashes <= old(rehashes) + budget
      ensures budget == 0 ==> r == SetOk && arr == old(arr) && node == old(node) && isDummy == old(isDummy)
                              && Used(node[..]) <= old(Used(node[..])) + (if !old(SomeSlot(key)) then 1 else 0)
      ensures arr == old(arr) || fresh(arr)
      ensures node == old(node) || fresh(node)
      decreases budget, 3
    {
      hide ChainsOk;
      hide Used;
      hide Pow2;
      s := Find(key);
      if s != NoSlot {
        SlotStorable(s, key);
        return s, SetOk;
      }
      if key == KNil {
        return NoSlot, KeyIsNil;
      } else if key == KNaN {
        return NoSlot, KeyIsNaN;
      }
      var ok;
      s, ok := NewKey(key, budget);
      r := if ok then SetOk else TableOverflow;
    }

    ghost predicate SomeSlot(key: Key)
      reads this, arr, node
    {
      InArray(key, arr.Length) || !Absent(node[..], key)
    }

    lemma EntryHasSlot(key: Key)
      requires Valid() && key in contents
      ensures SomeSlot(key)
    {
      if !SomeSlot(key) {
        AbsentKey(arr[..], node[..], contents, key);
      }
    }

    lemma SlotStorable(s: Slot, key: Key)
      requires Valid() && SlotOf(s, key)
      ensures Storable(key) && SomeSlot(key)
    {
      if s.NodeSlot? {
        assert node[..][s.j] == node[s.j];
      }
    }

    /** Assign through a slot. */
    method Assign(s: Slot, key: Key, v: Val)
      requires Valid() && SlotOf(s, key)
      modifies arr, node, `contents
      ensures Valid() && contents == Update(old(contents), key, v) && Used(node[..]) == old(Used(node[..]))
      ensures Evolves(old(Now()), Now())
    {
      hide ChainsOk;
      hide Represents;
      hide Used;
      hide Pow2;
      hide Evolves;
      hide LastFreeOk;
      SlotStorable(s, key);
      match s {
        case ArraySlot(i) => AssignArray(i, v);
        case NodeSlot(j) => AssignNode(j, key, v);
      }
    }

    method AssignArray(i: nat, v: Val)
      requires Valid() && i < arr.Length
      modifies arr, `contents
      ensures Valid() && contents == Update(old(contents), Int(i + 1), v) && Evolves(old(Now()), Now())
    {
      hide ChainsOk;
      hide Represents;
      hide Pow2;
      hide FreshNodes;
      ghost var a := arr[..];
      RepresentsArrayStore(a, node[..], contents, i, v);
      arr[i] := v;
      assert arr[..] == a[i := v];
      contents := Update(contents, Int(i + 1), v);
    }

    method AssignNode(j: nat, key: Key, v: Val)
      requires Valid() && j < node.Length && node[j].key == Live(key) && Storable(key)
      modifies node, `contents
      ensures Valid() && contents == Update(old(contents), key, v) && Evolves(old(Now()), Now())
      ensures Used(node[..]) == old(Used(node[..]))
    {
      hide ChainsOk;
      hide Represents;
      hide Used;
      hide Pow2;
      hide FreshNodes;
      ghost var ns := node[..];
      assert ns[j] == node[j];
      NodeStore(j, key, v);
      node[j] := node[j].(val := v);
      assert node[..] == ns[j := ns[j].(val := v)];
      contents := Update(contents, key, v);
    }

    lemma NodeStore(j: nat, key: Key, v: Val)
      requires Valid() && j < node.Length && node[j].key == Live(key) && Storable(key)
      ensures var ns := node[..];
              var ns' := ns[j := ns[j].(val := v)];
              ChainsOk(ns', rank, main) && Represents(arr[..], ns', Update(contents, key, v)) && Used(ns') == Used(ns)
      ensures !isDummy
    {
      hide Used;
      hide Pow2;
      var ns := node[..];
      assert ns[j] == node[j];
      RepresentsNodeStore(arr[..], ns, contents, j, key, v);
      ChainFacts(ns, rank, main);
      ChainsKept(ns, ns[j := ns[j].(val := v)], rank, main);
      hide ChainsOk;
      hide Represents;
      UsedAdd(ns, ns[j := ns[j].(val := v)], |ns|);
    }

    /** `t[key] = v` (`lua_rawset`): the table behaves as a finite map, and one assignment rehashes
        at most once. */
    method Put(key: Key, v: Val) returns (r: SetResult)
      requires Valid()
      modifies this, arr, node
      ensures r == KeyIsNil <==> key == KNil
      ensures r == KeyIsNaN <==> key == KNaN
      ensures r == TableOverflow ==> |old(contents)| + 1 > Pow2(MAXBITS)
      ensures r == SetOk ==> Valid() && contents == Update(old(contents), key, v)
      ensures r == KeyIsNil || r == KeyIsNaN ==> Valid() && contents == old(contents)
      ensures rehashes <= old(rehashes) + 1
      ensures key in old(contents) ==> r == SetOk && Evolves(old(Now()), Now()) && rank == old(rank)
                                       && arr == old(arr) && node == old(node)
      ensures (arr == old(arr) || fresh(arr)) && (node == old(node) || fresh(node))
    {
      hide ChainsOk;
      hide Represents;
      hide Used;
      hide Pow2;
      hide LastFreeOk;
      hide Evolves;
      hide SomeSlot;
      if key in contents {
        EntryHasSlot(key);
      }
      var s;
      s, r := Set(key, 1);
      if r == SetOk {
        Assign(s, key, v);
      }
    }

    /** `setnodevector`. */
    method SetNodeVector(size: nat) returns (ok: bool)
      requires forall k, n :: n > 0 ==> main(k, n) < n
      modifies `node, `isDummy, `lastfree, `rank
      ensures ok <==> size <= Pow2(MAXBITS)
      ensures ok ==> && fresh(node) && node.Length > 0 && size <= node.Length && (isDummy <==> size == 0)
                     && node.Length == NodeCount(size)
                     && node[..] == FreshNodes(node.Length)
                     && ChainsOk(node[..], rank, main) && Used(node[..]) == 0 && LastFreeOk()
      ensures !ok ==> node == old(node)
    {
      hide ChainsOk;
      hide Used;
      hide Pow2;
      hide FreshNodes;
      CeilLog2Overflow(size);
      if size == 0 {
        node := NewNodes(1);
        isDummy, lastfree := true, 0;
      } else {
        var lsize := CeilLog2(size);
        if lsize > MAXBITS {
          return false;  // "table overflow"
        }
        node := NewNodes(Pow2(lsize));
        isDummy, lastfree := false, Pow2(lsize);
      }
      FreshChains(node.Length, main);
      rank := Zeros(node.Length);
      ok := true;
    }

    static lemma EmptyTable(a: seq<Val>, n: nat)
      requires forall i :: 0 <= i < |a| ==> a[i] == Nil
      ensures Represents(a, FreshNodes(n), map[])
    {
    }

    /** The invariant of the re-insertion loops of `resize`: part of the map is back, and the nodes
        still free are enough for the rest. */
    ghost predicate Rebuilding(all: map<Key, Val>)
      reads this, arr, node
    {
      && Valid() && SubMap(contents, all)
      && Used(node[..]) <= |HashBound(contents.Keys, arr.Length)|
      && |HashBound(all.Keys, arr.Length)| <= node.Length
      && (isDummy ==> |HashBound(all.Keys, arr.Length)| == 0)
    }

    lemma RoomWhileRebuilding(all: map<Key, Val>, key: Key)
      requires Rebuilding(all) && key in all
      ensures HasRoom(key)
      ensures key in contents ==> SomeSlot(key)
    {
      if key in contents && !InArray(key, arr.Length) {
        var j :| 0 <= j < |node[..]| && Holds(node[..], j, key);
      } else if !InArray(key, arr.Length) {
        HashBoundMono(contents.Keys, all.Keys, arr.Length, key);
      }
    }

    /** Re-insert one entry (`setobjt2t(L, luaH_set(L, t, key), val)`): no further rehash. */
    method Reinsert(key: Key, v: Val, ghost all: map<Key, Val>)
      requires Rebuilding(all) && key in all && all[key] == v && Storable(key) && v != Nil
      modifies this, arr, node
      ensures Rebuilding(all) && contents == old(contents)[key := v] && rehashes == old(rehashes)
      ensures arr == old(arr) && node == old(node) && isDummy == old(isDummy)
      decreases 0, 4
    {
      hide ChainsOk;
      hide Represents;
      hide Used;
      hide Pow2;
      hide HashBound;
      hide Absent;
      RoomWhileRebuilding(all, key);
      HashBoundAdd(contents.Keys, arr.Length, key);
      var s, r := Set(key, 0);
      Assign(s, key, v);
      assert contents.Keys == old(contents).Keys + {key};
    }

    /** `resize`: build both parts anew and re-insert every entry. */
    method Resize(nasize: nat, nhsize: nat, ghost budget: nat) returns (ok: bool)
      requires Valid() && nasize <= Pow2(MAXBITS) && budget == 1
      requires |HashBound(contents.Keys, nasize)| <= nhsize
      modifies this, arr, node
      ensures contents == old(contents) && rehashes == old(rehashes)
      ensures ok <==> nhsize <= Pow2(MAXBITS)
      ensures ok ==> && Valid() && arr.Length == nasize && nhsize <= node.Length && (isDummy <==> nhsize == 0)
                     && node.Length == NodeCount(nhsize)
                     && Used(node[..]) <= |HashBound(contents.Keys, nasize)|
      ensures (node == old(node) || fresh(node)) && (arr == old(arr) || fresh(arr))
      decreases budget, 0
    {
      hide ChainsOk;
      hide Used;
      hide Pow2;
      hide HashBound;
      hide Represents;
      hide Rebuilding;
      hide Back;
      hide BackNodes;
      hide FreshNodes;
      hide Resized;
      var oldasize, aold, nold := arr.Length, arr, node;
      ghost var all, a0, n0 := contents, arr[..], node[..];
      if nasize > oldasize {
        SetArrayVector(nasize);
      }
      ok := SetNodeVector(nhsize);
      if !ok {
        return;
      }
      if nasize < oldasize {
        SetArrayVector(nasize);
      }
      ResizedSame(a0);
      contents := Kept(all, |a0|, nasize);
      StartRebuilding(a0, n0, all);
      if nasize < oldasize {
        ReinsertSlice(aold, n0, all);
      }
      BackAll(a0, all, contents, if nasize < oldasize then oldasize else nasize);
      ReinsertNodes(nold, a0, all, old(rank));
      RebuildDone(a0, n0, all);
    }

    lemma StartRebuilding(a0: seq<Val>, n0: seq<Node>, all: map<Key, Val>)
      requires Represents(a0, n0, all) && contents == Kept(all, |a0|, arr.Length)
      requires (forall k, n :: n > 0 ==> main(k, n) < n) && node.Length > 0 && arr.Length <= Pow2(MAXBITS)
      requires ChainsOk(node[..], rank, main) && LastFreeOk() && Used(node[..]) == 0
      requires arr[..] == Resized(a0, arr.Length) && node[..] == FreshNodes(node.Length)
      requires |HashBound(all.Keys, arr.Length)| <= node.Length
      requires isDummy ==> |HashBound(all.Keys, arr.Length)| == 0
      ensures Rebuilding(all) && Back(a0, all, contents, arr.Length)
    {
      hide ChainsOk;
      hide Used;
      hide Pow2;
      hide LastFreeOk;
      hide HashBound;
      RebuildStart(a0, n0, all, arr.Length, node.Length);
      KeptSub(all, |a0|, arr.Length);
    }

    lemma RebuildDone(a0: seq<Val>, n0: seq<Node>, all: map<Key, Val>)
      requires Rebuilding(all) && Represents(a0, n0, all) && Back(a0, all, contents, |a0|) && BackNodes(n0, contents, 0)
      ensures Valid() && contents == all && Used(node[..]) <= |HashBound(all.Keys, arr.Length)|
    {
      AllBack(a0, n0, all, contents);
    }

    /** Re-insert elements from the vanishing slice of the array part. */
    method ReinsertSlice(aold: array<Val>, ghost n0: seq<Node>, ghost all: map<Key, Val>)
      requires Rebuilding(all) && aold != arr && arr.Length <= aold.Length
      requires Represents(aold[..], n0, all) && Back(aold[..], all, contents, arr.Length)
      modifies this, arr, node
      ensures Rebuilding(all) && Back(old(aold[..]), all, contents, aold.Length)
      ensures arr == old(arr) && node == old(node) && isDummy == old(isDummy) && rehashes == old(rehashes)
      decreases 0, 5
    {
      hide Rebuilding;
      hide Back;
      hide Represents;
      var i := arr.Length;
      ghost var a0 := aold[..];
      while i < aold.Length
        invariant i <= aold.Length && aold[..] == a0
        invariant Rebuilding(all) && Back(a0, all, contents, i)
        invariant arr == old(arr) && node == old(node) && isDummy == old(isDummy) && rehashes == old(rehashes)
      {
        assert aold[i] == a0[i];
        ghost var before := contents;
        if aold[i] != Nil {
          EntryOfArray(a0, n0, all, i);
          Reinsert(Int(i + 1), aold[i], all);
        }
        BackStep(a0, n0, all, before, contents, i);
        i := i + 1;
      }
    }

    /** Re-insert elements from the old hash part. */
    method ReinsertNodes(nold: array<Node>, ghost a0: seq<Val>, ghost all: map<Key, Val>, ghost rank0: seq<nat>)
      requires Rebuilding(all) && nold != node
      requires Represents(a0, nold[..], all) && ChainsOk(nold[..], rank0, main) && Back(a0, all, contents, |a0|)
      modifies this, arr, node
      ensures Rebuilding(all) && Back(a0, all, contents, |a0|) && BackNodes(old(nold[..]), contents, 0)
      ensures arr == old(arr) && node == old(node) && isDummy == old(isDummy) && rehashes == old(rehashes)
      decreases 0, 5
    {
      hide Rebuilding;
      hide Represents;
      hide ChainsOk;
      var i := nold.Length;
      ghost var n0 := nold[..];
      while i > 0
        invariant 0 <= i <= nold.Length && nold[..] == n0
        invariant Rebuilding(all) && Back(a0, all, contents, |a0|) && BackNodes(n0, contents, i)
        invariant arr == old(arr) && node == old(node) && isDummy == old(isDummy) && rehashes == old(rehashes)
      {
        i := i - 1;
        assert nold[i] == n0[i];
        if nold[i].val != Nil {
          EntryOfNode(a0, n0, all, i, rank0, main);
          Reinsert(nold[i].key.k, nold[i].val, all);
        }
      }
    }

    /** `setarrayvector`, and the shrinking reallocation of `resize`. */
    method SetArrayVector(size: nat)
      modifies `arr
      ensures fresh(arr) && arr.Length == size && arr[..] == Resized(old(arr[..]), size)
    {
      var old' := arr;
      arr := new Val[size](i requires 0 <= i reads old' => if i < old'.Length then old'[i] else Nil);
      assert arr[..] == Resized(old'[..], size);
    }

    /** `rehash`. */
    method Rehash(ek: Key, ghost budget: nat) returns (ok: bool)
      requires Valid() && Storable(ek) && Absent(node[..], ek) && !InArray(ek, arr.Length) && budget == 1
      modifies this, arr, node
      ensures contents == old(contents) && rehashes == old(rehashes) + 1
      ensures ok ==> Valid() && HasRoom(ek)
      ensures !ok ==> |contents| + 1 > Pow2(MAXBITS)
      ensures ok ==> BestSize(IntsOf(contents.Keys + {ek}), arr.Length)
                     && node.Length == NodeCount(|HashBound(contents.Keys + {ek}, arr.Length)|)
      ensures (node == old(node) || fresh(node)) && (arr == old(arr) || fresh(arr))
      decreases budget, 1
    {
      hide ChainsOk;
      hide Represents;
      hide Pow2;
      hide BestSize;
      hide IntsOf;
      hide HashBound;
      hide NodeCount;
      hide FreshNodes;
      hide Used;
      hide Absent;
      rehashes := rehashes + 1;
      var n, nh := CountAndSize(ek);
      HashBoundAdd(contents.Keys, n, ek);
      HashBoundAtMost(contents.Keys, n, ek);
      ok := Resize(n, nh, budget);
    }

    /** The first part of `rehash`: count the keys in use and compute the new sizes. */
    method CountAndSize(ek: Key) returns (n: nat, nh: nat)
      requires Valid() && Storable(ek) && Absent(node[..], ek) && !InArray(ek, arr.Length)
      ensures BestSize(IntsOf(contents.Keys + {ek}), n) && n <= Pow2(MAXBITS)
      ensures nh == |HashBound(contents.Keys + {ek}, n)| && ek !in contents
    {
      hide ChainsOk;
      hide Represents;
      hide Pow2;
      hide NumsOk;
      hide CountUpTo;
      hide BestSize;
      hide IntsOf;
      hide KeysFrom;
      hide ArrayKeys;
      hide HashBound;
      hide Absent;
      hide LastFreeOk;
      hide UniqueLive;
      hide DeadEmpty;
      hide FreeIsolated;
      var nums := new int[MAXBITS + 1](_ => 0);
      CountedSets(arr[..], node[..], contents, ek);
      ChainFacts(node[..], rank, main);
      var nasize := NumUseArray(arr, nums);
      var totaluse := nasize;
      var th, ah := NumUseHash(node, nums, ArrayKeys(arr[..]));
      totaluse := totaluse + th;
      nasize := nasize + ah;
      var c := CountInt(ek, nums, ArrayKeys(arr[..]) + IntsOf(KeysFrom(node[..], 0)));
      nasize := nasize + c;
      totaluse := totaluse + 1;
      IntsInRange(contents.Keys + {ek});
      var na;
      n, na := ComputeSizes(nums, nasize, IntsOf(contents.Keys + {ek}));
      HashBoundCount(contents.Keys + {ek}, n);
      nh := totaluse - na;
    }

    // ----- traversal -----

    /** `removeentry` of lua/lgc.c: the collector marks the key of an empty entry dead. */
    method RemoveEntry(j: nat)
      requires Valid() && j < node.Length && node[j].val == Nil
      modifies node
      ensures Valid() && Evolves(old(Now()), Now())
      ensures var k := old(node[j].key);
              node[j].key == if k.Live? && k.k.Other? && k.k.collectable then Dead(k.k) else k
    {
      hide Pow2;
      ghost var ns := node[..];
      assert ns[j] == node[j];
      match node[j].key {
        case Live(k) =>
          if k.Other? && k.collectable {
            var n := node[j].(key := Dead(k));
            ChainsKept(ns, ns[j := n], rank, main);
            RepresentsDead(arr[..], ns, contents, j);
            hide ChainsOk;
            hide Represents;
            node[j] := n;
            assert node[..] == ns[j := n];
          }
        case _ =>
      }
    }

    static lemma RepresentsDead(a: seq<Val>, ns: seq<Node>, m: map<Key, Val>, j: nat)
      requires Represents(a, ns, m) && j < |ns| && ns[j].val == Nil && ns[j].key.Live?
      ensures Represents(a, ns[j := ns[j].(key := Dead(ns[j].key.k))], m)
    {
      var ns' := ns[j := ns[j].(key := Dead(ns[j].key.k))];
      forall k | k in m && !InArray(k, |a|) ensures exists i :: 0 <= i < |ns'| && Holds(ns', i, k) {
        var i :| 0 <= i < |ns| && Holds(ns, i, k);
        assert Holds(ns', i, k);
      }
    }

    /** `findindex`. */
    method FindIndex(key: Key) returns (i: int, ok: bool)
      requires Valid()
      ensures ok ==> IsIndex(Now(), rank, key, i)
      ensures !ok ==> forall p :: !IsIndex(Now(), rank, key, p)
      ensures ok ==> -1 <= i < Size(Now())
    {
      hide Represents;
      hide Pow2;
      if key == KNil {
        return -1, true;
      }
      if key.Int? && 0 < key.i <= arr.Length {
        return key.i - 1, true;
      }
      var n := main(key, node.Length);
      ghost var ns := node[..];
      forall j | 0 <= j < |ns| && Matches(ns[j].key, key) ensures Reach(ns, rank, n, j) {
        assert Placed(ns, rank, main, j);
      }
      while true
        invariant 0 <= n < node.Length
        invariant forall j :: 0 <= j < |ns| && Matches(ns[j].key, key) ==> Reach(ns, rank, n, j)
        decreases rank[n]
      {
        // Matches: a dead key still has its place
        if node[n].key == Live(key) || (node[n].key == Dead(key) && key.Other? && key.collectable) {
          return n + arr.Length, true;
        }
        assert ns[n] == node[n];
        if node[n].next == NO_NODE {
          return 0, false;
        }
        n := node[n].next;
      }
    }

    /** `luaH_next`. */
    method Next(key: Key) returns (r: NextResult)
      requires Valid()
      ensures r == InvalidKey <==> forall p :: !IsIndex(Now(), rank, key, p)
      ensures r == NoMore ==> Ends(Now(), rank, key)
      ensures r.Entry? ==> Follows(Now(), rank, key, r.k) && r.k in contents && r.v == contents[r.k]
    {
      hide Pow2;
      hide Represents;
      hide IsIndex;
      hide LastFreeOk;
      var i, ok := FindIndex(key);
      if !ok {
        return InvalidKey;
      }
      RankFact();
      hide ChainsOk;
      ghost var p := i;
      i := i + 1;
      while i < arr.Length
        invariant p < i <= Size(Now()) && forall q :: p < q < i ==> ValAt(Now(), q) == Nil
      {
        if arr[i] != Nil {
          EntryFound(key, p, i);
          return Entry(Int(i + 1), arr[i]);
        }
        i := i + 1;
      }
      i := i - arr.Length;
      while i < node.Length
        invariant 0 <= i <= node.Length && p < i + arr.Length
        invariant forall q :: p < q < i + arr.Length ==> ValAt(Now(), q) == Nil
      {
        if node[i].val != Nil {
          EntryFound(key, p, i + arr.Length);
          return Entry(node[i].key.k, node[i].val);
        }
        i := i + 1;
      }
      assert NoneAfter(Now(), p);
      return NoMore;
    }

    lemma RankFact()
      requires Valid()
      ensures RankOk(node[..], rank)
    {
    }

    lemma EntryFound(key: Key, p: int, q: nat)
      requires Valid() && RankOk(node[..], rank) && IsIndex(Now(), rank, key, p) && FirstAfter(Now(), p, q)
      ensures q >= arr.Length ==> node[q - arr.Length].key.Live?
      ensures var k := KeyAt(Now(), q); Follows(Now(), rank, key, k) && k in contents && contents[k] == ValAt(Now(), q)
    {
      hide Pow2;
      hide IsIndex;
      IndexOfKey(Now(), rank, main, q);
      assert StepAt(Now(), rank, key, KeyAt(Now(), q), p, q);
      if q >= arr.Length {
        LiveIfValued(node[..], rank, main, q - arr.Length);
      }
    }

    static lemma LiveIfValued(ns: seq<Node>, rank: seq<nat>, main: (Key, nat) -> nat, j: nat)
      requires ChainsOk(ns, rank, main) && j < |ns| && ns[j].val != Nil
      ensures ns[j].key.Live?
    {
    }

    // ----- the length operator -----

    /** `unbound_search`. */
    method UnboundSearch(start: nat) returns (n: nat)
      requires Valid() && (start == 0 || Int(start) in contents)
      ensures IsBorder(contents, n)
    {
      hide Valid;
      var i, j := start, start + 1;
      var v := Get(Int(j));
      // then a border lies between the two
      while v != Nil
        invariant 0 <= i < j && (i == 0 || Int(i) in contents) && v == Lookup(contents, Int(j))
        decreases MAX_INT - j
      {
        EntryNotNil(Int(j));
        i := j;
        j := j * 2;
        if j > MAX_INT {
          // AllPresent bounds the search from here on
          n := LinearSearch();
          return;
        }
        v := Get(Int(j));
      }
      EntryNotNil(Int(j));
      // i stays present and j absent
      while j - i > 1
        invariant 0 <= i < j && (i == 0 || Int(i) in contents) && Int(j) !in contents
      {
        var m := (i + j) / 2;
        var vm := Get(Int(m));
        EntryNotNil(Int(m));
        if vm == Nil {
          j := m;
        } else {
          i := m;
        }
      }
      return i;
    }

    lemma EntryNotNil(key: Key)
      requires Valid()
      ensures Lookup(contents, key) == Nil <==> key !in contents
    {
    }

    /** The linear search of `unbound_search`. */
    method LinearSearch() returns (n: nat)
      requires Valid()
      ensures IsBorder(contents, n)
    {
      hide Valid;
      var i := 1;
      var v := Get(Int(i));
      while v != Nil
        invariant i >= 1 && v == Lookup(contents, Int(i)) && forall k :: 1 <= k < i ==> Int(k) in contents
        decreases |contents| + 1 - i
      {
        EntryNotNil(Int(i));
        AllPresent(contents, i);
        i := i + 1;
        v := Get(Int(i));
      }
      EntryNotNil(Int(i));
      return i - 1;
    }

    static lemma {:induction false} AllPresent(m: map<Key, Val>, i: nat)
      requires forall k :: 1 <= k <= i ==> Int(k) in m
      ensures i <= |m|
    {
      if i > 0 {
        AllPresent(m - {Int(i)}, i - 1);
        assert (m - {Int(i)}).Keys == m.Keys - {Int(i)};
        assert |m| == |m.Keys| && |m - {Int(i)}| == |(m - {Int(i)}).Keys|;
      }
    }

    /** `luaH_getn`, the length operator: a border of the table. */
    method Length() returns (n: nat)
      requires Valid()
      ensures IsBorder(contents, n)
    {
      hide ChainsOk;
      hide Pow2;
      hide IsBorder;
      var j := arr.Length;
      ArrayEntries();
      if j > 0 && arr[j - 1] == Nil {
        // the last slot is empty, so a border lies inside
        var i := 0;
        while j - i > 1
          invariant 0 <= i < j <= arr.Length && (i == 0 || arr[i - 1] != Nil) && arr[j - 1] == Nil
        {
          var m := (i + j) / 2;
          if arr[m - 1] == Nil {
            j := m;
          } else {
            i := m;
          }
        }
        BorderAt(contents, i);
        return i;
      } else if isDummy {
        DummyEmpty(Int(j + 1));
        BorderAt(contents, j);
        return j;
      } else {
        n := UnboundSearch(j);
      }
    }

    static lemma BorderAt(m: map<Key, Val>, n: nat)
      requires (n == 0 || Int(n) in m) && Int(n + 1) !in m
      ensures IsBorder(m, n)
    {
    }

    lemma ArrayEntries()
      requires Valid()
      ensures forall i :: 0 <= i < arr.Length ==> (arr[i] == Nil <==> Int(i + 1) !in contents)
    {
      forall i | 0 <= i < arr.Length ensures arr[i] == Nil <==> Int(i + 1) !in contents {
        assert arr[i] == arr[..][i] == Lookup(contents, Int(i + 1));
      }
    }

    lemma DummyEmpty(key: Key)
      requires Valid() && isDummy && !InArray(key, arr.Length)
      ensures key !in contents
    {
      AbsentKey(arr[..], node[..], contents, key);
    }
  }

  // ----- traversing a table with `next` -----

  /** What the body of a traversal may do: assign to a field that exists, nil clearing it; and the
      collector may mark the key of an empty entry dead. */
  datatype Edit = Reassign(key: Key, v: Val) | Kill(j: nat)

  predicate Clears(e: Edit) {
    e.Reassign? && e.v == Nil
  }

  /** An edit that does not apply is left out. */
  method ApplyEdit(t: Table, e: Edit)
    requires t.Valid()
    modifies t, t.arr, t.node
    ensures t.Valid() && t.rank == old(t.rank) && t.arr == old(t.arr) && t.node == old(t.node)
    ensures Evolves(old(t.Now()), t.Now())
    ensures t.contents.Keys <= old(t.contents).Keys && (!Clears(e) ==> t.contents.Keys == old(t.contents).Keys)
  {
    hide ChainsOk;
    hide Represents;
    hide Pow2;
    match e {
      case Reassign(key, v) =>
        var current := t.Get(key);
        if current != Nil {
          var _ := t.Put(key, v);
        }
      case Kill(j) =>
        if j < t.node.Length && t.node[j].val == Nil {
          t.RemoveEntry(j);
        }
    }
  }

  method ApplyEdits(t: Table, es: seq<Edit>)
    requires t.Valid()
    modifies t, t.arr, t.node
    ensures t.Valid() && t.rank == old(t.rank) && t.arr == old(t.arr) && t.node == old(t.node)
    ensures Evolves(old(t.Now()), t.Now())
    ensures t.contents.Keys <= old(t.contents).Keys
    ensures (forall e :: e in es ==> !Clears(e)) ==> t.contents.Keys == old(t.contents).Keys
  {
    hide Table.Valid;
    hide Evolves;
    hide Clears;
    EvolvesSelf(t.Now());
    for i := 0 to |es|
      invariant t.Valid() && t.rank == old(t.rank) && t.arr == old(t.arr) && t.node == old(t.node)
      invariant Evolves(old(t.Now()), t.Now())
      invariant t.contents.Keys <= old(t.contents).Keys
      invariant (forall e :: e in es ==> !Clears(e)) ==> t.contents.Keys == old(t.contents).Keys
    {
      ghost var before := t.Now();
      ApplyEdit(t, es[i]);
      EvolvesTwice(old(t.Now()), before, t.Now());
    }
  }

  lemma EvolvesSelf(t: Snapshot)
    ensures Evolves(t, t)
  {
  }

  /** The loop of a traversal: `next` from nil until there is no more, with edits between two steps. It
      ends, no key is visited twice, each is an entry when it is visited, every entry that stays is
      visited, and without clearing the keys visited are exactly those of the table. `states` are the
      states in which `next` was called. */
  method Traverse(t: Table, edits: seq<seq<Edit>>) returns (visited: seq<Key>, ghost states: seq<Snapshot>)
    requires t.Valid()
    modifies t, t.arr, t.node
    ensures t.Valid() && |states| == |visited| + 1 && states[0] == old(t.Now()) && states[|visited|] == t.Now()
    ensures forall i, j :: 0 <= i < j < |visited| ==> visited[i] != visited[j]
    ensures forall i {:trigger visited[i]} :: 0 <= i < |visited| ==> visited[i] in states[i].m
    ensures forall k :: (forall i :: 0 <= i < |states| ==> k in states[i].m) ==> k in visited
    ensures (forall es, e :: es in edits && e in es ==> !Clears(e)) ==> forall k :: k in visited <==> k in old(t.contents)
  {
    hide Table.Valid;
    hide IsIndex;
    hide Evolves;
    hide Traverses;
    hide Follows;
    hide Ends;
    hide Clears;
    ghost var rank, main := t.rank, t.main;
    ghost var keys := [KNil];
    visited, states := [], [t.Now()];
    var key := KNil;
    SoundNow(t);
    OneState(t.Now(), rank, main);
    while true
      invariant t.Valid() && t.rank == rank && t.arr == old(t.arr) && t.node == old(t.node)
      invariant |states| == |visited| + 1 && states[0] == old(t.Now()) && states[|visited|] == t.Now()
      invariant keys == [KNil] + visited && key == keys[|visited|] && Traverses(states, rank, main, keys)
      invariant (forall es, e :: es in edits && e in es ==> !Clears(e)) ==>
                  forall i :: 0 <= i < |states| ==> states[i].m.Keys == old(t.contents).Keys
      decreases Size(states[0]) + 1 - |visited|
    {
      var r := NextInTraversal(t, key, states, keys);
      if r == NoMore {
        VisitedEntries(states, rank, main, keys, visited);
        return;
      }
      ApplyEdits(t, if |visited| < |edits| then edits[|visited|] else []);
      SoundNow(t);
      NextState(states, rank, main, keys, t.Now(), r.k);
      visited, key, states, keys := visited + [r.k], r.k, states + [t.Now()], keys + [r.k];
    }
  }

  /** In a traversal `next` finds where it was. */
  method NextInTraversal(t: Table, key: Key, ghost states: seq<Snapshot>, ghost keys: seq<Key>) returns (r: NextResult)
    requires t.Valid() && Traverses(states, t.rank, t.main, keys)
    requires states[|states| - 1] == t.Now() && keys[|keys| - 1] == key
    ensures r != InvalidKey && |keys| <= Size(states[0]) + 1
    ensures r == NoMore ==> Ends(t.Now(), t.rank, key)
    ensures r.Entry? ==> Follows(t.Now(), t.rank, key, r.k)
  {
    hide Table.Valid;
    hide IsIndex;
    hide Evolves;
    hide Follows;
    hide Ends;
    TraversalGoesOn(states, t.rank, t.main, keys);
    EveryEntryOnce(states, t.rank, t.main, keys);
    hide Traverses;
    ghost var s := t.Now();
    assert s == states[|states| - 1];
    ghost var p :| IsIndex(s, t.rank, key, p);
    r := t.Next(key);
    assert t.Now() == s;
    assert IsIndex(t.Now(), t.rank, key, p);
  }

  lemma VisitedEntries(states: seq<Snapshot>, rank: seq<nat>, main: (Key, nat) -> nat, keys: seq<Key>, visited: seq<Key>)
    requires Traverses(states, rank, main, keys) && Ends(states[|states| - 1], rank, keys[|keys| - 1])
    requires keys == [KNil] + visited
    ensures |states| == |visited| + 1
    ensures forall i, j :: 0 <= i < j < |visited| ==> visited[i] != visited[j]
    ensures forall i {:trigger visited[i]} :: 0 <= i < |visited| ==> visited[i] in states[i].m
    ensures forall k :: (forall i :: 0 <= i < |states| ==> k in states[i].m) ==> k in visited
  {
    EveryEntryOnce(states, rank, main, keys);
    assert |states| == |keys|;
    hide Traverses;
    hide Ends;
    assert keys[1..] == visited;
    forall i, j | 0 <= i < j < |visited| ensures visited[i] != visited[j] {
      assert keys[i + 1] != keys[j + 1];
    }
    forall i | 0 <= i < |visited| ensures visited[i] in states[i].m {
      assert keys[i + 1] in states[i].m;
    }
  }

  lemma SoundNow(t: Table)
    requires t.Valid()
    ensures Sound(t.Now(), t.rank, t.main)
  {
  }

  lemma OneState(s: Snapshot, rank: seq<nat>, main: (Key, nat) -> nat)
    requires Sound(s, rank, main)
    ensures Traverses([s], rank, main, [KNil])
  {
    hide Sound;
  }

  lemma NextState(states: seq<Snapshot>, rank: seq<nat>, main: (Key, nat) -> nat, keys: seq<Key>, s: Snapshot, k: Key)
    requires Traverses(states, rank, main, keys) && Sound(s, rank, main)
    requires Evolves(states[|states| - 1], s) && Follows(states[|states| - 1], rank, keys[|keys| - 1], k)
    ensures Traverses(states + [s], rank, main, keys + [k])
  {
    hide Sound;
    hide Evolves;
    hide Follows;
  }
}
