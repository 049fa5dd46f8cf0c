/** The key codes that scancodes come to (os.cpp). */
module Keys {
  // A key sends one byte, two bytes of which the first is 0xE0, or three of which the first is 0xE1.
  // The top bit of the last byte tells that the key goes up. The codes are those of rom/apis/keys.lua.

  import opened Basics
  import opened Events

  /** What the keyboard sends for a key; a zero byte stands for none. */
  datatype Scan = Plain(b: Byte) | Extended(b: Byte) | Long(b1: Byte, b2: Byte)

  /** `getkey`: the code from the bytes, if it waits for none of them in vain and reads the higher of the
      last two first. */
  function GetKey(s: Scan): nat
    requires s.Plain? ==> s.b != 0xE0 && s.b != 0xE1
  {
    match s
    case Plain(b) => b
    case Extended(b) => 0xE000 + b
    case Long(b1, b2) => 0xE0_0000 + 0x100 * b1 + b2
  }

  /** The press of a key that sends its own byte, or an extended one. */
  predicate IsPress(s: Scan) {
    match s
    case Plain(b) => 0 < b < 0x80 && b != 0x60 && b != 0x61  // 0xE0 and 0xE1 would be their releases
    case Extended(b) => b < 0x80
    case Long(_, _) => false
  }

  /** The release of the same key. */
  function Release(s: Scan): Scan
    requires IsPress(s)
  {
    match s case Plain(b) => Plain(b + 0x80) case Extended(b) => Extended(b + 0x80)
  }

  /** The number of a key in the table of names. */
  function KeyNumber(s: Scan): nat
    requires IsPress(s)
  {
    match s case Plain(b) => b case Extended(b) => b + 128
  }

  /** Press and release of a key are events of the same number, and only the press may be a character. */
  lemma PressAndRelease(s: Scan, char': string, timers: seq<int>)
    requires IsPress(s)
    ensures KeyEvents(Arrival(GetKey(s), char', timers)) ==
              [Event("key", [Number(KeyNumber(s)), Bool(false)])] + (if char' == "" then [] else [Event("char", [Str(char')])])
    ensures KeyEvents(Arrival(GetKey(Release(s)), "", timers)) == [Event("key_up", [Number(KeyNumber(s)), Bool(false)])]
  {
    if s.Extended? {
      ExtendedCode(s.b);
      ExtendedCode(s.b + 0x80);
    }
    hide Ps2ToCc;
    assert s.Plain? ==> Ps2ToCc(s.b) == s.b && Ps2ToCc(s.b + 0x80) == s.b by { PlainCode(s.b % 0x80); }
  }

  lemma PlainCode(b: Byte)
    requires b < 0x80
    ensures Ps2ToCc(b) == b && Ps2ToCc(b + 0x80) == b
    ensures b / 128 % 2 == 0 && (b + 0x80) / 128 % 2 == 1
  {
  }

  lemma ExtendedCode(b: Byte)
    ensures Ps2ToCc(0xE000 + b) == b % 128 + 128
    ensures (0xE000 + b) / 128 % 2 == b / 128
  {
    assert (0xE000 + b) / 256 % 256 == 0xE0;
  }

  /** Different keys have different numbers, and those of extended keys are above 127. */
  lemma NumbersDiffer(s: Scan, s': Scan)
    requires IsPress(s) && IsPress(s')
    ensures Ps2ToCc(GetKey(s)) == Ps2ToCc(GetKey(s')) <==> s == s'
    ensures Ps2ToCc(GetKey(s)) > 127 <==> s.Extended?
  {
    NumberOf(s);
    NumberOf(s');
    hide Ps2ToCc;
  }

  lemma NumberOf(s: Scan)
    requires IsPress(s)
    ensures Ps2ToCc(GetKey(s)) == KeyNumber(s) && Ps2ToCc(GetKey(Release(s))) == KeyNumber(s)
  {
    match s
    case Plain(b) => PlainCode(b);
    case Extended(b) =>
      ExtendedCode(b);
      ExtendedCode(b + 0x80);
  }

  /** Pause sends three bytes, and its number should be 197. But `getkey` puts 0xE0 where `ps2tocc` looks
      for 0xE1, so that of all that three bytes may be, 197 comes from a second byte of 0xE0 only. */
  lemma LongIs197(b1: Byte, b2: Byte)
    ensures Ps2ToCc(GetKey(Long(b1, b2))) == 197 <==> b1 == 0xE0 && b2 % 128 == 0x45
    ensures b1 != 0xE0 ==> Ps2ToCc(GetKey(Long(b1, b2))) == b2 % 128
  {
    var code := 0xE0_0000 + 0x100 * b1 + b2;
    assert code / 256 == 0xE000 + b1 && code / 65536 == 0xE0;
    assert code % 128 == b2 % 128 by { assert code == 128 * (0x1_C000 + 2 * b1) + b2; }
  }

  /** Pause has the number of the key for the number lock. */
  lemma PauseIsNumLock()
    ensures Ps2ToCc(GetKey(Long(0x1D, 0x45))) == 69 == Ps2ToCc(GetKey(Plain(0x45)))
    ensures Ps2ToCc(0xE1_1D45) == 197
  {
    LongIs197(0x1D, 0x45);
  }

  // ----- the order of events -----

  lemma {:induction false} TimerEventsMean(ids: seq<int>)
    ensures |TimerEvents(ids)| == |ids|
    ensures forall i :: 0 <= i < |ids| ==> TimerEvents(ids)[i] == Event("timer", [Number(ids[i])])
  {
    if ids != [] {
      TimerEventsMean(ids[1..]);
      forall i | 0 <= i < |ids| ensures TimerEvents(ids)[i] == Event("timer", [Number(ids[i])]) {
        assert i > 0 ==> ids[1..][i - 1] == ids[i];
      }
    }
  }

  /** What an arrival comes to is before what later ones come to, keys before timers. */
  lemma {:induction false} InOrder(a: Arrival, rest: seq<Arrival>)
    ensures Generated([a] + rest) == KeyEvents(a) + TimerEvents(a.timers) + Generated(rest)
    decreases |rest|
  {
    hide KeyEvents;
    hide TimerEvents;
    var all := [a] + rest;
    if rest == [] {
      assert all[..|all| - 1] == [];
    } else {
      assert all[..|all| - 1] == [a] + rest[..|rest| - 1];
      InOrder(a, rest[..|rest| - 1]);
    }
  }
}
