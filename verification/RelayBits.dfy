/**
  A relay command end to end: the touch panel's state integer becomes an array of booleans
  (Linux_ui/ui/widget.cpp), the gateway packs it into a mask (Linux_data/data/data_command.c), the
  board driver writes coils and reads them back as a bitmap (Linux_data/sensors/relay.cpp).
 */
module RelayBits {
  import opened Wrappers

  const CHANNEL_COUNT := 4

  function Bit(i: nat): bv16
    requires i < 16
  {
    (1 as bv16) << i
  }

  predicate IsSet(mask: bv16, i: nat)
    requires i < 16
  {
    mask & Bit(i) != 0
  }

  function ChannelBit(i: nat): bv32
    requires i < CHANNEL_COUNT
  {
    (1 as bv32) << i
  }

  predicate IsSet32(states: bv32, i: nat)
    requires i < CHANNEL_COUNT
  {
    states & ChannelBit(i) != 0
  }

  /** The or of the bits of the first n flags. */
  function Mask(flags: seq<bool>, n: nat): bv16
    requires n <= |flags| && n <= 16
  {
    if n == 0 then 0 else if flags[n - 1] then Mask(flags, n - 1) | Bit(n - 1) else Mask(flags, n - 1)
  }

  /** All the flags that have a bit. */
  function MaskOf(flags: seq<bool>): bv16 {
    Mask(flags, if |flags| < 16 then |flags| else 16)
  }

  function Flags(states: bv32): (r: seq<bool>)
    ensures |r| == CHANNEL_COUNT && forall i :: 0 <= i < CHANNEL_COUNT ==> r[i] == IsSet32(states, i)
  {
    [IsSet32(states, 0), IsSet32(states, 1), IsSet32(states, 2), IsSet32(states, 3)]
  }

  function Coils(mask: bv16): (r: seq<bool>)
    ensures |r| == CHANNEL_COUNT && forall i :: 0 <= i < CHANNEL_COUNT ==> r[i] == IsSet(mask, i)
  {
    [IsSet(mask, 0), IsSet(mask, 1), IsSet(mask, 2), IsSet(mask, 3)]
  }

  /** One switch of the panel: the channel's bit is set or cleared. */
  function Press(states: bv32, channel: nat, on: bool): bv32
    requires channel < CHANNEL_COUNT
  {
    if on then states | ChannelBit(channel) else states & !ChannelBit(channel)
  }

  // ---------- What the bits mean ----------

  lemma OrBit(a: bv16, i: nat, j: nat)
    requires i < 16 && j < 16
    ensures (a | Bit(i)) & Bit(j) != 0 <==> a & Bit(j) != 0 || i == j
  {
  }

  lemma {:induction false} MaskBit(flags: seq<bool>, n: nat, j: nat)
    requires n <= |flags| && n <= 16 && j < 16
    ensures IsSet(Mask(flags, n), j) <==> j < n && flags[j]
  {
    if n > 0 {
      MaskBit(flags, n - 1, j);
      OrBit(Mask(flags, n - 1), n - 1, j);
    }
  }

  lemma PressBit(states: bv32, channel: nat, on: bool, j: nat)
    requires channel < CHANNEL_COUNT && j < CHANNEL_COUNT
    ensures IsSet32(Press(states, channel, on), j) == if j == channel then on else IsSet32(states, j)
  {
    if on {
      SetChannel(states, channel, j);
    } else {
      ClearChannel(states, channel, j);
    }
  }

  lemma SetChannel(a: bv32, i: nat, j: nat)
    requires i < CHANNEL_COUNT && j < CHANNEL_COUNT
    ensures (a | ChannelBit(i)) & ChannelBit(j) != 0 <==> a & ChannelBit(j) != 0 || i == j
  {
  }

  lemma ClearChannel(a: bv32, i: nat, j: nat)
    requires i < CHANNEL_COUNT && j < CHANNEL_COUNT
    ensures (a & !ChannelBit(i)) & ChannelBit(j) != 0 <==> a & ChannelBit(j) != 0 && i != j
  {
  }

  /** The mask has exactly the low four bits of the states. */
  ghost predicate IsLowFour(mask: bv16, states: bv32) {
    forall j :: 0 <= j < 16 ==> (IsSet(mask, j) <==> j < CHANNEL_COUNT && IsSet32(states, j))
  }

  lemma HighClear(mask: bv16, states: bv32)
    requires IsLowFour(mask, states)
    ensures mask & 0xFFF0 == 0
  {
    assert !IsSet(mask, 4) && !IsSet(mask, 5) && !IsSet(mask, 6) && !IsSet(mask, 7);
    assert !IsSet(mask, 8) && !IsSet(mask, 9) && !IsSet(mask, 10) && !IsSet(mask, 11);
    assert !IsSet(mask, 12) && !IsSet(mask, 13) && !IsSet(mask, 14) && !IsSet(mask, 15);
  }

  lemma BitSame(mask: bv16, states: bv32, j: nat)
    requires IsLowFour(mask, states) && j < CHANNEL_COUNT
    ensures IsSet(mask, j) == IsSet32(states, j)
  {
  }

  lemma LowFour(mask: bv16, states: bv32)
    requires mask & 0xFFF0 == 0
    requires IsSet(mask, 0) == IsSet32(states, 0) && IsSet(mask, 1) == IsSet32(states, 1)
    requires IsSet(mask, 2) == IsSet32(states, 2) && IsSet(mask, 3) == IsSet32(states, 3)
    ensures mask as bv32 == states & 0xF
  {
  }

  /** Whatever array a command carries, each coil is what its first four flags say, and the read-back
      shows exactly the coils. */
  lemma CoilsFollowFlags(flags: seq<bool>, j: nat)
    requires j < 16
    ensures IsSet(MaskOf(Coils(MaskOf(flags))), j) <==> j < CHANNEL_COUNT && j < |flags| && flags[j]
  {
    MaskBit(Coils(MaskOf(flags)), CHANNEL_COUNT, j);
    MaskBit(flags, if |flags| < 16 then |flags| else 16, j);
  }

  lemma FlagsAreLowFour(states: bv32)
    ensures IsLowFour(MaskOf(Coils(MaskOf(Flags(states)))), states)
  {
    forall j | 0 <= j < 16
      ensures IsSet(MaskOf(Coils(MaskOf(Flags(states)))), j) <==> j < CHANNEL_COUNT && IsSet32(states, j)
    {
      CoilsFollowFlags(Flags(states), j);
    }
  }

  /** From the panel's integer to the read-back bitmap: the low four bits, nothing else. */
  lemma RelayRoundTrip(states: bv32)
    ensures MaskOf(Coils(MaskOf(Flags(states)))) as bv32 == states & 0xF
  {
    var mask := MaskOf(Coils(MaskOf(Flags(states))));
    FlagsAreLowFour(states);
    HighClear(mask, states);
    BitSame(mask, states, 0);
    BitSame(mask, states, 1);
    BitSame(mask, states, 2);
    BitSame(mask, states, 3);
    LowFour(mask, states);
  }

  /** Pressing one switch turns its coil and leaves the three others as the panel knew them. */
  lemma PressTurnsOneCoil(states: bv32, channel: nat, on: bool, j: nat)
    requires channel < CHANNEL_COUNT && j < CHANNEL_COUNT
    ensures Coils(MaskOf(Flags(Press(states, channel, on))))[j] == if j == channel then on else IsSet32(states, j)
  {
    PressBit(states, channel, on, j);
    MaskBit(Flags(Press(states, channel, on)), CHANNEL_COUNT, j);
  }

  // ---------- In place ----------

  method RelayStatesToArray(states: bv32) returns (flags: seq<bool>)
    ensures flags == Flags(states)
  {
    flags := [];
    for bit := 0 to CHANNEL_COUNT
      invariant |flags| == bit && forall j :: 0 <= j < bit ==> flags[j] == IsSet32(states, j)
    {
      flags := flags + [IsSet32(states, bit)];
    }
  }

  /** The states array of a set_relay command: the first 16 flags count; an empty array is refused. */
  method MaskFromArray(states: seq<bool>) returns (mask: Option<bv16>)
    ensures mask == if states == [] then None else Some(MaskOf(states))
  {
    if |states| <= 0 {
      return None;
    }
    var bits: bv16 := 0;
    var i := 0;
    while i < |states| && i < 16
      invariant 0 <= i <= |states| && i <= 16 && bits == Mask(states, i)
    {
      if states[i] {
        bits := bits | Bit(i);
      }
      i := i + 1;
    }
    mask := Some(bits);
  }

  /** The board, with the bus answering or not. */
  class RelayDevice {
    const coils: array<bool>

    ghost predicate Valid()
      reads this
    {
      coils.Length == CHANNEL_COUNT
    }

    constructor ()
      ensures Valid() && fresh(coils)
    {
      coils := new bool[CHANNEL_COUNT];
    }

    method WriteStates(states: bv16, busOk: bool) returns (ret: int)
      requires Valid()
      modifies coils
      ensures ret == if busOk then 0 else -1
      ensures coils[..] == if busOk then Coils(states) else old(coils[..])
    {
      var values := new bool[CHANNEL_COUNT];
      for i := 0 to CHANNEL_COUNT
        invariant forall j :: 0 <= j < i ==> values[j] == IsSet(states, j)
        invariant coils[..] == old(coils[..])
      {
        values[i] := IsSet(states, i);
      }
      if !busOk {
        return -1;
      }
      forall i | 0 <= i < CHANNEL_COUNT {
        coils[i] := values[i];
      }
      return 0;
    }

    method Read(busOk: bool) returns (states: Option<bv16>)
      requires Valid()
      ensures states == if busOk then Some(MaskOf(coils[..])) else None
    {
      if !busOk {
        return None;
      }
      var bitmap: bv16 := 0;
      for i := 0 to CHANNEL_COUNT
        invariant bitmap == Mask(coils[..], i)
      {
        if coils[i] {
          bitmap := bitmap | Bit(i);
        }
      }
      states := Some(bitmap);
    }
  }
}
