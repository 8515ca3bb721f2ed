/** The partitioning commands of `mmc_cmds.c` over the device's EXT_CSD register block: the sizes they
    write, byte by byte, and the check that allows the one-time setting. */
module ExtCsd {
  import opened Bytes

  const ENH_SIZE_MULT_0 := 140
  const MAX_ENH_SIZE_MULT_0 := 157
  const PARTITIONS_ATTRIBUTE := 156
  const PARTITION_SETTING_COMPLETED := 155
  const PARTITIONING_SUPPORT := 160
  const ERASE_GROUP_DEF := 175
  const EXT_PARTITIONS_ATTRIBUTE_0 := 52
  const ENH_START_ADDR_0 := 136
  const SEC_COUNT_0 := 212
  const HC_WP_GRP_SIZE := 221
  const HC_ERASE_GRP_SIZE := 224

  /** The 512 bytes of the register block. */
  type Csd = s: seq<byte> | |s| == 512 witness seq(512, _ => 0)

  /** What the sizes are decoded from: the user area is target 0 and general purpose partition `p` is
      target `p`; their 24-bit multipliers are next to each other. */
  type Target = t: int | 0 <= t <= 4

  // ---- single bits of a register ----

  function Mask(k: nat): bv8
    requires k < 8
  {
    match k case 0 => 1 case 1 => 2 case 2 => 4 case 3 => 8 case 4 => 16 case 5 => 32 case 6 => 64 case _ => 128
  }

  predicate Has(b: bv8, k: nat)
    requires k < 8
  {
    b & Mask(k) != 0
  }

  function Put(b: bv8, k: nat, on: bool): bv8
    requires k < 8
  {
    if on then b | Mask(k) else b & !Mask(k)
  }

  lemma PutHas(b: bv8, k: nat, on: bool, j: nat)
    requires k < 8 && j < 8
    ensures Has(Put(b, k, on), j) <==> if j == k then on else Has(b, j)
  {
  }

  predicate HasBit(v: byte, k: nat)
    requires k < 8
  {
    Has(v as bv8, k)
  }

  function PutBit(v: byte, k: nat, on: bool): byte
    requires k < 8
  {
    Put(v as bv8, k, on) as byte
  }

  lemma BackAndForth(b: bv8)
    ensures (b as byte) as bv8 == b
  {
  }

  /** Setting or clearing one bit leaves the others. */
  lemma PutBitHas(v: byte, k: nat, on: bool, j: nat)
    requires k < 8 && j < 8
    ensures HasBit(PutBit(v, k, on), j) <==> if j == k then on else HasBit(v, j)
  {
    hide Has, Put;
    BackAndForth(Put(v as bv8, k, on));
    PutHas(v as bv8, k, on, j);
  }

  // ---- extended attributes: one nibble a partition ----

  /** `ext_attr << (4 * ((partition - 1) % 2))` is set, or all but the other partition's nibble kept. */
  function PutExt(b: bv8, p: nat, on: bool, attr: bv8): bv8 {
    if on then b | (if p % 2 == 1 then attr else attr << 4)
    else b & (if p % 2 == 1 then 0xF0 else 0x0F)
  }

  function NibbleOf(b: bv8, p: nat): bv8 { if p % 2 == 1 then b & 0x0F else b >> 4 }

  /** A partition's nibble gets the attribute, and its neighbour's is left alone exactly when nothing
      of the attribute beyond four bits is new there. */
  lemma NibbleIsPut(b: bv8, p: nat, on: bool, attr: bv8)
    ensures var r := PutExt(b, p, on, attr);
            if on then
              && NibbleOf(r, p) == NibbleOf(b, p) | (attr & 0x0F)
              && (NibbleOf(r, p + 1) == NibbleOf(b, p + 1)
                  <==> p % 2 == 0 || (attr >> 4) | NibbleOf(b, p + 1) == NibbleOf(b, p + 1))
            else NibbleOf(r, p) == 0 && NibbleOf(r, p + 1) == NibbleOf(b, p + 1)
  {
    Alternate(p);
  }

  lemma Alternate(p: nat)
    ensures (p + 1) % 2 == 1 - p % 2
  {
  }

  // ---- sizes ----

  function Decode24(s: Csd, at: nat): (n: nat)
    requires at + 2 < 512
    ensures n < 0x100_0000
  {
    Spelt(s[at + 2], s[at + 1], s[at])
  }

  /** Three bytes, the highest first. */
  function Spelt(x: byte, y: byte, z: byte): (n: nat)
    ensures n < 0x100_0000
  {
    (x as int) * 0x1_0000 + (y as int) * 0x100 + z as int
  }

  function BaseOf(t: Target): nat { ENH_SIZE_MULT_0 + 3 * t }

  /** One write-protect group, in KiB: `512 * wp * erase`. */
  function Align(s: Csd): nat { 512 * (s[HC_WP_GRP_SIZE] as int) * s[HC_ERASE_GRP_SIZE] as int }

  /** The size of a target in KiB. */
  function SizeOf(s: Csd, t: Target): nat { Decode24(s, BaseOf(t)) * Align(s) }

  predicate Enhanced(s: Csd, t: Target) { HasBit(s[PARTITIONS_ATTRIBUTE], t) }

  function MaxEnhanced(s: Csd): nat { Decode24(s, MAX_ENH_SIZE_MULT_0) * Align(s) }

  function SectorCount(s: Csd): nat {
    FromBigEndian([s[SEC_COUNT_0 + 3], s[SEC_COUNT_0 + 2], s[SEC_COUNT_0 + 1], s[SEC_COUNT_0]])
  }

  /** The sum over the targets below `n`: of all sizes, or of the enhanced ones. */
  function Total(s: Csd, n: nat, enhancedOnly: bool): nat
    requires n <= 5
  {
    if n == 0 then 0
    else Total(s, n - 1, enhancedOnly) + Part(s, n - 1, enhancedOnly)
  }

  function Part(s: Csd, t: Target, enhancedOnly: bool): nat {
    if enhancedOnly && !Enhanced(s, t) then 0 else SizeOf(s, t)
  }

  /** Enhanced areas within the device's maximum, and everything within its capacity. */
  predicate WithinLimits(s: Csd) {
    Total(s, 5, true) <= MaxEnhanced(s) && Total(s, 5, false) <= SectorCount(s) / 2
  }

  /** The multiplier for a requested length: to the nearest group, halves up. */
  function MultFor(lengthKib: nat, align: nat): nat
    requires align > 0
  {
    (lengthKib + align / 2) / align
  }

  /** No multiple of `align` is nearer to the request. */
  lemma MultIsNearest(lengthKib: nat, align: nat, other: int)
    requires align > 0 && align % 2 == 0
    ensures var size := MultFor(lengthKib, align) * align;
            && 2 * lengthKib - align < 2 * size <= 2 * lengthKib + align
            && Distance(size, lengthKib) <= Distance(other * align, lengthKib)
  {
    var m: int := MultFor(lengthKib, align);
    Quotient(lengthKib + align / 2, align);
    OneMore(m, align);
    OneMore(m - 1, align);
    if other < m { Monotone(other, m - 1, align); }
    if other > m { Monotone(m + 1, other, align); }
    hide MultFor;
  }

  lemma Quotient(x: nat, a: nat)
    requires a > 0
    ensures x / a * a <= x < x / a * a + a
  {
  }

  lemma OneMore(m: int, a: int)
    ensures (m + 1) * a == m * a + a
  {
  }

  lemma Monotone(m: int, n: int, a: nat)
    requires m <= n
    ensures m * a <= n * a
  {
  }

  function Distance(a: int, b: int): nat { if a < b then b - a else a - b }

  // ---- writes ----

  datatype Write = Write(index: nat, value: byte)

  ghost predicate GoodWrites(ws: seq<Write>) { forall i :: 0 <= i < |ws| ==> ws[i].index < 512 }

  function Apply(s: Csd, ws: seq<Write>): Csd
    requires GoodWrites(ws)
  {
    if ws == [] then s
    else Apply(s, ws[..|ws| - 1])[ws[|ws| - 1].index := ws[|ws| - 1].value]
  }

  /** A register has the value last written to it, and otherwise the one it had. */
  lemma {:induction false} ApplyAt(s: Csd, ws: seq<Write>, at: nat, n: nat)
    requires GoodWrites(ws) && at < 512 && n <= |ws|
    requires forall i :: n <= i < |ws| ==> ws[i].index != at
    requires n > 0 ==> ws[n - 1].index == at
    ensures Apply(s, ws)[at] == if n > 0 then ws[n - 1].value else s[at]
  {
    if n < |ws| {
      ApplyAt(s, ws[..|ws| - 1], at, n);
    }
  }

  /** The three bytes of a multiplier, the highest first. Bits from the 24th on are dropped. */
  function SizeWrites(base: nat, mult: nat): seq<Write> {
    [Write(base + 2, mult / 0x1_0000 % 0x100), Write(base + 1, mult / 0x100 % 0x100), Write(base, mult % 0x100)]
  }

  function AttributeByte(was: byte, p: nat, attr: int): byte {
    PutExt(was as bv8, p, attr != 0, (attr % 256) as bv8) as byte
  }

  /** `EXT_CSD_EXT_PARTITIONS_ATTRIBUTE_0 + (partition - 1) / 2`, where C rounds towards zero. */
  function ExtAddress(p: nat): nat { EXT_PARTITIONS_ATTRIBUTE_0 + if p <= 2 then 0 else 1 }

  function RoundDown(n: nat, a: nat): nat
    requires a > 0
  {
    n / a * a
  }

  /** The start address as written: in sectors or bytes, rounded down, in 32 bits. */
  function StartFor(s: Csd, startKib: nat): nat
    requires Align(s) > 0
  {
    RoundDown(startKib * 1024 % U32 / (if SectorCount(s) > 2 * 1024 * 1024 * 1024 / 512 then 512 else 1), Align(s))
  }

  /** `enhAttr` and `extAttr` are the integers of the command line. */
  datatype Command =
    | GpCreate(lengthKib: nat, partition: int, enhAttr: int, extAttr: int)
    | EnhAreaSet(startKib: nat, lengthKib: nat)

  function TargetOf(c: Command): int { if c.GpCreate? then c.partition else 0 }

  function RequestedMult(s: Csd, c: Command): nat
    requires Align(s) > 0
  {
    MultFor(c.lengthKib, Align(s))
  }

  /** Arguments that the command refuses, and devices that it refuses to change. */
  predicate Refused(s: Csd, c: Command) {
    || (c.GpCreate? && (c.partition < 0 || c.partition > 4 || (c.enhAttr != 0 && c.extAttr != 0)))
    || (c.EnhAreaSet? && !HasBit(s[PARTITIONING_SUPPORT], 1))
    || s[PARTITION_SETTING_COMPLETED] != 0
  }

  /** Partition number 0 passes the range test. With an extended attribute the source then shifts by a
      negative count, which C leaves undefined. */
  predicate InModel(c: Command) { c.GpCreate? && c.partition == 0 ==> c.extAttr == 0 }

  /** What the command writes before the check, in order. */
  function Writes(s: Csd, c: Command): seq<Write>
    requires Align(s) > 0 && InModel(c) && !Refused(s, c)
  {
    var sizes := SizeWrites(BaseOf(TargetOf(c)), RequestedMult(s, c));
    match c
    case GpCreate(_, p, enhAttr, extAttr) =>
      [Write(ERASE_GROUP_DEF, 1)] + sizes
      + [Write(PARTITIONS_ATTRIBUTE, PutBit(s[PARTITIONS_ATTRIBUTE], p, enhAttr != 0)),
         Write(ExtAddress(p), AttributeByte(s[ExtAddress(p)], p, extAttr))]
    case EnhAreaSet(startKib, _) =>
      var start := StartFor(s, startKib);
      [Write(ERASE_GROUP_DEF, 1),
       Write(ENH_START_ADDR_0 + 3, start / 0x100_0000 % 0x100), Write(ENH_START_ADDR_0 + 2, start / 0x1_0000 % 0x100),
       Write(ENH_START_ADDR_0 + 1, start / 0x100 % 0x100), Write(ENH_START_ADDR_0, start % 0x100)]
      + sizes
      + [Write(PARTITIONS_ATTRIBUTE, PutBit(s[PARTITIONS_ATTRIBUTE], 0, true))]
  }

  datatype Outcome = Rejected | WriteFailed | OverLimit | NotCompleted | Completed

  /** The device: its registers, and how many more writes it takes before one fails. */
  datatype Device = Device(ext: Csd, left: nat)

  /** How the command ends on a device that stores what is written. Without `-y`, or when the last write
      is not confirmed, the setting is not completed. */
  function Run(d: Device, c: Command, yes: bool, confirmed: bool): (Device, Outcome)
    requires Align(d.ext) > 0 && InModel(c)
  {
    if Refused(d.ext, c) then (d, Rejected)
    else
      var ws := Writes(d.ext, c);
      if d.left < |ws| then (Device(Apply(d.ext, ws[..d.left]), 0), WriteFailed)
      else
        var t := Device(Apply(d.ext, ws), d.left - |ws|);
        if !WithinLimits(t.ext) then (t, OverLimit)
        else if !yes || t.left == 0 then (t, NotCompleted)
        else (Device(t.ext[PARTITION_SETTING_COMPLETED := 1], t.left - 1), if confirmed then Completed else NotCompleted)
  }

  /** The exit status: 1 when the setting was completed, because the result of that last step is
      tested the wrong way round. */
  function ExitStatus(o: Outcome): int { if o.NotCompleted? then 0 else 1 }

  // ---- what a command does to the sizes ----

  predicate SizeByte(i: nat, t: Target) { BaseOf(t) <= i < BaseOf(t) + 3 }

  /** Registers that no command writes. */
  predicate ReadOnly(i: nat) { PARTITIONS_ATTRIBUTE < i && i != ERASE_GROUP_DEF }

  lemma WritesOnly(s: Csd, c: Command, i: nat)
    requires Align(s) > 0 && InModel(c) && !Refused(s, c) && i < |Writes(s, c)|
    ensures GoodWrites(Writes(s, c)) && var at := Writes(s, c)[i].index;
            !ReadOnly(at) && at != PARTITION_SETTING_COMPLETED
            && forall t: Target :: t != TargetOf(c) ==> !SizeByte(at, t)
  {
    hide Align, StartFor, PutBit, AttributeByte, RequestedMult, HasBit;
  }

  lemma ApplyKeeps(s: Csd, ws: seq<Write>, at: nat)
    requires GoodWrites(ws) && at < 512 && forall i :: 0 <= i < |ws| ==> ws[i].index != at
    ensures Apply(s, ws)[at] == s[at]
  {
    ApplyAt(s, ws, at, 0);
  }

  /** Sizes and limits depend on the registers that hold them. */
  ghost predicate SameSize(s: Csd, t: Csd, target: Target) {
    forall i: nat :: i < 512 && SizeByte(i, target) ==> t[i] == s[i]
  }

  ghost predicate SameLimits(s: Csd, t: Csd) {
    forall i: nat :: i < 512 && ReadOnly(i) ==> t[i] == s[i]
  }

  lemma LimitsSame(s: Csd, t: Csd)
    requires SameLimits(s, t)
    ensures Align(t) == Align(s) && MaxEnhanced(t) == MaxEnhanced(s) && SectorCount(t) == SectorCount(s)
  {
    hide FromBigEndian;
    assert forall i: nat :: 157 <= i < 160 || 212 <= i < 216 || i == 221 || i == 224 ==> ReadOnly(i);
    assert t[157] == s[157] && t[158] == s[158] && t[159] == s[159] && t[221] == s[221] && t[224] == s[224];
    assert t[212] == s[212] && t[213] == s[213] && t[214] == s[214] && t[215] == s[215];
  }

  lemma SizeSame(s: Csd, t: Csd, target: Target)
    requires SameLimits(s, t) && SameSize(s, t, target)
    ensures SizeOf(t, target) == SizeOf(s, target)
  {
    LimitsSame(s, t);
    var b := BaseOf(target);
    assert SizeByte(b, target) && SizeByte(b + 1, target) && SizeByte(b + 2, target);
    hide Align;
  }

  /** The writes of a command, cut short anywhere, leave the limits and all other sizes. */
  lemma PrefixKeeps(s: Csd, c: Command, n: nat, target: Target)
    requires Align(s) > 0 && InModel(c) && !Refused(s, c) && n <= |Writes(s, c)| && target != TargetOf(c)
    ensures GoodWrites(Writes(s, c)[..n])
    ensures var t := Apply(s, Writes(s, c)[..n]);
            SameLimits(s, t) && SameSize(s, t, target) && t[PARTITION_SETTING_COMPLETED] == s[PARTITION_SETTING_COMPLETED]
  {
    var ws := Writes(s, c);
    forall i | 0 <= i < |ws| ensures
      ws[i].index < 512 && !ReadOnly(ws[i].index) && ws[i].index != PARTITION_SETTING_COMPLETED
      && forall t: Target :: t != TargetOf(c) ==> !SizeByte(ws[i].index, t)
    {
      WritesOnly(s, c, i);
    }
    hide Writes, Apply, Align, Refused, ReadOnly, SizeByte;
    forall at: nat | at < 512 && (ReadOnly(at) || SizeByte(at, target) || at == PARTITION_SETTING_COMPLETED)
      ensures Apply(s, ws[..n])[at] == s[at]
    {
      ApplyKeeps(s, ws[..n], at);
    }
  }

  /** The attribute register has its old value, or one that differs in the target's bit. */
  lemma AttributeIs(s: Csd, c: Command, n: nat)
    requires Align(s) > 0 && InModel(c) && !Refused(s, c) && n <= |Writes(s, c)|
    ensures GoodWrites(Writes(s, c)[..n])
    ensures var put := PutBit(s[PARTITIONS_ATTRIBUTE], TargetOf(c), c.EnhAreaSet? || c.enhAttr != 0);
            var v := Apply(s, Writes(s, c)[..n])[PARTITIONS_ATTRIBUTE];
            v in {s[PARTITIONS_ATTRIBUTE], put} && (n == |Writes(s, c)| ==> v == put)
  {
    var ws, at := Writes(s, c), if c.GpCreate? then 4 else 8;
    hide Align, StartFor, PutBit, AttributeByte, RequestedMult, HasBit, Apply;
    assert ws[at].index == PARTITIONS_ATTRIBUTE;
    assert forall i :: 0 <= i < |ws| && i != at ==> ws[i].index != PARTITIONS_ATTRIBUTE;
    ApplyAt(s, ws[..n], PARTITIONS_ATTRIBUTE, if n > at then at + 1 else 0);
  }

  /** How many of its writes a command gets through. */
  function Done(d: Device, c: Command): nat
    requires Align(d.ext) > 0 && InModel(c) && !Refused(d.ext, c)
  {
    if d.left < |Writes(d.ext, c)| then d.left else |Writes(d.ext, c)|
  }

  lemma RunIs(d: Device, c: Command, yes: bool, confirmed: bool)
    requires Align(d.ext) > 0 && InModel(c) && !Refused(d.ext, c)
    ensures GoodWrites(Writes(d.ext, c)[..Done(d, c)])
    ensures var u, r := Apply(d.ext, Writes(d.ext, c)[..Done(d, c)]), Run(d, c, yes, confirmed);
            && (r.0.ext == u || r.0.ext == u[PARTITION_SETTING_COMPLETED := 1])
            && !r.1.Rejected? && (r.1.WriteFailed? <==> Done(d, c) < |Writes(d.ext, c)|)
  {
    var ws := Writes(d.ext, c);
    PrefixKeeps(d.ext, c, Done(d, c), if TargetOf(c) == 0 then 1 else 0);
    assert ws[..|ws|] == ws;
    hide Writes, Apply, Align, Refused, WithinLimits;
  }

  /** Whatever happens to a command, even when the device fails in the middle, no other target changes its
      size or its attribute, and the limits stay. */
  lemma OthersKept(d: Device, c: Command, yes: bool, confirmed: bool, target: Target)
    requires Align(d.ext) > 0 && InModel(c) && target != TargetOf(c)
    ensures var t := Run(d, c, yes, confirmed).0.ext;
            && SizeOf(t, target) == SizeOf(d.ext, target) && (Enhanced(t, target) <==> Enhanced(d.ext, target))
            && Align(t) == Align(d.ext) && MaxEnhanced(t) == MaxEnhanced(d.ext) && SectorCount(t) == SectorCount(d.ext)
  {
    hide Writes, Apply, Align, Refused, HasBit, PutBit, SizeOf, WithinLimits, MaxEnhanced, SectorCount, Done;
    if !Refused(d.ext, c) {
      var t := Run(d, c, yes, confirmed).0.ext;
      RunIs(d, c, yes, confirmed);
      hide Run;
      var n := Done(d, c);
      DoneAtMost(d, c);
      PrefixKeeps(d.ext, c, n, target);
      AttributeIs(d.ext, c, n);
      PutBitHas(d.ext[PARTITIONS_ATTRIBUTE], TargetOf(c), c.EnhAreaSet? || c.enhAttr != 0, target);
      assert SameLimits(d.ext, t) && SameSize(d.ext, t, target);
      SizeSame(d.ext, t, target);
      LimitsSame(d.ext, t);
    }
  }

  lemma DoneAtMost(d: Device, c: Command)
    requires Align(d.ext) > 0 && InModel(c) && !Refused(d.ext, c)
    ensures Done(d, c) <= |Writes(d.ext, c)| && 0 <= TargetOf(c) <= 4
  {
  }

  lemma Three(m: nat)
    ensures Spelt(m / 0x1_0000 % 0x100, m / 0x100 % 0x100, m % 0x100) == m % 0x100_0000
  {
    var q := m / 0x100;
    var r := q / 0x100;
    assert m == q * 0x100 + m % 0x100 && q == r * 0x100 + q % 0x100 && r == r / 0x100 * 0x100 + r % 0x100;
    assert r == m / 0x1_0000;
    assert m == r / 0x100 * 0x100_0000 + (r % 0x100 * 0x1_0000 + q % 0x100 * 0x100 + m % 0x100);
  }

  /** A command that gets through its writes leaves the target with the size asked for, to the nearest
      group, exactly when the multiplier fits in 24 bits; the target is enhanced exactly when asked. */
  lemma TargetSized(d: Device, c: Command, yes: bool, confirmed: bool)
    requires Align(d.ext) > 0 && InModel(c) && !Run(d, c, yes, confirmed).1.Rejected? && !Run(d, c, yes, confirmed).1.WriteFailed?
    ensures var t, target := Run(d, c, yes, confirmed).0.ext, TargetOf(c);
            && 0 <= target <= 4 && Align(t) == Align(d.ext)
            && (SizeOf(t, target) == RequestedMult(d.ext, c) * Align(d.ext) <==> RequestedMult(d.ext, c) < 0x100_0000)
            && (Enhanced(t, target) <==> c.EnhAreaSet? || c.enhAttr != 0)
  {
    hide Writes, Apply, Align, HasBit, PutBit, WithinLimits, MaxEnhanced, SectorCount, RequestedMult, Done, Refused,
      MixedMult, Decode24;
    var target, t := TargetOf(c), Run(d, c, yes, confirmed).0.ext;
    assert !Refused(d.ext, c);
    hide Run;
    var ws := Writes(d.ext, c);
    RunIs(d, c, yes, confirmed);
    DoneAtMost(d, c);
    assert ws[..|ws|] == ws;
    WritesCount(d.ext, c);
    StoppedMult(d.ext, c, |ws|);
    AllWritten(Decode24(d.ext, BaseOf(target)), RequestedMult(d.ext, c));
    AttributeIs(d.ext, c, |ws|);
    PrefixKeeps(d.ext, c, |ws|, if target == 0 then 1 else 0);
    PutBitHas(d.ext[PARTITIONS_ATTRIBUTE], target, c.EnhAreaSet? || c.enhAttr != 0, target);
    assert SameLimits(d.ext, t);
    LimitsSame(d.ext, t);
    SizeIs(Apply(d.ext, ws), t, target);
    Cancel(RequestedMult(d.ext, c) % 0x100_0000, RequestedMult(d.ext, c), Align(d.ext));
  }

  lemma WritesCount(s: Csd, c: Command)
    requires Align(s) > 0 && InModel(c) && !Refused(s, c)
    ensures |Writes(s, c)| == if c.GpCreate? then 6 else 9
  {
  }

  lemma SizeIs(u: Csd, t: Csd, target: Target)
    requires t == u || t == u[PARTITION_SETTING_COMPLETED := 1]
    ensures SizeOf(t, target) == Decode24(u, BaseOf(target)) * Align(t)
  {
    hide Align;
  }

  /** The extended attribute of partition `p`, and the one asked for: the low four bits of the argument. */
  function ExtNibble(s: Csd, p: nat): bv8 { NibbleOf(s[ExtAddress(p)] as bv8, p) }

  function AskedNibble(attr: int): bv8 { ((attr % 256) as bv8) & 0x0F }

  /** A command that gets through its writes also leaves the high-capacity group definition switched on. An
      extended attribute is added to the bits that were there, and none clears them. So the partition has
      the attribute asked for if and only if its old one has no bit beyond that, or none is asked for. */
  lemma OtherRegisters(d: Device, c: Command, yes: bool, confirmed: bool)
    requires Align(d.ext) > 0 && InModel(c) && !Run(d, c, yes, confirmed).1.Rejected? && !Run(d, c, yes, confirmed).1.WriteFailed?
    ensures Run(d, c, yes, confirmed).0.ext[ERASE_GROUP_DEF] == 1
    ensures c.GpCreate? ==>
              && 0 <= c.partition <= 4
              && var p, was, t := c.partition, ExtNibble(d.ext, c.partition), Run(d, c, yes, confirmed).0.ext;
                 && ExtNibble(t, p) == (if c.extAttr != 0 then was | AskedNibble(c.extAttr) else 0)
                 && (ExtNibble(t, p) == AskedNibble(c.extAttr)
                     <==> c.extAttr == 0 || was | AskedNibble(c.extAttr) == AskedNibble(c.extAttr))
  {
    hide Align, AttributeByte, Run, NibbleOf, AskedNibble, ExtAddress;
    LastRegisters(d, c, yes, confirmed);
    if c.GpCreate? { AttributeNibble(d.ext[ExtAddress(c.partition)], c.partition, c.extAttr); }
  }

  lemma LastRegisters(d: Device, c: Command, yes: bool, confirmed: bool)
    requires Align(d.ext) > 0 && InModel(c) && !Run(d, c, yes, confirmed).1.Rejected? && !Run(d, c, yes, confirmed).1.WriteFailed?
    ensures Run(d, c, yes, confirmed).0.ext[ERASE_GROUP_DEF] == 1
    ensures c.GpCreate? ==>
              && 0 <= c.partition <= 4 && ExtAddress(c.partition) < 512
              && var at := ExtAddress(c.partition);
                 Run(d, c, yes, confirmed).0.ext[at] == AttributeByte(d.ext[at], c.partition, c.extAttr)
  {
    hide Align, HasBit, PutBit, AttributeByte, Apply, WithinLimits, Run, StartFor, RequestedMult, Done, ExtAddress;
    NotRefused(d, c, yes, confirmed);
    RunIs(d, c, yes, confirmed);
    DoneAtMost(d, c);
    var ws := Writes(d.ext, c);
    WritesGood(d.ext, c);
    ExtAddressIs(TargetOf(c));
    ApplyAt(d.ext, ws, ERASE_GROUP_DEF, 1);
    if c.GpCreate? { ApplyAt(d.ext, ws, ExtAddress(c.partition), 6); }
  }

  /** Two partitions share a register: 52 has the attributes of the first two, 53 those of the others. */
  lemma ExtAddressIs(p: nat)
    ensures ExtAddress(p) == if p in {0, 1, 2} then 52 else 53
  {
  }

  lemma AttributeNibble(was: byte, p: nat, attr: int)
    ensures NibbleOf(AttributeByte(was, p, attr) as bv8, p) == (if attr != 0 then NibbleOf(was as bv8, p) | AskedNibble(attr) else 0)
    ensures attr == 0 ==> AskedNibble(attr) == 0
  {
    hide PutExt, NibbleOf;
    BackAndForth(PutExt(was as bv8, p, attr != 0, (attr % 256) as bv8));
    NibbleIsPut(was as bv8, p, attr != 0, (attr % 256) as bv8);
  }

  lemma NotRefused(d: Device, c: Command, yes: bool, confirmed: bool)
    requires Align(d.ext) > 0 && InModel(c)
    ensures Run(d, c, yes, confirmed).1.Rejected? <==> Refused(d.ext, c)
  {
    hide Align, Writes, Apply, WithinLimits;
  }

  lemma Cancel(m: nat, n: nat, a: nat)
    requires a > 0
    ensures m * a == n * a <==> m == n
  {
  }

  // ---- the one-time setting ----

  /** The register `PARTITION_SETTING_COMPLETED` is written only with `-y`, and only when the partitions on the device,
      as it then is, are within the limits. */
  lemma CompletedWithinLimits(d: Device, c: Command, yes: bool, confirmed: bool)
    requires Align(d.ext) > 0 && InModel(c)
    ensures var t := Run(d, c, yes, confirmed).0.ext;
            t[PARTITION_SETTING_COMPLETED] != d.ext[PARTITION_SETTING_COMPLETED] ==>
              yes && WithinLimits(t) && t[PARTITION_SETTING_COMPLETED] == 1
  {
    if !Refused(d.ext, c) {
      var ws := Writes(d.ext, c);
      var n := if d.left < |ws| then d.left else |ws|;
      assert ws[..|ws|] == ws;
      PrefixKeeps(d.ext, c, n, if TargetOf(c) == 0 then 1 else 0);
      var u := Apply(d.ext, ws[..n]);
      SameWithin(u, u[PARTITION_SETTING_COMPLETED := 1]);
      hide Writes, Apply, Align, Refused, WithinLimits;
    }
  }

  lemma SameWithin(s: Csd, t: Csd)
    requires t == s[PARTITION_SETTING_COMPLETED := 1]
    ensures WithinLimits(t) <==> WithinLimits(s)
  {
    LimitsSame(s, t);
    TotalSame(s, t, 5, true);
    TotalSame(s, t, 5, false);
    hide Align, Total, MaxEnhanced, SectorCount;
  }

  lemma {:induction false} TotalSame(s: Csd, t: Csd, n: nat, enhancedOnly: bool)
    requires t == s[PARTITION_SETTING_COMPLETED := 1] && n <= 5
    ensures Total(t, n, enhancedOnly) == Total(s, n, enhancedOnly)
  {
    if n > 0 {
      TotalSame(s, t, n - 1, enhancedOnly);
      SizeSame(s, t, n - 1);
      hide SizeOf, HasBit;
    }
  }

  // ---- the size left by a command that stops ----

  /** How many bytes of the size are among the first `n` writes. */
  function SizeBytes(c: Command, n: nat): (k: nat)
    ensures k <= 3
  {
    var first := FirstSizeWrite(c);
    if n <= first then 0 else if n < first + 3 then n - first else 3
  }

  function FirstSizeWrite(c: Command): nat { if c.GpCreate? then 1 else 5 }

  /** The value of the lowest byte written when `k` bytes are. */
  function Unit(k: nat): nat
    requires k <= 3
  {
    match k case 0 => 0x100_0000 case 1 => 0x1_0000 case 2 => 0x100 case _ => 1
  }

  /** A multiplier whose highest `k` bytes are new. */
  function MixedMult(was: nat, mult: nat, k: nat): nat
    requires k <= 3
  {
    mult % 0x100_0000 / Unit(k) * Unit(k) + was % Unit(k)
  }

  lemma AllWritten(was: nat, mult: nat)
    ensures MixedMult(was, mult, 3) == mult % 0x100_0000
  {
  }

  /** Three bytes, and three more of which the lower ones are kept. */
  lemma MixedBytes(x: byte, y: byte, z: byte, a: byte, b: byte, c: byte, k: nat)
    requires k <= 3
    ensures MixedMult(Spelt(a, b, c), Spelt(x, y, z), k)
         == Spelt(if k > 0 then x else a, if k > 1 then y else b, if k > 2 then z else c)
  {
    var m, was := Spelt(x, y, z), Spelt(a, b, c);
    assert m % 0x100_0000 == m && was % 0x100_0000 == was;
    assert m / 0x1_0000 == x && was % 0x1_0000 == (b as int) * 0x100 + c as int;
    assert m / 0x100 == (x as int) * 0x100 + y as int && was % 0x100 == c;
  }

  lemma Mixed(s: Csd, t: Csd, b: nat, mult: nat, k: nat)
    requires b + 2 < 512 && k <= 3
    requires t[b + 2] == (if k > 0 then mult / 0x1_0000 % 0x100 else s[b + 2])
    requires t[b + 1] == (if k > 1 then mult / 0x100 % 0x100 else s[b + 1])
    requires t[b] == (if k > 2 then mult % 0x100 else s[b])
    ensures Decode24(t, b) == MixedMult(Decode24(s, b), mult, k)
  {
    hide MixedMult, Spelt;
    Three(mult);
    MixedBytes(mult / 0x1_0000 % 0x100, mult / 0x100 % 0x100, mult % 0x100, s[b + 2], s[b + 1], s[b], k);
    DroppedBits(Decode24(s, b), mult, k);
  }

  lemma DroppedBits(was: nat, mult: nat, k: nat)
    requires k <= 3
    ensures MixedMult(was, mult % 0x100_0000, k) == MixedMult(was, mult, k)
  {
    assert mult % 0x100_0000 % 0x100_0000 == mult % 0x100_0000;
  }

  lemma PartWritten(s: Csd, ws: seq<Write>, n: nat, first: nat, b: nat, m: nat, k: nat)
    requires GoodWrites(ws) && first + 3 <= |ws| && n <= |ws| && b + 2 < 512
    requires ws[first] == SizeWrites(b, m)[0] && ws[first + 1] == SizeWrites(b, m)[1] && ws[first + 2] == SizeWrites(b, m)[2]
    requires forall i :: 0 <= i < |ws| && !(first <= i < first + 3) ==> !(b <= ws[i].index <= b + 2)
    requires k == if n <= first then 0 else if n < first + 3 then n - first else 3
    ensures Decode24(Apply(s, ws[..n]), b) == MixedMult(Decode24(s, b), m, k)
  {
    hide Apply, Decode24, MixedMult;
    ApplyAt(s, ws[..n], b + 2, if n > first then first + 1 else 0);
    ApplyAt(s, ws[..n], b + 1, if n > first + 1 then first + 2 else 0);
    ApplyAt(s, ws[..n], b, if n > first + 2 then first + 3 else 0);
    Mixed(s, Apply(s, ws[..n]), b, m, k);
  }

  /** The multiplier of the target after the first `n` writes. */
  lemma StoppedMult(s: Csd, c: Command, n: nat)
    requires Align(s) > 0 && InModel(c) && !Refused(s, c) && n <= |Writes(s, c)|
    ensures GoodWrites(Writes(s, c)[..n]) && 0 <= TargetOf(c) <= 4
    ensures Decode24(Apply(s, Writes(s, c)[..n]), BaseOf(TargetOf(c)))
         == MixedMult(Decode24(s, BaseOf(TargetOf(c))), RequestedMult(s, c), SizeBytes(c, n))
  {
    hide Align, StartFor, PutBit, AttributeByte, RequestedMult, HasBit, Apply, Decode24, MixedMult;
    var ws, b, m, first := Writes(s, c), BaseOf(TargetOf(c)), RequestedMult(s, c), FirstSizeWrite(c);
    assert ws[first..first + 3] == SizeWrites(b, m);
    assert ws[first] == SizeWrites(b, m)[0] && ws[first + 1] == SizeWrites(b, m)[1] && ws[first + 2] == SizeWrites(b, m)[2];
    assert GoodWrites(ws) && forall i :: 0 <= i < |ws| && !(first <= i < first + 3) ==> !(b <= ws[i].index <= b + 2);
    PartWritten(s, ws, n, first, b, m, SizeBytes(c, n));
  }

  /** What one command leaves of a multiplier, however it ends. */
  lemma RunMult(d: Device, c: Command, yes: bool, confirmed: bool, target: Target)
    requires Align(d.ext) > 0 && InModel(c)
    ensures Decode24(Run(d, c, yes, confirmed).0.ext, BaseOf(target)) == MultAfterOne(d, c, target)
  {
    hide Writes, Apply, Align, Refused, HasBit, PutBit, WithinLimits, Done, RequestedMult, MixedMult;
    if !Refused(d.ext, c) {
      var t := Run(d, c, yes, confirmed).0.ext;
      RunIs(d, c, yes, confirmed);
      DoneAtMost(d, c);
      hide Run;
      if target == TargetOf(c) {
        StoppedMult(d.ext, c, Done(d, c));
      } else {
        PrefixKeeps(d.ext, c, Done(d, c), target);
        var b := BaseOf(target);
        assert SizeByte(b, target) && SizeByte(b + 1, target) && SizeByte(b + 2, target);
      }
    }
  }

  function MultAfterOne(d: Device, c: Command, target: Target): nat
    requires Align(d.ext) > 0 && InModel(c)
  {
    var was := Decode24(d.ext, BaseOf(target));
    if target != TargetOf(c) || Refused(d.ext, c) then was
    else MixedMult(was, RequestedMult(d.ext, c), SizeBytes(c, Done(d, c)))
  }

  /** A command that is not refused leaves its target the size it had if and only if the bytes it gets to
      write are the ones that were there; in particular when it stops before the first of them. */
  lemma SizeSurvivesIff(d: Device, c: Command, yes: bool, confirmed: bool)
    requires Align(d.ext) > 0 && InModel(c) && !Refused(d.ext, c)
    ensures 0 <= TargetOf(c) <= 4
    ensures var k, was := SizeBytes(c, Done(d, c)), Decode24(d.ext, BaseOf(TargetOf(c)));
            SizeOf(Run(d, c, yes, confirmed).0.ext, TargetOf(c)) == SizeOf(d.ext, TargetOf(c))
            <==> was / Unit(k) == RequestedMult(d.ext, c) % 0x100_0000 / Unit(k)
  {
    DoneAtMost(d, c);
    var target, k := TargetOf(c), SizeBytes(c, Done(d, c));
    hide Run, Align, Refused, Writes, Done, RequestedMult;
    RunMult(d, c, yes, confirmed, target);
    OthersKept(d, c, yes, confirmed, if target == 0 then 1 else 0);
    var was, mult := Decode24(d.ext, BaseOf(target)), RequestedMult(d.ext, c);
    Cancel(MixedMult(was, mult, k), was, Align(d.ext));
    SameHigh(was, mult % 0x100_0000, k);
  }

  lemma SameHigh(was: nat, mult: nat, k: nat)
    requires k <= 3 && was < 0x100_0000 && mult < 0x100_0000
    ensures MixedMult(was, mult, k) == was <==> was / Unit(k) == mult / Unit(k)
  {
    assert was == was / Unit(k) * Unit(k) + was % Unit(k);
  }

  // ---- sequences of commands ----

  /** `takes` is how many writes of this command the device carries out. */
  datatype Call = Call(command: Command, yes: bool, confirmed: bool, takes: nat)

  ghost predicate AllInModel(calls: seq<Call>) { forall i :: 0 <= i < |calls| ==> InModel(calls[i].command) }

  function RunAll(s: Csd, calls: seq<Call>): (t: Csd)
    requires Align(s) > 0 && AllInModel(calls)
    ensures Align(t) == Align(s)
  {
    if calls == [] then s
    else
      var before := RunAll(s, calls[..|calls| - 1]);
      var last := calls[|calls| - 1];
      var d := Device(before, last.takes);
      OthersKept(d, last.command, last.yes, last.confirmed, if TargetOf(last.command) == 0 then 1 else 0);
      Run(d, last.command, last.yes, last.confirmed).0.ext
  }

  /** The multiplier of a target after a sequence of commands, command by command. */
  function MultAfter(s: Csd, calls: seq<Call>, target: Target): nat
    requires Align(s) > 0 && AllInModel(calls)
  {
    if calls == [] then Decode24(s, BaseOf(target))
    else
      var last, was := calls[|calls| - 1], MultAfter(s, calls[..|calls| - 1], target);
      var d := Device(RunAll(s, calls[..|calls| - 1]), last.takes);
      if target != TargetOf(last.command) || Refused(d.ext, last.command) then was
      else MixedMult(was, RequestedMult(s, last.command), SizeBytes(last.command, Done(d, last.command)))
  }

  /** After any sequence of commands, failed ones at any point included, each size is what its commands
      have written of it. */
  lemma {:induction false} SizesAreFolded(s: Csd, calls: seq<Call>, target: Target)
    requires Align(s) > 0 && AllInModel(calls)
    ensures Decode24(RunAll(s, calls), BaseOf(target)) == MultAfter(s, calls, target)
    ensures SizeOf(RunAll(s, calls), target) == MultAfter(s, calls, target) * Align(s)
  {
    hide Run, Align, Refused, Done, MixedMult, Decode24;
    if calls != [] {
      var last := calls[|calls| - 1];
      SizesAreFolded(s, calls[..|calls| - 1], target);
      RunMult(Device(RunAll(s, calls[..|calls| - 1]), last.takes), last.command, last.yes, last.confirmed, target);
    }
  }

  ghost predicate NoneTargets(calls: seq<Call>, target: Target) {
    forall i :: 0 <= i < |calls| ==> TargetOf(calls[i].command) != target
  }

  /** Commands for other targets, however many and however they end, leave a target as it is. */
  lemma {:induction false} UntouchedKept(s: Csd, calls: seq<Call>, target: Target)
    requires Align(s) > 0 && AllInModel(calls) && NoneTargets(calls, target)
    ensures var t := RunAll(s, calls);
            SizeOf(t, target) == SizeOf(s, target) && (Enhanced(t, target) <==> Enhanced(s, target))
  {
    if calls != [] {
      var before, last := RunAll(s, calls[..|calls| - 1]), calls[|calls| - 1];
      UntouchedKept(s, calls[..|calls| - 1], target);
      OthersKept(Device(before, last.takes), last.command, last.yes, last.confirmed, target);
      hide Run, SizeOf, Enhanced, Align;
    }
  }

  lemma {:induction false} RunAllConcat(s: Csd, a: seq<Call>, b: seq<Call>)
    requires Align(s) > 0 && AllInModel(a) && AllInModel(b)
    ensures AllInModel(a + b) && RunAll(s, a + b) == RunAll(RunAll(s, a), b)
  {
    hide Run, Align;
    if b == [] {
      assert a + b == a;
    } else {
      assert (a + b)[..|a + b| - 1] == a + b[..|b| - 1];
      RunAllConcat(s, a, b[..|b| - 1]);
    }
  }

  /** Every command is for another target, is refused, or stops before it writes a byte of the size. */
  ghost predicate Spares(s: Csd, calls: seq<Call>, target: Target)
    requires Align(s) > 0 && AllInModel(calls)
  {
    forall i :: 0 <= i < |calls| ==>
      var c := calls[i].command;
      || TargetOf(c) != target || Refused(RunAll(s, calls[..i]), c)
      || SizeBytes(c, Done(Device(RunAll(s, calls[..i]), calls[i].takes), c)) == 0
  }

  lemma {:induction false} SparedKept(s: Csd, calls: seq<Call>, target: Target)
    requires Align(s) > 0 && AllInModel(calls) && Spares(s, calls, target)
    ensures MultAfter(s, calls, target) == Decode24(s, BaseOf(target))
  {
    hide Run, Align, Refused, Done;
    if calls != [] {
      var l := |calls| - 1;
      forall i | 0 <= i < l ensures calls[..l][..i] == calls[..i] { }
      SparedKept(s, calls[..l], target);
    }
  }

  /** After any sequence of commands a target has the size that a successful command for it asked for if
      and only if what later commands have written of it comes to the same, which it does when each of
      them spares it. */
  lemma LastRequestHolds(s: Csd, before: seq<Call>, call: Call, later: seq<Call>)
    requires Align(s) > 0 && AllInModel(before) && InModel(call.command) && AllInModel(later)
    requires var o := Run(Device(RunAll(s, before), call.takes), call.command, call.yes, call.confirmed).1;
             !o.Rejected? && !o.WriteFailed?
    requires RequestedMult(s, call.command) < 0x100_0000
    ensures AllInModel(before + [call] + later) && AllInModel(before + [call]) && 0 <= TargetOf(call.command) <= 4
    ensures var target, mid := TargetOf(call.command), RunAll(s, before + [call]);
            && (SizeOf(RunAll(s, before + [call] + later), target) == RequestedMult(s, call.command) * Align(s)
                <==> MultAfter(mid, later, target) == RequestedMult(s, call.command))
            && (Spares(mid, later, target) ==> MultAfter(mid, later, target) == RequestedMult(s, call.command))
  {
    hide Run, Align, Enhanced, Decode24, MultAfter, Spares;
    var e := Device(RunAll(s, before), call.takes);
    assert (before + [call])[..|before|] == before && (before + [call])[|before|] == call;
    TargetSized(e, call.command, call.yes, call.confirmed);
    var target, mid := TargetOf(call.command), RunAll(s, before + [call]);
    RunAllConcat(s, before + [call], later);
    SizesAreFolded(mid, later, target);
    Cancel(MultAfter(mid, later, target), RequestedMult(s, call.command), Align(s));
    Cancel(Decode24(mid, BaseOf(target)), RequestedMult(s, call.command), Align(s));
    if Spares(mid, later, target) { SparedKept(mid, later, target); }
  }

  /** Once completed, always completed, and nothing changes any more. */
  lemma {:induction false} CompletedIsFinal(s: Csd, calls: seq<Call>)
    requires Align(s) > 0 && AllInModel(calls) && s[PARTITION_SETTING_COMPLETED] != 0
    ensures RunAll(s, calls) == s
  {
    hide Align;
    if calls != [] { CompletedIsFinal(s, calls[..|calls| - 1]); }
  }

  lemma AlignEven(s: Csd)
    ensures Align(s) % 2 == 0
  {
    var g := (s[HC_WP_GRP_SIZE] as int) * s[HC_ERASE_GRP_SIZE] as int;
    assert Align(s) == 2 * (256 * g);
  }

  /** No size that the device can express is nearer to the request than the one it is left with. */
  lemma SizeIsNearest(d: Device, c: Command, yes: bool, confirmed: bool, mult: nat)
    requires Align(d.ext) > 0 && InModel(c) && !Run(d, c, yes, confirmed).1.Rejected? && !Run(d, c, yes, confirmed).1.WriteFailed?
    requires RequestedMult(d.ext, c) < 0x100_0000
    ensures 0 <= TargetOf(c) <= 4
    ensures Distance(SizeOf(Run(d, c, yes, confirmed).0.ext, TargetOf(c)), c.lengthKib) <= Distance(mult * Align(d.ext), c.lengthKib)
  {
    hide Run, Align, SizeOf;
    TargetSized(d, c, yes, confirmed);
    AlignEven(d.ext);
    MultIsNearest(c.lengthKib, Align(d.ext), mult);
  }

  /** The command gets as far as the one-time setting. */
  ghost predicate Reaches(d: Device, c: Command)
    requires Align(d.ext) > 0 && InModel(c)
  {
    && !Refused(d.ext, c) && d.left >= |Writes(d.ext, c)|
    && GoodWrites(Writes(d.ext, c)) && WithinLimits(Apply(d.ext, Writes(d.ext, c)))
  }

  /** What was asked for has been done: with `-y` that includes the setting. */
  predicate AsAsked(yes: bool, o: Outcome) {
    !o.Rejected? && !o.WriteFailed? && !o.OverLimit? && (yes ==> o.Completed?)
  }

  /** The exit status is 0 for what was done as asked, and not 0 otherwise, if and only if the command is
      not both given `-y` and gets as far as the setting; there it is always the wrong one. */
  lemma StatusIsInverted(d: Device, c: Command, yes: bool, confirmed: bool)
    requires Align(d.ext) > 0 && InModel(c)
    ensures var o := Run(d, c, yes, confirmed).1;
            (ExitStatus(o) == 0 <==> AsAsked(yes, o)) <==> !(yes && Reaches(d, c))
  {
    if !Refused(d.ext, c) { WritesGood(d.ext, c); }
    hide Writes, Apply, Align, WithinLimits, Refused;
  }

  /** Asked for partition 0, the command sets the size and the attribute of the user area, and it clears
      the extended attribute of partition 2. */
  lemma PartitionZero(d: Device, c: Command, yes: bool, confirmed: bool)
    requires Align(d.ext) > 0 && InModel(c) && c.GpCreate? && c.partition == 0
    requires !Run(d, c, yes, confirmed).1.Rejected? && !Run(d, c, yes, confirmed).1.WriteFailed?
    ensures var t := Run(d, c, yes, confirmed).0.ext;
            && (SizeOf(t, 0) == RequestedMult(d.ext, c) * Align(d.ext) <==> RequestedMult(d.ext, c) < 0x100_0000)
            && (Enhanced(t, 0) <==> c.enhAttr != 0)
            && ExtNibble(t, 2) == 0
  {
    hide Run, Align, SizeOf, HasBit, RequestedMult;
    TargetSized(d, c, yes, confirmed);
    OtherRegisters(d, c, yes, confirmed);
  }

  // ---- one device on which the commands go wrong ----

  /** Groups of 512 KiB, a capacity of 8 GiB, and one partition of `mult` groups with extended attribute `attr`. */
  function Sample(mult: byte, attr: byte): Csd { seq(512, (i: nat) => SampleByte(i, mult, attr)) }

  function SampleByte(i: nat, mult: byte, attr: byte): byte {
    if i == HC_WP_GRP_SIZE || i == HC_ERASE_GRP_SIZE || i == SEC_COUNT_0 + 3 then 1
    else if i == BaseOf(1) then mult
    else if i == ExtAddress(1) then attr
    else 0
  }

  lemma SampleAt(mult: byte, attr: byte, i: nat)
    requires i < 512
    ensures Sample(mult, attr)[i] == SampleByte(i, mult, attr)
  {
  }

  lemma NoBits(t: Target)
    ensures !HasBit(0, t)
  {
  }

  lemma SampleSizes(mult: byte, attr: byte, t: Target)
    ensures var s := Sample(mult, attr);
            && Align(s) == 512 && Decode24(s, BaseOf(t)) == (if t == 1 then mult as nat else 0) && !Enhanced(s, t)
            && s[PARTITION_SETTING_COMPLETED] == 0 && s[ExtAddress(1)] == attr
  {
    hide Sample, HasBit;
    NoBits(t);
    SampleAt(mult, attr, BaseOf(t));
    SampleAt(mult, attr, BaseOf(t) + 1);
    SampleAt(mult, attr, BaseOf(t) + 2);
    SampleAt(mult, attr, HC_WP_GRP_SIZE);
    SampleAt(mult, attr, HC_ERASE_GRP_SIZE);
    SampleAt(mult, attr, PARTITIONS_ATTRIBUTE);
    SampleAt(mult, attr, PARTITION_SETTING_COMPLETED);
    SampleAt(mult, attr, ExtAddress(1));
  }

  lemma SampleCapacity(mult: byte, attr: byte)
    ensures SectorCount(Sample(mult, attr)) == 0x100_0000
  {
    var s := Sample(mult, attr);
    assert [s[215], s[214], s[213], s[212]] == [1, 0, 0, 0];
    hide Sample;
    assert FromBigEndian([1, 0, 0, 0]) == 256 * FromBigEndian([1, 0, 0]) by { assert [1, 0, 0, 0][..3] == [1, 0, 0]; }
    assert FromBigEndian([1, 0, 0]) == 256 * FromBigEndian([1, 0]) by { assert [1, 0, 0][..2] == [1, 0]; }
    assert FromBigEndian([1, 0]) == 256 * FromBigEndian([1]) by { assert [1, 0][..1] == [1]; }
    assert FromBigEndian([1]) == 1 by { assert [1][..0] == []; }
  }

  lemma SampleIs(mult: byte, attr: byte, lengthKib: nat, extAttr: int)
    ensures var s, c := Sample(mult, attr), GpCreate(lengthKib, 1, 0, extAttr);
            && Align(s) == 512 && SectorCount(s) == 0x100_0000
            && (forall t: Target :: Decode24(s, BaseOf(t)) == if t == 1 then mult as nat else 0)
            && (forall t: Target :: !Enhanced(s, t))
            && !Refused(s, c) && |Writes(s, c)| == 6 && RequestedMult(s, c) == (lengthKib + 256) / 512
            && s[PARTITION_SETTING_COMPLETED] == 0 && s[ExtAddress(1)] == attr
  {
    hide Sample, Decode24, HasBit, SectorCount, Align, Writes;
    SampleCapacity(mult, attr);
    forall t: Target ensures var s := Sample(mult, attr);
      Align(s) == 512 && Decode24(s, BaseOf(t)) == (if t == 1 then mult as nat else 0) && !Enhanced(s, t)
    {
      SampleSizes(mult, attr, t);
    }
    SampleSizes(mult, attr, 0);
    WritesCount(Sample(mult, attr), GpCreate(lengthKib, 1, 0, extAttr));
  }

  lemma SamplePart(mult: byte, attr: byte, extAttr: int, t: Target)
    ensures var s, c := Sample(mult, attr), GpCreate(512, 1, 0, extAttr);
            && Align(s) > 0 && !Refused(s, c) && GoodWrites(Writes(s, c))
            && var u := Apply(s, Writes(s, c));
               && SameLimits(s, u)
               && Part(u, t, false) == (if t == 1 then 512 else 0) && Part(u, t, true) == 0
  {
    hide Align, Writes, Apply, Refused, SectorCount, Decode24, HasBit, Sample, RequestedMult;
    var s, c := Sample(mult, attr), GpCreate(512, 1, 0, extAttr);
    SampleIs(mult, attr, 512, extAttr);
    WritesGood(s, c);
    var u := Apply(s, Writes(s, c));
    AttributeIs(s, c, 6);
    PutBitHas(s[PARTITIONS_ATTRIBUTE], 1, false, t);
    if t == 1 {
      PrefixKeeps(s, c, 6, 0);
      LimitsSame(s, u);
      StoppedMult(s, c, 6);
      AllWritten(Decode24(s, BaseOf(1)), 1);
    } else {
      PrefixKeeps(s, c, 6, t);
      SizeSame(s, u, t);
    }
  }

  /** What 512 KiB for partition 1 leave on it: 512 KiB in all, nothing enhanced. */
  lemma SampleFits(mult: byte, attr: byte, extAttr: int)
    ensures var s, c := Sample(mult, attr), GpCreate(512, 1, 0, extAttr);
            Align(s) > 0 && !Refused(s, c) && |Writes(s, c)| == 6 && GoodWrites(Writes(s, c)) && WithinLimits(Apply(s, Writes(s, c)))
  {
    hide Align, Writes, Apply, Refused, SectorCount, Part, Total, MaxEnhanced, Sample, RequestedMult, Enhanced, Decode24;
    var s, c := Sample(mult, attr), GpCreate(512, 1, 0, extAttr);
    SampleIs(mult, attr, 512, extAttr);
    SamplePart(mult, attr, extAttr, 0);
    SamplePart(mult, attr, extAttr, 1);
    SamplePart(mult, attr, extAttr, 2);
    SamplePart(mult, attr, extAttr, 3);
    SamplePart(mult, attr, extAttr, 4);
    var u := Apply(s, Writes(s, c));
    LimitsSame(s, u);
    SumOfFive(u, false);
    SumOfFive(u, true);
  }

  /** When the command gets as far as the setting with `-y`: a device that does everything it is told makes it
      exit with 1, and one whose very last write fails makes it exit with 0 with nothing completed. */
  lemma BothWaysWrong(s: Csd, c: Command)
    requires Align(s) > 0 && InModel(c) && !Refused(s, c) && Reaches(Device(s, |Writes(s, c)|), c)
    ensures var n := |Writes(s, c)|;
            && Run(Device(s, n + 1), c, true, true).1 == Completed && ExitStatus(Completed) == 1
            && Run(Device(s, n), c, true, true).1 == NotCompleted && ExitStatus(NotCompleted) == 0
            && Run(Device(s, n), c, true, true).0.ext[PARTITION_SETTING_COMPLETED] == 0
  {
    var n := |Writes(s, c)|;
    WritesGood(s, c);
    PrefixKeeps(s, c, n, if TargetOf(c) == 0 then 1 else 0);
    hide Writes, Apply, Align, WithinLimits;
  }

  /** There is such a device and command. */
  lemma StatusWitness()
    ensures var c, s := GpCreate(512, 1, 0, 0), Sample(0, 0);
            Align(s) > 0 && !Refused(s, c) && Reaches(Device(s, |Writes(s, c)|), c)
  {
    SampleFits(0, 0, 0);
    SampleIs(0, 0, 512, 0);
    hide Sample, Align, Refused, Writes, Apply, WithinLimits;
  }

  /** A partition of one group, asked to have 0x10000 of them on a device that takes two writes and fails,
      is left with 0x10001. */
  lemma HalfASize()
    ensures var c, s := GpCreate(512 * 0x1_0000, 1, 0, 0), Sample(1, 0);
            && Align(s) > 0 && Run(Device(s, 2), c, false, false).1 == WriteFailed
            && SizeOf(s, 1) == 512 && SizeOf(Run(Device(s, 2), c, false, false).0.ext, 1) == 512 * 0x1_0001
  {
    hide Sample, Align, Run, Refused, Writes, SizeOf, RequestedMult, Decode24;
    SampleIs(1, 0, 512 * 0x1_0000, 0);
    assert (512 * 0x1_0000 + 256) / 512 == 0x1_0000;
    TwoWrites(Sample(1, 0), GpCreate(512 * 0x1_0000, 1, 0, 0), 1, 0x1_0000);
    assert MixedMult(1, 0x1_0000, 1) == 0x1_0001;
  }

  /** A partition command that stops after two writes has changed one byte of the size. */
  lemma TwoWrites(s: Csd, c: Command, was: nat, mult: nat)
    requires Align(s) == 512 && InModel(c) && !Refused(s, c) && c.GpCreate? && c.partition == 1 && |Writes(s, c)| == 6
    requires Decode24(s, BaseOf(1)) == was && RequestedMult(s, c) == mult
    ensures Run(Device(s, 2), c, false, false).1 == WriteFailed && SizeOf(s, 1) == was * 512
    ensures SizeOf(Run(Device(s, 2), c, false, false).0.ext, 1) == MixedMult(was, mult, 1) * 512
  {
    hide Align, Writes, Refused, RequestedMult, Decode24, Run, MixedMult;
    var d := Device(s, 2);
    RunIs(d, c, false, false);
    NotRefused(d, c, false, false);
    RunMult(d, c, false, false, 1);
    OthersKept(d, c, false, false, 0);
    assert Done(d, c) == 2;
    OutcomeIs(d, c, false, false);
  }

  lemma OutcomeIs(d: Device, c: Command, yes: bool, confirmed: bool)
    requires Align(d.ext) > 0 && InModel(c) && !Refused(d.ext, c) && d.left < |Writes(d.ext, c)|
    ensures Run(d, c, yes, confirmed).1 == WriteFailed
  {
    hide Align, Writes, Apply, Refused;
  }

  /** Asking for extended attribute 2 where 1 was leaves 3. */
  lemma OldAttributeStays()
    ensures var c, s := GpCreate(512, 1, 0, 2), Sample(0, 1);
            && Align(s) > 0 && Run(Device(s, 6), c, false, false).1 == NotCompleted
            && ExtNibble(s, 1) == 1 && AskedNibble(2) == 2 && ExtNibble(Run(Device(s, 6), c, false, false).0.ext, 1) == 3
  {
    hide Align, Writes, Apply, WithinLimits, Refused, Sample, NibbleOf, AskedNibble, Run;
    SampleFits(0, 1, 2);
    SampleIs(0, 1, 512, 2);
    DryRunEnds(Sample(0, 1), GpCreate(512, 1, 0, 2));
    OtherRegisters(Device(Sample(0, 1), 6), GpCreate(512, 1, 0, 2), false, false);
    SmallNibbles();
  }

  lemma DryRunEnds(s: Csd, c: Command)
    requires Align(s) > 0 && InModel(c) && !Refused(s, c) && GoodWrites(Writes(s, c)) && WithinLimits(Apply(s, Writes(s, c)))
    ensures Run(Device(s, |Writes(s, c)|), c, false, false).1 == NotCompleted
  {
    hide Align, Writes, Apply, WithinLimits, Refused;
  }

  lemma SmallNibbles()
    ensures NibbleOf(1 as bv8, 1) == 1 && AskedNibble(2) == 2 && (1 as bv8) | 2 == 3
  {
  }

  // ---- the commands step by step ----

  /** The open device. */
  class Mmc {
    var ext: Csd
    var left: nat

    constructor (ext: Csd, left: nat)
      ensures this.ext == ext && this.left == left
    {
      this.ext, this.left := ext, left;
    }

    ghost function View(): Device
      reads this
    {
      Device(ext, left)
    }

    /** `write_extcsd_value`. */
    method WriteExtCsd(index: nat, value: byte) returns (ok: bool)
      requires index < 512
      modifies this
      ensures ok == (old(left) > 0)
      ensures View() == if ok then Device(old(ext)[index := value], old(left) - 1) else old(View())
    {
      if left == 0 { return false; }
      ext, left := ext[index := value], left - 1;
      return true;
    }

    /** One register of the command's list after another, until a write fails. */
    method WriteNext(ghost before: Csd, ghost ws: seq<Write>, ghost done: nat, index: nat, value: byte) returns (ok: bool)
      requires GoodWrites(ws) && done < |ws| && ws[done] == Write(index, value) && ext == Apply(before, ws[..done])
      modifies this
      ensures ok == (old(left) > 0) && left == (if ok then old(left) - 1 else 0)
      ensures ext == Apply(before, ws[..if ok then done + 1 else done])
    {
      ok := WriteExtCsd(index, value);
      assert ws[..done + 1][..done] == ws[..done];
    }

    /** The three bytes of a size. */
    method WriteSize(ghost before: Csd, ghost ws: seq<Write>, ghost done: nat, base: nat, mult: nat) returns (ok: bool)
      requires GoodWrites(ws) && done + 3 <= |ws| && base + 2 < 512 && ext == Apply(before, ws[..done])
      requires ws[done] == SizeWrites(base, mult)[0]
      requires ws[done + 1] == SizeWrites(base, mult)[1] && ws[done + 2] == SizeWrites(base, mult)[2]
      modifies this
      ensures ok == (old(left) >= 3) && left == (if ok then old(left) - 3 else 0)
      ensures ext == Apply(before, ws[..if ok then done + 3 else done + old(left)])
    {
      hide Apply;
      ok := WriteNext(before, ws, done, base + 2, mult / 0x1_0000 % 0x100);
      if !ok { return; }
      ok := WriteNext(before, ws, done + 1, base + 1, mult / 0x100 % 0x100);
      if !ok { return; }
      ok := WriteNext(before, ws, done + 2, base, mult % 0x100);
    }

    /** `check_enhanced_area_total_limit`: from partition 4 down to the user area, the enhanced ones
        are added up on the way. */
    method CheckTotalLimit() returns (ok: bool)
      ensures ok == WithinLimits(ext)
    {
      hide Align, HasBit, Decode24, SectorCount;
      var align := Align(ext);
      var enhanced := 0;
      var gp4 := Decode24(ext, 152) * align;
      if Enhanced(ext, 4) { enhanced := enhanced + gp4; }
      assert enhanced == Part(ext, 4, true) && gp4 == Part(ext, 4, false);
      var gp3 := Decode24(ext, 149) * align;
      if Enhanced(ext, 3) { enhanced := enhanced + gp3; }
      assert enhanced == Part(ext, 4, true) + Part(ext, 3, true) && gp3 == Part(ext, 3, false);
      var gp2 := Decode24(ext, 146) * align;
      if Enhanced(ext, 2) { enhanced := enhanced + gp2; }
      assert enhanced == Part(ext, 4, true) + Part(ext, 3, true) + Part(ext, 2, true) && gp2 == Part(ext, 2, false);
      var gp1 := Decode24(ext, 143) * align;
      if Enhanced(ext, 1) { enhanced := enhanced + gp1; }
      assert enhanced == Part(ext, 4, true) + Part(ext, 3, true) + Part(ext, 2, true) + Part(ext, 1, true) && gp1 == Part(ext, 1, false);
      var user := Decode24(ext, ENH_SIZE_MULT_0) * align;
      if Enhanced(ext, 0) { enhanced := enhanced + user; }
      assert enhanced == Part(ext, 4, true) + Part(ext, 3, true) + Part(ext, 2, true) + Part(ext, 1, true) + Part(ext, 0, true)
             && user == Part(ext, 0, false);
      hide Part, Total;
      SumOfFive(ext, false);
      SumOfFive(ext, true);
      if enhanced > Decode24(ext, MAX_ENH_SIZE_MULT_0) * align { return false; }
      return gp4 + gp3 + gp2 + gp1 + user <= SectorCount(ext) / 2;
    }

    /** `set_partitioning_setting_completed`: whether the setting was completed. */
    method SetCompleted(yes: bool, confirmed: bool) returns (completed: bool)
      modifies this
      ensures completed == (yes && old(left) > 0 && confirmed)
      ensures View() == if yes && old(left) > 0
                        then Device(old(ext)[PARTITION_SETTING_COMPLETED := 1], old(left) - 1) else old(View())
    {
      if !yes { return false; }
      var ok := WriteExtCsd(PARTITION_SETTING_COMPLETED, 1);
      return ok && confirmed;
    }

    /** What both commands do once their registers are written. */
    method Finish(yes: bool, confirmed: bool) returns (o: Outcome)
      modifies this
      ensures if !WithinLimits(old(ext)) then View() == old(View()) && o == OverLimit
              else if !yes || old(left) == 0 then View() == old(View()) && o == NotCompleted
              else View() == Device(old(ext)[PARTITION_SETTING_COMPLETED := 1], old(left) - 1)
                   && o == if confirmed then Completed else NotCompleted
    {
      var ok := CheckTotalLimit();
      if !ok { return OverLimit; }
      var completed := SetCompleted(yes, confirmed);
      return if completed then Completed else NotCompleted;
    }

    /** The registers of `do_create_gp_partition`, from what was read. */
    method WriteGp(read: Csd, c: Command, mult: nat) returns (ok: bool)
      requires c.GpCreate?
      requires read == ext && Align(read) > 0 && InModel(c) && !Refused(read, c) && mult == RequestedMult(read, c)
      modifies this
      ensures GoodWrites(Writes(read, c)[..Done(old(View()), c)])
      ensures ext == Apply(read, Writes(read, c)[..Done(old(View()), c)])
      ensures ok == (old(left) >= |Writes(read, c)|) && left == (if ok then old(left) - |Writes(read, c)| else 0)
    {
      hide Align, PutBit, AttributeByte, Apply, RequestedMult, StartFor, HasBit;
      ghost var ws := Writes(read, c);
      WritesGood(read, c);
      NothingApplied(read, ws);
      var p, address := c.partition, ExtAddress(c.partition);
      assert ws[1..4] == SizeWrites(BaseOf(p), mult);
      ok := WriteNext(read, ws, 0, ERASE_GROUP_DEF, 1);
      if !ok { return; }
      ok := WriteSize(read, ws, 1, BaseOf(p), mult);
      if !ok { return; }
      ok := WriteNext(read, ws, 4, PARTITIONS_ATTRIBUTE, PutBit(read[PARTITIONS_ATTRIBUTE], p, c.enhAttr != 0));
      if !ok { return; }
      ok := WriteNext(read, ws, 5, address, AttributeByte(read[address], p, c.extAttr));
    }

    /** The registers of `do_enh_area_set`, from what was read. */
    method WriteEnhArea(read: Csd, c: Command, start: nat, mult: nat) returns (ok: bool)
      requires read == ext && Align(read) > 0 && c.EnhAreaSet? && start == StartFor(read, c.startKib)
      requires InModel(c) && !Refused(read, c) && mult == RequestedMult(read, c)
      modifies this
      ensures GoodWrites(Writes(read, c)[..Done(old(View()), c)])
      ensures ext == Apply(read, Writes(read, c)[..Done(old(View()), c)])
      ensures ok == (old(left) >= |Writes(read, c)|) && left == (if ok then old(left) - |Writes(read, c)| else 0)
    {
      hide Align, PutBit, AttributeByte, Apply, RequestedMult, StartFor, HasBit;
      ghost var ws := Writes(read, c);
      WritesGood(read, c);
      NothingApplied(read, ws);
      assert ws[5..8] == SizeWrites(BaseOf(0), mult);
      ok := WriteNext(read, ws, 0, ERASE_GROUP_DEF, 1);
      if !ok { return; }
      ok := WriteNext(read, ws, 1, ENH_START_ADDR_0 + 3, start / 0x100_0000 % 0x100);
      if !ok { return; }
      ok := WriteNext(read, ws, 2, ENH_START_ADDR_0 + 2, start / 0x1_0000 % 0x100);
      if !ok { return; }
      ok := WriteNext(read, ws, 3, ENH_START_ADDR_0 + 1, start / 0x100 % 0x100);
      if !ok { return; }
      ok := WriteNext(read, ws, 4, ENH_START_ADDR_0, start % 0x100);
      if !ok { return; }
      ok := WriteSize(read, ws, 5, BaseOf(0), mult);
      if !ok { return; }
      ok := WriteNext(read, ws, 8, PARTITIONS_ATTRIBUTE, PutBit(read[PARTITIONS_ATTRIBUTE], 0, true));
    }

    /** `do_create_gp_partition`. */
    method CreateGpPartition(lengthKib: nat, partition: int, enhAttr: int, extAttr: int, yes: bool, confirmed: bool)
      returns (o: Outcome)
      requires Align(ext) > 0 && (partition == 0 ==> extAttr == 0)
      modifies this
      ensures (View(), o) == Run(old(View()), GpCreate(lengthKib, partition, enhAttr, extAttr), yes, confirmed)
    {
      hide Align, WithinLimits, Writes, Apply, MultFor;
      if partition < 0 || partition > 4 { return Rejected; }
      if enhAttr != 0 && extAttr != 0 { return Rejected; }
      if ext[PARTITION_SETTING_COMPLETED] != 0 { return Rejected; }
      var c := GpCreate(lengthKib, partition, enhAttr, extAttr);
      WritesGood(ext, c);
      var ok := WriteGp(ext, c, MultFor(lengthKib, Align(ext)));
      if !ok { return WriteFailed; }
      o := Finish(yes, confirmed);
    }

    /** `do_enh_area_set`. */
    method SetEnhArea(startKib: nat, lengthKib: nat, yes: bool, confirmed: bool) returns (o: Outcome)
      requires Align(ext) > 0
      modifies this
      ensures (View(), o) == Run(old(View()), EnhAreaSet(startKib, lengthKib), yes, confirmed)
    {
      hide Align, WithinLimits, Writes, Apply, MultFor, HasBit, StartFor;
      if !HasBit(ext[PARTITIONING_SUPPORT], 1) { return Rejected; }
      if ext[PARTITION_SETTING_COMPLETED] != 0 { return Rejected; }
      var c := EnhAreaSet(startKib, lengthKib);
      WritesGood(ext, c);
      var ok := WriteEnhArea(ext, c, StartFor(ext, startKib), MultFor(lengthKib, Align(ext)));
      if !ok { return WriteFailed; }
      o := Finish(yes, confirmed);
    }
  }

  lemma WritesGood(s: Csd, c: Command)
    requires Align(s) > 0 && InModel(c) && !Refused(s, c)
    ensures GoodWrites(Writes(s, c)) && Writes(s, c)[..|Writes(s, c)|] == Writes(s, c)
  {
    hide Align, StartFor, PutBit, AttributeByte, RequestedMult, HasBit;
  }

  lemma NothingApplied(s: Csd, ws: seq<Write>)
    ensures ws[..0] == [] && GoodWrites(ws[..0]) && Apply(s, ws[..0]) == s
  {
  }

  lemma SumOfFive(s: Csd, enhancedOnly: bool)
    ensures Total(s, 5, enhancedOnly)
         == Part(s, 0, enhancedOnly) + Part(s, 1, enhancedOnly) + Part(s, 2, enhancedOnly) + Part(s, 3, enhancedOnly)
          + Part(s, 4, enhancedOnly)
  {
    hide Part;
    assert Total(s, 0, enhancedOnly) == 0;
    assert Total(s, 1, enhancedOnly) == Total(s, 0, enhancedOnly) + Part(s, 0, enhancedOnly);
    assert Total(s, 3, enhancedOnly) == Total(s, 1, enhancedOnly) + Part(s, 1, enhancedOnly) + Part(s, 2, enhancedOnly);
  }
}
