/** The partitioning commands in terms of single EXT_CSD bytes: the sizes and limits that the registers spell, the
    check over them, the start address that is written, and which outcome a command has. */
module ExtCsdBytes {
  import opened Bytes
  import opened ExtCsd

  // ---- sizes and limits ----

  /** Three registers from `at` on, the lowest first. */
  function Three24(s: Csd, at: nat): nat
    requires at + 2 < 512
  {
    s[at] as nat + 0x100 * s[at + 1] as nat + 0x1_0000 * s[at + 2] as nat
  }

  /** One group in KiB, from registers 221 and 224. */
  function Group(s: Csd): nat { 512 * (s[221] as nat) * s[224] as nat }

  lemma GroupIs(s: Csd)
    ensures Align(s) == Group(s)
  {
  }

  /** A size in KiB, from its three registers. */
  function Kib(s: Csd, at: nat): nat
    requires at + 2 < 512
  {
    Three24(s, at) * Group(s)
  }

  /** The size of the user area is in registers 140 to 142, that of partition `t` in three from 140 + 3t on. */
  lemma SizeSpelt(s: Csd, t: Target)
    ensures SizeOf(s, t) == Kib(s, 140 + 3 * t)
  {
    GroupIs(s);
    hide Align, Group;
  }

  lemma MaximumSpelt(s: Csd)
    ensures MaxEnhanced(s) == Kib(s, 157)
  {
    GroupIs(s);
    hide Align, Group;
  }

  predicate AnyOf(v: byte, mask: bv8) { (v as bv8) & mask != 0 }

  /** Register 156 has a bit for each target. */
  lemma EnhancedSpelt(s: Csd)
    ensures Enhanced(s, 0) <==> AnyOf(s[156], 1)
    ensures Enhanced(s, 1) <==> AnyOf(s[156], 2)
    ensures Enhanced(s, 2) <==> AnyOf(s[156], 4)
    ensures Enhanced(s, 3) <==> AnyOf(s[156], 8)
    ensures Enhanced(s, 4) <==> AnyOf(s[156], 16)
  {
  }

  /** The number of sectors, from registers 215 down to 212. */
  function Sectors(s: Csd): nat {
    s[215] as nat * 0x100_0000 + s[214] as nat * 0x1_0000 + s[213] as nat * 0x100 + s[212] as nat
  }

  lemma CapacitySpelt(s: Csd)
    ensures SectorCount(s) == Sectors(s)
  {
    FourBytes(s[215], s[214], s[213], s[212]);
    hide FromBigEndian;
  }

  function If(b: bool, n: nat): nat { if b then n else 0 }

  /** The enhanced sizes added up, and all sizes. */
  function EnhancedTotal(s: Csd): nat {
    If(AnyOf(s[156], 1), Kib(s, 140)) + If(AnyOf(s[156], 2), Kib(s, 143)) + If(AnyOf(s[156], 4), Kib(s, 146))
    + If(AnyOf(s[156], 8), Kib(s, 149)) + If(AnyOf(s[156], 16), Kib(s, 152))
  }

  function WholeTotal(s: Csd): nat { Kib(s, 140) + Kib(s, 143) + Kib(s, 146) + Kib(s, 149) + Kib(s, 152) }

  lemma PartSpelt(s: Csd, t: Target)
    ensures Part(s, t, false) == Kib(s, 140 + 3 * t) && Part(s, t, true) == If(Enhanced(s, t), Kib(s, 140 + 3 * t))
  {
    SizeSpelt(s, t);
    hide SizeOf, Kib, Enhanced;
  }

  lemma EnhancedTotalSpelt(s: Csd)
    ensures Total(s, 5, true) == EnhancedTotal(s)
  {
    EnhancedSpelt(s);
    hide Part, Total, Kib, Enhanced, AnyOf, If;
    SumOfFive(s, true);
    PartSpelt(s, 0);
    PartSpelt(s, 1);
    PartSpelt(s, 2);
    PartSpelt(s, 3);
    PartSpelt(s, 4);
  }

  lemma WholeTotalSpelt(s: Csd)
    ensures Total(s, 5, false) == WholeTotal(s)
  {
    hide Part, Total, Kib;
    SumOfFive(s, false);
    PartSpelt(s, 0);
    PartSpelt(s, 1);
    PartSpelt(s, 2);
    PartSpelt(s, 3);
    PartSpelt(s, 4);
  }

  /** The check over the register bytes: what is enhanced is within the size that registers 157 to 159 spell, and
      everything within half the number of sectors, which is the capacity in KiB. */
  lemma LimitsSpelt(s: Csd)
    ensures WithinLimits(s) <==> EnhancedTotal(s) <= Kib(s, 157) && WholeTotal(s) <= Sectors(s) / 2
  {
    CapacitySpelt(s);
    EnhancedTotalSpelt(s);
    WholeTotalSpelt(s);
    MaximumSpelt(s);
    hide Total, EnhancedTotal, WholeTotal, SectorCount, Sectors, MaxEnhanced, Kib;
  }

  // ---- how a command ends ----

  function WriteCount(c: Command): nat { if c.GpCreate? then 6 else 9 }

  /** A partition command is refused for a number that is not 0 to 4, for both kinds of attribute at once, and when
      register 155 is set; an area command when bit 1 of register 160 is not, and when register 155 is. */
  lemma RefusedIff(s: Csd, c: Command)
    ensures c.GpCreate? ==> (Refused(s, c) <==> !(0 <= c.partition <= 4) || (c.enhAttr != 0 && c.extAttr != 0) || s[155] != 0)
    ensures c.EnhAreaSet? ==> (Refused(s, c) <==> !AnyOf(s[160], 2) || s[155] != 0)
  {
  }

  /** A command writes all its registers or fails at the one the device does not take; with all written it is over
      the limits, or stops for want of `-y`, or goes on to the setting, which the device takes and confirms or not. */
  lemma OutcomeIff(d: Device, c: Command, yes: bool, confirmed: bool)
    requires Align(d.ext) > 0 && InModel(c) && !Refused(d.ext, c)
    ensures var n, r := WriteCount(c), Run(d, c, yes, confirmed);
            && |Writes(d.ext, c)| == n && GoodWrites(Writes(d.ext, c))
            && (r.1.WriteFailed? <==> d.left < n)
            && !r.1.Rejected?
            && (d.left >= n ==>
                  var t := Apply(d.ext, Writes(d.ext, c));
                  var within := EnhancedTotal(t) <= Kib(t, 157) && WholeTotal(t) <= Sectors(t) / 2;
                  && (r.1.OverLimit? <==> !within)
                  && (r.1.Completed? <==> within && yes && d.left > n && confirmed)
                  && (r.1.NotCompleted? <==> within && !(yes && d.left > n && confirmed))
                  && r.0.ext == if within && yes && d.left > n then t[155 := 1] else t)
  {
    WritesGood(d.ext, c);
    WritesCount(d.ext, c);
    if d.left >= WriteCount(c) { LimitsSpelt(Apply(d.ext, Writes(d.ext, c))); }
    hide Writes, Apply, Align, WithinLimits, Refused, EnhancedTotal, WholeTotal, Kib, Sectors;
  }

  lemma PartsAtMost(s: Csd, t: Target)
    ensures SizeOf(s, t) <= WholeTotal(s) && (Enhanced(s, t) ==> SizeOf(s, t) <= EnhancedTotal(s))
  {
    SizeSpelt(s, t);
    EnhancedSpelt(s);
    hide SizeOf, Kib, Enhanced, AnyOf;
  }

  /** A command that asks for more than the capacity, or for more enhanced area than the device allows, is found
      to be over the limits, whatever else is on the device. */
  lemma TooLarge(d: Device, c: Command, yes: bool, confirmed: bool)
    requires Align(d.ext) > 0 && InModel(c) && !Refused(d.ext, c) && d.left >= WriteCount(c)
    requires RequestedMult(d.ext, c) < 0x100_0000
    ensures var asked := RequestedMult(d.ext, c) * Align(d.ext);
            asked > Sectors(d.ext) / 2 || ((c.EnhAreaSet? || c.enhAttr != 0) && asked > Kib(d.ext, 157)) ==>
              Run(d, c, yes, confirmed).1.OverLimit?
  {
    OutcomeIff(d, c, yes, confirmed);
    TargetSized(d, c, yes, confirmed);
    OthersKept(d, c, yes, confirmed, if TargetOf(c) == 0 then 1 else 0);
    var r := Run(d, c, yes, confirmed).0.ext;
    PartsAtMost(r, TargetOf(c));
    CapacitySpelt(d.ext);
    CapacitySpelt(r);
    MaximumSpelt(d.ext);
    MaximumSpelt(r);
    LimitsSpelt(r);
    SettingOnly(d, c);
    hide Run, Writes, Apply, Align, SectorCount, Sectors, MaxEnhanced, SizeOf, Enhanced, EnhancedTotal, WholeTotal, Kib, Refused,
      WithinLimits, RequestedMult;
  }

  lemma SettingOnly(d: Device, c: Command)
    requires Align(d.ext) > 0 && InModel(c) && !Refused(d.ext, c)
    ensures GoodWrites(Writes(d.ext, c))
    ensures var t := Apply(d.ext, Writes(d.ext, c)); WithinLimits(t[155 := 1]) <==> WithinLimits(t)
    ensures var t := Apply(d.ext, Writes(d.ext, c));
            WithinLimits(t) <==> EnhancedTotal(t) <= Kib(t, 157) && WholeTotal(t) <= Sectors(t) / 2
  {
    WritesGood(d.ext, c);
    var t := Apply(d.ext, Writes(d.ext, c));
    SameWithin(t, t[155 := 1]);
    LimitsSpelt(t);
    hide Writes, Apply, Align, Refused, WithinLimits, EnhancedTotal, WholeTotal, Kib, Sectors;
  }

  /** A device of 8 GiB in groups of 512 KiB refuses a partition of one group more. */
  lemma SampleTooSmall()
    ensures var s, c := Sample(0, 0), GpCreate(512 * 16385, 1, 0, 0);
            Align(s) > 0 && !Refused(s, c) && Run(Device(s, 7), c, true, true).1 == OverLimit
  {
    hide Sample, Align, Run, Refused, Writes, SectorCount, Sectors, RequestedMult, Kib, Decode24, HasBit;
    SampleIs(0, 0, 512 * 16385, 0);
    CapacitySpelt(Sample(0, 0));
    TooLarge(Device(Sample(0, 0), 7), GpCreate(512 * 16385, 1, 0, 0), true, true);
  }

  // ---- the start address of the enhanced area ----

  lemma FourParts(n: nat)
    requires n < U32
    ensures n / 0x100_0000 % 0x100 * 0x100_0000 + n / 0x1_0000 % 0x100 * 0x1_0000 + n / 0x100 % 0x100 * 0x100 + n % 0x100 == n
  {
    var a := n / 0x100;
    var b := a / 0x100;
    assert b == n / 0x1_0000 && b / 0x100 == n / 0x100_0000;
  }

  lemma RoundedDown(n: nat, a: nat)
    requires a > 0
    ensures RoundDown(n, a) <= n < RoundDown(n, a) + a && RoundDown(n, a) % a == 0
  {
    Quotient(n, a);
    MultipleOf(n / a, a);
  }

  lemma MultipleOf(q: nat, a: nat)
    requires a > 0
    ensures q * a % a == 0
  {
    Quotient(q * a, a);
    var r := q * a - q * a / a * a;
    assert 0 <= r < a && r == (q - q * a / a) * a;
    NoMultipleBelow(q - q * a / a, a);
  }

  lemma NoMultipleBelow(k: int, a: nat)
    requires 0 <= k * a < a
    ensures k == 0
  {
    if k < 0 { Monotone(k, -1, a); }
    if k > 0 { Monotone(1, k, a); }
  }

  /** The four registers after the command's writes. */
  lemma StartBytes(s: Csd, c: Command)
    requires Align(s) > 0 && c.EnhAreaSet? && !Refused(s, c)
    ensures GoodWrites(Writes(s, c)) && |Writes(s, c)| == 9
    ensures var t, start := Apply(s, Writes(s, c)), StartFor(s, c.startKib);
            && t[139] == start / 0x100_0000 % 0x100 && t[138] == start / 0x1_0000 % 0x100
            && t[137] == start / 0x100 % 0x100 && t[136] == start % 0x100
  {
    WritesGood(s, c);
    hide Align, StartFor, PutBit, RequestedMult, HasBit, Apply;
    var ws := Writes(s, c);
    ApplyAt(s, ws, 139, 2);
    ApplyAt(s, ws, 138, 3);
    ApplyAt(s, ws, 137, 4);
    ApplyAt(s, ws, 136, 5);
  }

  lemma StartIs(s: Csd, startKib: nat)
    requires Align(s) > 0
    ensures var wanted, start := startKib * 1024 % U32 / (if Sectors(s) > 4_194_304 then 512 else 1), StartFor(s, startKib);
            start <= wanted < start + Group(s) && Group(s) > 0 && start % Group(s) == 0 && start < U32
  {
    GroupIs(s);
    CapacitySpelt(s);
    hide Align, SectorCount, Sectors, Group, RoundDown;
    var wanted := startKib * 1024 % U32 / (if Sectors(s) > 4_194_304 then 512 else 1);
    RoundedDown(wanted, Group(s));
  }

  /** Registers 139 down to 136 spell the start: the requested byte offset modulo 2^32, in sectors on a device of
      more than 2 GiB, rounded down to a whole group. */
  lemma StartSpelt(d: Device, c: Command, yes: bool, confirmed: bool)
    requires Align(d.ext) > 0 && c.EnhAreaSet? && !Refused(d.ext, c) && d.left >= 9
    ensures var t := Run(d, c, yes, confirmed).0.ext;
            var wanted := c.startKib * 1024 % U32 / (if Sectors(d.ext) > 4_194_304 then 512 else 1);
            var start := t[139] as nat * 0x100_0000 + t[138] as nat * 0x1_0000 + t[137] as nat * 0x100 + t[136] as nat;
            Group(d.ext) > 0 && start <= wanted < start + Group(d.ext) && start % Group(d.ext) == 0
  {
    StartBytes(d.ext, c);
    StartIs(d.ext, c.startKib);
    FourParts(StartFor(d.ext, c.startKib));
    OutcomeIff(d, c, yes, confirmed);
    hide Run, Writes, Apply, Align, StartFor, Sectors, Group, Refused, EnhancedTotal, WholeTotal, Kib;
  }
}
