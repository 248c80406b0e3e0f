/**
  How the conditions of a player are saved as a stream of bytes and loaded again.  Every condition is written as
  a row of tagged properties; which tags are understood, and with how many bytes, depends on the kind of condition.
 */
module ConditionCodec {
  import opened Options
  import opened PropStreams

  // ---------- conditions ----------

  const TYPE: byte := 1
  const ID: byte := 2
  const TICKS: byte := 3
  const HEALTHTICKS: byte := 4
  const HEALTHGAIN: byte := 5
  const MANATICKS: byte := 6
  const MANAGAIN: byte := 7
  const DELAYED: byte := 8
  const OWNER: byte := 9
  const INTERVALDATA: byte := 10
  const SPEEDDELTA: byte := 11
  const FORMULA_MINA: byte := 12
  const FORMULA_MINB: byte := 13
  const FORMULA_MAXA: byte := 14
  const FORMULA_MAXB: byte := 15
  const LIGHTCOLOR: byte := 16
  const LIGHTLEVEL: byte := 17
  const LIGHTTICKS: byte := 18
  const LIGHTINTERVAL: byte := 19
  const SOULTICKS: byte := 20
  const SOULGAIN: byte := 21
  const SKILLS: byte := 22
  const STATS: byte := 23
  const OUTFIT: byte := 24
  const PERIODDAMAGE: byte := 25
  const ISBUFF: byte := 26
  const SUBID: byte := 27
  const END: byte := 254

  const SKILL_COUNT := 13
  const STAT_COUNT := 4
  const OUTFIT_SIZE := 12

  datatype Interval = Interval(timeLeft: int32, value: int32, interval: int32)

  // The fields of each class of conditions; the floating-point factors as the words that hold them
  datatype Body =
    | Generic
    | Attributes(skills: seq<int32>, stats: seq<int32>, currentSkill: nat, currentStat: nat)
    | Regeneration(healthTicks: uint32, healthGain: uint32, manaTicks: uint32, manaGain: uint32)
    | Soul(soulGain: uint32, soulTicks: uint32)
    | Damage(delayed: bool, periodDamage: int32, damageList: seq<Interval>)
    | Speed(speedDelta: int32, mina: uint32, minb: uint32, maxa: uint32, maxb: uint32)
    | Outfit(outfit: seq<byte>)
    | Light(color: byte, level: byte, internalLightTicks: uint32, lightChangeInterval: uint32)
  {
    ghost predicate Valid()
    {
      && (Attributes? ==> |skills| == SKILL_COUNT && |stats| == STAT_COUNT)
      && (Outfit? ==> |outfit| == OUTFIT_SIZE)
    }
  }

  datatype Condition = Condition(conditionType: uint32, id: int, ticks: int32, isBuff: bool, subId: uint32, body: Body)

  predicate IsPersistent(c: Condition)
  {
    c.ticks != -1 && (c.id == -1 || c.id == 0)
  }

  /** Of the conditions there are, with ids from -1 on, exactly those are kept that will end and come from no slot of
      the equipment, whose ids begin with 1. */
  lemma {:induction false} PersistentExactly(c: Condition)
    requires c.id >= -1
    ensures IsPersistent(c) <==> c.ticks != -1 && c.id < 1
  {
  }

  // A new condition of a type, or none for a number that is no type
  function NewBody(conditionType: uint32): (b: Option<Body>)
    ensures b.Some? ==> b.value.Valid()
  {
    if conditionType in {0x1, 0x2, 0x4, 0x8, 0x8000, 0x10_0000, 0x20_0000, 0x40_0000} then Some(Damage(false, 0, []))
    else if conditionType in {0x10, 0x20} then Some(Speed(0, 0, 0, 0, 0))
    else if conditionType == 0x40 then Some(Outfit(seq(OUTFIT_SIZE, _ => 0)))
    else if conditionType == 0x100 then Some(Light(0, 0, 0, 0))
    else if conditionType == 0x2000 then Some(Regeneration(1000, 0, 1000, 0))
    else if conditionType == 0x4000 then Some(Soul(0, 0))
    else if conditionType == 0x8_0000 then Some(Attributes(seq(SKILL_COUNT, _ => 0), seq(STAT_COUNT, _ => 0), 0, 0))
    else if conditionType in {0x80, 0x200, 0x400, 0x800, 0x1000, 0x1_0000, 0x2_0000, 0x4_0000, 0x80_0000, 0x100_0000,
      0x200_0000, 0x400_0000, 0x800_0000}
    then Some(Generic)
    else None
  }

  // The types are single bits.
  function Bit(n: nat): nat
  {
    if n == 0 then 1 else 2 * Bit(n - 1)
  }

  // A condition of a class before anything is known of it
  ghost predicate Neutral(b: Body)
  {
    match b
    case Generic => true
    case Attributes(skills, stats, currentSkill, currentStat) =>
      && (forall i | 0 <= i < |skills| :: skills[i] == 0) && (forall i | 0 <= i < |stats| :: stats[i] == 0)
      && currentSkill == 0 && currentStat == 0
    case Regeneration(healthTicks, healthGain, manaTicks, manaGain) =>
      healthTicks == manaTicks == 1000 && healthGain == manaGain == 0
    case Soul(soulGain, soulTicks) => soulGain == soulTicks == 0
    case Damage(delayed, periodDamage, list) => !delayed && periodDamage == 0 && list == []
    case Speed(delta, mina, minb, maxa, maxb) => delta == mina == minb == maxa == maxb == 0
    case Outfit(outfit) => forall i | 0 <= i < |outfit| :: outfit[i] == 0
    case Light(color, level, ticks, interval) => color == level == 0 && ticks == interval == 0
  }

  const BITS: seq<nat> := [
    0x1, 0x2, 0x4, 0x8, 0x10, 0x20, 0x40, 0x80, 0x100, 0x200, 0x400, 0x800, 0x1000, 0x2000, 0x4000, 0x8000,
    0x1_0000, 0x2_0000, 0x4_0000, 0x8_0000, 0x10_0000, 0x20_0000, 0x40_0000, 0x80_0000, 0x100_0000, 0x200_0000,
    0x400_0000, 0x800_0000]

  lemma {:induction false} BitIs(n: nat)
    requires n < |BITS|
    ensures Bit(n) == BITS[n]
  {
    if n > 0 {
      BitIs(n - 1);
    }
  }

  /** The first 28 bits are the types, each with its class; every new condition is neutral. */
  lemma {:induction false} ClassOfType(n: nat)
    requires n < 28
    ensures Bit(n) < 0x1_0000_0000 && NewBody(Bit(n)).Some?
    ensures var b := NewBody(Bit(n)).value;
      && Neutral(b)
      && (b.Damage? <==> n <= 3 || n == 15 || 20 <= n <= 22) && (b.Speed? <==> 4 <= n <= 5) && (b.Outfit? <==> n == 6)
      && (b.Light? <==> n == 8) && (b.Regeneration? <==> n == 13) && (b.Soul? <==> n == 14)
      && (b.Attributes? <==> n == 19)
  {
    hide Bit;
    BitIs(n);
  }

  /** Nothing else is a type. */
  lemma {:induction false} OnlyBitsAreTypes(conditionType: uint32) returns (n: nat)
    requires NewBody(conditionType).Some?
    ensures n < 28 && conditionType == Bit(n)
  {
    hide Bit;
    assert conditionType in BITS;
    n :| n < |BITS| && BITS[n] == conditionType;
    BitIs(n);
  }

  ghost predicate SameClass(a: Body, b: Body)
  {
    && a.Generic? == b.Generic? && a.Attributes? == b.Attributes? && a.Regeneration? == b.Regeneration?
      && a.Soul? == b.Soul?
    && a.Damage? == b.Damage? && a.Speed? == b.Speed? && a.Outfit? == b.Outfit? && a.Light? == b.Light?
  }

  // A condition as the program makes it: its class is that of its type, and it fits its fields.
  ghost predicate Proper(c: Condition)
  {
    c.body.Valid() && NewBody(c.conditionType).Some? && SameClass(c.body, NewBody(c.conditionType).value)
  }

  // ---------- properties ----------

  datatype Prop = Prop(tag: byte, data: seq<byte>)

  function Flat(props: seq<Prop>): seq<byte>
  {
    if props == [] then [] else [props[0].tag] + props[0].data + Flat(props[1..])
  }

  lemma {:induction false} FlatConcat(a: seq<Prop>, b: seq<Prop>)
    ensures Flat(a + b) == Flat(a) + Flat(b)
  {
    if a == [] {
      assert a + b == b;
    } else {
      assert (a + b)[1..] == a[1..] + b;
      FlatConcat(a[1..], b);
    }
  }

  // The number of bytes that follow a tag, or none where a class does not know the tag
  function Size(body: Body, tag: byte): Option<nat>
  {
    if tag in {TYPE, ID, TICKS, SUBID} then Some(4)
    else if tag == ISBUFF then Some(1)
    else match body
      case Generic => None
      case Attributes(_, _, _, _) => if tag in {SKILLS, STATS} then Some(4) else None
      case Regeneration(_, _, _, _) => if HEALTHTICKS <= tag <= MANAGAIN then Some(4) else None
      case Soul(_, _) => if tag in {SOULGAIN, SOULTICKS} then Some(4) else None
      case Damage(_, _, _) =>
        if tag == DELAYED then Some(1) else if tag in {PERIODDAMAGE, OWNER} then Some(4)
          else if tag == INTERVALDATA then Some(12) else None
      case Speed(_, _, _, _, _) => if SPEEDDELTA <= tag <= FORMULA_MAXB then Some(4) else None
      case Outfit(_) => if tag == OUTFIT then Some(OUTFIT_SIZE) else None
      case Light(_, _, _, _) => if LIGHTCOLOR <= tag <= LIGHTINTERVAL then Some(4) else None
  }

  function IntervalBytes(i: Interval): seq<byte>
  {
    Signed(i.timeLeft) + Signed(i.value) + Signed(i.interval)
  }

  // What a property does to a condition.  A skill or stat too many has no place.
  function Apply(c: Condition, p: Prop): Option<Condition>
    requires Size(c.body, p.tag) == Some(|p.data|)
  {
    if p.tag == TYPE then Some(c.(conditionType := Unword(p.data)))
    else if p.tag == ID then Some(c.(id := ToInt8(Unword(p.data))))
    else if p.tag == TICKS then Some(c.(ticks := Unsigned(p.data)))
    else if p.tag == SUBID then Some(c.(subId := Unword(p.data)))
    else if p.tag == ISBUFF then Some(c.(isBuff := p.data[0] != 0))
    else match c.body
      case Attributes(skills, stats, k, n) =>
        if p.tag == SKILLS then
          if k < |skills| then Some(c.(body := Attributes(skills[k := Unsigned(p.data)], stats, k + 1, n))) else None
        else if n < |stats| then Some(c.(body := Attributes(skills, stats[n := Unsigned(p.data)], k, n + 1))) else None
      case Regeneration(_, _, _, _) =>
        var x := Unword(p.data);
        Some(c.(body := if p.tag == HEALTHTICKS then c.body.(healthTicks := x)
          else if p.tag == HEALTHGAIN then c.body.(healthGain := x)
          else if p.tag == MANATICKS then c.body.(manaTicks := x) else c.body.(manaGain := x)))
      case Soul(_, _) =>
        var x := Unword(p.data);
        Some(c.(body := if p.tag == SOULGAIN then c.body.(soulGain := x) else c.body.(soulTicks := x)))
      case Damage(_, _, list) =>
        if p.tag == DELAYED then Some(c.(body := c.body.(delayed := p.data[0] != 0)))
        else if p.tag == PERIODDAMAGE then Some(c.(body := c.body.(periodDamage := Unsigned(p.data))))
        else if p.tag == OWNER then Some(c)
        else
          var i := Interval(Unsigned(p.data[..4]), Unsigned(p.data[4..8]), Unsigned(p.data[8..]));
          Some(c.(body := c.body.(damageList := list + [i]), ticks := Later(c.ticks, i)))
      case Speed(_, _, _, _, _) =>
        var x := Unword(p.data);
        Some(c.(body := if p.tag == SPEEDDELTA then c.body.(speedDelta := ToInt32(x))
          else if p.tag == FORMULA_MINA then c.body.(mina := x)
          else if p.tag == FORMULA_MINB then c.body.(minb := x) else if p.tag == FORMULA_MAXA then c.body.(maxa := x)
            else c.body.(maxb := x)))
      case Outfit(_) => Some(c.(body := Body.Outfit(p.data)))
      case Light(_, _, _, _) =>
        var x := Unword(p.data);
        Some(c.(body := if p.tag == LIGHTCOLOR then c.body.(color := x % 0x100)
          else if p.tag == LIGHTLEVEL then c.body.(level := x % 0x100)
          else if p.tag == LIGHTTICKS then c.body.(internalLightTicks := x) else c.body.(lightChangeInterval := x)))
  }

  function Later(ticks: int32, i: Interval): int32
  {
    if ticks == -1 then -1 else ToInt32(ToUInt32(ticks + i.interval))
  }

  // ---------- writing ----------

  function BaseProps(c: Condition): seq<Prop>
  {
    [Prop(TYPE, Word(c.conditionType)), Prop(ID, Word(ToUInt32(c.id))), Prop(TICKS, Signed(c.ticks)),
      Prop(ISBUFF, Flag(c.isBuff)), Prop(SUBID, Word(c.subId))]
  }

  /** Met again among the others, a leading property is taken in whole, as it was written. */
  lemma {:induction false} LeadingSizes(c: Condition, b: Body)
    ensures forall p <- BaseProps(c) :: Size(b, p.tag) == Some(|p.data|)
  {
  }

  function Numbers(tag: byte, values: seq<int32>): seq<Prop>
  {
    if values == [] then [] else [Prop(tag, Signed(values[0]))] + Numbers(tag, values[1..])
  }

  function Intervals(list: seq<Interval>): seq<Prop>
  {
    if list == [] then [] else [Prop(INTERVALDATA, IntervalBytes(list[0]))] + Intervals(list[1..])
  }

  function BodyProps(b: Body): seq<Prop>
  {
    match b
    case Generic => []
    case Attributes(skills, stats, _, _) => Numbers(SKILLS, skills) + Numbers(STATS, stats)
    case Regeneration(ht, hg, mt, mg) =>
      [Prop(HEALTHTICKS, Word(ht)), Prop(HEALTHGAIN, Word(hg)), Prop(MANATICKS, Word(mt)), Prop(MANAGAIN, Word(mg))]
    case Soul(gain, ticks) => [Prop(SOULGAIN, Word(gain)), Prop(SOULTICKS, Word(ticks))]
    case Damage(delayed, period, list) =>
      [Prop(DELAYED, Flag(delayed)), Prop(PERIODDAMAGE, Signed(period))] + Intervals(list)
    case Speed(delta, mina, minb, maxa, maxb) =>
      [Prop(SPEEDDELTA, Signed(delta)), Prop(FORMULA_MINA, Word(mina)), Prop(FORMULA_MINB, Word(minb)),
        Prop(FORMULA_MAXA, Word(maxa)), Prop(FORMULA_MAXB, Word(maxb))]
    case Outfit(outfit) => [Prop(OUTFIT, outfit)]
    case Light(color, level, ticks, interval) =>
      [Prop(LIGHTCOLOR, Word(color)), Prop(LIGHTLEVEL, Word(level)), Prop(LIGHTTICKS, Word(ticks)),
        Prop(LIGHTINTERVAL, Word(interval))]
  }

  // The bytes of a condition, without the tag that ends it
  function Serialized(c: Condition): seq<byte>
  {
    Flat(BaseProps(c)) + Flat(BodyProps(c.body))
  }

  // All persistent conditions of a list
  function Saved(list: seq<Condition>): seq<byte>
  {
    if list == [] then [] else (if IsPersistent(list[0]) then Serialized(list[0]) + [END] else []) + Saved(list[1..])
  }

  // ---------- reading ----------

  datatype Read = Read(ok: bool, condition: Condition, rest: seq<byte>)

  // The properties up to the end tag or the end of the stream
  function ReadProps(c: Condition, s: seq<byte>): Read
    decreases |s|
  {
    if s == [] then Read(true, c, [])
    else if s[0] == END then Read(true, c, s[1..])
    else
      var n := Size(c.body, s[0]);
      if n.None? || |s| - 1 < n.value then Read(false, c, s[1..])
      else
        var c' := Apply(c, Prop(s[0], s[1..1 + n.value]));
        if c'.None? then Read(false, c, s[1 + n.value..]) else ReadProps(c'.value, s[1 + n.value..])
  }

  const HEADER := 22

  // A condition from the five properties at its beginning
  function Create(s: seq<byte>): (c: Option<Condition>)
  {
    if |s| >= HEADER && s[0] == TYPE && s[5] == ID && s[10] == TICKS && s[15] == ISBUFF && s[17] == SUBID then
      New(Unword(s[1..5]), ToInt8(Unword(s[6..10])), Unsigned(s[11..15]), s[16] != 0, Unword(s[18..22]))
    else None
  }

  // A damage condition starts without ticks.
  function New(conditionType: uint32, id: int, ticks: int32, isBuff: bool, subId: uint32): Option<Condition>
  {
    var body := NewBody(conditionType);
    if body.None? then None else
      Some(Condition(conditionType, id, if body.value.Damage? then 0 else ticks, isBuff, subId, body.value))
  }

  // The list of conditions in a stream; each comes in front of those before it.
  function Loaded(s: seq<byte>): seq<Condition>
    decreases |s|
  {
    var c := Create(s);
    if c.None? then [] else
      var r := ReadProps(c.value, s[HEADER..]);
      ReadPropsShorter(c.value, s[HEADER..]);
      Loaded(r.rest) + if r.ok then [r.condition] else []
  }

  lemma {:induction false} ReadPropsShorter(c: Condition, s: seq<byte>)
    ensures |ReadProps(c, s).rest| <= |s|
    decreases |s|
  {
    hide Apply;
    if s != [] && s[0] != END {
      var n := Size(c.body, s[0]);
      if n.Some? && |s| - 1 >= n.value {
        var c' := Apply(c, Prop(s[0], s[1..1 + n.value]));
        if c'.Some? {
          ReadPropsShorter(c'.value, s[1 + n.value..]);
        }
      }
    }
  }

  // ---------- the round trip ----------

  function ApplyAll(c: Condition, props: seq<Prop>): Option<Condition>
    decreases |props|
  {
    if props == [] then Some(c)
    else if props[0].tag == END || Size(c.body, props[0].tag) != Some(|props[0].data|) then None
    else
      var c' := Apply(c, props[0]);
      if c'.None? then None else ApplyAll(c'.value, props[1..])
  }

  lemma {:induction false} ApplyAllConcat(c: Condition, a: seq<Prop>, b: seq<Prop>)
    requires ApplyAll(c, a).Some?
    ensures ApplyAll(c, a + b) == ApplyAll(ApplyAll(c, a).value, b)
    decreases |a|
  {
    hide Apply, Size;
    if a == [] {
      assert a + b == b;
    } else {
      assert (a + b)[0] == a[0] && (a + b)[1..] == a[1..] + b;
      ApplyAllConcat(Apply(c, a[0]).value, a[1..], b);
    }
  }

  // Reading takes in exactly the bytes of the written properties.
  lemma {:induction false} ReadsWhatIsWritten(c: Condition, props: seq<Prop>, tail: seq<byte>)
    requires ApplyAll(c, props).Some?
    ensures ReadProps(c, Flat(props) + [END] + tail) == Read(true, ApplyAll(c, props).value, tail)
    decreases |props|
  {
    hide Apply, Size;
    var s := Flat(props) + [END] + tail;
    if props == [] {
      assert s == [END] + tail;
    } else {
      var p, rest := props[0], Flat(props[1..]) + [END] + tail;
      assert s == [p.tag] + p.data + rest;
      assert s[1..1 + |p.data|] == p.data && s[1 + |p.data|..] == rest;
      ReadsWhatIsWritten(Apply(c, p).value, props[1..], tail);
    }
  }

  // What comes back of a condition: all that was written, with the ticks of a damage condition as the sum
  // of its intervals
  function Reread(c: Condition): Condition
  {
    match c.body
    case Damage(_, _, list) => c.(ticks := LaterAll(0, list))
    case Attributes(skills, stats, _, _) => c.(body := c.body.(currentSkill := |skills|, currentStat := |stats|))
    case _ => c
  }

  function LaterAll(ticks: int32, list: seq<Interval>): int32
    decreases |list|
  {
    if list == [] then ticks else LaterAll(Later(ticks, list[0]), list[1..])
  }

  function SumIntervals(list: seq<Interval>): int
  {
    if list == [] then 0 else list[0].interval + SumIntervals(list[1..])
  }

  // Without wrap-around, the ticks are the sum.
  lemma {:induction false} TicksAreTheSum(ticks: int32, list: seq<Interval>)
    requires ticks >= 0 && (forall i <- list :: i.interval >= 0) && ticks + SumIntervals(list) < 0x8000_0000
    ensures LaterAll(ticks, list) == ticks + SumIntervals(list)
    decreases |list|
  {
    if list != [] {
      SumsArePositive(list[1..]);
      TicksAreTheSum(Later(ticks, list[0]), list[1..]);
    }
  }

  lemma {:induction false} SumsArePositive(list: seq<Interval>)
    requires forall i <- list :: i.interval >= 0
    ensures SumIntervals(list) >= 0
  {
    if list != [] {
      SumsArePositive(list[1..]);
    }
  }

  // A number comes into the next free place.
  lemma {:induction false} NumberApplied(c: Condition, tag: byte, x: int32)
    requires c.body.Attributes? && tag in {SKILLS, STATS}
    requires if tag == SKILLS then c.body.currentSkill < |c.body.skills| else c.body.currentStat < |c.body.stats|
    ensures Size(c.body, tag) == Some(|Signed(x)|)
    ensures Apply(c, Prop(tag, Signed(x))) == Some(c.(body :=
      if tag == SKILLS then c.body.(skills := c.body.skills[c.body.currentSkill := x],
        currentSkill := c.body.currentSkill + 1)
      else c.body.(stats := c.body.stats[c.body.currentStat := x], currentStat := c.body.currentStat + 1)))
  {
    SignedRoundTrip(x);
  }

  lemma {:induction false} NumbersApplied(c: Condition, tag: byte, values: seq<int32>)
    requires c.body.Attributes? && tag in {SKILLS, STATS}
    requires if tag == SKILLS then c.body.currentSkill + |values| == |c.body.skills|
      else c.body.currentStat + |values| == |c.body.stats|
    ensures ApplyAll(c, Numbers(tag, values)) == Some(c.(body :=
      if tag == SKILLS then c.body.(skills := c.body.skills[..c.body.currentSkill] + values,
        currentSkill := |c.body.skills|)
      else c.body.(stats := c.body.stats[..c.body.currentStat] + values, currentStat := |c.body.stats|)))
    decreases |values|
  {
    hide Apply, Size, Signed, ApplyAll, Numbers;
    var b := c.body;
    if values == [] {
      NoNumbers(c, tag);
    } else {
      var x, rest := values[0], values[1..];
      assert values == [x] + rest;
      NumberApplied(c, tag, x);
      FirstNumber(c, tag, x, rest);
      var c' := Apply(c, Prop(tag, Signed(x))).value;
      NumbersApplied(c', tag, rest);
    }
    if tag == SKILLS {
      Filled(b.skills, b.currentSkill, values);
    } else {
      Filled(b.stats, b.currentStat, values);
    }
  }

  lemma {:induction false} NoNumbers(c: Condition, tag: byte)
    ensures ApplyAll(c, Numbers(tag, [])) == Some(c)
  {
  }

  lemma {:induction false} FirstNumber(c: Condition, tag: byte, x: int32, rest: seq<int32>)
    requires tag != END && Size(c.body, tag) == Some(|Signed(x)|)
    ensures var c' := Apply(c, Prop(tag, Signed(x)));
      ApplyAll(c, Numbers(tag, [x] + rest)) == if c'.None? then None else ApplyAll(c'.value, Numbers(tag, rest))
  {
    hide Apply, Size, Signed;
    assert ([x] + rest)[1..] == rest;
    assert ([Prop(tag, Signed(x))] + Numbers(tag, rest))[1..] == Numbers(tag, rest);
  }

  // Values that go one by one into the last places of an array
  lemma {:induction false} Filled(array': seq<int32>, k: nat, values: seq<int32>)
    requires k + |values| == |array'|
    ensures values == [] ==> array'[..k] + values == array'
    ensures values != [] ==> array'[k := values[0]][..k + 1] + values[1..] == array'[..k] + values
  {
  }

  lemma {:induction false} IntervalApplied(c: Condition, i: Interval)
    requires c.body.Damage?
    ensures Size(c.body, INTERVALDATA) == Some(|IntervalBytes(i)|)
    ensures Apply(c, Prop(INTERVALDATA, IntervalBytes(i))) ==
      Some(c.(body := c.body.(damageList := c.body.damageList + [i]), ticks := Later(c.ticks, i)))
  {
    hide Signed, Unsigned, Later;
    SignedRoundTrip(i.timeLeft);
    SignedRoundTrip(i.value);
    SignedRoundTrip(i.interval);
    var data := IntervalBytes(i);
    assert data[..4] == Signed(i.timeLeft) && data[4..8] == Signed(i.value) && data[8..] == Signed(i.interval);
  }

  lemma {:induction false} IntervalsApplied(c: Condition, list: seq<Interval>)
    requires c.body.Damage?
    ensures ApplyAll(c, Intervals(list)) ==
      Some(c.(body := c.body.(damageList := c.body.damageList + list), ticks := LaterAll(c.ticks, list)))
    decreases |list|
  {
    hide Apply, Size, IntervalBytes, Later, ApplyAll;
    if list != [] {
      var i, rest := list[0], list[1..];
      var p := Prop(INTERVALDATA, IntervalBytes(i));
      var c' := c.(body := c.body.(damageList := c.body.damageList + [i]), ticks := Later(c.ticks, i));
      IntervalApplied(c, i);
      StepApplied(c, p, Intervals(rest));
      assert Intervals(list) == [p] + Intervals(rest);
      IntervalsApplied(c', rest);
      assert c'.body.damageList + rest == c.body.damageList + list;
    } else {
      assert c.body.damageList + list == c.body.damageList;
      NothingApplied(c);
    }
  }

  lemma {:induction false} NothingApplied(c: Condition)
    ensures ApplyAll(c, []) == Some(c)
  {
  }

  lemma {:induction false} StepApplied(c: Condition, p: Prop, props: seq<Prop>)
    requires p.tag != END && Size(c.body, p.tag) == Some(|p.data|) && Apply(c, p).Some?
    ensures ApplyAll(c, [p] + props) == ApplyAll(Apply(c, p).value, props)
  {
    hide Apply, Size;
    assert ([p] + props)[1..] == props;
  }

  // A row of properties that leads from state to state
  lemma {:induction false} Chain(states: seq<Condition>, props: seq<Prop>)
    requires |states| == |props| + 1
    requires forall i | 0 <= i < |props| ::
      props[i].tag != END && Size(states[i].body, props[i].tag) == Some(|props[i].data|)
        && Apply(states[i], props[i]) == Some(states[i + 1])
    ensures ApplyAll(states[0], props) == Some(states[|props|])
    decreases |props|
  {
    hide Apply, Size;
    if props != [] {
      assert Apply(states[0], props[0]) == Some(states[1]);
      Chain(states[1..], props[1..]);
    }
  }

  lemma {:induction false} RegenerationApplied(c: Condition, b: Body)
    requires c.body.Regeneration? && b.Regeneration?
    ensures ApplyAll(c, BodyProps(b)) == Some(c.(body := b))
  {
    hide Word, Unword, ApplyAll;
    WordRoundTrip(b.healthTicks);
    WordRoundTrip(b.healthGain);
    WordRoundTrip(b.manaTicks);
    WordRoundTrip(b.manaGain);
    var b1 := c.body.(healthTicks := b.healthTicks);
    var b2 := b1.(healthGain := b.healthGain);
    var b3 := b2.(manaTicks := b.manaTicks);
    Chain([c, c.(body := b1), c.(body := b2), c.(body := b3), c.(body := b)], BodyProps(b));
  }

  lemma {:induction false} SoulApplied(c: Condition, b: Body)
    requires c.body.Soul? && b.Soul?
    ensures ApplyAll(c, BodyProps(b)) == Some(c.(body := b))
  {
    hide Word, Unword, ApplyAll;
    WordRoundTrip(b.soulGain);
    WordRoundTrip(b.soulTicks);
    Chain([c, c.(body := c.body.(soulGain := b.soulGain)), c.(body := b)], BodyProps(b));
  }

  lemma {:induction false} SpeedApplied(c: Condition, b: Body)
    requires c.body.Speed? && b.Speed?
    ensures ApplyAll(c, BodyProps(b)) == Some(c.(body := b))
  {
    hide Word, Unword, ApplyAll;
    SignedRoundTrip(b.speedDelta);
    WordRoundTrip(b.mina);
    WordRoundTrip(b.minb);
    WordRoundTrip(b.maxa);
    WordRoundTrip(b.maxb);
    var b1 := c.body.(speedDelta := b.speedDelta);
    var b2 := b1.(mina := b.mina);
    var b3 := b2.(minb := b.minb);
    var b4 := b3.(maxa := b.maxa);
    Chain([c, c.(body := b1), c.(body := b2), c.(body := b3), c.(body := b4), c.(body := b)], BodyProps(b));
  }

  lemma {:induction false} LightApplied(c: Condition, b: Body)
    requires c.body.Light? && b.Light?
    ensures ApplyAll(c, BodyProps(b)) == Some(c.(body := b))
  {
    hide Word, Unword, ApplyAll;
    WordRoundTrip(b.color);
    WordRoundTrip(b.level);
    WordRoundTrip(b.internalLightTicks);
    WordRoundTrip(b.lightChangeInterval);
    var b1 := c.body.(color := b.color);
    var b2 := b1.(level := b.level);
    var b3 := b2.(internalLightTicks := b.internalLightTicks);
    Chain([c, c.(body := b1), c.(body := b2), c.(body := b3), c.(body := b)], BodyProps(b));
  }

  lemma {:induction false} OutfitApplied(c: Condition, b: Body)
    requires c.body.Outfit? && b.Outfit? && b.Valid()
    ensures ApplyAll(c, BodyProps(b)) == Some(c.(body := b))
  {
    hide ApplyAll;
    Chain([c, c.(body := b)], BodyProps(b));
  }

  lemma {:induction false} DamageApplied(c: Condition, b: Body)
    requires c.body.Damage? && c.body.damageList == [] && b.Damage?
    ensures ApplyAll(c, BodyProps(b)) == Some(c.(body := b, ticks := LaterAll(c.ticks, b.damageList)))
  {
    hide Signed, Unsigned, ApplyAll, Later, LaterAll, IntervalBytes, Intervals;
    SignedRoundTrip(b.periodDamage);
    var first := [Prop(DELAYED, Flag(b.delayed)), Prop(PERIODDAMAGE, Signed(b.periodDamage))];
    var c1 := c.(body := c.body.(delayed := b.delayed));
    var c2 := c1.(body := c1.body.(periodDamage := b.periodDamage));
    Chain([c, c1, c2], first);
    ApplyAllConcat(c, first, Intervals(b.damageList));
    IntervalsApplied(c2, b.damageList);
    assert [] + b.damageList == b.damageList;
  }

  lemma {:induction false} AttributesApplied(c: Condition, b: Body)
    requires c.body.Attributes? && c.body.Valid() && c.body.currentSkill == c.body.currentStat == 0 && b.Attributes?
      && b.Valid()
    ensures ApplyAll(c, BodyProps(b)) == Some(c.(body := b.(currentSkill := SKILL_COUNT, currentStat := STAT_COUNT)))
  {
    hide Apply, Size, ApplyAll, Numbers;
    NumbersApplied(c, SKILLS, b.skills);
    ApplyAllConcat(c, Numbers(SKILLS, b.skills), Numbers(STATS, b.stats));
    NumbersApplied(ApplyAll(c, Numbers(SKILLS, b.skills)).value, STATS, b.stats);
    assert c.body.skills[..0] + b.skills == b.skills && c.body.stats[..0] + b.stats == b.stats;
  }

  // Applying what was written of a condition to a new one of its type gives it back.
  lemma {:induction false} BodyApplied(c: Condition)
    requires Proper(c)
    ensures var made := New(c.conditionType, c.id, c.ticks, c.isBuff, c.subId);
      made.Some? && ApplyAll(made.value, BodyProps(c.body)) == Some(Reread(c))
  {
    hide Apply, Size, ApplyAll, BodyProps, LaterAll;
    var c0 := New(c.conditionType, c.id, c.ticks, c.isBuff, c.subId).value;
    match c.body
    case Generic => NothingApplied(c0); NoProps();
    case Attributes(_, _, _, _) => AttributesApplied(c0, c.body);
    case Regeneration(_, _, _, _) => RegenerationApplied(c0, c.body);
    case Soul(_, _) => SoulApplied(c0, c.body);
    case Damage(_, _, _) => DamageApplied(c0, c.body);
    case Speed(_, _, _, _, _) => SpeedApplied(c0, c.body);
    case Outfit(_) => OutfitApplied(c0, c.body);
    case Light(_, _, _, _) => LightApplied(c0, c.body);
  }

  lemma {:induction false} NoProps()
    ensures BodyProps(Generic) == []
  {
  }

  // The first five properties bring back the new condition.
  lemma {:induction false} CreatedAgain(c: Condition, tail: seq<byte>)
    requires IsPersistent(c)
    ensures |Flat(BaseProps(c))| == HEADER
    ensures Create(Flat(BaseProps(c)) + tail) == New(c.conditionType, c.id, c.ticks, c.isBuff, c.subId)
  {
    hide Word, Unword, New;
    FlatFive(BaseProps(c));
    WordRoundTrip(c.conditionType);
    WordRoundTrip(ToUInt32(c.id));
    SignedRoundTrip(c.ticks);
    WordRoundTrip(c.subId);
    var s := Flat(BaseProps(c)) + tail;
    assert s[1..5] == Word(c.conditionType) && s[6..10] == Word(ToUInt32(c.id)) && s[11..15] == Signed(c.ticks)
      && s[18..22] == Word(c.subId);
  }

  lemma {:induction false} FlatFive(p: seq<Prop>)
    requires |p| == 5
    ensures Flat(p) == [p[0].tag] + p[0].data + [p[1].tag] + p[1].data + [p[2].tag] + p[2].data + [p[3].tag] + p[3].data
      + [p[4].tag] + p[4].data
  {
    assert p[1..][1..] == p[2..] && p[2..][1..] == p[3..] && p[3..][1..] == p[4..] && p[4..][1..] == [];
    assert Flat(p[4..]) == [p[4].tag] + p[4].data;
    assert Flat(p[3..]) == [p[3].tag] + p[3].data + Flat(p[4..]);
    assert Flat(p[2..]) == [p[2].tag] + p[2].data + Flat(p[3..]);
    assert Flat(p[1..]) == [p[1].tag] + p[1].data + Flat(p[2..]);
  }

  // One condition comes back from exactly its own bytes.
  lemma {:induction false} ConditionRoundTrip(c: Condition, tail: seq<byte>)
    requires Proper(c) && IsPersistent(c)
    ensures var s := Serialized(c) + [END] + tail; var made := Create(s);
      made.Some? && |s| >= HEADER && ReadProps(made.value, s[HEADER..]) == Read(true, Reread(c), tail)
  {
    hide Flat, BodyProps, BaseProps, New, Create, ReadProps, ApplyAll, Reread;
    var rest := Flat(BodyProps(c.body)) + [END] + tail;
    var s := Serialized(c) + [END] + tail;
    assert s == Flat(BaseProps(c)) + rest;
    CreatedAgain(c, rest);
    assert s[HEADER..] == rest;
    BodyApplied(c);
    ReadsWhatIsWritten(Create(s).value, BodyProps(c.body), tail);
  }

  // The persistent conditions as they are loaded again: the last one first
  function Returned(list: seq<Condition>): seq<Condition>
  {
    if list == [] then [] else Returned(list[1..]) + if IsPersistent(list[0]) then [Reread(list[0])] else []
  }

  /** Saving and loading a list of conditions gives its persistent ones in reverse order. */
  lemma {:induction false} RoundTrip(list: seq<Condition>)
    requires forall c <- list :: Proper(c)
    ensures Loaded(Saved(list)) == Returned(list)
  {
    hide Proper, Serialized, ReadProps, Create, Reread;
    if list == [] {
      NothingToCreate();
    } else {
      RoundTrip(list[1..]);
      var c, tail := list[0], Saved(list[1..]);
      if IsPersistent(c) {
        ConditionRoundTrip(c, tail);
        assert Saved(list) == Serialized(c) + [END] + tail;
      } else {
        assert Saved(list) == tail;
      }
    }
  }

  lemma {:induction false} NothingToCreate()
    ensures Create([]) == None
  {
  }
}
