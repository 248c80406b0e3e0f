/**
  The conditions of a creature and the modifiers they leave on its speed, skills and stats.  Every condition
  adds its share when it starts and takes the same share away when it ends.
 */
module ConditionLedger {
  import opened Options

  const HASTE := 0x10
  const PARALYZE := 0x20
  const ATTRIBUTES := 0x8_0000
  const SKILL_COUNT := 13
  const STAT_COUNT := 4
  const MODIFIERS := 18

  datatype Effect =
    | Speed(speedDelta: int)
    | Attributes(skills: seq<int>, skillsPercent: seq<int>, stats: seq<int>, statsPercent: seq<int>)
    | Other

  datatype Condition = Condition(kind: int, id: int, subId: nat, ticks: int, endTime: int, effect: Effect)

  // The class of a condition follows from its type.
  ghost predicate Proper(c: Condition)
  {
    && (c.effect.Speed? <==> c.kind == HASTE || c.kind == PARALYZE)
    && (c.effect.Attributes? <==> c.kind == ATTRIBUTES)
    && Sized(c.effect)
  }

  predicate Sized(e: Effect)
  {
    e.Attributes? ==>
      && |e.skills| == |e.skillsPercent| == SKILL_COUNT && |e.stats| == |e.statsPercent| == STAT_COUNT
  }

  predicate SameKey(a: Condition, b: Condition)
  {
    a.kind == b.kind && a.id == b.id && a.subId == b.subId
  }

  // At most one condition of each type, id and subId
  ghost predicate Keyed(list: seq<Condition>)
  {
    && (forall c <- list :: Proper(c))
    && forall i, j | 0 <= i < j < |list| :: !SameKey(list[i], list[j])
  }

  // ---------- modifiers: the speed, the skills and the stats in a row ----------

  function Row(speed: int, skills: seq<int>, stats: seq<int>): seq<int>
  {
    [speed] + skills + stats
  }

  function Zeros(n: nat): seq<int>
  {
    seq(n, _ => 0)
  }

  function Plus(a: seq<int>, b: seq<int>): (r: seq<int>)
    requires |a| == |b|
    ensures |r| == |a|
  {
    seq(|a|, i requires 0 <= i < |a| => a[i] + b[i])
  }

  function Minus(a: seq<int>, b: seq<int>): (r: seq<int>)
    requires |a| == |b|
    ensures |r| == |a|
  {
    seq(|a|, i requires 0 <= i < |a| => a[i] - b[i])
  }

  // What a condition adds to the modifiers; attributes are for players only.
  function Shares(player: bool, c: Condition): seq<int>
  {
    match c.effect
    case Speed(delta) => Row(delta, Zeros(SKILL_COUNT), Zeros(STAT_COUNT))
    case Attributes(skills, _, stats, _) => if player then Row(0, skills, stats) else Zeros(MODIFIERS)
    case Other => Zeros(MODIFIERS)
  }

  lemma {:induction false} SharesFit(player: bool, c: Condition)
    requires Proper(c)
    ensures |Shares(player, c)| == MODIFIERS
  {
  }

  ghost function Total(player: bool, list: seq<Condition>): (r: seq<int>)
    requires forall c <- list :: Proper(c)
    ensures |r| == MODIFIERS
  {
    if list == [] then Zeros(MODIFIERS) else
      SharesFit(player, list[0]);
      Plus(Shares(player, list[0]), Total(player, list[1..]))
  }

  lemma {:induction false} TotalConcat(player: bool, a: seq<Condition>, b: seq<Condition>)
    requires (forall c <- a :: Proper(c)) && forall c <- b :: Proper(c)
    ensures forall c <- a + b :: Proper(c)
    ensures Total(player, a + b) == Plus(Total(player, a), Total(player, b))
  {
    hide Proper, Shares;
    if a == [] {
      assert a + b == b;
    } else {
      assert (a + b)[1..] == a[1..] + b;
      SharesFit(player, a[0]);
      TotalConcat(player, a[1..], b);
    }
  }

  lemma {:induction false} TotalOne(player: bool, c: Condition)
    requires Proper(c)
    ensures |Shares(player, c)| == MODIFIERS && Total(player, [c]) == Shares(player, c)
  {
    hide Proper, Shares;
    SharesFit(player, c);
    assert Total(player, [c]) == Plus(Shares(player, c), Zeros(MODIFIERS));
  }

  // The row is what comes from outside and from the conditions of the list.
  ghost predicate Balanced(player: bool, row: seq<int>, external: seq<int>, list: seq<Condition>)
  {
    && (forall c <- list :: Proper(c))
    && |row| == |external| == MODIFIERS && row == Plus(external, Total(player, list))
  }

  lemma {:induction false} BalancedWith(player: bool, row: seq<int>, external: seq<int>, list: seq<Condition>,
                                        c: Condition)
    requires Balanced(player, row, external, list) && Proper(c)
    ensures |Shares(player, c)| == MODIFIERS && Balanced(player, Plus(row, Shares(player, c)), external, list + [c])
  {
    hide Proper, Shares, Total;
    TotalConcat(player, list, [c]);
    TotalOne(player, c);
  }

  // Taking out one condition, or putting another in its place
  lemma {:induction false} BalancedWithout(player: bool, row: seq<int>, external: seq<int>, list: seq<Condition>,
                                           i: nat)
    requires Balanced(player, row, external, list) && i < |list|
    ensures |Shares(player, list[i])| == MODIFIERS
    ensures Balanced(player, Minus(row, Shares(player, list[i])), external, list[..i] + list[i + 1..])
  {
    hide Proper, Shares, Total;
    assert list == list[..i] + ([list[i]] + list[i + 1..]);
    TotalConcat(player, list[..i], [list[i]] + list[i + 1..]);
    TotalConcat(player, [list[i]], list[i + 1..]);
    TotalConcat(player, list[..i], list[i + 1..]);
    TotalOne(player, list[i]);
  }

  lemma {:induction false} BalancedInstead(player: bool, row: seq<int>, external: seq<int>, list: seq<Condition>,
                                           i: nat, c: Condition)
    requires Balanced(player, row, external, list) && i < |list| && Proper(c)
    ensures |Shares(player, list[i])| == |Shares(player, c)| == MODIFIERS
    ensures Balanced(player, Plus(Minus(row, Shares(player, list[i])), Shares(player, c)), external, list[i := c])
  {
    hide Proper, Shares, Total;
    assert list == list[..i] + ([list[i]] + list[i + 1..]);
    assert list[i := c] == list[..i] + ([c] + list[i + 1..]);
    TotalConcat(player, list[..i], [list[i]] + list[i + 1..]);
    TotalConcat(player, [list[i]], list[i + 1..]);
    TotalConcat(player, list[..i], [c] + list[i + 1..]);
    TotalConcat(player, [c], list[i + 1..]);
    TotalOne(player, list[i]);
    TotalOne(player, c);
  }

  // Speed, skills and stats go their own ways.
  lemma {:induction false} RowPlus(d: int, skills: seq<int>, stats: seq<int>, e: int, skills': seq<int>,
                                   stats': seq<int>)
    requires |skills| == |skills'| == SKILL_COUNT && |stats| == |stats'| == STAT_COUNT
    ensures |Row(d, skills, stats)| == |Row(e, skills', stats')| == MODIFIERS
    ensures Row(d + e, Plus(skills, skills'), Plus(stats, stats')) ==
      Plus(Row(d, skills, stats), Row(e, skills', stats'))
    ensures Row(d - e, Minus(skills, skills'), Minus(stats, stats')) ==
      Minus(Row(d, skills, stats), Row(e, skills', stats'))
  {
  }

  lemma {:induction false} RowPlusSpeed(d: int, skills: seq<int>, stats: seq<int>, e: int)
    requires |skills| == SKILL_COUNT && |stats| == STAT_COUNT
    ensures |Row(d, skills, stats)| == |Row(e, Zeros(SKILL_COUNT), Zeros(STAT_COUNT))| == MODIFIERS
    ensures Row(d + e, skills, stats) == Plus(Row(d, skills, stats), Row(e, Zeros(SKILL_COUNT), Zeros(STAT_COUNT)))
    ensures Row(d - e, skills, stats) == Minus(Row(d, skills, stats), Row(e, Zeros(SKILL_COUNT), Zeros(STAT_COUNT)))
    ensures Zeros(MODIFIERS) == Row(0, Zeros(SKILL_COUNT), Zeros(STAT_COUNT))
  {
    RowPlus(d, skills, stats, e, Zeros(SKILL_COUNT), Zeros(STAT_COUNT));
    assert Plus(skills, Zeros(SKILL_COUNT)) == skills == Minus(skills, Zeros(SKILL_COUNT));
    assert Plus(stats, Zeros(STAT_COUNT)) == stats == Minus(stats, Zeros(STAT_COUNT));
  }

  // ---------- percentages ----------

  // p percent of x, less x, rounded towards zero
  function Part(x: int, p: int): int
  {
    var y := x * (p - 100);
    if y >= 0 then y / 100 else -(-y / 100)
  }

  /** Part is (p - 100) percent of x, rounded towards zero: nothing at 100 percent, x itself at 200 and -x at none; of a
      positive value it grows with the percentage. */
  lemma {:induction false} PartIsPercent(x: int, p: int, q: int)
    ensures Part(x, 100) == 0 && Part(x, 200) == x && Part(x, 0) == -x
    ensures x >= 0 && p <= q ==> Part(x, p) <= Part(x, q)
    ensures var y := x * (p - 100);
      if y >= 0 then 100 * Part(x, p) <= y < 100 * Part(x, p) + 100
      else 100 * Part(x, p) - 100 < y <= 100 * Part(x, p)
  {
    if x >= 0 && p <= q {
      Scaled(x, p - 100, q - 100);
    }
  }

  lemma {:induction false} Scaled(x: int, a: int, b: int)
    requires x >= 0 && a <= b
    ensures x * a <= x * b
  {
  }

  function AtLeast(x: int, least: int): int
  {
    if x < least then least else x
  }

  // A condition that can be in effect beside others
  ghost predicate NewKey(list: seq<Condition>, c: Condition)
  {
    forall d <- list :: !SameKey(d, c)
  }

  /** Conditions are in effect side by side unless type, id and subId are all the same. */
  lemma {:induction false} BesideOthers(list: seq<Condition>, c: Condition)
    ensures NewKey(list, c) <==> forall d <- list :: d.kind != c.kind || d.id != c.id || d.subId != c.subId
  {
  }

  class Creature {
    const isPlayer: bool
    var conditions: seq<Condition>
    var varSpeed: int
    var varSkills: seq<int>
    var varStats: seq<int>
    // The modifiers from anything else, such as equipment
    ghost var external: seq<int>

    // What percentages are taken from
    const baseSkills: seq<int>
    const healthMax: int
    const manaMax: int
    const magLevel: int

    ghost predicate Fits()
      reads this`varSkills, this`varStats
    {
      |varSkills| == |baseSkills| == SKILL_COUNT && |varStats| == STAT_COUNT
    }

    ghost function Modifiers(): seq<int>
      reads this`varSpeed, this`varSkills, this`varStats
    {
      Row(varSpeed, varSkills, varStats)
    }

    /** The modifiers are the external ones and the sum over the active conditions. */
    ghost predicate Valid()
      reads this`conditions, this`varSpeed, this`varSkills, this`varStats, this`external
    {
      Fits() && Keyed(conditions) && Balanced(isPlayer, Modifiers(), external, conditions)
    }

    constructor (isPlayer: bool, baseSkills: seq<int>, healthMax: int, manaMax: int, magLevel: int)
      requires |baseSkills| == SKILL_COUNT
      ensures Valid() && conditions == [] && this.isPlayer == isPlayer && this.baseSkills == baseSkills
      ensures this.healthMax == healthMax && this.manaMax == manaMax && this.magLevel == magLevel
    {
      this.isPlayer, this.baseSkills, this.healthMax, this.manaMax, this.magLevel :=
        isPlayer, baseSkills, healthMax, manaMax, magLevel;
      conditions, varSpeed, varSkills, varStats, external :=
        [], 0, Zeros(SKILL_COUNT), Zeros(STAT_COUNT), Zeros(MODIFIERS);
      new;
      assert Modifiers() == Plus(external, Total(isPlayer, conditions));
    }

    method ChangeSpeed(varSpeedDelta: int)
      modifies this`varSpeed
      ensures varSpeed == old(varSpeed) + varSpeedDelta
    {
      varSpeed := varSpeed + varSpeedDelta;
    }

    /** A change that comes from no condition */
    method ChangeSpeedFromOutside(varSpeedDelta: int)
      requires Valid()
      modifies this`varSpeed, this`external
      ensures Valid() && varSpeed == old(varSpeed) + varSpeedDelta
      ensures external == old(external)[0 := old(external)[0] + varSpeedDelta]
    {
      ghost var total := Total(isPlayer, conditions);
      hide Total, Proper;
      ChangeSpeed(varSpeedDelta);
      external := external[0 := external[0] + varSpeedDelta];
      assert Modifiers() == Plus(external, total) by {
        assert Modifiers() == old(Modifiers())[0 := old(Modifiers())[0] + varSpeedDelta];
      }
    }

    // ---------- attributes ----------

    method UpdateSkills(skills: seq<int>)
      requires Fits() && |skills| == SKILL_COUNT
      modifies this`varSkills
      ensures varSkills == Plus(old(varSkills), skills)
    {
      for i := 0 to SKILL_COUNT
        invariant |varSkills| == SKILL_COUNT
        invariant forall j | 0 <= j < SKILL_COUNT :: varSkills[j] == old(varSkills)[j] + if j < i then skills[j] else 0
      {
        if skills[i] != 0 {
          varSkills := varSkills[i := varSkills[i] + skills[i]];
        }
      }
    }

    method UpdateStats(stats: seq<int>)
      requires Fits() && |stats| == STAT_COUNT
      modifies this`varStats
      ensures varStats == Plus(old(varStats), stats)
    {
      for i := 0 to STAT_COUNT
        invariant |varStats| == STAT_COUNT
        invariant forall j | 0 <= j < STAT_COUNT :: varStats[j] == old(varStats)[j] + if j < i then stats[j] else 0
      {
        if stats[i] != 0 {
          varStats := varStats[i := varStats[i] + stats[i]];
        }
      }
    }

    // Percentages count from a hundred, of the base value; of health and mana they count what else adds to them.
    function SkillPoints(e: Effect): (skills: seq<int>)
      requires Sized(e) && e.Attributes? && |baseSkills| == SKILL_COUNT
      ensures |skills| == SKILL_COUNT
    {
      seq(SKILL_COUNT, i requires 0 <= i < SKILL_COUNT =>
        if e.skillsPercent[i] == 0 then e.skills[i] else Part(baseSkills[i], e.skillsPercent[i]))
    }

    function StatPoints(e: Effect, varStats: seq<int>): (stats: seq<int>)
      requires Sized(e) && e.Attributes? && |varStats| == STAT_COUNT
      ensures |stats| == STAT_COUNT
    {
      var p := e.statsPercent;
      [if p[0] == 0 then e.stats[0] else Part(AtLeast(healthMax + varStats[0], 1), p[0]),
       if p[1] == 0 then e.stats[1] else Part(AtLeast(manaMax + varStats[1], 0), p[1]),
       e.stats[2],
       if p[3] == 0 then e.stats[3] else Part(magLevel, p[3])]
    }

    method PercentSkills(e: Effect) returns (skills: seq<int>)
      requires Fits() && Sized(e) && e.Attributes?
      ensures skills == SkillPoints(e)
    {
      skills := e.skills;
      for i := 0 to SKILL_COUNT
        invariant |skills| == SKILL_COUNT
        invariant forall j | 0 <= j < SKILL_COUNT ::
          skills[j] == if j >= i || e.skillsPercent[j] == 0 then e.skills[j]
            else Part(baseSkills[j], e.skillsPercent[j])
      {
        if e.skillsPercent[i] != 0 {
          skills := skills[i := Part(baseSkills[i], e.skillsPercent[i])];
        }
      }
    }

    method PercentStats(e: Effect) returns (stats: seq<int>)
      requires Fits() && Sized(e) && e.Attributes?
      ensures stats == StatPoints(e, varStats)
    {
      stats := e.stats;
      if e.statsPercent[0] != 0 {
        stats := stats[0 := Part(AtLeast(healthMax + varStats[0], 1), e.statsPercent[0])];
      }
      if e.statsPercent[1] != 0 {
        stats := stats[1 := Part(AtLeast(manaMax + varStats[1], 0), e.statsPercent[1])];
      }
      if e.statsPercent[3] != 0 {
        stats := stats[3 := Part(magLevel, e.statsPercent[3])];
      }
    }

    // ---------- one condition ----------

    // The effect a condition has once it has started: a speed without value is the formula's, and percentages of a
    // player are points.
    function Started(e: Effect, varStats: seq<int>, formula: int): (e': Effect)
      requires Sized(e) && |baseSkills| == SKILL_COUNT && |varStats| == STAT_COUNT
      ensures Sized(e') && (e'.Speed? <==> e.Speed?) && (e'.Attributes? <==> e.Attributes?)
    {
      match e
      case Speed(delta) => Speed(if delta == 0 then formula else delta)
      case Attributes(_, _, _, _) =>
        if isPlayer then e.(skills := SkillPoints(e), stats := StatPoints(e, varStats)) else e
      case Other => e
    }

    // A condition in effect after one of its key has been added: it has the time and the effect of that one, started
    // after its own has ended, unless it lasts longer.
    function MergedWith(prev: Condition, c: Condition, varStats: seq<int>, now: int, formula: int): Condition
      requires Sized(prev.effect) && Sized(c.effect) && (c.effect.Attributes? ==> prev.effect.Attributes?)
      requires |baseSkills| == SKILL_COUNT && |varStats| == STAT_COUNT
    {
      if !Replaces(prev, c, now) then prev
      else
        var left := if c.effect.Attributes? && isPlayer then Minus(varStats, prev.effect.stats) else varStats;
        prev.(ticks := c.ticks, endTime := c.ticks + now,
          effect := if c.effect.Other? then prev.effect else Started(c.effect, left, formula))
    }

    /**
      Puts a condition into effect: it adds exactly its share, in which a speed without value is the formula's and
      percentages are turned into points.
     */
    method Apply(c: Condition, formula: int) returns (c': Condition)
      requires Fits() && Proper(c)
      modifies this`varSpeed, this`varSkills, this`varStats
      ensures Fits() && Proper(c') && c' == c.(effect := Started(c.effect, old(varStats), formula))
      ensures |Shares(isPlayer, c')| == |old(Modifiers())|
        && Modifiers() == Plus(old(Modifiers()), Shares(isPlayer, c'))
    {
      hide Row, Plus, Minus, Zeros, Part;
      c' := c;
      RowPlusSpeed(varSpeed, varSkills, varStats, 0);
      match c.effect
      case Speed(delta) =>
        var speedDelta := if delta == 0 then formula else delta;
        RowPlusSpeed(varSpeed, varSkills, varStats, speedDelta);
        c' := c.(effect := Speed(speedDelta));
        ChangeSpeed(speedDelta);
      case Attributes(_, _, _, _) =>
        if isPlayer {
          var skills := PercentSkills(c.effect);
          UpdateSkills(skills);
          var stats := PercentStats(c.effect);
          UpdateStats(stats);
          c' := c.(effect := c.effect.(skills := skills, stats := stats));
          RowPlus(old(varSpeed), old(varSkills), old(varStats), 0, skills, stats);
        }
      case Other =>
    }

    /** Ends a condition: it takes away exactly its share. */
    method EndCondition(c: Condition)
      requires Fits() && Proper(c)
      modifies this`varSpeed, this`varSkills, this`varStats
      ensures Fits()
      ensures varStats ==
        if c.effect.Attributes? && isPlayer then Minus(old(varStats), c.effect.stats) else old(varStats)
      ensures |Shares(isPlayer, c)| == |old(Modifiers())| && Modifiers() == Minus(old(Modifiers()), Shares(isPlayer, c))
    {
      hide Row, Plus, Minus, Zeros, Negated;
      RowPlusSpeed(varSpeed, varSkills, varStats, 0);
      match c.effect
      case Speed(delta) =>
        RowPlusSpeed(varSpeed, varSkills, varStats, delta);
        ChangeSpeed(-delta);
      case Attributes(skills, skillsPercent, stats, _) =>
        if isPlayer {
          NegatedIsMinus(varSkills, skills);
          NegatedIsMinus(varStats, stats);
          UpdateSkills(Negated(skills));
          UpdateStats(Negated(stats));
          RowPlus(old(varSpeed), old(varSkills), old(varStats), 0, skills, stats);
        }
      case Other =>
    }

    // ---------- the list of conditions ----------

    /** A condition taken out of the list takes its share with it. */
    method RemoveAt(i: nat)
      requires Valid() && i < |conditions|
      modifies this`conditions, this`varSpeed, this`varSkills, this`varStats
      ensures Valid() && conditions == old(conditions)[..i] + old(conditions)[i + 1..]
    {
      hide Balanced, Keyed, Proper, Shares;
      var condition := conditions[i];
      KeyedWithout(conditions, i);
      BalancedWithout(isPlayer, Modifiers(), external, conditions, i);
      conditions := conditions[..i] + conditions[i + 1..];
      EndCondition(condition);
    }

    /** Adds a condition to one with the same key that is in effect already. */
    method MergeInto(i: nat, c: Condition, now: int, formula: int)
      requires Valid() && Proper(c) && i < |conditions| && Proper(conditions[i]) && SameKey(conditions[i], c)
      modifies this`conditions, this`varSpeed, this`varSkills, this`varStats
      ensures Valid()
      ensures conditions == old(conditions)[i := MergedWith(old(conditions)[i], c, old(varStats), now, formula)]
    {
      hide Balanced, Keyed, Shares, Plus, Minus;
      var prev := conditions[i];
      KeyedInside(conditions, i);
      var c' := prev;
      BalancedInstead(isPlayer, Modifiers(), external, conditions, i, prev);
      match c.effect {
        case Speed(_) =>
          if prev.ticks == -1 && c.ticks > 0 {
            return;
          }
          var old' := prev.effect.speedDelta;
          var speedDelta := if c.effect.speedDelta == 0 then formula else c.effect.speedDelta;
          c' := prev.(ticks := c.ticks, endTime := c.ticks + now, effect := Speed(speedDelta));
          BalancedInstead(isPlayer, Modifiers(), external, conditions, i, c');
          SpeedsApart(isPlayer, prev, c', Modifiers(), varSkills, varStats, varSpeed);
          if speedDelta != old' {
            ChangeSpeed(speedDelta - old');
          }
        case Attributes(_, _, _, _) =>
          if !Updates(prev, c, now) {
            return;
          }
          EndCondition(prev);
          c' := Apply(prev.(ticks := c.ticks, endTime := c.ticks + now, effect := c.effect), formula);
          BalancedInstead(isPlayer, old(Modifiers()), external, conditions, i, c');
        case Other =>
          if !Updates(prev, c, now) {
            return;
          }
          c' := prev.(ticks := c.ticks, endTime := c.ticks + now);
          BalancedInstead(isPlayer, Modifiers(), external, conditions, i, c');
          NoShare(isPlayer, prev, c', Modifiers());
      }
      KeyedInstead(conditions, i, c');
      conditions := conditions[i := c'];
    }

    /**
      Adds a condition.  Haste waits while a paralysed creature walks; a condition with the key of one in effect
      is merged into that one; any other starts and goes to the end of the list, unless it fails to start.
     */
    method AddCondition(c: Condition, force: bool, walking: bool, suppressed: bool, starts: bool, now: int,
                        formula: int) returns (added: bool)
      requires Valid() && Proper(c)
      modifies this`conditions, this`varSpeed, this`varSkills, this`varStats
      ensures Valid()
      ensures !added ==> conditions == old(conditions)
      ensures added <==>
        && !(!force && c.kind == HASTE && walking && !suppressed && InEffect(old(conditions), PARALYZE, now))
        && (!NewKey(old(conditions), c) || !c.effect.Other? || starts)
      ensures added && NewKey(old(conditions), c) ==>
        conditions == old(conditions) +
          [c.(endTime := if c.ticks > 0 then c.ticks + now else c.endTime,
            effect := Started(c.effect, old(varStats), formula))]
      ensures added && !NewKey(old(conditions), c) ==>
        exists i :: 0 <= i < |old(conditions)| && SameKey(old(conditions)[i], c)
          && conditions == old(conditions)[i := MergedWith(old(conditions)[i], c, old(varStats), now, formula)]
    {
      hide Balanced, Shares, Keyed;
      if !force && c.kind == HASTE && walking && !suppressed && InEffect(conditions, PARALYZE, now) {
        return false;
      }
      var i := 0;
      while i < |conditions| && !SameKey(conditions[i], c)
        invariant 0 <= i <= |conditions|
        invariant forall j | 0 <= j < i :: !SameKey(conditions[j], c)
      {
        i := i + 1;
      }
      if i < |conditions| {
        KeyedInside(conditions, i);
        MergeInto(i, c, now, formula);
        return true;
      }
      if c.effect.Other? && !starts {
        return false;
      }
      var c' := Apply(if c.ticks > 0 then c.(endTime := c.ticks + now) else c, formula);
      KeyedWith(conditions, c');
      BalancedWith(isPlayer, old(Modifiers()), external, conditions, c');
      conditions := conditions + [c'];
      added := true;
    }

    /** Removes all conditions of a type (and of an id); a paralysis waits while the creature walks. */
    method RemoveConditions(kind: int, id: Option<int>, force: bool, walking: bool)
      requires Valid()
      modifies this`conditions, this`varSpeed, this`varSkills, this`varStats
      ensures Valid()
      ensures conditions == if !force && kind == PARALYZE && walking then old(conditions)
        else Without(old(conditions), kind, id)
    {
      hide Balanced, Keyed, Shares, Proper, Row, Total, Without;
      var it := 0;
      ghost var done, rest := [], conditions;
      NothingLeft(kind, id, 0, 0);
      while it < |conditions|
        invariant Valid() && conditions == done + rest && it == |done|
        invariant done + Without(rest, kind, id) == Without(old(conditions), kind, id)
        invariant !force && kind == PARALYZE && walking ==> conditions == old(conditions)
        decreases |rest|
      {
        InTwo(done, rest, rest[0]);
        WithoutStep(done, rest, kind, id);
        if !Matches(conditions[it], kind, id) {
          it := it + 1;
          done := done + [rest[0]];
        } else {
          if !force && kind == PARALYZE && walking {
            return;
          }
          RemoveAt(it);
        }
        rest := rest[1..];
      }
    }

    /** Lets time pass for all conditions; those whose time is over end. */
    method ExecuteConditions(interval: int, now: int)
      requires Valid()
      modifies this`conditions, this`varSpeed, this`varSkills, this`varStats
      ensures Valid()
      ensures conditions == Executed(old(conditions), interval, now)
    {
      hide Balanced, Keyed, Shares, Proper, Row, Total, Executed;
      var it := 0;
      ghost var done, rest := [], conditions;
      NothingLeft(0, None, interval, now);
      while it < |conditions|
        invariant Valid() && conditions == done + rest && it == |done|
        invariant done + Executed(rest, interval, now) == Executed(old(conditions), interval, now)
        decreases |rest|
      {
        var c := Ticked(conditions[it], interval);
        InTwo(done, rest, c);
        ExecutedStep(done, rest, interval, now);
        TicksOnly(isPlayer, Modifiers(), external, conditions, it, c);
        conditions := conditions[it := c];
        if c.ticks == -1 || c.endTime >= now {
          it := it + 1;
          done := done + [c];
        } else {
          InTwo(done, [c] + rest[1..], c);
          RemoveAt(it);
        }
        rest := rest[1..];
      }
    }
  }

  lemma {:induction false} InTwo(done: seq<Condition>, rest: seq<Condition>, c: Condition)
    requires rest != []
    ensures var list := done + rest; var i := |done|;
      && list[i] == rest[0] && list == done + [rest[0]] + rest[1..]
      && list[..i] + list[i + 1..] == done + rest[1..]
      && list[i := c] == done + [c] + rest[1..] == done + ([c] + rest[1..])
    ensures ([c] + rest[1..])[1..] == rest[1..]
  {
  }

  predicate Matches(c: Condition, kind: int, id: Option<int>)
  {
    c.kind == kind && (id.None? || c.id == id.value)
  }

  function Without(list: seq<Condition>, kind: int, id: Option<int>): seq<Condition>
  {
    if list == [] then [] else (if Matches(list[0], kind, id) then [] else [list[0]]) + Without(list[1..], kind, id)
  }

  predicate InEffect(list: seq<Condition>, kind: int, now: int)
  {
    exists i | 0 <= i < |list| :: list[i].kind == kind && list[i].subId == 0 && list[i].endTime >= now
  }

  function Ticked(c: Condition, interval: int): Condition
  {
    if c.ticks == -1 then c else c.(ticks := AtLeast(c.ticks - interval, 0))
  }

  // What is left of a list of conditions after some time
  function Executed(list: seq<Condition>, interval: int, now: int): seq<Condition>
  {
    if list == [] then [] else
      (if list[0].ticks == -1 || list[0].endTime >= now then [Ticked(list[0], interval)] else [])
        + Executed(list[1..], interval, now)
  }

  /** What stays is exactly what is of another kind, or of another id where one is given. */
  lemma {:induction false} WithoutExactly(list: seq<Condition>, kind: int, id: Option<int>)
    ensures forall c :: c in Without(list, kind, id) <==>
      c in list && (c.kind != kind || (id.Some? && c.id != id.value))
  {
    if list != [] {
      WithoutExactly(list[1..], kind, id);
      assert forall c :: c in list <==> c == list[0] || c in list[1..];
    }
  }

  /** A kind is in effect from when a condition of it is added until its end time has passed or it is removed. */
  lemma {:induction false} InEffectExactly(list: seq<Condition>, c: Condition, kind: int, now: int)
    ensures !InEffect([], kind, now) && !InEffect(Without(list, kind, None), kind, now)
    ensures InEffect(list + [c], kind, now) <==>
      InEffect(list, kind, now) || (c.kind == kind && c.subId == 0 && now <= c.endTime)
  {
    WithoutExactly(list, kind, None);
    var without, more := Without(list, kind, None), list + [c];
    forall i | 0 <= i < |without|
      ensures without[i].kind != kind
    {
      assert without[i] in without;
    }
    if i :| 0 <= i < |list| && list[i].kind == kind && list[i].subId == 0 && list[i].endTime >= now {
      assert more[i] == list[i];
    } else if c.kind == kind && c.subId == 0 && now <= c.endTime {
      assert more[|list|] == c;
    }
  }

  /** Time runs down by exactly the interval, to nothing and not further; two intervals are like their sum; what has no
      end keeps none. */
  lemma {:induction false} TimeRunsDown(c: Condition, a: nat, b: nat)
    ensures Ticked(Ticked(c, a), b) == Ticked(c, a + b)
    ensures c.ticks == -1 ==> Ticked(c, a) == c
    ensures c.ticks >= a ==> Ticked(c, a) == c.(ticks := c.ticks - a)
    ensures 0 <= c.ticks < a ==> Ticked(c, a) == c.(ticks := 0)
  {
  }

  lemma {:induction false} NothingLeft(kind: int, id: Option<int>, interval: int, now: int)
    ensures Without([], kind, id) == Executed([], interval, now) == []
  {
  }

  lemma {:induction false} WithoutStep(done: seq<Condition>, rest: seq<Condition>, kind: int, id: Option<int>)
    requires rest != []
    ensures done + Without(rest, kind, id) ==
      (if Matches(rest[0], kind, id) then done else done + [rest[0]]) + Without(rest[1..], kind, id)
  {
  }

  lemma {:induction false} ExecutedStep(done: seq<Condition>, rest: seq<Condition>, interval: int, now: int)
    requires rest != []
    ensures done + Executed(rest, interval, now)
      == (if rest[0].ticks == -1 || rest[0].endTime >= now then done + [Ticked(rest[0], interval)] else done)
        + Executed(rest[1..], interval, now)
  {
  }

  // When the last condition has ended, only what comes from elsewhere is left.
  lemma {:induction false} AllEnded(c: Creature)
    requires c.Valid() && c.conditions == []
    ensures c.Modifiers() == c.external
  {
    assert Plus(c.external, Zeros(MODIFIERS)) == c.external;
  }

  // Ticks are no modifiers.
  lemma {:induction false} TicksOnly(player: bool, row: seq<int>, external: seq<int>, list: seq<Condition>, i: nat,
                                     c: Condition)
    requires Keyed(list) && Balanced(player, row, external, list) && i < |list| && c == list[i].(ticks := c.ticks)
    ensures Keyed(list[i := c]) && Balanced(player, row, external, list[i := c])
  {
    KeyedInside(list, i);
    KeyedInstead(list, i, c);
    BalancedInstead(player, row, external, list, i, c);
    assert Shares(player, list[i]) == Shares(player, c);
    hide Shares, Total, Keyed, Proper;
    assert Plus(Minus(row, Shares(player, c)), Shares(player, c)) == row;
  }

  // Whether a condition of the same key replaces the one in effect
  predicate Updates(prev: Condition, c: Condition, now: int)
  {
    prev.kind == c.kind && !(prev.ticks == -1 && c.ticks > 0) && !(c.ticks >= 0 && prev.endTime > now + c.ticks)
  }

  /** Of two conditions of a kind the one that lasts longer counts: one without end is replaced by none that has one and
      replaces any, and otherwise the later end decides; with equal ends the new one counts. */
  lemma {:induction false} LongerCounts(prev: Condition, c: Condition, now: int)
    ensures prev.kind != c.kind ==> !Updates(prev, c, now)
    ensures prev.kind == c.kind && c.ticks < 0 ==> Updates(prev, c, now)
    ensures prev.kind == c.kind && prev.ticks == -1 && c.ticks > 0 ==> !Updates(prev, c, now)
    ensures prev.kind == c.kind && c.ticks >= 0 && (prev.ticks != -1 || c.ticks == 0) ==>
      (Updates(prev, c, now) <==> now + c.ticks >= prev.endTime)
  {
  }

  predicate Replaces(prev: Condition, c: Condition, now: int)
  {
    if c.effect.Speed? then !(prev.ticks == -1 && c.ticks > 0) else Updates(prev, c, now)
  }

  lemma {:induction false} KeyedInside(list: seq<Condition>, i: nat)
    requires Keyed(list) && i < |list|
    ensures Proper(list[i])
  {
    assert list[i] in list;
  }

  lemma {:induction false} KeyedWithout(list: seq<Condition>, i: nat)
    requires Keyed(list) && i < |list|
    ensures Keyed(list[..i] + list[i + 1..]) && Proper(list[i])
  {
    hide Proper;
    assert list[i] in list;
    forall c | c in list[..i] + list[i + 1..]
      ensures Proper(c)
    {
      assert c in list;
    }
  }

  lemma {:induction false} KeyedInstead(list: seq<Condition>, i: nat, c: Condition)
    requires Keyed(list) && i < |list| && Proper(c) && SameKey(list[i], c)
    ensures Keyed(list[i := c])
  {
    hide Proper;
    forall d | d in list[i := c]
      ensures Proper(d)
    {
      assert d == c || d in list;
    }
  }

  lemma {:induction false} KeyedWith(list: seq<Condition>, c: Condition)
    requires Keyed(list) && Proper(c) && NewKey(list, c)
    ensures Keyed(list + [c])
  {
    hide Proper;
  }

  // Of two speed conditions only the difference counts.
  lemma {:induction false} SpeedsApart(player: bool, c: Condition, c': Condition, row: seq<int>, skills: seq<int>,
                                       stats: seq<int>, speed: int)
    requires c.effect.Speed? && c'.effect.Speed? && |skills| == SKILL_COUNT && |stats| == STAT_COUNT
      && row == Row(speed, skills, stats)
    ensures |Shares(player, c)| == |Shares(player, c')| == |row|
    ensures Plus(Minus(row, Shares(player, c)), Shares(player, c')) ==
      Row(speed + (c'.effect.speedDelta - c.effect.speedDelta), skills, stats)
  {
  }

  lemma {:induction false} NoShare(player: bool, c: Condition, c': Condition, row: seq<int>)
    requires c.effect.Other? && c'.effect.Other? && |row| == MODIFIERS
    ensures |Shares(player, c)| == |Shares(player, c')| == |row|
    ensures Plus(Minus(row, Shares(player, c)), Shares(player, c')) == row
  {
  }

  lemma {:induction false} NegatedIsMinus(a: seq<int>, b: seq<int>)
    requires |a| == |b|
    ensures |Negated(b)| == |b| && Plus(a, Negated(b)) == Minus(a, b)
  {
  }

  function Negated(s: seq<int>): seq<int>
  {
    seq(|s|, i requires 0 <= i < |s| => -s[i])
  }
}
