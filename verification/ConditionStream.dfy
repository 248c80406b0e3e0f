/**
  The program's way of saving and loading conditions: streams that are appended to and advanced, and condition
  objects that take in one property after the other.
 */
module ConditionStream {
  import opened Options
  import opened PropStreams

  import opened ConditionCodec

  method WriteProp(out: PropWriteStream, tag: byte, data: seq<byte>)
    modifies out
    ensures out.buffer == old(out.buffer) + Flat([Prop(tag, data)])
  {
    out.Write([tag]);
    out.Write(data);
  }

  /** Several properties, one after the other. */
  method WriteProps(out: PropWriteStream, props: seq<Prop>)
    modifies out
    ensures out.buffer == old(out.buffer) + Flat(props)
  {
    hide Flat;
    NothingFlat();
    assert props[..|props|] == props;
    for i := 0 to |props|
      invariant out.buffer == old(out.buffer) + Flat(props[..i])
    {
      FlatConcat(props[..i], [props[i]]);
      assert props[..i + 1] == props[..i] + [props[i]];
      WriteProp(out, props[i].tag, props[i].data);
    }
  }

  /** A condition as an object; the fields of its class are those of its body. */
  class ConditionObject {
    var conditionType: uint32
    var id: int
    var ticks: int32
    var isBuff: bool
    var subId: uint32
    var body: Body

    function Value(): Condition
      reads this
    {
      Condition(conditionType, id, ticks, isBuff, subId, body)
    }

    constructor (c: Condition)
      ensures Value() == c
    {
      conditionType, id, ticks, isBuff, subId, body := c.conditionType, c.id, c.ticks, c.isBuff, c.subId, c.body;
    }

    method Serialize(out: PropWriteStream)
      modifies out
      ensures out.buffer == old(out.buffer) + Serialized(Value())
    {
      hide Flat, Word, Signed, BodyProps;
      WriteProps(out, [Prop(TYPE, Word(conditionType)), Prop(ID, Word(ToUInt32(id))), Prop(TICKS, Signed(ticks)),
        Prop(ISBUFF, Flag(isBuff)), Prop(SUBID, Word(subId))]);
      SerializeBody(out);
    }

    /** What the class of the condition adds */
    method SerializeBody(out: PropWriteStream)
      modifies out
      ensures out.buffer == old(out.buffer) + Flat(BodyProps(body))
    {
      hide Flat, Word, Signed, Numbers, Intervals, IntervalBytes;
      match body
      case Generic =>
        NothingFlat();
      case Attributes(skills, stats, _, _) =>
        WriteNumbers(out, SKILLS, skills);
        WriteNumbers(out, STATS, stats);
        FlatConcat(Numbers(SKILLS, skills), Numbers(STATS, stats));
      case Regeneration(ht, hg, mt, mg) =>
        WriteProps(out, [Prop(HEALTHTICKS, Word(ht)), Prop(HEALTHGAIN, Word(hg)), Prop(MANATICKS, Word(mt)),
          Prop(MANAGAIN, Word(mg))]);
      case Soul(gain, soulTicks) =>
        WriteProps(out, [Prop(SOULGAIN, Word(gain)), Prop(SOULTICKS, Word(soulTicks))]);
      case Damage(delayed, period, list) =>
        var first := [Prop(DELAYED, Flag(delayed)), Prop(PERIODDAMAGE, Signed(period))];
        WriteProps(out, first);
        WriteIntervals(out, list);
        FlatConcat(first, Intervals(list));
      case Speed(delta, mina, minb, maxa, maxb) =>
        WriteProps(out, [Prop(SPEEDDELTA, Signed(delta)), Prop(FORMULA_MINA, Word(mina)),
          Prop(FORMULA_MINB, Word(minb)), Prop(FORMULA_MAXA, Word(maxa)), Prop(FORMULA_MAXB, Word(maxb))]);
      case Outfit(outfit) =>
        WriteProps(out, [Prop(OUTFIT, outfit)]);
      case Light(color, level, lightTicks, interval) =>
        WriteProps(out, [Prop(LIGHTCOLOR, Word(color)), Prop(LIGHTLEVEL, Word(level)),
          Prop(LIGHTTICKS, Word(lightTicks)), Prop(LIGHTINTERVAL, Word(interval))]);
    }

    /** Takes in one property; an unknown tag or too few bytes is an error. */
    method UnserializeProp(tag: byte, stream: PropStream) returns (ok: bool)
      requires stream.Valid()
      modifies this, stream
      ensures stream.Valid()
      ensures var c, n := old(Value()), Size(old(body), tag);
        if n.None? || n.value > |old(stream.Rest())| then !ok && stream.Rest() == old(stream.Rest())
        else
          var c' := Apply(c, Prop(tag, old(stream.Rest())[..n.value]));
          ok == c'.Some? && stream.Rest() == old(stream.Rest())[n.value..] && (ok ==> Value() == c'.value)
    {
      var n := Size(body, tag);
      if n.None? {
        return false;
      }
      var bytes;
      ok, bytes := stream.Read(n.value);
      if !ok {
        return;
      }
      if tag == TYPE {
        conditionType := Unword(bytes);
      } else if tag == ID {
        id := ToInt8(Unword(bytes));
      } else if tag == TICKS {
        ticks := Unsigned(bytes);
      } else if tag == ISBUFF {
        isBuff := bytes[0] != 0;
      } else if tag == SUBID {
        subId := Unword(bytes);
      } else {
        ok := TakeIn(tag, bytes);
      }
    }

    /** A property of the condition's own class. */
    method TakeIn(tag: byte, bytes: seq<byte>) returns (ok: bool)
      requires tag !in {TYPE, ID, TICKS, ISBUFF, SUBID} && Size(body, tag) == Some(|bytes|)
      modifies this`body, this`ticks
      ensures var c' := Apply(old(Value()), Prop(tag, bytes)); ok == c'.Some? && (ok ==> Value() == c'.value)
    {
      ok := true;
      match body
      case Attributes(skills, stats, k, n) =>
        if tag == SKILLS && k < |skills| {
          body := Attributes(skills[k := Unsigned(bytes)], stats, k + 1, n);
        } else if tag == STATS && n < |stats| {
          body := Attributes(skills, stats[n := Unsigned(bytes)], k, n + 1);
        } else {
          ok := false;
        }
      case Regeneration(_, _, _, _) =>
        if tag == HEALTHTICKS {
          body := body.(healthTicks := Unword(bytes));
        } else if tag == HEALTHGAIN {
          body := body.(healthGain := Unword(bytes));
        } else if tag == MANATICKS {
          body := body.(manaTicks := Unword(bytes));
        } else {
          body := body.(manaGain := Unword(bytes));
        }
      case Soul(_, _) =>
        if tag == SOULGAIN {
          body := body.(soulGain := Unword(bytes));
        } else {
          body := body.(soulTicks := Unword(bytes));
        }
      case Damage(_, _, list) =>
        if tag == DELAYED {
          body := body.(delayed := bytes[0] != 0);
        } else if tag == PERIODDAMAGE {
          body := body.(periodDamage := Unsigned(bytes));
        } else if tag == INTERVALDATA {
          var damageInfo := Interval(Unsigned(bytes[..4]), Unsigned(bytes[4..8]), Unsigned(bytes[8..]));
          body := body.(damageList := list + [damageInfo]);
          if ticks != -1 {
            ticks := ToInt32(ToUInt32(ticks + damageInfo.interval));
          }
        }
      case Speed(_, _, _, _, _) =>
        if tag == SPEEDDELTA {
          body := body.(speedDelta := Unsigned(bytes));
        } else if tag == FORMULA_MINA {
          body := body.(mina := Unword(bytes));
        } else if tag == FORMULA_MINB {
          body := body.(minb := Unword(bytes));
        } else if tag == FORMULA_MAXA {
          body := body.(maxa := Unword(bytes));
        } else {
          body := body.(maxb := Unword(bytes));
        }
      case Outfit(_) =>
        body := Body.Outfit(bytes);
      case Light(_, _, _, _) =>
        if tag == LIGHTCOLOR {
          body := body.(color := Unword(bytes) % 0x100);
        } else if tag == LIGHTLEVEL {
          body := body.(level := Unword(bytes) % 0x100);
        } else if tag == LIGHTTICKS {
          body := body.(internalLightTicks := Unword(bytes));
        } else {
          body := body.(lightChangeInterval := Unword(bytes));
        }
    }

    /** Takes in the properties up to the end tag. */
    method Unserialize(stream: PropStream) returns (ok: bool)
      requires stream.Valid()
      modifies this, stream
      ensures stream.Valid()
      ensures var r := ReadProps(old(Value()), old(stream.Rest()));
        ok == r.ok && stream.Rest() == r.rest && (ok ==> Value() == r.condition)
    {
      hide Apply, Size, ReadProps;
      ghost var r := ReadProps(Value(), stream.Rest());
      while true
        invariant stream.Valid() && ReadProps(Value(), stream.Rest()) == r
        decreases |stream.Rest()|
      {
        ReadPropsStep(Value(), stream.Rest());
        var more, attr := stream.Read(1);
        if !more || attr[0] == END {
          return true;
        }
        ok := UnserializeProp(attr[0], stream);
        if !ok {
          return;
        }
      }
    }
  }

  // One step of reading properties
  lemma {:induction false} ReadPropsStep(c: Condition, s: seq<byte>)
    ensures s == [] ==> ReadProps(c, s) == Read(true, c, [])
    ensures s != [] && s[0] == END ==> ReadProps(c, s) == Read(true, c, s[1..])
    ensures s != [] && s[0] != END ==>
      var n := Size(c.body, s[0]);
      if n.None? || |s[1..]| < n.value then ReadProps(c, s) == Read(false, c, s[1..])
      else
        var c' := Apply(c, Prop(s[0], s[1..][..n.value]));
        ReadProps(c, s) == if c'.None? then Read(false, c, s[1..][n.value..])
          else ReadProps(c'.value, s[1..][n.value..])
  {
    hide Apply, Size;
    if s != [] && s[0] != END {
      var n := Size(c.body, s[0]);
      if n.Some? && |s[1..]| >= n.value {
        assert s[1..][..n.value] == s[1..1 + n.value] && s[1..][n.value..] == s[1 + n.value..];
      }
    }
  }

  /** A new condition from the five properties at its beginning, or none. */
  method CreateCondition(stream: PropStream) returns (condition: ConditionObject?)
    requires stream.Valid()
    modifies stream
    ensures stream.Valid()
    ensures var made := Create(old(stream.Rest()));
      && (condition == null <==> made.None?)
      && (made.Some? ==>
        fresh(condition) && condition.Value() == made.value && |old(stream.Rest())| >= HEADER
          && stream.Rest() == old(stream.Rest())[HEADER..])
  {
    hide New, Unword, Unsigned, ToInt8;
    condition := null;
    ghost var s := stream.Rest();
    var ok1, conditionType := ReadTagged(stream, TYPE, 4);
    if !ok1 { return; }
    var ok2, id := ReadTagged(stream, ID, 4);
    if !ok2 { return; }
    var ok3, ticks := ReadTagged(stream, TICKS, 4);
    if !ok3 { return; }
    var ok4, buff := ReadTagged(stream, ISBUFF, 1);
    if !ok4 { return; }
    var ok5, subId := ReadTagged(stream, SUBID, 4);
    if !ok5 { return; }
    assert conditionType == s[1..5] && id == s[6..10] && ticks == s[11..15] && buff == s[16..17] && subId == s[18..22];
    var made := New(Unword(conditionType), ToInt8(Unword(id)), Unsigned(ticks), buff[0] != 0, Unword(subId));
    if made.Some? {
      condition := new ConditionObject(made.value);
    }
  }

  method ReadTagged(stream: PropStream, tag: byte, n: nat) returns (ok: bool, bytes: seq<byte>)
    requires stream.Valid()
    modifies stream
    ensures stream.Valid()
    ensures var s := old(stream.Rest());
      && ok == (|s| >= 1 + n && s[0] == tag)
      && (ok ==> bytes == s[1..1 + n] && stream.Rest() == s[1 + n..])
  {
    bytes := [];
    var attr;
    ok, attr := stream.Read(1);
    if !ok || attr[0] != tag {
      return false, [];
    }
    ok, bytes := stream.Read(n);
  }

  /** Writes the persistent conditions of a player. */
  method SaveConditions(conditions: seq<ConditionObject>, out: PropWriteStream)
    modifies out
    ensures out.buffer == old(out.buffer) + Saved(Values(conditions))
  {
    hide Serialized, Saved, Values, IsPersistent;
    assert conditions[0..] == conditions;
    SavedStep([]);
    for i := 0 to |conditions|
      invariant out.buffer + Saved(Values(conditions[i..])) == old(out.buffer) + Saved(Values(conditions))
    {
      assert conditions[i..][1..] == conditions[i + 1..];
      SavedStep(conditions[i..]);
      var condition := conditions[i];
      if IsPersistent(condition.Value()) {
        condition.Serialize(out);
        out.Write([END]);
      }
    }
  }

  lemma {:induction false} SavedStep(list: seq<ConditionObject>)
    ensures if list == [] then Saved(Values(list)) == [] else
      var c := list[0].Value();
      Saved(Values(list)) == (if IsPersistent(c) then Serialized(c) + [END] else []) + Saved(Values(list[1..]))
  {
    hide Serialized;
    if list != [] {
      assert Values(list)[1..] == Values(list[1..]);
    }
  }

  function Values(conditions: seq<ConditionObject>): (r: seq<Condition>)
    reads conditions
    ensures |r| == |conditions|
    decreases |conditions|
  {
    if conditions == [] then [] else [conditions[0].Value()] + Values(conditions[1..])
  }

  /** Loads the conditions of a player; each goes to the front of the list. */
  method LoadConditions(stream: PropStream) returns (storedConditionList: seq<Condition>)
    requires stream.Valid()
    modifies stream
    ensures storedConditionList == Loaded(old(stream.Rest()))
  {
    hide ReadProps, Create, Values, Apply, Size;
    ghost var s := stream.Rest();
    storedConditionList := [];
    var condition := CreateCondition(stream);
    assert condition == null ==> Loaded(s) == [];
    while condition != null
      invariant stream.Valid() && (condition == null || fresh(condition))
      invariant if condition == null then storedConditionList == Loaded(s) else
        var r := ReadProps(condition.Value(), stream.Rest());
        Loaded(r.rest) + (if r.ok then [r.condition] else []) + storedConditionList == Loaded(s)
      decreases condition != null, |stream.Rest()|
    {
      ReadPropsShorter(condition.Value(), stream.Rest());
      var ok := condition.Unserialize(stream);
      if ok {
        storedConditionList := [condition.Value()] + storedConditionList;
      }
      condition := CreateCondition(stream);
    }
  }

  method WriteNumbers(out: PropWriteStream, tag: byte, values: seq<int32>)
    modifies out
    ensures out.buffer == old(out.buffer) + Flat(Numbers(tag, values))
  {
    hide Flat, Signed;
    NoNumbers(tag);
    assert values[..|values|] == values;
    for i := 0 to |values|
      invariant out.buffer == old(out.buffer) + Flat(Numbers(tag, values[..i]))
    {
      NumbersConcat(tag, values[..i], [values[i]]);
      assert values[..i + 1] == values[..i] + [values[i]];
      WriteProp(out, tag, Signed(values[i]));
    }
  }

  method WriteIntervals(out: PropWriteStream, list: seq<Interval>)
    modifies out
    ensures out.buffer == old(out.buffer) + Flat(Intervals(list))
  {
    hide Flat, IntervalBytes;
    NoIntervals();
    assert list[..|list|] == list;
    for i := 0 to |list|
      invariant out.buffer == old(out.buffer) + Flat(Intervals(list[..i]))
    {
      IntervalsConcat(list[..i], [list[i]]);
      assert list[..i + 1] == list[..i] + [list[i]];
      WriteProp(out, INTERVALDATA, IntervalBytes(list[i]));
    }
  }

  lemma {:induction false} NothingFlat()
    ensures Flat([]) == []
  {
  }

  lemma {:induction false} NoNumbers(tag: byte)
    ensures Flat(Numbers(tag, [])) == []
  {
  }

  lemma {:induction false} NoIntervals()
    ensures Flat(Intervals([])) == []
  {
  }

  lemma {:induction false} NumbersConcat(tag: byte, a: seq<int32>, b: seq<int32>)
    ensures Flat(Numbers(tag, a + b)) == Flat(Numbers(tag, a)) + Flat(Numbers(tag, b))
    ensures |b| == 1 ==> Numbers(tag, b) == [Prop(tag, Signed(b[0]))]
  {
    hide Signed;
    if a == [] {
      assert a + b == b;
    } else {
      assert (a + b)[1..] == a[1..] + b;
      NumbersConcat(tag, a[1..], b);
    }
  }

  lemma {:induction false} IntervalsConcat(a: seq<Interval>, b: seq<Interval>)
    ensures Flat(Intervals(a + b)) == Flat(Intervals(a)) + Flat(Intervals(b))
    ensures |b| == 1 ==> Intervals(b) == [Prop(INTERVALDATA, IntervalBytes(b[0]))]
  {
    hide IntervalBytes;
    if a == [] {
      assert a + b == b;
    } else {
      assert (a + b)[1..] == a[1..] + b;
      IntervalsConcat(a[1..], b);
    }
  }
}
